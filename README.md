# swift-css-parser: the CSS document model and its two renderers

This project models, in Dafny, the document model of the Swift CSS parser and the
two ways it renders that model back to text:

- a **minified** rendering with no insignificant whitespace;
- a **readable** ("pretty printed") rendering with a configurable indent.

It covers the document types `Declaration`, `RuleSet`, `Statement` and `AtBlock`
(the last two are mutually recursive). It also covers the `indent(by:with:)`
string extension, the `IndentationStyle` type, and the C shim routine
`css_parser_get_error`, which packs the parser's error messages into one
NUL-terminated buffer.

Files, one module each:

- `sequences.dfy` (`Sequences`): `Join`, the model of Swift's `joined(separator:)`, with its length, count and placement lemmas.
- `indentation.dfy` (`Indentation`): `IndentationStyle` and the text of one indent.
- `string_extensions.dfy` (`StringExtensions`): the string extension, with reference functions and lemmas. Two of its functions model the source.
  - `Split` models `split(separator:)` with its defaults, so empty pieces are dropped. It is proved against `Pieces`, a reference split that keeps them.
  - `Indent` models `indent(by:with:)`.
- `declaration.dfy` (`Declarations`), `rule_set.dfy` (`RuleSets`): the leaf types and their renderers.
- `statement.dfy` (`Statements`): `Statement` and `AtBlock` with their renderers, mutually recursive.
- `block_layout.dfy` (`BlockLayout`): where a readable at-block puts its children.
- `error_buffer.dfy` (`ErrorBuffer`): `css_parser_get_error` as a method that fills an array in loops.
- `examples_rendering.dfy` (`RenderingExamples`): small documents rendered in full.

Every renderer is a total function on a finite tree, so it is a Dafny `function`.
`css_parser_get_error` allocates a buffer and fills it in place, so it is a `method` over an
`array<Byte>` with loop invariants. Its result is tied to `Join`.

One behaviour of the Swift code is worth stating up front. `indent` splits with
`split(separator:)`, which drops empty pieces. So any blank line in a child's
readable text disappears once that child sits inside an at-block. This affects
the inside of an empty rule set and the blank lines between a nested block's
children. The model keeps this behaviour. `BlockLayout.NestedChild` proves it in
general, and `BlockLayout.NestedEmptyRuleSet` states it for an empty rule set.

## Model

| member | source | states |
|---|---|---|
| `Sequences.Join` | Sources/SwiftCSSParser/RuleSet.swift:20-22 | Swift's `joined(separator:)`: the pieces in order with the separator between adjacent pieces. Its properties are the `Join` lemmas below. |
| `Sequences.JoinLength` | Sources/SwiftCSSParser/RuleSet.swift:20-22 | The joined length is the pieces' total length plus one separator for each of max(0, n-1) gaps. |
| `Sequences.JoinAppend` | Sources/SwiftCSSParser/AtBlock.swift:21-25 | Joining two non-empty lists joins each and puts one separator between them. |
| `Sequences.JoinCount` | Sources/SwiftCSSParser/RuleSet.swift:20-22 | With a one-element separator, that element occurs in the join as often as in the pieces, plus max(0, n-1). |
| `Sequences.JoinPlaces` | Sources/SwiftCSSParser/AtBlock.swift:21-25 | Piece k sits in the join at its offset, so the pieces appear in order. |
| `Sequences.JoinSeparatorBefore` | Sources/SwiftCSSParser/AtBlock.swift:21-25 | Every piece after the first is directly preceded by the separator. |
| `Sequences.JoinExcludes` | Sources/CCSSParser/CCSSParser.cpp:51-60 | A value absent from the separator and from every piece is absent from the join. |
| `Indentation.IndentString` | Sources/SwiftCSSParser/IndentationStyle.swift:7-14 | `.tabs` gives exactly `"\t"`. `.spaces(n)` gives a string of length n whose characters are all spaces. No indent ever contains a newline. |
| `Indentation.Repeat` | Sources/SwiftCSSParser/IndentationStyle.swift:12 | `String(repeating:count:)` gives exactly n copies of the character. |
| `StringExtensions.FirstIndex` | Sources/SwiftCSSParser/Extensions/String.swift:9 | Gives the first position of the separator, or the length when there is none. No earlier character is the separator. |
| `StringExtensions.Split` | Sources/SwiftCSSParser/Extensions/String.swift:9 | Every piece `split` returns is non-empty and free of the separator. |
| `StringExtensions.SplitIsNonEmptyPieces` | Sources/SwiftCSSParser/Extensions/String.swift:9 | `split` returns exactly the non-empty pieces between separators, in order. This is checked against a reference split that keeps empty pieces. |
| `StringExtensions.JoinPieces` | Sources/SwiftCSSParser/Extensions/String.swift:9 | Joining the reference pieces with the separator rebuilds the text. |
| `StringExtensions.PiecesOfJoin` | Sources/SwiftCSSParser/Extensions/String.swift:9 | Cutting a join of separator-free pieces at the separator gives back the pieces. |
| `StringExtensions.SplitOfJoin` | Sources/SwiftCSSParser/Extensions/String.swift:9 | `split` undoes `joined` for non-empty, separator-free pieces. |
| `StringExtensions.SplitEmpty` | Sources/SwiftCSSParser/Extensions/String.swift:9 | `split` gives no pieces exactly when the text is made only of separators. |
| `StringExtensions.Indent` | Sources/SwiftCSSParser/Extensions/String.swift:7-10 | The indented text is never shorter than one indent. |
| `StringExtensions.IndentStartsWithIndent` | Sources/SwiftCSSParser/Extensions/String.swift:8-9 | The indented text always begins with one indent. |
| `StringExtensions.IndentIgnoresCount` | Sources/SwiftCSSParser/Extensions/String.swift:7-9 | The result does not depend on `count`, which is never used. |
| `StringExtensions.IndentEmpty` | Sources/SwiftCSSParser/Extensions/String.swift:8-9 | Text with no line in it, empty or made only of newlines, indents to exactly one indent. |
| `StringExtensions.SplitDropsBlankLine` | Sources/SwiftCSSParser/Extensions/String.swift:9 | Two lines with a blank line between them split into just those two lines. |
| `StringExtensions.IndentDropsBlankLine` | Sources/SwiftCSSParser/Extensions/String.swift:7-10 | Indenting two lines with a blank line between them indents both and drops the blank line. |
| `StringExtensions.IndentSingleLine` | Sources/SwiftCSSParser/Extensions/String.swift:9 | A non-empty string without a newline indents to the indent followed by the string. |
| `StringExtensions.IndentedJoin` | Sources/SwiftCSSParser/Extensions/String.swift:9 | An indent in front plus a `"\n" + indent` separator equals indenting each line and joining with `"\n"`. |
| `StringExtensions.IndentLines` | Sources/SwiftCSSParser/Extensions/String.swift:9 | The result is the input's non-empty lines, each behind one indent, joined by newlines. Splitting the result and removing each indent gives back those lines, in order. |
| `StringExtensions.NewlinesFollowedBy` | Sources/SwiftCSSParser/Extensions/String.swift:9 | Take lines that each start with a prefix and then at least one more character, and contain no newline. In their newline join, every newline is followed by the prefix and then a non-newline. |
| `StringExtensions.IndentNoBlankLines` | Sources/SwiftCSSParser/Extensions/String.swift:9 | Every newline in the result is followed by one indent and then a non-newline character. So the result never contains two newlines in a row, whatever the input. |
| `Declarations.Minified` | Sources/SwiftCSSParser/Declaration.swift:19-21 | The minified declaration has length \|property\| + 1 + \|value\|, with the colon right after the property. |
| `Declarations.PrettyPrinted` | Sources/SwiftCSSParser/Declaration.swift:26-28 | The readable form is the minified form plus a space after the colon and a final `;`. So it is exactly 2 longer and always ends in `;`. |
| `Declarations.MinifiedAddsNoSemicolon` | Sources/SwiftCSSParser/Declaration.swift:19-21 | The minified form adds no `;`. Its semicolons are exactly those in the property and the value. |
| `Declarations.PrettyPrintedIgnoresStyle` | Sources/SwiftCSSParser/Declaration.swift:26-28 | Any two indentation styles give the same readable declaration. |
| `Declarations.MinifiedInjective` | Sources/SwiftCSSParser/Declaration.swift:19-21 | If neither property contains a colon, equal minified texts mean equal declarations. |
| `RuleSets.MinifiedDeclarations` | Sources/SwiftCSSParser/RuleSet.swift:20-22 | Declaration k's minified text is at position k, with one entry per declaration. |
| `RuleSets.Minified` | Sources/SwiftCSSParser/RuleSet.swift:19-28 | The minified rule set starts with `selector + "{"` and ends with `}`. |
| `RuleSets.BodyLines` | Sources/SwiftCSSParser/RuleSet.swift:34-36 | Line k of the body is one indent followed by declaration k's readable form, in source order. |
| `RuleSets.PrettyPrinted` | Sources/SwiftCSSParser/RuleSet.swift:33-42 | The readable rule set starts with `selector + " {\n"` and ends with `"\n}"`. |
| `RuleSets.MinifiedDeclarationsLength` | Sources/SwiftCSSParser/RuleSet.swift:20-22 | The minified declarations' lengths add up to the sum of \|property\| + 1 + \|value\|. |
| `RuleSets.MinifiedDeclarationsSemicolons` | Sources/SwiftCSSParser/RuleSet.swift:20-22 | The minified declarations hold exactly the semicolons of their properties and values. |
| `RuleSets.MinifiedLength` | Sources/SwiftCSSParser/RuleSet.swift:19-27 | The minified length is \|selector\| + 2 + the sum of (\|property\| + 1 + \|value\|) + max(0, n-1). |
| `RuleSets.MinifiedBodySemicolons` | Sources/SwiftCSSParser/RuleSet.swift:20-22 | The `;`-joined body adds exactly max(0, n-1) semicolons to those in the declarations. |
| `RuleSets.MinifiedSemicolons` | Sources/SwiftCSSParser/RuleSet.swift:19-27 | In the whole minified rule set, the only semicolons besides those in the selector and declarations are the max(0, n-1) separators. There is no trailing `;`. |
| `RuleSets.MinifiedEndsWithLastDeclaration` | Sources/SwiftCSSParser/RuleSet.swift:20-27 | With at least one declaration, the closing `}` comes right after the last declaration's `property:value`. |
| `RuleSets.EmptyRuleSet` | Sources/SwiftCSSParser/RuleSet.swift:19-41 | A rule set with no declarations renders as `selector{}` and `selector {\n\n}`. |
| `RuleSets.PrettyPrintedJoinsLines` | Sources/SwiftCSSParser/RuleSet.swift:33-41 | The readable rule set is the newline join of three parts: the selector line, the body lines (or one empty line), and `}`. |
| `RuleSets.BodyLinesWithoutNewline` | Sources/SwiftCSSParser/RuleSet.swift:34-36 | If no property or value contains a newline, no body line does either. |
| `RuleSets.PrettyPrintedLines` | Sources/SwiftCSSParser/RuleSet.swift:33-41 | Assume no selector, property or value contains a newline. Cutting the readable text at newlines gives the selector line, then one indented `property: value;` line per declaration in order (or one empty line when there are none), then `}`. |
| `Statements.Minified` | Sources/SwiftCSSParser/Statement.swift:11-24 | Every minified statement ends in `;` (`@charset`, `@import`, `@namespace`) or `}` (at-block, rule set). Every statement except a rule set begins with `@`. |
| `Statements.PrettyPrinted` | Sources/SwiftCSSParser/Statement.swift:29-42 | For the three single-line at-rules, the readable form equals the minified form under every style. Readable statements end in `;` or `}` like the minified ones. |
| `Statements.BlockMinified` | Sources/SwiftCSSParser/AtBlock.swift:10-15 | The minified at-block starts with `"@" + identifier + "{"` and ends with `}`. |
| `Statements.BlockPrettyPrinted` | Sources/SwiftCSSParser/AtBlock.swift:20-31 | The readable at-block starts with `@`, ends with `}` and is at least six characters longer than its identifier. |
| `Statements.MinifiedAll` | Sources/SwiftCSSParser/AtBlock.swift:11-13 | The children's minified renderings run together with no separator. Its contract is stated by `MinifiedAllAppend`, `MinifiedAllLength` and `MinifiedAllPlacesChild`. |
| `Statements.PrettyChildren` | Sources/SwiftCSSParser/AtBlock.swift:21-24 | One rendered child per statement, in order. `BlockLayout.PrettyChildrenAt` states that child k is statement k's readable text indented by one level. |
| `Statements.MinifiedAllAppend` | Sources/SwiftCSSParser/AtBlock.swift:11-13 | The minified content of s1 ++ s2 is the content of s1 followed by the content of s2. |
| `Statements.MinifiedAllLength` | Sources/SwiftCSSParser/AtBlock.swift:11-13 | The minified content is as long as the children's minified texts combined. |
| `Statements.BlockMinifiedLength` | Sources/SwiftCSSParser/AtBlock.swift:10-15 | The minified length is \|identifier\| + 3 + the sum of the children's minified lengths. |
| `Statements.MinifiedAllPlacesChild` | Sources/SwiftCSSParser/AtBlock.swift:11-13 | Child k's minified text starts right after the texts of the children before it, with no separator, in source order. |
| `Statements.EmptyBlock` | Sources/SwiftCSSParser/AtBlock.swift:10-31 | An at-block with no statements renders as `@identifier{}` and `@identifier {\n\n}`. |
| `BlockLayout.BlockPrettyFrame` | Sources/SwiftCSSParser/AtBlock.swift:20-31 | The readable at-block starts with `"@" + identifier + " {\n"` and ends with `"\n}"`. |
| `BlockLayout.PrettyChildrenAt` | Sources/SwiftCSSParser/AtBlock.swift:21-25 | Rendered child k is `child.prettyPrinted(with:).indent(by: 1, with:)`. |
| `BlockLayout.FramedPieceAt` | Sources/SwiftCSSParser/AtBlock.swift:25-29 | In any text made of `"@" + id + " {\n"`, a `"\n\n"` join and `"\n}"`, piece k sits at its join offset after the header, with `"\n\n"` right before it when k > 0. |
| `BlockLayout.BlockPrettyPlacesChild` | Sources/SwiftCSSParser/AtBlock.swift:21-30 | In the readable at-block, rendered child k starts after the `"@" + identifier + " {\n"` header, the children before it and one `"\n\n"` each. Every child after the first is directly preceded by `"\n\n"`. |
| `BlockLayout.SingleChildBlock` | Sources/SwiftCSSParser/AtBlock.swift:20-31 | An at-block with one child renders as the header, that child's indented text and `\n}`, with no separator. |
| `BlockLayout.EmptyRuleSetChild` | Sources/SwiftCSSParser/AtBlock.swift:21-25 | An empty rule set indented as a child is two lines, the indent with `selector {` and the indent with `}`. |
| `BlockLayout.NestedEmptyRuleSet` | Sources/SwiftCSSParser/AtBlock.swift:20-31 | An empty rule set nested in an at-block renders as `@identifier {`, the indent with `selector {`, the indent with `}`, then `}`. The blank line it has at the top level is gone. |
| `BlockLayout.NestedChild` | Sources/SwiftCSSParser/AtBlock.swift:21-25 | A nested child's rendering is its own non-empty lines, each behind one indent, in order. Every newline in it is followed by the indent and a non-newline, so it never contains a blank line. |
| `ErrorBuffer.Terminated` | Sources/CCSSParser/CCSSParser.cpp:44-57 | Writing every message followed by a newline takes exactly `error_length` bytes: the sum of (length + 1). |
| `ErrorBuffer.TerminatedIsJoin` | Sources/CCSSParser/CCSSParser.cpp:51-57 | The copy loop's output is the messages joined by `'\n'`, plus one final newline. |
| `ErrorBuffer.TerminatedStep` | Sources/CCSSParser/CCSSParser.cpp:45-56 | One more message adds its length plus one to `error_length`, and its bytes and a newline to what the copy loop writes. |
| `ErrorBuffer.BufferLengthPrefix` | Sources/CCSSParser/CCSSParser.cpp:44-57 | Before message i is copied, the running offset plus that message and its newline still fits in `error_length`. So every write stays in bounds. |
| `ErrorBuffer.Copy` | Sources/CCSSParser/CCSSParser.cpp:53 | `memcpy` puts the source bytes at the offset and leaves the rest of the buffer unchanged. |
| `ErrorBuffer.GetError` | Sources/CCSSParser/CCSSParser.cpp:37-63 | Returns NULL exactly when there are no messages. Otherwise the buffer has `error_length` bytes and holds the messages joined by `'\n'`, then a 0 where the last newline was. Loop invariant: before iteration i, `current_index` is the sum of (length + 1) over earlier messages and the buffer holds them. |
| `ErrorBuffer.CStringLength` | Sources/CCSSParser/CCSSParser.cpp:59-60 | If no message contains a zero byte, the joined messages contain none either, so the final 0 is the string's terminator. |
| `RenderingExamples.MinifiedRuleSet` | Sources/SwiftCSSParser/RuleSet.swift:19-27 | `div` with `color: blue` minifies to `div{color:blue}`. |
| `RenderingExamples.MinifiedTwoDeclarations` | Sources/SwiftCSSParser/RuleSet.swift:19-27 | Two declarations minify to `p{a:1;b:2}`: one separator and no trailing `;`. |

## Left out

- Parsing is not part of this model. `Stylesheet.parse(from:)` (Sources/SwiftCSSParser/Stylesheet.swift:4-10) only hands the text to the C++ library's dump routine and returns an empty `Stylesheet`. `Stylesheet` has no statements, so there is no parser and no stylesheet-level renderer to model.
- The rest of the C shim is not modelled: `css_parser_create`, `css_parser_destroy`, `css_parser_set_level`, `css_parser_parse_css`, `css_parser_get_next_token` and `css_token_free`. They are casts around the C++ `CSSParser` class, which is not part of this model, plus `malloc`/`free` bookkeeping. Note that `css_parser_get_next_token` allocates `length` bytes and then writes the terminator at index `length`, one past the end (Sources/CCSSParser/CCSSParser.cpp:68-70).
- `Token`, `TokenType`, `ParsingError` and `CCSSParser.h` only declare types. They have no behaviour to prove. The example program, the test and `Package.swift` are out of scope.
- `Equatable` conformance is Dafny's built-in datatype equality.
- Strings are modelled as sequences of `char`. A Swift `Character` is a grapheme cluster, so `"\r\n"` is one `Character` that `split(separator: "\n")` does not split. In this model that pair is split at the line feed.
- `Indentation.IndentString`: a negative `.spaces(n)` traps at run time in `String(repeating:count:)`. The model makes the count a `nat`, so that case cannot be written.
- `ErrorBuffer.GetError`: the contract does not say that the returned array is freshly allocated, which `malloc` guarantees. Also not modelled: `malloc` returning NULL (the source does not check for it), `size_t` overflow of `error_length`, and the `int`/`size_t` mix in the loop counters.
- `ErrorBuffer.GetError`: messages are taken as a sequence of byte strings. Getting them from the C++ parser (`get_parse_errors`) is not modelled.
