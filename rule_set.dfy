/** A selector with its declarations, and the two renderings of it. */
module RuleSets {
  import opened Sequences
  import opened Indentation
  import opened StringExtensions
  import Declarations

  /** The declarations that apply to `selector`, in source order. */
  datatype RuleSet = RuleSet(selector: string, declarations: seq<Declarations.Declaration>)

  /** The minified rendering of each declaration, in order. */
  function MinifiedDeclarations(ds: seq<Declarations.Declaration>): (r: seq<string>)
    ensures |r| == |ds|
    ensures forall k :: 0 <= k < |ds| ==> r[k] == Declarations.Minified(ds[k])
  {
    seq(|ds|, k requires 0 <= k < |ds| => Declarations.Minified(ds[k]))
  }

  /** `selector{d1;d2;...;dn}`: the declarations joined by `;`, with none after the last. */
  function Minified(r: RuleSet): (out: string)
    ensures |r.selector| + 2 <= |out|
    ensures out[..|r.selector| + 1] == r.selector + "{"
    ensures out[|out| - 1] == '}'
  {
    var content := Join(MinifiedDeclarations(r.declarations), ";");
    r.selector + "{" + content + "}"
  }

  /** The lines of a rule set's body: each declaration behind one indent, in order. */
  function BodyLines(r: RuleSet, style: IndentationStyle): (lines: seq<string>)
    ensures |lines| == |r.declarations|
    ensures forall k :: 0 <= k < |lines| ==>
      lines[k] == IndentString(style) + Declarations.PrettyPrinted(r.declarations[k], style)
  {
    seq(|r.declarations|, k requires 0 <= k < |r.declarations| =>
      IndentString(style) + Declarations.PrettyPrinted(r.declarations[k], style))
  }

  /** `selector {`, the indented declarations one per line, and `}` on a line of its own. */
  function PrettyPrinted(r: RuleSet, style: IndentationStyle): (out: string)
    ensures |r.selector| + 5 <= |out|
    ensures out[..|r.selector| + 3] == r.selector + " {\n"
    ensures out[|out| - 2..] == "\n}"
  {
    var content := Join(BodyLines(r, style), "\n");
    r.selector + " {\n" + content + "\n}"
  }

  // ---------------------------------------------------------------------------

  /** The characters of the declarations' minified renderings, added up. */
  function DeclarationsLength(ds: seq<Declarations.Declaration>): nat
  {
    if ds == [] then 0 else |ds[0].property| + 1 + |ds[0].value| + DeclarationsLength(ds[1..])
  }

  /** The `;` characters inside the declarations' own properties and values. */
  function DeclarationsSemicolons(ds: seq<Declarations.Declaration>): nat
  {
    if ds == [] then 0
    else multiset(ds[0].property)[';'] + multiset(ds[0].value)[';'] + DeclarationsSemicolons(ds[1..])
  }

  lemma {:induction false} MinifiedDeclarationsLength(ds: seq<Declarations.Declaration>)
    ensures TotalLength(MinifiedDeclarations(ds)) == DeclarationsLength(ds)
    decreases |ds|
  {
    if ds != [] {
      MinifiedDeclarationsLength(ds[1..]);
      assert MinifiedDeclarations(ds)[1..] == MinifiedDeclarations(ds[1..]);
    }
  }

  lemma {:induction false} MinifiedDeclarationsSemicolons(ds: seq<Declarations.Declaration>)
    ensures TotalCount(MinifiedDeclarations(ds), ';') == DeclarationsSemicolons(ds)
    decreases |ds|
  {
    if ds != [] {
      MinifiedDeclarationsSemicolons(ds[1..]);
      Declarations.MinifiedAddsNoSemicolon(ds[0]);
      assert MinifiedDeclarations(ds)[1..] == MinifiedDeclarations(ds[1..]);
    }
  }

  /** The minified length is the selector, the two braces, every declaration's
      `property:value` and one `;` between each adjacent pair. */
  lemma MinifiedLength(r: RuleSet)
    ensures |Minified(r)| == |r.selector| + 2 + DeclarationsLength(r.declarations) + Separators(|r.declarations|)
  {
    JoinLength(MinifiedDeclarations(r.declarations), ";");
    MinifiedDeclarationsLength(r.declarations);
  }

  /** The `;`-joined declarations hold the declarations' own semicolons and one
      more between each adjacent pair. */
  lemma MinifiedBodySemicolons(ds: seq<Declarations.Declaration>)
    ensures multiset(Join(MinifiedDeclarations(ds), ";"))[';']
         == DeclarationsSemicolons(ds) + Separators(|ds|)
  {
    JoinCount(MinifiedDeclarations(ds), ';');
    MinifiedDeclarationsSemicolons(ds);
  }

  /** The minified text adds exactly max(0, n - 1) semicolons to those already in
      the selector and the declarations: one between each adjacent pair of
      declarations, none after the last. */
  lemma MinifiedSemicolons(r: RuleSet)
    ensures multiset(Minified(r))[';']
         == multiset(r.selector)[';'] + DeclarationsSemicolons(r.declarations) + Separators(|r.declarations|)
  {
    var content := Join(MinifiedDeclarations(r.declarations), ";");
    MinifiedBodySemicolons(r.declarations);
    assert Minified(r) == r.selector + "{" + content + "}";
  }

  /** A non-empty minified body ends with the last declaration's `property:value`,
      so the closing brace follows the last value directly. */
  lemma MinifiedEndsWithLastDeclaration(r: RuleSet)
    requires r.declarations != []
    ensures var last := Declarations.Minified(r.declarations[|r.declarations| - 1]);
      var out := Minified(r);
      |last| + 1 <= |out| && out[|out| - 1 - |last|..|out| - 1] == last
  {
    var ms := MinifiedDeclarations(r.declarations);
    var content := Join(ms, ";");
    JoinLast(ms, ";");
    assert Minified(r)[..|Minified(r)| - 1] == r.selector + "{" + content;
  }

  /** A rule set without declarations renders as `selector{}` and `selector {\n\n}`. */
  lemma EmptyRuleSet(selector: string, style: IndentationStyle)
    ensures Minified(RuleSet(selector, [])) == selector + "{}"
    ensures PrettyPrinted(RuleSet(selector, []), style) == selector + " {\n\n}"
  {
  }

  /** The lines the readable rendering is made of: the selector line, the body
      lines (one empty line when there are none) and the closing brace. */
  function PrettyLines(r: RuleSet, style: IndentationStyle): seq<string>
  {
    [r.selector + " {"] + (if r.declarations == [] then [""] else BodyLines(r, style)) + ["}"]
  }

  lemma PrettyPrintedJoinsLines(r: RuleSet, style: IndentationStyle)
    ensures PrettyPrinted(r, style) == Join(PrettyLines(r, style), "\n")
  {
    var head := r.selector + " {";
    var middle := if r.declarations == [] then [""] else BodyLines(r, style);
    var content := Join(BodyLines(r, style), "\n");
    assert PrettyLines(r, style) == ([head] + middle) + ["}"];
    assert Join(middle, "\n") == content by {
      if r.declarations == [] {
        assert BodyLines(r, style) == [];
      }
    }
    assert Join([head] + middle, "\n") == head + "\n" + content by {
      JoinAppend([head], middle, "\n");
    }
    assert Join(([head] + middle) + ["}"], "\n") == head + "\n" + content + "\n" + "}" by {
      JoinSnoc([head] + middle, "}", "\n");
    }
    assert head + "\n" == r.selector + " {\n";
    assert PrettyPrinted(r, style) == (r.selector + " {\n") + content + "\n}";
  }

  lemma BodyLinesWithoutNewline(r: RuleSet, style: IndentationStyle)
    requires forall k :: 0 <= k < |r.declarations| ==>
      '\n' !in r.declarations[k].property && '\n' !in r.declarations[k].value
    ensures forall k :: 0 <= k < |r.declarations| ==> '\n' !in BodyLines(r, style)[k]
  {
    forall k | 0 <= k < |r.declarations|
      ensures '\n' !in BodyLines(r, style)[k]
    {
      var d := r.declarations[k];
      assert BodyLines(r, style)[k] == IndentString(style) + d.property + ": " + d.value + ";";
    }
  }

  /** When no selector, property or value holds a newline, the readable rendering
      cut at its newlines is: the selector line, one line per declaration (indent,
      then `property: value;`) in order, or one empty line when there are none, and
      the closing brace. */
  lemma PrettyPrintedLines(r: RuleSet, style: IndentationStyle)
    requires '\n' !in r.selector
    requires forall k :: 0 <= k < |r.declarations| ==>
      '\n' !in r.declarations[k].property && '\n' !in r.declarations[k].value
    ensures Pieces(PrettyPrinted(r, style), '\n') == PrettyLines(r, style)
  {
    var lines := PrettyLines(r, style);
    PrettyPrintedJoinsLines(r, style);
    BodyLinesWithoutNewline(r, style);
    assert forall k :: 0 <= k < |lines| ==> '\n' !in lines[k] by {
      forall k | 0 <= k < |lines|
        ensures '\n' !in lines[k]
      {
        if 0 < k < |lines| - 1 && r.declarations != [] {
          assert lines[k] == BodyLines(r, style)[k - 1];
        }
      }
    }
    PiecesOfJoin(lines, '\n');
  }
}
