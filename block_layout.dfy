/** Where the parts of a readable at-block end up: its children in order, each
    indented line by line, with the blank lines inside a child dropped. */
module BlockLayout {
  import opened Sequences
  import opened Indentation
  import opened StringExtensions
  import RuleSets
  import opened Statements

  lemma {:induction false} PrettyChildrenAt(ss: seq<Statement>, style: IndentationStyle, k: nat)
    requires k < |ss|
    ensures PrettyChildren(ss, style)[k] == Indent(PrettyPrinted(ss[k], style), 1, style)
    decreases k
  {
    var first := Indent(PrettyPrinted(ss[0], style), 1, style);
    var rest := PrettyChildren(ss[1..], style);
    assert PrettyChildren(ss, style) == [first] + rest;
    if k > 0 {
      assert PrettyChildren(ss, style)[k] == rest[k - 1];
      PrettyChildrenAt(ss[1..], style, k - 1);
      assert ss[1..][k - 1] == ss[k];
    }
  }

  /** A readable at-block opens with `@`, its identifier and ` {` on a line of their
      own, and closes with `}` on a line of its own. */
  lemma BlockPrettyFrame(b: AtBlock, style: IndentationStyle)
    ensures var r := BlockPrettyPrinted(b, style);
      && r[..|b.identifier| + 4] == "@" + b.identifier + " {\n"
      && r[|r| - 2..] == "\n}"
  {
    var header := "@" + b.identifier + " {\n";
    var content := Join(PrettyChildren(b.statements, style), "\n\n");
    assert BlockPrettyPrinted(b, style) == header + content + "\n}";
    assert (header + content + "\n}")[..|header|] == header;
  }

  /** In text laid out as an at-block, `@id {\n`, a `"\n\n"` join and `\n}`, piece `k`
      sits at its join offset after the header, and after the first piece two
      newlines come right before it. */
  lemma FramedPieceAt(r: string, id: string, pieces: seq<string>, k: nat)
    requires k < |pieces|
    requires r == "@" + id + " {\n" + Join(pieces, "\n\n") + "\n}"
    ensures var start := |id| + 4 + JoinOffset(pieces, "\n\n", k);
      start + |pieces[k]| <= |r| && r[start..start + |pieces[k]|] == pieces[k]
    ensures 0 < k ==> var start := |id| + 4 + JoinOffset(pieces, "\n\n", k);
      r[start - 2..start] == "\n\n"
  {
    var header := "@" + id + " {\n";
    assert |header| == |id| + 4;
    JoinPlacesBetween(header, pieces, "\n\n", "\n}", k);
    if 0 < k {
      JoinSeparatorBetween(header, pieces, "\n\n", "\n}", k);
    }
  }

  /** Inside the braces of a readable at-block `r`, the rendered children `pieces`
      (child k is the indented readable text of statement k, by `PrettyChildrenAt`)
      appear in source order: child k starts after the header, the children before
      it and one `"\n\n"` each, and every child after the first is preceded by
      that blank line. */
  lemma BlockPrettyPlacesChild(b: AtBlock, style: IndentationStyle, k: nat, r: string, pieces: seq<string>)
    requires k < |b.statements|
    requires r == BlockPrettyPrinted(b, style)
    requires pieces == PrettyChildren(b.statements, style)
    ensures var start := |b.identifier| + 4 + JoinOffset(pieces, "\n\n", k);
      && start + |pieces[k]| <= |r|
      && r[start..start + |pieces[k]|] == pieces[k]
      && (0 < k ==> r[start - 2..start] == "\n\n")
  {
    FramedPieceAt(r, b.identifier, pieces, k);
  }

  /** The children of an at-block are its readable renderings indented line by
      line: child k's text, cut at newlines, is the child's own non-empty lines,
      each behind one indent and in order. Any blank line the child had (the
      inside of an empty rule set, the gaps between a nested block's children) is
      gone, and every newline in it is followed by the indent and a non-newline. */
  lemma NestedChild(b: AtBlock, style: IndentationStyle, k: nat)
    requires k < |b.statements|
    ensures var piece := PrettyChildren(b.statements, style)[k];
      var own := Split(PrettyPrinted(b.statements[k], style), '\n');
      && Split(piece, '\n') == Prefixed(own, IndentString(style))
      && (forall i :: 0 <= i < |piece| && piece[i] == '\n' ==> LineBeginsWith(piece, i + 1, IndentString(style)))
      && (forall i :: 0 <= i < |piece| - 1 && piece[i] == '\n' ==> piece[i + 1] != '\n')
  {
    var child := PrettyPrinted(b.statements[k], style);
    PrettyChildrenAt(b.statements, style, k);
    SplitEmpty(child, '\n');
    IndentLines(child, 1, style);
    IndentNoBlankLines(child, 1, style);
  }

  /** An at-block with a single child has no blank-line separator: the child's
      indented text sits alone between the header and the closing brace. */
  lemma SingleChildBlock(identifier: string, child: Statement, style: IndentationStyle)
    ensures BlockPrettyPrinted(AtBlock(identifier, [child]), style)
         == "@" + identifier + " {\n" + PrettyChildren([child], style)[0] + "\n}"
  {
    var x := PrettyChildren([child], style)[0];
    assert PrettyChildren([child], style) == [x];
    assert Join([x], "\n\n") == x;
  }

  /** An empty rule set, indented as an at-block's child: two lines, no blank one. */
  lemma EmptyRuleSetChild(selector: string, style: IndentationStyle)
    requires '\n' !in selector
    ensures var indent := IndentString(style);
      var head := selector + " {";
      PrettyChildren([RuleSetStatement(RuleSets.RuleSet(selector, []))], style)
        == [indent + head + "\n" + indent + "}"]
  {
    var head := selector + " {";
    RuleSets.EmptyRuleSet(selector, style);
    assert PrettyPrinted(RuleSetStatement(RuleSets.RuleSet(selector, [])), style) == head + "\n\n" + "}";
    IndentDropsBlankLine(head, "}", style);
  }

  /** An empty rule set is written `selector {`, a blank line and `}` at the top
      level, but inside an at-block its blank line is gone: indentation keeps only
      the two non-empty lines. */
  lemma NestedEmptyRuleSet(identifier: string, selector: string, style: IndentationStyle)
    requires '\n' !in selector
    ensures var indent := IndentString(style);
      var block := AtBlock(identifier, [RuleSetStatement(RuleSets.RuleSet(selector, []))]);
      var child := indent + (selector + " {") + "\n" + indent + "}";
      BlockPrettyPrinted(block, style) == "@" + identifier + " {\n" + child + "\n}"
  {
    EmptyRuleSetChild(selector, style);
    SingleChildBlock(identifier, RuleSetStatement(RuleSets.RuleSet(selector, [])), style);
  }
}
