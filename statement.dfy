/** CSS statements and at-blocks. An at-block holds statements and a statement can
    be an at-block, so the two types and their renderers live together here. */
module Statements {
  import opened Sequences
  import opened Indentation
  import opened StringExtensions
  import RuleSets

  /** A CSS statement: one of three single-line at-rules, an at-block or a rule set. */
  datatype Statement =
    | CharsetRule(text: string)
    | ImportRule(text: string)
    | NamespaceRule(text: string)
    | AtBlockStatement(block: AtBlock)
    | RuleSetStatement(ruleSet: RuleSets.RuleSet)

  /** An at-block such as `@media`: its identifier without the `@`, and its statements. */
  datatype AtBlock = AtBlock(identifier: string, statements: seq<Statement>)

  /** A statement that is one of the single-line at-rules. */
  predicate IsLeaf(s: Statement)
  {
    s.CharsetRule? || s.ImportRule? || s.NamespaceRule?
  }

  // ---------------------------------------------------------------------------
  // Minified rendering

  /** The shortest rendering of a statement. At-rules end with `;`, blocks and rule
      sets with `}`; everything except a rule set begins with `@`. */
  function Minified(s: Statement): (r: string)
    ensures |r| >= 2
    ensures r[|r| - 1] == if IsLeaf(s) then ';' else '}'
    ensures !s.RuleSetStatement? ==> r[0] == '@'
    decreases s
  {
    match s
    case CharsetRule(t) => "@charset " + t + ";"
    case ImportRule(t) => "@import " + t + ";"
    case NamespaceRule(t) => "@namespace " + t + ";"
    case AtBlockStatement(b) => BlockMinified(b)
    case RuleSetStatement(rs) => RuleSets.Minified(rs)
  }

  /** The statements' minified renderings run together with no separator. */
  function MinifiedAll(ss: seq<Statement>): (r: string)
    decreases ss
  {
    if ss == [] then "" else Minified(ss[0]) + MinifiedAll(ss[1..])
  }

  /** `@identifier{...}` with the children's minified renderings run together inside. */
  function BlockMinified(b: AtBlock): (r: string)
    ensures |r| >= |b.identifier| + 3
    ensures r[..|b.identifier| + 2] == "@" + b.identifier + "{"
    ensures r[|r| - 1] == '}'
    decreases b
  {
    "@" + b.identifier + "{" + MinifiedAll(b.statements) + "}"
  }

  // ---------------------------------------------------------------------------
  // Readable rendering

  /** The readable rendering of a statement. The single-line at-rules read the same
      as when minified, and end with `;`; blocks and rule sets end with `}`. */
  function PrettyPrinted(s: Statement, style: IndentationStyle): (r: string)
    ensures IsLeaf(s) ==> r == Minified(s)
    ensures |r| >= 2
    ensures r[|r| - 1] == if IsLeaf(s) then ';' else '}'
    decreases s
  {
    match s
    case CharsetRule(t) => "@charset " + t + ";"
    case ImportRule(t) => "@import " + t + ";"
    case NamespaceRule(t) => "@namespace " + t + ";"
    case AtBlockStatement(b) => BlockPrettyPrinted(b, style)
    case RuleSetStatement(rs) => RuleSets.PrettyPrinted(rs, style)
  }

  /** Each statement's readable rendering indented by one level, in order. */
  function PrettyChildren(ss: seq<Statement>, style: IndentationStyle): (r: seq<string>)
    ensures |r| == |ss|
    decreases ss
  {
    if ss == [] then []
    else [Indent(PrettyPrinted(ss[0], style), 1, style)] + PrettyChildren(ss[1..], style)
  }

  /** `@identifier {`, the indented children separated by blank lines, and `}`. */
  function BlockPrettyPrinted(b: AtBlock, style: IndentationStyle): (r: string)
    ensures |r| >= |b.identifier| + 6
    ensures r[0] == '@' && r[|r| - 1] == '}'
    decreases b
  {
    var content := Join(PrettyChildren(b.statements, style), "\n\n");
    "@" + b.identifier + " {\n" + content + "\n}"
  }

  // ---------------------------------------------------------------------------
  // Properties of the minified rendering

  /** The sum of the children's minified lengths. */
  function MinifiedLengths(ss: seq<Statement>): nat
  {
    if ss == [] then 0 else |Minified(ss[0])| + MinifiedLengths(ss[1..])
  }

  /** Running statements together distributes over concatenation of the lists. */
  lemma {:induction false} MinifiedAllAppend(ss1: seq<Statement>, ss2: seq<Statement>)
    ensures MinifiedAll(ss1 + ss2) == MinifiedAll(ss1) + MinifiedAll(ss2)
    decreases |ss1|
  {
    if ss1 == [] {
      assert ss1 + ss2 == ss2;
    } else {
      assert (ss1 + ss2)[1..] == ss1[1..] + ss2;
      MinifiedAllAppend(ss1[1..], ss2);
    }
  }

  lemma {:induction false} MinifiedAllLength(ss: seq<Statement>)
    ensures |MinifiedAll(ss)| == MinifiedLengths(ss)
    decreases |ss|
  {
    if ss != [] {
      MinifiedAllLength(ss[1..]);
    }
  }

  /** A minified at-block is its identifier, `@`, two braces and its children. */
  lemma BlockMinifiedLength(b: AtBlock)
    ensures |BlockMinified(b)| == |b.identifier| + 3 + MinifiedLengths(b.statements)
  {
    MinifiedAllLength(b.statements);
  }

  /** The children's renderings follow one another inside the braces, in order:
      child k starts right after the renderings of the children before it. */
  lemma {:induction false} MinifiedAllPlacesChild(ss: seq<Statement>, k: nat)
    requires k < |ss|
    ensures var start := |MinifiedAll(ss[..k])|;
      var child := Minified(ss[k]);
      start + |child| <= |MinifiedAll(ss)| && MinifiedAll(ss)[start..start + |child|] == child
  {
    assert ss == ss[..k] + ss[k..];
    MinifiedAllAppend(ss[..k], ss[k..]);
    assert MinifiedAll(ss[k..]) == Minified(ss[k]) + MinifiedAll(ss[k + 1..]);
  }

  /** An empty at-block renders as `@identifier{}` and `@identifier {\n\n}`. */
  lemma EmptyBlock(identifier: string, style: IndentationStyle)
    ensures BlockMinified(AtBlock(identifier, [])) == "@" + identifier + "{}"
    ensures BlockPrettyPrinted(AtBlock(identifier, []), style) == "@" + identifier + " {\n\n}"
  {
  }
}
