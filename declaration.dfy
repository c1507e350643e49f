/** A single `property: value` declaration and its two renderings. */
module Declarations {
  import opened Indentation

  /** A declaration inside a rule set. */
  datatype Declaration = Declaration(property: string, value: string)

  /** The shortest rendering, `property:value`. */
  function Minified(d: Declaration): (r: string)
    ensures |r| == |d.property| + 1 + |d.value|
    ensures r[|d.property|] == ':'
  {
    d.property + ":" + d.value
  }

  /** The readable rendering, `property: value;`: the minified text with a space
      after the colon and a closing `;`. The style does not matter. */
  function PrettyPrinted(d: Declaration, style: IndentationStyle): (r: string)
    ensures var m := Minified(d);
      r == m[..|d.property| + 1] + " " + m[|d.property| + 1..] + ";"
    ensures |r| == |Minified(d)| + 2
    ensures r[|r| - 1] == ';'
  {
    d.property + ": " + d.value + ";"
  }

  /** The minified rendering adds no `;` of its own: its semicolons are those of
      the property and the value. */
  lemma MinifiedAddsNoSemicolon(d: Declaration)
    ensures multiset(Minified(d))[';'] == multiset(d.property)[';'] + multiset(d.value)[';']
  {
    assert Minified(d) == d.property + [':'] + d.value;
  }

  /** Any two indentation styles give the same readable rendering. */
  lemma PrettyPrintedIgnoresStyle(d: Declaration, style1: IndentationStyle, style2: IndentationStyle)
    ensures PrettyPrinted(d, style1) == PrettyPrinted(d, style2)
  {
  }

  /** The minified rendering loses nothing when the property holds no colon: two
      such declarations with the same rendering are the same declaration. */
  lemma MinifiedInjective(d1: Declaration, d2: Declaration)
    requires ':' !in d1.property && ':' !in d2.property
    requires Minified(d1) == Minified(d2)
    ensures d1 == d2
  {
    var m := Minified(d1);
    var n1, n2 := |d1.property|, |d2.property|;
    assert forall i :: 0 <= i < n1 ==> m[i] == d1.property[i] != ':';
    assert forall i :: 0 <= i < n2 ==> m[i] == d2.property[i] != ':';
    assert n1 == n2;
    assert d1.property == m[..n1] == d2.property;
    assert d1.value == m[n1 + 1..] == d2.value;
  }
}
