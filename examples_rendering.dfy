/** Renderings of small documents, worked out in full. */
module RenderingExamples {
  import Sequences
  import Declarations
  import RuleSets

  /** `div { color: blue; }` minifies to `div{color:blue}`. */
  lemma MinifiedRuleSet()
    ensures RuleSets.Minified(RuleSets.RuleSet("div", [Declarations.Declaration("color", "blue")]))
         == "div{color:blue}"
  {
  }

  /** Two declarations are separated by one `;` and none follows the last. */
  lemma MinifiedTwoDeclarations()
    ensures RuleSets.Minified(RuleSets.RuleSet("p", [
              Declarations.Declaration("a", "1"), Declarations.Declaration("b", "2")]))
         == "p{a:1;b:2}"
  {
    var ms := RuleSets.MinifiedDeclarations([
      Declarations.Declaration("a", "1"), Declarations.Declaration("b", "2")]);
    assert ms[0] == "a:1" && ms[1] == "b:2";
    assert ms[1..] == ["b:2"];
    assert Sequences.Join(ms, ";") == "a:1;b:2";
  }
}
