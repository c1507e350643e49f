/** The indentation styles of the pretty printer and the text of one indent. */
module Indentation {

  /** One indent is a tab, or `count` spaces. Swift's `String(repeating:count:)`
      traps on a negative count, so the count is a `nat` here. */
  datatype IndentationStyle = Tabs | Spaces(count: nat)

  /** `n` copies of `c`, as `String(repeating:count:)`. */
  function Repeat(c: char, n: nat): (r: string)
    ensures |r| == n
    ensures forall i :: 0 <= i < n ==> r[i] == c
  {
    if n == 0 then [] else [c] + Repeat(c, n - 1)
  }

  /** The text of a single indent in `style` (the `string` property). It never
      holds a newline, which line-wise indentation relies on. */
  function IndentString(style: IndentationStyle): (r: string)
    ensures style.Tabs? ==> r == "\t"
    ensures style.Spaces? ==> |r| == style.count && forall i :: 0 <= i < |r| ==> r[i] == ' '
    ensures '\n' !in r
  {
    match style
    case Tabs => "\t"
    case Spaces(n) => Repeat(' ', n)
  }
}
