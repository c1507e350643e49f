/** Joining a list of pieces with a separator, as Swift's `joined(separator:)`
    does for an array of strings, and the facts about it that the renderers use. */
module Sequences {

  /** The pieces in order, with `sep` between each adjacent pair and nowhere else. */
  function Join<T>(pieces: seq<seq<T>>, sep: seq<T>): seq<T>
    decreases |pieces|
  {
    if |pieces| == 0 then []
    else if |pieces| == 1 then pieces[0]
    else pieces[0] + sep + Join(pieces[1..], sep)
  }

  /** How many separators `Join` places between `n` pieces: max(0, n - 1). */
  function Separators(n: nat): nat
  {
    if n == 0 then 0 else n - 1
  }

  /** The sum of the lengths of the pieces. */
  function TotalLength<T>(pieces: seq<seq<T>>): nat
  {
    if pieces == [] then 0 else |pieces[0]| + TotalLength(pieces[1..])
  }

  /** The number of occurrences of `x` over all the pieces. */
  function TotalCount<T(==)>(pieces: seq<seq<T>>, x: T): nat
  {
    if pieces == [] then 0 else multiset(pieces[0])[x] + TotalCount(pieces[1..], x)
  }

  /** Joining two non-empty lists is joining each and putting one separator between. */
  lemma {:induction false} JoinAppend<T>(a: seq<seq<T>>, b: seq<seq<T>>, sep: seq<T>)
    requires a != [] && b != []
    ensures Join(a + b, sep) == Join(a, sep) + sep + Join(b, sep)
    decreases |a|
  {
    if |a| == 1 {
      assert (a + b)[1..] == b;
    } else {
      assert (a + b)[1..] == a[1..] + b;
      JoinAppend(a[1..], b, sep);
    }
  }

  /** The joined length is the pieces' lengths plus one separator per adjacent pair. */
  lemma {:induction false} JoinLength<T>(pieces: seq<seq<T>>, sep: seq<T>)
    ensures |Join(pieces, sep)| == TotalLength(pieces) + |sep| * Separators(|pieces|)
    decreases |pieces|
  {
    if |pieces| == 1 {
      assert pieces[1..] == [];
    } else if |pieces| > 1 {
      JoinLength(pieces[1..], sep);
      assert |sep| * (|pieces| - 1) == |sep| + |sep| * (|pieces| - 2);
    }
  }

  /** Occurrences of `x` in the pieces joined by `x` itself: those in the pieces
      plus one per separator. */
  lemma {:induction false} JoinCount<T>(pieces: seq<seq<T>>, x: T)
    ensures multiset(Join(pieces, [x]))[x] == TotalCount(pieces, x) + Separators(|pieces|)
    decreases |pieces|
  {
    if |pieces| == 1 {
      assert pieces[1..] == [];
    } else if |pieces| > 1 {
      JoinCount(pieces[1..], x);
    }
  }

  /** The joined text begins with the first piece. */
  lemma {:induction false} JoinFirst<T>(pieces: seq<seq<T>>, sep: seq<T>)
    requires pieces != []
    ensures |pieces[0]| <= |Join(pieces, sep)|
    ensures Join(pieces, sep)[..|pieces[0]|] == pieces[0]
  {
  }

  /** The joined text ends with the last piece. */
  lemma {:induction false} JoinLast<T>(pieces: seq<seq<T>>, sep: seq<T>)
    requires pieces != []
    ensures |pieces[|pieces| - 1]| <= |Join(pieces, sep)|
    ensures Join(pieces, sep)[|Join(pieces, sep)| - |pieces[|pieces| - 1]|..] == pieces[|pieces| - 1]
    decreases |pieces|
  {
    if |pieces| > 1 {
      JoinLast(pieces[1..], sep);
    }
  }

  /** Where piece `k` sits in the join: after the join of the pieces before it and
      one separator (or at the very start when `k` is 0). */
  function JoinOffset<T>(pieces: seq<seq<T>>, sep: seq<T>, k: nat): nat
    requires k <= |pieces|
  {
    if k == 0 then 0 else |Join(pieces[..k], sep)| + |sep|
  }

  /** Piece `k` occurs in the join at its offset: the pieces appear in order. */
  lemma JoinPlaces<T>(pieces: seq<seq<T>>, sep: seq<T>, k: nat)
    requires k < |pieces|
    ensures var start := JoinOffset(pieces, sep, k);
      start + |pieces[k]| <= |Join(pieces, sep)|
      && Join(pieces, sep)[start..start + |pieces[k]|] == pieces[k]
  {
    assert pieces == pieces[..k] + pieces[k..];
    JoinFirst(pieces[k..], sep);
    if k > 0 {
      JoinAppend(pieces[..k], pieces[k..], sep);
    }
  }

  /** Every piece after the first is preceded directly by a separator. */
  lemma JoinSeparatorBefore<T>(pieces: seq<seq<T>>, sep: seq<T>, k: nat)
    requires 0 < k < |pieces|
    ensures var start := JoinOffset(pieces, sep, k);
      start <= |Join(pieces, sep)| && Join(pieces, sep)[start - |sep|..start] == sep
  {
    var front := Join(pieces[..k], sep);
    assert pieces == pieces[..k] + pieces[k..];
    JoinAppend(pieces[..k], pieces[k..], sep);
    assert (front + sep + Join(pieces[k..], sep))[|front|..|front| + |sep|] == sep;
  }

  /** Piece `k` still sits at its offset when the join is framed by a head and a tail. */
  lemma JoinPlacesBetween<T>(head: seq<T>, pieces: seq<seq<T>>, sep: seq<T>, tail: seq<T>, k: nat)
    requires k < |pieces|
    ensures var start := |head| + JoinOffset(pieces, sep, k);
      var whole := head + Join(pieces, sep) + tail;
      start + |pieces[k]| <= |whole| && whole[start..start + |pieces[k]|] == pieces[k]
  {
    var joined := Join(pieces, sep);
    var start := JoinOffset(pieces, sep, k);
    JoinPlaces(pieces, sep, k);
    assert (head + joined + tail)[|head| + start..|head| + start + |pieces[k]|]
        == joined[start..start + |pieces[k]|];
  }

  /** A piece after the first is still preceded by a separator when the join is
      framed by a head and a tail. */
  lemma JoinSeparatorBetween<T>(head: seq<T>, pieces: seq<seq<T>>, sep: seq<T>, tail: seq<T>, k: nat)
    requires 0 < k < |pieces|
    ensures var start := |head| + JoinOffset(pieces, sep, k);
      var whole := head + Join(pieces, sep) + tail;
      start <= |whole| && whole[start - |sep|..start] == sep
  {
    var joined := Join(pieces, sep);
    var start := JoinOffset(pieces, sep, k);
    JoinSeparatorBefore(pieces, sep, k);
    assert (head + joined + tail)[|head| + start - |sep|..|head| + start]
        == joined[start - |sep|..start];
  }

  /** Adding one more piece at the end adds a separator and that piece. */
  lemma JoinSnoc<T>(pieces: seq<seq<T>>, last: seq<T>, sep: seq<T>)
    requires pieces != []
    ensures Join(pieces + [last], sep) == Join(pieces, sep) + sep + last
  {
    JoinAppend(pieces, [last], sep);
  }

  /** A value that occurs in no piece and not in the separator does not occur in the join. */
  lemma {:induction false} JoinExcludes<T>(pieces: seq<seq<T>>, sep: seq<T>, x: T)
    requires x !in sep
    requires forall k :: 0 <= k < |pieces| ==> x !in pieces[k]
    ensures x !in Join(pieces, sep)
    decreases |pieces|
  {
    if |pieces| > 1 {
      JoinExcludes(pieces[1..], sep, x);
    }
  }
}
