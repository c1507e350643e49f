/** Splitting text into lines and indenting it line by line (the `indent(by:with:)`
    extension on `String`). Swift's `split(separator:)` with its default arguments
    drops empty pieces; `Pieces` keeps them and serves as the reference that `Split`
    is proved against. */
module StringExtensions {
  import opened Sequences
  import opened Indentation

  /** The position of the first `c` in `s`, or `|s|` when there is none. */
  function FirstIndex(s: string, c: char): (n: nat)
    ensures n <= |s|
    ensures forall i :: 0 <= i < n ==> s[i] != c
    ensures n < |s| ==> s[n] == c
  {
    if |s| == 0 || s[0] == c then 0 else 1 + FirstIndex(s[1..], c)
  }

  /** Every stretch of `s` between occurrences of `c`, empty stretches included. */
  function Pieces(s: string, c: char): (r: seq<string>)
    ensures |r| >= 1
    ensures forall k :: 0 <= k < |r| ==> c !in r[k]
    decreases |s|
  {
    var n := FirstIndex(s, c);
    if n == |s| then [s] else [s[..n]] + Pieces(s[n + 1..], c)
  }

  /** The non-empty members of `ps`, in order. */
  function NonEmpty(ps: seq<string>): (r: seq<string>)
    ensures forall k :: 0 <= k < |r| ==> r[k] != []
  {
    if ps == [] then []
    else if ps[0] == [] then NonEmpty(ps[1..])
    else [ps[0]] + NonEmpty(ps[1..])
  }

  /** `s.split(separator: c)`: the maximal non-empty stretches of `s` free of `c`. */
  function Split(s: string, c: char): (r: seq<string>)
    ensures forall k :: 0 <= k < |r| ==> r[k] != [] && c !in r[k]
    decreases |s|
  {
    if |s| == 0 then []
    else if s[0] == c then Split(s[1..], c)
    else
      var n := FirstIndex(s, c);
      [s[..n]] + Split(s[n..], c)
  }

  /** Each line with `prefix` put in front of it. */
  function Prefixed(lines: seq<string>, prefix: string): (r: seq<string>)
    ensures |r| == |lines|
    ensures forall k :: 0 <= k < |lines| ==> r[k] == prefix + lines[k]
  {
    seq(|lines|, k requires 0 <= k < |lines| => prefix + lines[k])
  }

  /** `s.indent(by: count, with: style)`: one indent, then the non-empty lines of
      `s` joined by a newline followed by one indent. `count` plays no part. */
  function Indent(s: string, count: int, style: IndentationStyle): (r: string)
    ensures |IndentString(style)| <= |r|
  {
    var indent := IndentString(style);
    indent + Join(Split(s, '\n'), "\n" + indent)
  }

  /** Indented text always begins with one indent. */
  lemma IndentStartsWithIndent(s: string, count: int, style: IndentationStyle)
    ensures Indent(s, count, style)[..|IndentString(style)|] == IndentString(style)
  {
    var indent := IndentString(style);
    assert Indent(s, count, style) == indent + Join(Split(s, '\n'), "\n" + indent);
  }

  // ---------------------------------------------------------------------------
  // Split against its reference

  /** `c` does not occur in `s` exactly when the first `c` is past the end. */
  lemma FirstIndexAbsent(s: string, c: char)
    requires c !in s
    ensures FirstIndex(s, c) == |s|
  {
  }

  /** Splitting keeps exactly the non-empty pieces, in order. */
  lemma {:induction false} SplitIsNonEmptyPieces(s: string, c: char)
    ensures Split(s, c) == NonEmpty(Pieces(s, c))
    decreases |s|
  {
    if |s| == 0 {
    } else if s[0] == c {
      assert FirstIndex(s, c) == 0;
      assert Pieces(s, c) == [[]] + Pieces(s[1..], c);
      SplitIsNonEmptyPieces(s[1..], c);
    } else {
      var n := FirstIndex(s, c);
      if n == |s| {
        assert s[..n] == s && s[n..] == [];
        assert NonEmpty([s]) == [s] + NonEmpty([]);
      } else {
        assert Pieces(s, c) == [s[..n]] + Pieces(s[n + 1..], c);
        assert s[n..][1..] == s[n + 1..];
        assert Split(s[n..], c) == Split(s[n + 1..], c);
        SplitIsNonEmptyPieces(s[n + 1..], c);
      }
    }
  }

  /** Joining the pieces with the separator gives back the text. */
  lemma {:induction false} JoinPieces(s: string, c: char)
    ensures Join(Pieces(s, c), [c]) == s
    decreases |s|
  {
    var n := FirstIndex(s, c);
    if n < |s| {
      var rest := Pieces(s[n + 1..], c);
      assert Pieces(s, c) == [s[..n]] + rest;
      assert ([s[..n]] + rest)[1..] == rest;
      assert Join([s[..n]] + rest, [c]) == s[..n] + [c] + Join(rest, [c]);
      JoinPieces(s[n + 1..], c);
      assert s == s[..n] + [c] + s[n + 1..];
    } else {
      assert Pieces(s, c) == [s];
    }
  }

  /** Cutting a join of separator-free pieces at the separator gives back the pieces. */
  lemma {:induction false} PiecesOfJoin(ps: seq<string>, c: char)
    requires ps != []
    requires forall k :: 0 <= k < |ps| ==> c !in ps[k]
    ensures Pieces(Join(ps, [c]), c) == ps
    decreases |ps|
  {
    var s := Join(ps, [c]);
    if |ps| == 1 {
      FirstIndexAbsent(s, c);
    } else {
      var rest := Join(ps[1..], [c]);
      assert s == ps[0] + [c] + rest;
      var n := |ps[0]|;
      assert s[n] == c;
      assert FirstIndex(s, c) == n;
      assert s[..n] == ps[0];
      assert s[n + 1..] == rest;
      PiecesOfJoin(ps[1..], c);
    }
  }

  /** A list of non-empty pieces is left unchanged by dropping the empty ones. */
  lemma {:induction false} NonEmptyKeeps(ps: seq<string>)
    requires forall k :: 0 <= k < |ps| ==> ps[k] != []
    ensures NonEmpty(ps) == ps
    decreases |ps|
  {
    if ps != [] {
      NonEmptyKeeps(ps[1..]);
    }
  }

  /** Splitting a join of non-empty, separator-free pieces gives back the pieces. */
  lemma SplitOfJoin(ps: seq<string>, c: char)
    requires forall k :: 0 <= k < |ps| ==> ps[k] != [] && c !in ps[k]
    ensures Split(Join(ps, [c]), c) == ps
  {
    if ps != [] {
      SplitIsNonEmptyPieces(Join(ps, [c]), c);
      PiecesOfJoin(ps, c);
      NonEmptyKeeps(ps);
    }
  }

  /** The split is empty exactly when the text holds nothing but separators. */
  lemma {:induction false} SplitEmpty(s: string, c: char)
    ensures Split(s, c) == [] <==> forall i :: 0 <= i < |s| ==> s[i] == c
    decreases |s|
  {
    if |s| > 0 && s[0] == c {
      SplitEmpty(s[1..], c);
      assert forall i :: 1 <= i < |s| ==> s[i] == s[1..][i - 1];
    }
  }

  // ---------------------------------------------------------------------------
  // What indentation does to the lines

  /** One indent in front, and one after every joining newline, is the same as
      indenting each line and joining by plain newlines. */
  lemma {:induction false} IndentedJoin(lines: seq<string>, indent: string)
    requires lines != []
    ensures indent + Join(lines, "\n" + indent) == Join(Prefixed(lines, indent), "\n")
    decreases |lines|
  {
    if |lines| > 1 {
      IndentedJoin(lines[1..], indent);
      assert Prefixed(lines, indent)[1..] == Prefixed(lines[1..], indent);
    }
  }

  /** Position `i` of `text` begins a line that starts with `prefix` followed by a
      character that is not a newline. */
  predicate LineBeginsWith(text: string, i: int, prefix: string)
  {
    0 <= i && i + |prefix| < |text| && text[i..i + |prefix|] == prefix && text[i + |prefix|] != '\n'
  }

  /** Putting text in front moves a line beginning along with it. */
  lemma LineBeginsWithShift(front: string, text: string, i: int, prefix: string)
    requires LineBeginsWith(text, i, prefix)
    ensures LineBeginsWith(front + text, |front| + i, prefix)
  {
    assert (front + text)[|front| + i..|front| + i + |prefix|] == text[i..i + |prefix|];
  }

  /** Putting a newline-free line and a newline in front of text whose every line
      begins with `prefix` keeps every newline followed by `prefix`. */
  lemma NewlineJoinStep(line: string, rest: string, prefix: string)
    requires '\n' !in line
    requires LineBeginsWith(rest, 0, prefix)
    requires forall j :: 0 <= j < |rest| && rest[j] == '\n' ==> LineBeginsWith(rest, j + 1, prefix)
    ensures var text := line + "\n" + rest;
      forall i :: 0 <= i < |text| && text[i] == '\n' ==> LineBeginsWith(text, i + 1, prefix)
  {
    var front := line + "\n";
    var text := front + rest;
    var n := |line|;
    LineBeginsWithShift(front, rest, 0, prefix);
    assert forall i :: 0 <= i < n ==> text[i] == line[i] != '\n';
    forall i | 0 <= i < |text| && text[i] == '\n'
      ensures LineBeginsWith(text, i + 1, prefix)
    {
      if i > n {
        assert rest[i - n - 1] == text[i];
        LineBeginsWithShift(front, rest, i - n, prefix);
      }
    }
  }

  /** In a newline join of lines that each hold no newline and begin with `prefix`
      followed by at least one more character, every newline is followed by
      `prefix` and then by a character that is not a newline. */
  lemma {:induction false} NewlinesFollowedBy(lines: seq<string>, prefix: string)
    requires forall k :: 0 <= k < |lines| ==>
      |lines[k]| > |prefix| && lines[k][..|prefix|] == prefix && '\n' !in lines[k]
    ensures var text := Join(lines, "\n");
      forall i :: 0 <= i < |text| && text[i] == '\n' ==> LineBeginsWith(text, i + 1, prefix)
    decreases |lines|
  {
    if |lines| == 1 {
      assert Join(lines, "\n") == lines[0];
    } else if |lines| > 1 {
      var rest := Join(lines[1..], "\n");
      NewlinesFollowedBy(lines[1..], prefix);
      JoinFirst(lines[1..], "\n");
      assert rest[..|prefix|] == lines[1][..|prefix|];
      assert rest[|prefix|] == lines[1][|prefix|];
      NewlineJoinStep(lines[0], rest, prefix);
      assert Join(lines, "\n") == lines[0] + "\n" + rest;
    }
  }

  /** Indentation ignores its `count` argument. */
  lemma IndentIgnoresCount(s: string, count1: int, count2: int, style: IndentationStyle)
    ensures Indent(s, count1, style) == Indent(s, count2, style)
  {
  }

  /** Text with no line in it (empty, or newlines only) indents to a single indent. */
  lemma IndentEmpty(s: string, count: int, style: IndentationStyle)
    requires forall i :: 0 <= i < |s| ==> s[i] == '\n'
    ensures Indent(s, count, style) == IndentString(style)
  {
    SplitEmpty(s, '\n');
  }

  /** One non-empty line indents to the indent followed by the line. */
  lemma IndentSingleLine(s: string, count: int, style: IndentationStyle)
    requires s != [] && '\n' !in s
    ensures Indent(s, count, style) == IndentString(style) + s
  {
    FirstIndexAbsent(s, '\n');
    assert s[0] != '\n' && s[..|s|] == s;
    assert Split(s, '\n') == [s] + Split(s[|s|..], '\n');
    assert s[|s|..] == [];
  }

  /** Indented text is the input's non-empty lines, each behind one indent, joined
      by newlines: splitting the result into lines and taking the indent off each
      gives back the non-empty lines of the input, in order. */
  lemma IndentLines(s: string, count: int, style: IndentationStyle)
    requires Split(s, '\n') != []
    ensures var lines := Split(s, '\n');
      && Indent(s, count, style) == Join(Prefixed(lines, IndentString(style)), "\n")
      && Split(Indent(s, count, style), '\n') == Prefixed(lines, IndentString(style))
      && forall k :: 0 <= k < |lines| ==>
           Split(Indent(s, count, style), '\n')[k][|IndentString(style)|..] == lines[k]
  {
    var lines := Split(s, '\n');
    var indent := IndentString(style);
    IndentedJoin(lines, indent);
    var indented := Prefixed(lines, indent);
    assert forall k :: 0 <= k < |indented| ==> indented[k] != [] && '\n' !in indented[k] by {
      forall k | 0 <= k < |indented|
        ensures indented[k] != [] && '\n' !in indented[k]
      {
        assert indented[k] == indent + lines[k];
        assert indented[k][|indent|] == lines[k][0];
      }
    }
    SplitOfJoin(indented, '\n');
    forall k | 0 <= k < |lines|
      ensures indented[k][|indent|..] == lines[k]
    {
      assert indented[k] == indent + lines[k];
    }
  }

  /** Every newline of indented text is followed by one indent and then by a
      character that is not a newline. */
  lemma IndentLineStarts(s: string, count: int, style: IndentationStyle)
    ensures var r := Indent(s, count, style);
      forall i :: 0 <= i < |r| && r[i] == '\n' ==> LineBeginsWith(r, i + 1, IndentString(style))
  {
    var indent := IndentString(style);
    var lines := Split(s, '\n');
    if lines == [] {
      assert Indent(s, count, style) == indent;
    } else {
      IndentLines(s, count, style);
      var indented := Prefixed(lines, indent);
      forall k | 0 <= k < |indented|
        ensures |indented[k]| > |indent| && indented[k][..|indent|] == indent && '\n' !in indented[k]
      {
        assert indented[k] == indent + lines[k];
      }
      NewlinesFollowedBy(indented, indent);
    }
  }

  /** Every newline of indented text is followed by one indent and then by a
      character that is not a newline; in particular the result never holds a
      blank line, whatever blank lines the input had. */
  lemma IndentNoBlankLines(s: string, count: int, style: IndentationStyle)
    ensures var r := Indent(s, count, style);
      var indent := IndentString(style);
      && (forall i :: 0 <= i < |r| && r[i] == '\n' ==> LineBeginsWith(r, i + 1, indent))
      && (forall i :: 0 <= i < |r| - 1 && r[i] == '\n' ==> r[i + 1] != '\n')
  {
    var r := Indent(s, count, style);
    var indent := IndentString(style);
    IndentLineStarts(s, count, style);
    forall i | 0 <= i < |r| - 1 && r[i] == '\n'
      ensures r[i + 1] != '\n'
    {
      assert LineBeginsWith(r, i + 1, indent);
      if |indent| > 0 {
        assert r[i + 1] == r[i + 1..i + 1 + |indent|][0] == indent[0];
      }
    }
  }

  /** Two lines with a blank line between them split into just the two lines. */
  lemma SplitDropsBlankLine(first: string, second: string)
    requires first != [] && second != [] && '\n' !in first && '\n' !in second
    ensures Split(first + "\n\n" + second, '\n') == [first, second]
  {
    var pieces := [first, [], second];
    var text := first + "\n\n" + second;
    var rest := pieces[1..];
    assert rest == [[], second] && rest[1..] == [second];
    assert Join(rest, "\n") == [] + "\n" + second;
    assert Join(pieces, "\n") == first + "\n" + ([] + "\n" + second);
    assert first + "\n" + ([] + "\n" + second) == text;
    PiecesOfJoin(pieces, '\n');
    SplitIsNonEmptyPieces(text, '\n');
    assert NonEmpty(rest[1..]) == [second] + NonEmpty([]);
    assert NonEmpty(rest) == [second];
  }

  /** Indenting two lines with a blank line between them indents both lines and
      drops the blank one. */
  lemma IndentDropsBlankLine(first: string, second: string, style: IndentationStyle)
    requires first != [] && second != [] && '\n' !in first && '\n' !in second
    ensures var indent := IndentString(style);
      Indent(first + "\n\n" + second, 1, style) == indent + first + "\n" + indent + second
  {
    var indent := IndentString(style);
    var sep := "\n" + indent;
    var text := first + "\n\n" + second;
    assert Split(text, '\n') == [first, second] by {
      SplitDropsBlankLine(first, second);
    }
    assert Join([first, second], sep) == first + sep + second by {
      assert [first, second][1..] == [second];
    }
    calc {
      Indent(text, 1, style);
      indent + Join(Split(text, '\n'), sep);
      indent + (first + sep + second);
      indent + first + "\n" + indent + second;
    }
  }
}
