/** The C shim's `css_parser_get_error`: the parser's error messages copied into one
    freshly allocated byte buffer, a newline after each message except the last,
    and a terminating zero byte. */
module ErrorBuffer {
  import opened Sequences

  /** A C `char`. */
  newtype Byte = b: int | 0 <= b < 256

  const Newline: Byte := 10
  const Nul: Byte := 0

  /** `error_length`: the sum over all messages of their length plus one. */
  function BufferLength(errors: seq<seq<Byte>>): nat
  {
    if errors == [] then 0
    else BufferLength(errors[..|errors| - 1]) + |errors[|errors| - 1]| + 1
  }

  /** Every message followed by a newline, in order: what the copy loop writes. */
  function Terminated(errors: seq<seq<Byte>>): (r: seq<Byte>)
    ensures |r| == BufferLength(errors)
  {
    if errors == [] then []
    else Terminated(errors[..|errors| - 1]) + errors[|errors| - 1] + [Newline]
  }

  /** The copy loop's output is the messages joined by newlines, with one more
      newline at the end. */
  lemma {:induction false} TerminatedIsJoin(errors: seq<seq<Byte>>)
    requires errors != []
    ensures Terminated(errors) == Join(errors, [Newline]) + [Newline]
    decreases |errors|
  {
    var front := errors[..|errors| - 1];
    var last := errors[|errors| - 1];
    if |errors| > 1 {
      TerminatedIsJoin(front);
      JoinSnoc(front, last, [Newline]);
      assert errors == front + [last];
    }
  }

  /** The part of the buffer for the first `i` messages fits inside the whole
      buffer, with room for message `i` and its newline. */
  lemma {:induction false} BufferLengthPrefix(errors: seq<seq<Byte>>, i: nat)
    requires i < |errors|
    ensures BufferLength(errors[..i]) + |errors[i]| + 1 <= BufferLength(errors)
    decreases |errors|
  {
    var n := |errors|;
    assert errors[..n - 1][..i] == errors[..i];
    if i < n - 1 {
      BufferLengthPrefix(errors[..n - 1], i);
      assert errors[..n - 1][i] == errors[i];
    } else {
      assert errors[..i] == errors[..n - 1];
    }
  }

  /** One more message adds its length plus one to the buffer, and its bytes and a
      newline to what the copy loop has written. */
  lemma TerminatedStep(errors: seq<seq<Byte>>, i: nat)
    requires i < |errors|
    ensures BufferLength(errors[..i + 1]) == BufferLength(errors[..i]) + |errors[i]| + 1
    ensures Terminated(errors[..i + 1]) == Terminated(errors[..i]) + errors[i] + [Newline]
  {
    assert errors[..i + 1][..i] == errors[..i];
  }

  /** `memcpy(dest + at, src, |src|)`: only the bytes from `at` on are written. */
  method Copy(dest: array<Byte>, at: nat, src: seq<Byte>)
    requires at + |src| <= dest.Length
    modifies dest
    ensures dest[..] == old(dest[..at]) + src + old(dest[at + |src|..])
  {
    for k := 0 to |src|
      invariant dest[..at] == old(dest[..at])
      invariant dest[at..at + k] == src[..k]
      invariant dest[at + |src|..] == old(dest[at + |src|..])
      invariant forall j :: at + k <= j < at + |src| ==> dest[j] == old(dest[j])
    {
      dest[at + k] := src[k];
    }
    assert dest[..] == dest[..at] + dest[at..at + |src|] + dest[at + |src|..];
  }

  /** `css_parser_get_error`: no buffer (NULL) exactly when there are no messages;
      otherwise a buffer of the summed length holding the messages joined by
      newlines and then a zero byte in the place of the last newline. */
  method GetError(errors: seq<seq<Byte>>) returns (error: array?<Byte>)
    ensures error == null <==> errors == []
    ensures error != null ==> error.Length == BufferLength(errors)
    ensures error != null ==> error[..] == Join(errors, [Newline]) + [Nul]
  {
    if |errors| == 0 {
      return null;
    }

    var errorLength := 0;
    for i := 0 to |errors|
      invariant errorLength == BufferLength(errors[..i])
    {
      TerminatedStep(errors, i);
      errorLength := errorLength + |errors[i]| + 1;
    }
    assert errors[..|errors|] == errors;

    error := new Byte[errorLength];
    var currentIndex := 0;
    for i := 0 to |errors|
      invariant currentIndex == BufferLength(errors[..i]) <= error.Length
      invariant error[..currentIndex] == Terminated(errors[..i])
    {
      var count := |errors[i]|;
      BufferLengthPrefix(errors, i);
      TerminatedStep(errors, i);
      ghost var written := error[..currentIndex];
      Copy(error, currentIndex, errors[i]);
      assert error[..currentIndex + count] == written + errors[i];
      currentIndex := currentIndex + count + 1;
      error[currentIndex - 1] := Newline;
      assert error[..currentIndex] == written + errors[i] + [Newline];
    }

    TerminatedIsJoin(errors);
    error[currentIndex - 1] := Nul;
    assert error[..] == error[..currentIndex - 1] + [Nul];
  }

  /** Read as a C string, the buffer ends at the terminator exactly when no
      message holds a zero byte: the joined messages are then free of zeros. */
  lemma CStringLength(errors: seq<seq<Byte>>)
    requires forall k :: 0 <= k < |errors| ==> Nul !in errors[k]
    ensures Nul !in Join(errors, [Newline])
  {
    JoinExcludes(errors, [Newline], Nul);
  }
}
