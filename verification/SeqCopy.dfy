/** Copying a match (`copyFromWindow`, pkg/lib/zstd/block.go:381-421, section 3.1.1.4 of RFC 8878):
    the doubling copy equals copying one byte at a time from what has been decoded so far. */
module SeqCopy {
  import opened Arith
  import opened Windows

  /** The byte `offset` places before the end of hist + out. */
  function Back(hist: seq<byte>, out: seq<byte>, offset: nat): (b: byte)
    requires 1 <= offset <= |hist| + |out|
    ensures b == (hist + out)[|hist + out| - offset]
  {
    if offset <= |out| then out[|out| - offset] else hist[|hist| + |out| - offset]
  }

  /** The reference: append, `n` times, the byte `offset` places before the end of hist + out. */
  function CopyBytes(hist: seq<byte>, out: seq<byte>, offset: nat, n: nat): (r: seq<byte>)
    requires 1 <= offset <= |hist| + |out|
    ensures |r| == |out| + n && out <= r
    decreases n
  {
    if n == 0 then out else CopyBytes(hist, out + [Back(hist, out, offset)], offset, n - 1)
  }

  lemma {:induction false} CopyInTwo(hist: seq<byte>, out: seq<byte>, offset: nat, a: nat, b: nat)
    requires 1 <= offset <= |hist| + |out|
    ensures CopyBytes(hist, out, offset, a + b) == CopyBytes(hist, CopyBytes(hist, out, offset, a), offset, b)
    decreases a
  {
    if a > 0 {
      CopyInTwo(hist, out + [Back(hist, out, offset)], offset, a - 1, b);
    }
  }

  /** The bytes taken from the window before the copy reaches the output. */
  lemma {:induction false} CopyOfHistory(hist: seq<byte>, out: seq<byte>, offset: nat, n: nat)
    requires |out| < offset <= |hist| + |out| && n <= offset - |out|
    ensures var from := |hist| + |out| - offset;
      CopyBytes(hist, out, offset, n) == out + hist[from..from + n]
    decreases n
  {
    var from := |hist| + |out| - offset;
    if n > 0 {
      var out' := out + [hist[from]];
      if n > 1 {
        CopyOfHistory(hist, out', offset, n - 1);
        assert hist[from..from + n] == [hist[from]] + hist[from + 1..from + n];
      } else {
        assert hist[from..from + 1] == [hist[from]];
      }
    }
  }

  /** `buf` is `out` followed by bytes that each repeat the one `offset` places before. */
  ghost predicate IsRepetition(out: seq<byte>, offset: nat, buf: seq<byte>) {
    && 1 <= offset <= |out| && out <= buf
    && (forall k :: |out| <= k < |buf| ==> buf[k] == buf[k - offset])
  }

  /** Copying one byte at a time yields the repetition. */
  lemma {:induction false} CopyIsRepetition(out: seq<byte>, offset: nat, buf: seq<byte>)
    requires IsRepetition(out, offset, buf)
    ensures CopyBytes([], out, offset, |buf| - |out|) == buf
    decreases |buf| - |out|
  {
    if |buf| > |out| {
      var out' := out + [buf[|out|]];
      assert out' == buf[..|out| + 1];
      assert Back([], out, offset) == buf[|out|];
      CopyIsRepetition(out', offset, buf);
    }
  }

  ghost predicate Multiple(d: nat, m: nat) {
    d == 0 || (0 < m <= d && Multiple(d - m, m))
  }

  lemma {:induction false} MultipleSum(a: nat, b: nat, m: nat)
    requires Multiple(a, m) && Multiple(b, m)
    ensures Multiple(a + b, m)
    decreases a
  {
    if a > 0 {
      MultipleSum(a - m, b, m);
    }
  }

  /** Bytes a multiple of `offset` apart are equal. */
  lemma {:induction false} FarRepetition(out: seq<byte>, offset: nat, buf: seq<byte>, i: nat, d: nat)
    requires IsRepetition(out, offset, buf) && Multiple(d, offset)
    requires |out| - offset <= i && i + d < |buf|
    ensures buf[i + d] == buf[i]
    decreases d
  {
    if d > 0 {
      assert buf[i + d] == buf[i + d - offset];
      FarRepetition(out, offset, buf, i, d - offset);
    }
  }

  /** Appending a copy of everything from `from` on keeps the repetition, when that part is a whole
      number of repetitions. */
  lemma {:induction false} DoublingStep(out: seq<byte>, offset: nat, buf: seq<byte>, from: nat, copy: nat)
    requires IsRepetition(out, offset, buf) && from == |out| - offset
    requires Multiple(|buf| - from, offset) && copy <= |buf| - from
    ensures IsRepetition(out, offset, buf + buf[from..from + copy])
  {
    var buf' := buf + buf[from..from + copy];
    forall k | |out| <= k < |buf'| ensures buf'[k] == buf'[k - offset] {
      if k >= |buf| {
        var i := from + (k - |buf|);
        assert buf'[k] == buf[i];
        if k - |buf| < offset {
          FarRepetition(out, offset, buf, i, |buf| - from - offset);
        } else {
          assert buf'[k - offset] == buf[i - offset];
        }
      }
    }
  }

  /** The loop of `copyFromWindow` (block.go:412-419): `bufferOffset` stays fixed, so each pass
      appends everything appended before. */
  method CopyOverlap(buf0: seq<byte>, bufferOffset: nat, match0: nat) returns (buf: seq<byte>)
    requires bufferOffset < |buf0|
    ensures buf == CopyBytes([], buf0, |buf0| - bufferOffset, match0)
  {
    buf := buf0;
    var todo := match0;
    ghost var offset := |buf0| - bufferOffset;
    assert Multiple(0, offset);
    while todo > 0
      invariant 0 <= todo <= match0 && |buf| == |buf0| + (match0 - todo)
      invariant IsRepetition(buf0, offset, buf)
      invariant todo > 0 ==> Multiple(|buf| - bufferOffset, offset)
    {
      var copy := |buf| - bufferOffset;
      MultipleSum(|buf| - bufferOffset, |buf| - bufferOffset, offset);
      if copy > todo {
        copy := todo;
      }
      DoublingStep(buf0, offset, buf, bufferOffset, copy);
      buf := buf + buf[bufferOffset..bufferOffset + copy];
      todo := todo - copy;
    }
    CopyIsRepetition(buf0, offset, buf);
  }

  /** Inside the output the window does not matter. */
  lemma {:induction false} HistoryUnused(hist: seq<byte>, out: seq<byte>, offset: nat, n: nat)
    requires 1 <= offset <= |out|
    ensures CopyBytes(hist, out, offset, n) == CopyBytes([], out, offset, n)
    decreases n
  {
    if n > 0 {
      HistoryUnused(hist, out + [Back(hist, out, offset)], offset, n - 1);
    }
  }

  /** The part of a match that lies in the window (block.go:394-405). */
  method CopyHistory(window: Window, buffer: seq<byte>, offset: nat, match0: nat) returns (out: seq<byte>, copy: nat)
    requires window.Valid() && |buffer| < offset <= |window.data| + |buffer|
    ensures copy == if offset - |buffer| > match0 then match0 else offset - |buffer|
    ensures out == CopyBytes(window.Contents(), buffer, offset, copy)
  {
    copy := offset - |buffer|;
    var windowOffset := |window.data| - copy;
    if copy > match0 {
      copy := match0;
    }
    CopyOfHistory(window.Contents(), buffer, offset, copy);
    out := window.AppendTo(buffer, windowOffset, windowOffset + copy);
  }

  /** `copyFromWindow`: fails exactly when the offset is zero or reaches past the window. */
  method CopyFromWindow(window: Window, buffer: seq<byte>, offset: nat, match0: nat)
    returns (ok: bool, out: seq<byte>)
    requires window.Valid()
    ensures ok <==> 1 <= offset <= |window.data| + |buffer|
    ensures ok ==> out == CopyBytes(window.Contents(), buffer, offset, match0)
  {
    out := buffer;
    if offset == 0 {
      return false, out;
    }
    ghost var hist := window.Contents();
    if |buffer| < offset {
      if offset - |buffer| > |window.data| {
        return false, out;
      }
      var copy;
      out, copy := CopyHistory(window, buffer, offset, match0);
      CopyInTwo(hist, buffer, offset, copy, match0 - copy);
      if match0 - copy > 0 {
        HistoryUnused(hist, out, offset, match0 - copy);
        out := CopyOverlap(out, 0, match0 - copy);
      }
    } else {
      HistoryUnused(hist, buffer, offset, match0);
      out := CopyOverlap(buffer, |buffer| - offset, match0);
    }
    ok := true;
  }
}
