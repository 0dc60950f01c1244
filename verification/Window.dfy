/** The back-reference window (pkg/lib/zstd/window.go): a circular buffer that holds the last
    `size` bytes saved since it was reset. */
module Windows {
  import opened Arith

  /** The last `n` bytes of `s`, or all of them. */
  function LastN(s: seq<byte>, n: nat): (r: seq<byte>)
    ensures |r| == if |s| <= n then |s| else n
  {
    if |s| <= n then s else s[|s| - n..]
  }

  /** Dropping old bytes early does not change what is kept in the end. */
  lemma {:induction false} LastNAppend(s: seq<byte>, t: seq<byte>, n: nat)
    ensures LastN(LastN(s, n) + t, n) == LastN(s + t, n)
  {
  }

  lemma {:induction false} LastOfNothing(c: seq<byte>, buf: seq<byte>, n: nat)
    requires |c| <= n && buf == []
    ensures LastN(c + buf, n) == c
  {
    assert c + buf == c;
  }

  lemma {:induction false} LastIsNew(c: seq<byte>, buf: seq<byte>, n: nat)
    requires |buf| >= n
    ensures LastN(c + buf, n) == buf[|buf| - n..]
  {
  }

  /** A circular buffer read from `off` on. */
  function Rotated(d: seq<byte>, off: nat): (r: seq<byte>)
    requires off <= |d|
    ensures |r| == |d|
  {
    d[off..] + d[..off]
  }

  lemma {:induction false} RotatedFromStart(d: seq<byte>)
    ensures Rotated(d, 0) == d && Rotated(d, |d|) == d
  {
  }

  /** `copy(d[at:], src)` with `src` fitting. */
  function Overwrite(d: seq<byte>, at: nat, src: seq<byte>): (r: seq<byte>)
    requires at + |src| <= |d|
    ensures |r| == |d|
  {
    d[..at] + src + d[at + |src|..]
  }

  /** Overwriting the oldest bytes of a full buffer drops them and appends the new ones. */
  lemma {:induction false} OverwriteOldest(d: seq<byte>, off: nat, src: seq<byte>)
    requires off + |src| <= |d|
    ensures Rotated(Overwrite(d, off, src), off + |src|) == LastN(Rotated(d, off) + src, |d|)
  {
    assert d[off + |src|..] + (d[..off] + src) == d[off + |src|..] + d[..off] + src;
    OverwriteParts(d, off, src);
    RotatedEnd(d, off, src);
  }

  lemma {:induction false} OverwriteParts(d: seq<byte>, off: nat, src: seq<byte>)
    requires off + |src| <= |d|
    ensures Overwrite(d, off, src)[off + |src|..] == d[off + |src|..]
    ensures Overwrite(d, off, src)[..off + |src|] == d[..off] + src
  {
  }

  lemma {:induction false} RotatedEnd(d: seq<byte>, off: nat, src: seq<byte>)
    requires off + |src| <= |d|
    ensures LastN(Rotated(d, off) + src, |d|) == d[off + |src|..] + d[..off] + src
  {
  }

  /** The same when the new bytes run past the end and on from the front. */
  lemma {:induction false} OverwriteAround(d: seq<byte>, off: nat, src: seq<byte>)
    requires off <= |d| && |d| - off <= |src| <= |d|
    ensures var n := |d| - off;
      Rotated(Overwrite(Overwrite(d, off, src[..n]), 0, src[n..]), |src| - n) == LastN(Rotated(d, off) + src, |d|)
  {
    var n := |d| - off;
    hide Rotated, LastN;
    var d1, was := Overwrite(d, off, src[..n]), Rotated(d, off);
    assert d1 == LastN(was + src[..n], |d|) by {
      OverwriteOldest(d, off, src[..n]);
      assert Rotated(d1, |d|) == d1 by { RotatedFromStart(d1); }
    }
    assert Rotated(Overwrite(d1, 0, src[n..]), |src| - n) == LastN(d1 + src[n..], |d|) by {
      OverwriteOldest(d1, 0, src[n..]);
      RotatedFromStart(d1);
    }
    LastNAppend(was + src[..n], src[n..], |d|);
    assert was + src == was + src[..n] + src[n..];
  }

  /** A part of the rotated buffer: in one piece before the end or after it, or in two. */
  lemma {:induction false} RotatedPart(d: seq<byte>, off: nat, from: nat, to: nat)
    requires off <= |d| && from <= to <= |d|
    ensures Rotated(d, off)[from..to] ==
      if from + off > |d| then d[from + off - |d|..to + off - |d|]
      else if to + off > |d| then d[from + off..] + d[..to + off - |d|]
      else d[from + off..to + off]
  {
  }

  class Window {
    var size: nat
    var data: seq<byte>
    var off: nat
    ghost var saved: seq<byte>

    /** The stored bytes, oldest first. */
    ghost function Contents(): seq<byte>
      requires off <= |data|
      reads this
    {
      Rotated(data, off)
    }

    ghost predicate Valid()
      reads this
    {
      && |data| <= size && off <= |data|
      && (|data| < size ==> off == 0)
      && Contents() == LastN(saved, size)
    }

    constructor ()
      ensures Valid() && size == 0 && saved == []
    {
      size, data, off, saved := 0, [], 0, [];
    }

    /** `reset`. */
    method Reset(size: nat)
      modifies this
      ensures Valid() && this.size == size && saved == []
    {
      data, off, saved := [], 0, [];
      this.size := size;
    }

    /** `save`: afterwards the window holds the last `size` of all bytes saved since the reset. */
    method Save(buf: seq<byte>)
      requires Valid()
      modifies this
      ensures Valid() && size == old(size) && saved == old(saved) + buf
      ensures Contents() == LastN(old(Contents()) + buf, size)
    {
      LastNAppend(saved, buf, size);
      Store(buf);
      saved := saved + buf;
    }

    method Store(buf: seq<byte>)
      requires |data| <= size && off <= |data| && (|data| < size ==> off == 0)
      modifies `data, `off
      ensures |data| <= size && off <= |data| && (|data| < size ==> off == 0)
      ensures Contents() == LastN(old(Contents()) + buf, size)
    {
      if size == 0 {
        return;
      }
      if |buf| == 0 {
        LastOfNothing(Contents(), buf, size);
        return;
      }
      if |buf| >= size {
        LastIsNew(Contents(), buf, size);
        data := buf[|buf| - size..];
        off := 0;
        RotatedFromStart(data);
        return;
      }
      if size - |data| == 0 {
        SaveOver(buf);
      } else {
        SaveGrowing(buf);
      }
    }

    /** The part of `save` for a window with room left. */
    method SaveGrowing(buf: seq<byte>)
      requires off == 0 && |data| < size && |buf| < size
      modifies `data, `off
      ensures off <= |data| <= size && (|data| < size ==> off == 0)
      ensures Contents() == LastN(old(Contents()) + buf, size)
    {
      var free := size - |data|;
      assert Contents() == data;
      if free >= |buf| {
        data := data + buf;
        assert Contents() == data;
      } else {
        assert data + buf == data + buf[..free] + buf[free..];
        OverwriteOldest(data + buf[..free], 0, buf[free..]);
        data := Overwrite(data + buf[..free], 0, buf[free..]);
        off := |buf| - free;
      }
    }

    /** The part of `save` for a full window. */
    method SaveOver(buf: seq<byte>)
      requires off <= |data| && |buf| < |data|
      modifies `data, `off
      ensures off <= |data| == old(|data|)
      ensures Contents() == LastN(old(Contents()) + buf, |data|)
    {
      var n := if |data| - off < |buf| then |data| - off else |buf|;
      if n == |buf| {
        OverwriteOldest(data, off, buf);
        data := Overwrite(data, off, buf);
        off := off + n;
      } else {
        OverwriteAround(data, off, buf);
        data := Overwrite(Overwrite(data, off, buf[..n]), 0, buf[n..]);
        off := |buf| - n;
      }
    }

    /** `appendTo`: the stored bytes between two positions, in every wrap case. */
    method AppendTo(buf: seq<byte>, from: nat, to: nat) returns (r: seq<byte>)
      requires Valid() && from <= to <= |data|
      ensures r == buf + Contents()[from..to]
    {
      hide Rotated;
      RotatedPart(data, off, from, to);
      var dataLen := |data|;
      var f, t := from + off, to + off;
      var wrap := false;
      if f > dataLen {
        f := f - dataLen;
        wrap := !wrap;
      }
      if t > dataLen {
        t := t - dataLen;
        wrap := !wrap;
      }
      if wrap {
        assert buf + (data[f..] + data[..t]) == buf + data[f..] + data[..t];
        r := buf + data[f..] + data[..t];
      } else {
        r := buf + data[f..t];
      }
    }
  }
}
