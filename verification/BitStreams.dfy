/** The two bit readers of pkg/lib/zstd/bits.go. A byte string is read as the number it denotes in
    little-endian order: the forward reader takes its bits from the bottom, the reverse reader from
    the top, below the marker bit. */
module BitStreams {
  import opened Arith

  /** Byte `k` of a string is bits 8k to 8k+7 of its number. */
  lemma {:induction false} ByteSlice(s: seq<byte>, k: nat)
    requires k < |s|
    ensures Slice(LittleEndian(s), 8 * k, 8) == s[k]
    ensures LittleEndian(s[k..]) == s[k] + 256 * LittleEndian(s[k + 1..])
  {
    LittleEndianCut(s, k);
    assert s[k..][1..] == s[k + 1..];
    LowByte(s[k], LittleEndian(s[k + 1..]));
  }

  lemma {:induction false} LowByte(b: byte, rest: nat)
    ensures Low(b + 256 * rest, 8) == b
  {
    Shl8(rest, 0);
    Pow2Values();
    Split(b, rest, 8);
  }

  /** `bitReader`. `bits` is a 32-bit accumulator; it never holds more than 23 bits. */
  class BitReader {
    const data: seq<byte>
    var off: nat
    var bits: nat
    var cnt: nat

    /** The number of bits of `data` already handed out. */
    ghost function Pos(): int
      reads this
    {
      8 * off - cnt
    }

    ghost predicate Valid()
      reads this
    {
      && off <= |data| && cnt <= 8 * off && cnt <= 23
      && bits == Slice(LittleEndian(data), Pos(), cnt)
    }

    constructor (data: seq<byte>, off: nat)
      requires off <= |data|
      ensures Valid() && this.data == data && Pos() == 8 * off && cnt == 0
    {
      this.data, this.off, this.bits, this.cnt := data, off, 0, 0;
    }

    /** `moreBits`: at least 16 bits are buffered afterwards, unless the data ends first. */
    method MoreBits() returns (ok: bool)
      requires Valid()
      modifies this
      ensures Valid() && Pos() == old(Pos())
      ensures ok ==> cnt >= 16
      ensures !ok ==> 8 * |data| - Pos() < 16
    {
      while cnt < 16
        invariant Valid() && Pos() == old(Pos())
      {
        if off >= |data| {
          return false;
        }
        ByteSlice(data, off);
        SliceCut(LittleEndian(data), Pos(), cnt, 8);
        bits := bits + Shl(data[off], cnt);
        off := off + 1;
        cnt := cnt + 8;
      }
      ok := true;
    }

    /** The low `b` bits of the accumulator: `br.bits & ((1 << b) - 1)`. */
    function Peek(b: nat): (r: nat)
      requires Valid() && b <= cnt
      reads this
      ensures r == Slice(LittleEndian(data), Pos(), b)
    {
      SliceCut(LittleEndian(data), Pos(), b, cnt - b);
      Low(bits, b)
    }

    /** `br.bits >>= b; br.cnt -= b`. */
    method Drop(b: nat)
      requires Valid() && b <= cnt
      modifies this
      ensures Valid() && Pos() == old(Pos()) + b && cnt == old(cnt) - b
    {
      SliceCut(LittleEndian(data), Pos(), b, cnt - b);
      bits := Shr(bits, b);
      cnt := cnt - b;
    }

    /** `val`: the next `b` bits of the stream. */
    method Val(b: nat) returns (r: nat)
      requires Valid() && b <= cnt
      modifies this
      ensures Valid() && Pos() == old(Pos()) + b && cnt == old(cnt) - b
      ensures r == Slice(LittleEndian(data), old(Pos()), b)
    {
      r := Peek(b);
      Drop(b);
    }

    /** `backup`: step back to the byte after the last one a bit was taken from. */
    method Backup()
      requires Valid()
      modifies this
      ensures off == (old(Pos()) + 7) / 8
    {
      while cnt >= 8
        invariant cnt <= 8 * off && Pos() == old(Pos())
      {
        off := off - 1;
        cnt := cnt - 8;
      }
    }
  }

  /** The next `b` bits of a reverse stream with `left` unread bits: bits left-b to left-1 of its number. */
  function NextBits(m: nat, left: nat, b: nat): (v: nat)
    requires b <= left
    ensures v < Pow2(b)
  {
    Slice(m, left - b, b)
  }

  /** How many bits stay buffered after a read of `b` bits that found `cnt` buffered: bytes are fetched only
      when they are needed. */
  function CountAfter(cnt: nat, b: nat): nat {
    if b <= cnt then cnt - b else (cnt - b) % 8
  }

  lemma {:induction false} CountFetched(cnt: nat, bytes: nat, b: nat)
    requires b <= cnt + 8 * bytes && (bytes > 0 ==> cnt + 8 * bytes < b + 8 && cnt < b)
    ensures cnt + 8 * bytes == b + CountAfter(cnt, b)
  {
  }

  /** What an accumulator of `w` bits with the bits of `m` from `p` on returns for the `b` bits that start `c` bits
      up: the part of the true value below 2^(w - c). */
  lemma {:induction false} AccumulatorRead(m: nat, p: nat, c: nat, b: nat, w: nat)
    requires c <= w
    ensures Low(Shr(Slice(m, p, w), c), b) == Low(Slice(m, p + c, b), w - c)
    ensures b <= w - c ==> Low(Shr(Slice(m, p, w), c), b) == Slice(m, p + c, b)
  {
    assert Shr(Slice(m, p, w), c) == Slice(m, p + c, w - c) by { SliceCut(m, p, c, w - c); }
    LowOfSlice(m, p + c, b, w - c);
  }

  /** Two cuts of the same bits: the smaller width counts. */
  lemma {:induction false} LowOfSlice(m: nat, p: nat, b: nat, v: nat)
    ensures Low(Slice(m, p, v), b) == Low(Slice(m, p, b), v)
    ensures b <= v ==> Low(Slice(m, p, v), b) == Slice(m, p, b)
  {
    if b <= v {
      SliceCut(m, p, b, v - b);
      Pow2Mono(b, v);
      SmallLow(Slice(m, p, b), v);
    } else {
      SliceCut(m, p, v, b - v);
      Pow2Mono(v, b);
      SmallLow(Slice(m, p, v), b);
    }
  }

  /** Shifting a byte into an accumulator of `w` bits. */
  lemma {:induction false} AccumulatorShift(high: nat, c: byte, w: nat)
    ensures Low(256 * Low(high, w) + c, w) == Low(256 * high + c, w)
  {
    var z := Shr(high, w);
    Join(high, w);
    Shl8(z, w);
    ShlShl(z, 8, w);
    Shl8(z, 0);
    LowOfSum(256 * Low(high, w) + c, 256 * z, w);
  }

  /** `reverseBitReader`. The accumulator keeps 32 bits; older bits are shifted out. */
  class ReverseBitReader {
    const data: seq<byte>
    const start: nat
    ghost const low: nat
    ghost const end: nat
    var off: nat
    var bits: nat
    var cnt: nat

    /** The stream as a number, marker bit included. */
    ghost function Stream(): nat
      requires low <= end < |data|
    {
      LittleEndian(data[low..end + 1])
    }

    /** The number of bits not handed out yet: buffered plus unread. */
    ghost function Left(): int
      reads this
    {
      cnt + 8 * (off - low)
    }

    ghost predicate Valid()
      reads this
    {
      && low <= off <= end < |data|
      && (off > low ==> low == start) && (off == low ==> off <= start)
      && bits == Slice(Stream(), 8 * (off - low), 32)
    }

    /** The part of `makeReverseBitReader` after the check for a zero byte. When `start` lies beyond
        `off`, the stream is that one byte. */
    constructor (data: seq<byte>, off: nat, start: nat)
      requires off < |data| && data[off] != 0
      ensures Valid() && this.data == data && this.start == start
      ensures low == (if start < off then start else off) && end == off
      ensures Stream() > 0 && Left() == HighBit(Stream()) && cnt <= 7 && this.off == off
    {
      this.data, this.off, this.start := data, off, start;
      var streamStart := data[off];
      this.bits := streamStart;
      this.cnt := HighBit(streamStart);
      var lo := if start < off then start else off;
      this.low, this.end := lo, off;
      new;
      var s := data[lo..off + 1];
      assert s == s[..off - lo] + [streamStart];
      TopByte(s[..off - lo], streamStart, 32);
    }

    /** `fetch`: buffer at least `b` bits; false when the stream has fewer left. */
    method Fetch(b: nat) returns (ok: bool)
      requires Valid()
      modifies this
      ensures Valid() && Left() == old(Left())
      ensures ok <==> b <= Left()
      ensures ok ==> cnt == b + CountAfter(old(cnt), b)
      ensures !ok ==> cnt < b
    {
      while cnt < b
        invariant Valid() && Left() == old(Left())
        invariant off <= old(off) && cnt == old(cnt) + 8 * (old(off) - off)
        invariant off < old(off) ==> old(cnt) < b && cnt < b + 8
        decreases off
      {
        if off <= start {
          return false;
        }
        FetchByte();
      }
      CountFetched(old(cnt), old(off) - off, b);
      ok := true;
    }

    /** One byte from below into the accumulator. */
    method FetchByte()
      requires Valid() && off > start
      modifies this
      ensures Valid() && Left() == old(Left()) && off == old(off) - 1 && cnt == old(cnt) + 8
    {
      ghost var s, u := data[low..end + 1], off - low;
      assert s[u - 1] == data[off - 1];
      StreamStep(s, u, data[off - 1], 32);
      off := off - 1;
      var c := data[off];
      bits := Low(256 * bits + c, 32);
      cnt := cnt + 8;
    }

    /** `val`: false when fewer than `b` bits are left; otherwise the next `b` bits, of which the
        accumulator keeps those below 2^(32 - cnt). When the read and what stays buffered fit 32 bits, that is
        all of them: always so up to 25 bits. */
    method Val(b: nat) returns (ok: bool, v: nat)
      requires Valid() && cnt <= 31 && b <= 31
      modifies this
      ensures Valid() && cnt <= 31
      ensures ok ==> cnt == CountAfter(old(cnt), b)
      ensures ok && old(cnt) <= 7 ==> cnt <= 7
      ensures ok <==> b <= old(Left())
      ensures !ok ==> Left() == old(Left())
      ensures ok ==> Left() == old(Left()) - b
      ensures ok ==> v == Low(NextBits(Stream(), old(Left()), b), 32 - cnt)
      ensures ok && b <= 25 ==> v == NextBits(Stream(), old(Left()), b)
      ensures ok && b + CountAfter(old(cnt), b) <= 32 ==> v == NextBits(Stream(), old(Left()), b)
    {
      ok := Fetch(b);
      v := 0;
      if ok {
        cnt := cnt - b;
        ghost var m, p, c := Stream(), 8 * (off - low), cnt;
        AccumulatorRead(m, p, c, b, 32);
        v := Low(Shr(bits, cnt), b);
      }
    }

    /** `(rbr.bits >> (rbr.cnt - b)) & mask`: the next `b` buffered bits, not taken yet. */
    function Peek(b: nat): (v: nat)
      requires Valid() && b <= cnt <= 32
      reads this
      ensures v == NextBits(Stream(), Left(), b)
    {
      AccumulatorRead(Stream(), 8 * (off - low), cnt - b, b, 32);
      Low(Shr(bits, cnt - b), b)
    }

    /** `rbr.cnt -= b`: bits that were looked at are taken. */
    method Take(b: nat)
      requires Valid() && b <= cnt
      modifies this`cnt
      ensures Valid() && cnt == old(cnt) - b && Left() == old(Left()) - b
    {
      cnt := cnt - b;
    }
  }

  lemma {:induction false} StreamStep(s: seq<byte>, u: nat, c: byte, w: nat)
    requires 0 < u < |s| && s[u - 1] == c
    ensures Low(256 * Slice(LittleEndian(s), 8 * u, w) + c, w) == Slice(LittleEndian(s), 8 * (u - 1), w)
  {
    assert LittleEndian(s[u - 1..]) == c + 256 * LittleEndian(s[u..]) by { ByteSlice(s, u - 1); }
    LittleEndianCut(s, u - 1);
    LittleEndianCut(s, u);
    AccumulatorShift(LittleEndian(s[u..]), c, w);
  }

  /** A non-zero last byte holds the highest bit. */
  lemma {:induction false} TopByte(s: seq<byte>, c: byte, w: nat)
    requires c != 0 && w >= 8
    ensures LittleEndian(s + [c]) > 0
    ensures HighBit(LittleEndian(s + [c])) == HighBit(c) + 8 * |s|
    ensures HighBit(c) <= 7
    ensures Slice(LittleEndian(s + [c]), 8 * |s|, w) == c
  {
    LittleEndianConcat(s, [c]);
    LittleEndianBound(s);
    assert LittleEndian([c]) == c;
    Split(LittleEndian(s), c, 8 * |s|);
    ByteHigh(c, w);
    assert LittleEndian(s + [c]) == LittleEndian(s) + Shl(c, 8 * |s|);
    TopShift(c, HighBit(c), 8 * |s|, LittleEndian(s));
    HighBitUnique(LittleEndian(s + [c]), HighBit(c) + 8 * |s|);
  }

  lemma {:induction false} ByteHigh(c: byte, w: nat)
    requires c != 0 && w >= 8
    ensures HighBit(c) <= 7 && Low(c, w) == c
  {
    Pow2Values();
    if HighBit(c) >= 8 { Pow2Mono(8, HighBit(c)); }
    Pow2Mono(8, w);
    SmallLow(c, w);
  }

  lemma {:induction false} TopShift(c: nat, h: nat, b: nat, r: nat)
    requires Pow2(h) <= c < Pow2(h + 1) && r < Pow2(b)
    ensures Pow2(h + b) <= r + Shl(c, b) < Pow2(h + b + 1)
  {
    ShlPow2(h, b);
    ShlPow2(h + 1, b);
    ShlFacts(Pow2(h), c, b);
    ShlFacts(c, 0, b);
    ShlFacts(c + 1, Pow2(h + 1), b);
  }

  /** Whether a 32-bit accumulator that keeps `c` bits after a read of `b` bits hands out all of them, for the
      stream `m` with `left` bits. */
  predicate Exact(m: nat, left: nat, b: nat, c: nat)
    requires b <= left && c <= 32
  {
    Low(NextBits(m, left, b), 32 - c) == NextBits(m, left, b)
  }

  /** When a caller can rely on a read: before a read of `b` bits, with fewer than 8 of the `left` bits
      buffered, the value is right for every stream exactly when `b` and the bits that will stay buffered fit the
      accumulator. Otherwise it is wrong already for a stream of `left` bits that has just been opened. */
  lemma {:induction false} ReadIsExactIff(left: nat, cnt: nat, b: nat)
    requires b <= left && cnt <= 7 && cnt == left % 8
    ensures CountAfter(cnt, b) == (left - b) % 8
    ensures (forall m :: m > 0 && HighBit(m) == left ==> Exact(m, left, b, CountAfter(cnt, b))) <==>
            b + CountAfter(cnt, b) <= 32
    ensures (forall m :: Exact(m, left, b, CountAfter(cnt, b))) <==> b + CountAfter(cnt, b) <= 32
  {
    var c := CountAfter(cnt, b);
    CountFromLeft(cnt, left / 8, left, b);
    if b + c <= 32 {
      forall m ensures Exact(m, left, b, c) {
        NarrowIsExact(m, left, b, c);
      }
    } else {
      WideIsNot(left, b, c);
    }
  }

  lemma {:induction false} NarrowIsExact(m: nat, left: nat, b: nat, c: nat)
    requires b <= left && b + c <= 32
    ensures Exact(m, left, b, c)
  {
    Pow2Mono(b, 32 - c);
    SmallLow(NextBits(m, left, b), 32 - c);
  }

  lemma {:induction false} WideIsNot(left: nat, b: nat, c: nat)
    requires b <= left && c <= 32 < b + c
    ensures Shl(3, left - 1) > 0 && HighBit(Shl(3, left - 1)) == left && !Exact(Shl(3, left - 1), left, b, c)
  {
    TwoTopBits(left, b);
    TopBitLost(b, 32 - c);
  }

  /** A stream whose bit below the marker is set: the next `b` bits are 2^(b-1). */
  lemma {:induction false} TwoTopBits(left: nat, b: nat)
    requires 0 < b <= left
    ensures Shl(3, left - 1) > 0 && HighBit(Shl(3, left - 1)) == left
    ensures NextBits(Shl(3, left - 1), left, b) == Pow2(b - 1)
  {
    hide Shl, Shr, Low, HighBit;
    ThreeShifted(left - 1);
    HighBitUnique(Shl(3, left - 1), left);
    assert Shr(Shl(3, left - 1), left - b) == Shl(3, b - 1) by {
      ShlShl(3, b - 1, left - b);
      Split(0, Shl(3, b - 1), left - b);
    }
    ThreeShifted(b - 1);
    Split(Pow2(b - 1), 1, b);
  }

  lemma {:induction false} ThreeShifted(k: nat)
    ensures Shl(3, k) == Pow2(k) + Shl(1, k + 1) && Shl(1, k + 1) == Pow2(k + 1) == 2 * Pow2(k)
  {
    ShlIsProduct(3, k);
    ShlPow2(0, k + 1);
  }

  lemma {:induction false} TopBitLost(b: nat, w: nat)
    requires w < b
    ensures Low(Pow2(b - 1), w) == 0 < Pow2(b - 1)
  {
    ShlPow2(b - 1 - w, w);
    Split(0, Pow2(b - 1 - w), w);
  }

  /** The bytes of that stream. */
  function LosingBytes(left: nat): (s: seq<byte>)
    requires left > 0
    ensures |s| == left / 8 + 1
  {
    if left % 8 == 0 then ZeroBytes(left / 8 - 1) + [128, 1]
    else TopByteFits(left % 8); ZeroBytes(left / 8) + [Shl(3, left % 8 - 1)]
  }

  function ZeroBytes(n: nat): (s: seq<byte>)
    ensures |s| == n
  {
    seq(n, _ => 0)
  }

  lemma {:induction false} TopByteFits(r: nat)
    requires 0 < r < 8
    ensures 0 < Shl(3, r - 1) < 256
  {
    ShlPow2(2, r - 1);
    ShlPow2(0, r - 1);
    ShlFacts(3, 4, r - 1);
    ShlFacts(1, 3, r - 1);
    ShlFacts(3, 0, r - 1);
    Pow2Values();
    Pow2Mono(r + 1, 8);
  }

  lemma {:induction false} ZerosAreZero(n: nat)
    ensures LittleEndian(ZeroBytes(n)) == 0
  {
    if n > 0 {
      ZerosAreZero(n - 1);
      assert ZeroBytes(n)[1..] == ZeroBytes(n - 1);
    }
  }

  lemma {:induction false} LosingBytesAreStream(left: nat)
    requires left > 0
    ensures LittleEndian(LosingBytes(left)) == Shl(3, left - 1)
    ensures LosingBytes(left)[left / 8] != 0
  {
    if left % 8 == 0 {
      var k := left / 8 - 1;
      ZerosAreZero(k);
      LittleEndianConcat(ZeroBytes(k), [128, 1]);
      assert LittleEndian([1]) == 1;
      assert [128, 1][1..] == [1];
      assert LittleEndian([128, 1]) == 384;
      ThreeUp();
      ShlShl(3, 7, 8 * k);
    } else {
      TopByteFits(left % 8);
      var k, t := left / 8, Shl(3, left % 8 - 1);
      ZerosAreZero(k);
      LittleEndianConcat(ZeroBytes(k), [t]);
      assert LittleEndian([t]) == t;
      ShlShl(3, left % 8 - 1, 8 * k);
    }
  }

  lemma {:induction false} ThreeUp()
    ensures Shl(3, 7) == 384
  {
    assert Shl(3, 2) == 12;
    assert Shl(3, 4) == 48;
    assert Shl(3, 6) == 192;
  }

  /** Opening a stream and reading once. */
  method ReadTop(bytes: seq<byte>, b: nat, ghost m: nat, ghost left: nat) returns (v: nat)
    requires bytes != [] && bytes[|bytes| - 1] != 0
    requires m == LittleEndian(bytes) && m > 0 && left == HighBit(m) && b <= left && b <= 31
    ensures v == Low(NextBits(m, left, b), 32 - (left - b) % 8)
  {
    var r := new ReverseBitReader(bytes, |bytes| - 1, 0);
    assert r.data[r.low..r.end + 1] == bytes;
    assert r.Stream() == m && r.Left() == left;
    ghost var cnt := CountAfter(r.cnt, b);
    assert cnt == (left - b) % 8 by { CountFromLeft(r.cnt, r.off, left, b); }
    var ok;
    ok, v := r.Val(b);
  }

  lemma {:induction false} CountFromLeft(cnt: nat, bytes: nat, left: nat, b: nat)
    requires b <= left == cnt + 8 * bytes && cnt <= 7
    ensures CountAfter(cnt, b) == (left - b) % 8
  {
  }

  /** For every length and width outside the condition the reader itself misreads a stream: it returns 0 where
      the next bits are 2^(b-1). Reading 31 of the 33 bits in [0, 0, 0, 0, 3] is such a read. */
  method WideReadLosesBits(left: nat, b: nat) returns (bytes: seq<byte>, v: nat)
    requires b <= left && b <= 31 && b + (left - b) % 8 > 32
    ensures bytes != [] && bytes[|bytes| - 1] != 0
    ensures LittleEndian(bytes) > 0 && HighBit(LittleEndian(bytes)) == left
    ensures v == 0 && NextBits(LittleEndian(bytes), left, b) == Pow2(b - 1)
    ensures left == 33 ==> bytes == [0, 0, 0, 0, 3]
  {
    LosingBytesAreStream(left);
    bytes := LosingBytes(left);
    TwoTopBits(left, b);
    v := ReadTop(bytes, b, LittleEndian(bytes), left);
    TopBitLost(b, 32 - (left - b) % 8);
  }
}
