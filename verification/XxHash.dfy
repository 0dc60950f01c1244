/** The xxHash-64 checksum (pkg/lib/zstd/xxhash.go): feeding the input in pieces gives the digest of
    the whole, however it is cut. */
module XxHash {
  import opened Arith

  const PRIME1: bv64 := 0x9e3779b185ebca87
  const PRIME2: bv64 := 0xc2b2ae3d27d4eb4f
  const PRIME3: bv64 := 0x165667b19e3779f9
  const PRIME4: bv64 := 0x85ebca77c2b2ae63
  const PRIME5: bv64 := 0x27d4eb2f165667c5
  const WRAP := 0x1_0000_0000_0000_0000

  /** The four accumulators. */
  datatype Acc = Acc(v0: bv64, v1: bv64, v2: bv64, v3: bv64)

  const INIT: Acc := Acc(PRIME1 + PRIME2, PRIME2, 0, 0 - PRIME1)

  /** Arithmetic on words is modulo 2^64. */
  function Add(a: bv64, b: bv64): bv64 {
    a + b
  }

  function Mul(a: bv64, b: bv64): bv64 {
    a * b
  }

  function Xor(a: bv64, b: bv64): bv64 {
    a ^ b
  }

  /** `bits.RotateLeft64`. */
  function Rotate(x: bv64, k: bv8): bv64
    requires 0 < k < 64
  {
    (x << k) | (x >> (64 - k))
  }

  function Round(v: bv64, n: bv64): bv64 {
    Mul(Rotate(Add(v, Mul(n, PRIME2)), 31), PRIME1)
  }

  function MergeRound(v: bv64, n: bv64): bv64 {
    Add(Mul(Xor(v, Round(0, n)), PRIME1), PRIME4)
  }

  /** `binary.LittleEndian.Uint64`. */
  function Word(s: seq<byte>): bv64
    requires |s| >= 8
  {
    Joined(HalfWord(s), HalfWord(s[4..]))
  }

  function Joined(low: bv64, high: bv64): bv64 {
    low | (high << 32)
  }

  /** `binary.LittleEndian.Uint32`, as a 64-bit word. */
  function HalfWord(s: seq<byte>): bv64
    requires |s| >= 4
  {
    Quad(Byte(s[0]), Byte(s[1]), Byte(s[2]), Byte(s[3]))
  }

  function Byte(b: byte): bv64 {
    b as bv64
  }

  function Quad(a: bv64, b: bv64, c: bv64, d: bv64): bv64 {
    a | (b << 8) | (c << 16) | (d << 24)
  }

  /** One 32-byte stripe. */
  function Stripe(a: Acc, s: seq<byte>): Acc {
    if |s| != 32 then a
    else Acc(Round(a.v0, Word(s)), Round(a.v1, Word(s[8..])), Round(a.v2, Word(s[16..])), Round(a.v3, Word(s[24..])))
  }

  /** All whole stripes of an input, one after the other. */
  function Fold(f: (Acc, seq<byte>) -> Acc, a: Acc, s: seq<byte>): Acc
    decreases |s|
  {
    if |s| < 32 then a else Fold(f, f(a, s[..32]), s[32..])
  }

  /** Cutting an input at a stripe boundary. */
  lemma {:induction false} FoldConcat(f: (Acc, seq<byte>) -> Acc, a: Acc, s: seq<byte>, t: seq<byte>)
    requires |s| % 32 == 0
    ensures Fold(f, a, s + t) == Fold(f, Fold(f, a, s), t)
    decreases |s|
  {
    if s == [] {
      assert s + t == t;
    } else {
      assert (s + t)[..32] == s[..32] && (s + t)[32..] == s[32..] + t;
      FoldConcat(f, f(a, s[..32]), s[32..], t);
    }
  }

  lemma {:induction false} FoldOne(f: (Acc, seq<byte>) -> Acc, a: Acc, s: seq<byte>)
    requires |s| == 32
    ensures Fold(f, a, s) == f(a, s)
  {
    assert s[..32] == s;
    assert s[32..] == [];
  }

  /** Folding one more stripe. */
  lemma {:induction false} FoldNext(f: (Acc, seq<byte>) -> Acc, a: Acc, s: seq<byte>, t: seq<byte>)
    requires |s| % 32 == 0 && |t| == 32
    ensures Fold(f, a, s + t) == f(Fold(f, a, s), t)
  {
    FoldConcat(f, a, s, t);
    FoldOne(f, Fold(f, a, s), t);
  }

  /** The whole stripes of an input and the bytes after them. */
  function Stripes(s: seq<byte>): (r: seq<byte>)
    ensures |r| % 32 == 0
  {
    s[..|s| - |s| % 32]
  }

  function Rest(s: seq<byte>): (r: seq<byte>)
    ensures |r| < 32 && Stripes(s) + r == s
  {
    s[|s| - |s| % 32..]
  }

  /** There is only one way to cut an input into whole stripes and less than a stripe. */
  lemma {:induction false} CutIsUnique(done: seq<byte>, rest: seq<byte>)
    requires |done| % 32 == 0 && |rest| < 32
    ensures Stripes(done + rest) == done && Rest(done + rest) == rest
  {
    assert |done + rest| % 32 == |rest|;
    assert (done + rest)[..|done|] == done;
    assert (done + rest)[|done|..] == rest;
  }

  // ----- the digest -----

  function Converge(a: Acc): bv64 {
    var h := Add(Add(Add(Rotate(a.v0, 1), Rotate(a.v1, 7)), Rotate(a.v2, 12)), Rotate(a.v3, 18));
    MergeRound(MergeRound(MergeRound(MergeRound(h, a.v0), a.v1), a.v2), a.v3)
  }

  function MixWord(h: bv64, s: seq<byte>): bv64
    requires |s| >= 8
  {
    Add(Mul(Rotate(Xor(h, Round(0, Word(s))), 27), PRIME1), PRIME4)
  }

  function MixHalf(h: bv64, s: seq<byte>): bv64
    requires |s| >= 4
  {
    Add(Mul(Rotate(Xor(h, Mul(HalfWord(s), PRIME1)), 23), PRIME2), PRIME3)
  }

  function MixByte(h: bv64, b: byte): bv64 {
    Mul(Rotate(Xor(h, Mul(Byte(b), PRIME5)), 11), PRIME1)
  }

  function Shift(x: bv64, k: bv8): bv64
    requires k < 64
  {
    x >> k
  }

  function Avalanche(h0: bv64): bv64 {
    var h1 := Mul(Xor(h0, Shift(h0, 33)), PRIME2);
    var h2 := Mul(Xor(h1, Shift(h1, 29)), PRIME3);
    Xor(h2, Shift(h2, 32))
  }

  /** The bytes after the last stripe: words, then a half word, then bytes. */
  function MixBytes(h: bv64, s: seq<byte>): bv64
    decreases |s|
  {
    if s == [] then h else MixBytes(MixByte(h, s[0]), s[1..])
  }

  function MixTail(h: bv64, s: seq<byte>): bv64
    decreases |s|
  {
    if |s| >= 8 then MixTail(MixWord(h, s), s[8..])
    else if |s| >= 4 then MixBytes(MixHalf(h, s), s[4..])
    else MixBytes(h, s)
  }

  /** The digest from the accumulators, the length (mod 2^64) and the bytes after the last stripe. */
  function Finish(a: Acc, n: nat, rest: seq<byte>): bv64
  {
    Avalanche(MixTail(Begin(a, n), rest))
  }

  function Begin(a: Acc, n: nat): bv64 {
    Add(if n < 32 then Add(a.v2, PRIME5) else Converge(a), Length(n))
  }

  function Length(n: nat): bv64 {
    (n % WRAP) as bv64
  }

  /** The checksum of an input, in one piece. */
  function Hash(f: (Acc, seq<byte>) -> Acc, init: Acc, input: seq<byte>): bv64 {
    Finish(Fold(f, init, Stripes(input)), |input| % WRAP, Rest(input))
  }

  /** The checksum of no input, as published for xxHash-64 with seed 0. */
  lemma {:induction false} EmptyChecksum()
    ensures Hash(Stripe, INIT, []) == 0xef46db3751d8e999
  {
    assert MixTail(PRIME5, []) == PRIME5;
  }

  /** The loops over the bytes after the last stripe (xxhash.go:96-117). */
  method MixLoop(h0: bv64, rest: seq<byte>) returns (h: bv64)
    ensures h == MixTail(h0, rest)
  {
    h := h0;
    var s := rest;
    while |s| >= 8
      invariant MixTail(h, s) == MixTail(h0, rest)
      decreases |s|
    {
      h, s := MixWord(h, s), s[8..];
    }
    ghost var target := MixTail(h, s);
    if |s| >= 4 {
      h, s := MixHalf(h, s), s[4..];
    }
    while |s| > 0
      invariant MixBytes(h, s) == target
      decreases |s|
    {
      h, s := MixByte(h, s[0]), s[1..];
    }
  }

  lemma {:induction false} RestLength(done: seq<byte>, rest: seq<byte>)
    requires |done| % 32 == 0 && |rest| < 32
    ensures |done + rest| % WRAP % 32 == |rest|
  {
  }

  lemma {:induction false} WrapAdd(a: nat, b: nat)
    ensures (a % WRAP + b) % WRAP == (a + b) % WRAP
  {
  }

  /** `xxhash64`. `stripe` is the round function applied to a whole stripe. */
  class XxHash64 {
    const stripe: (Acc, seq<byte>) -> Acc
    const init: Acc
    var len: nat
    var v: Acc
    var buf: seq<byte>
    var cnt: nat
    ghost var done: seq<byte>

    /** All bytes added since the reset. */
    ghost function Input(): seq<byte>
      requires cnt <= |buf|
      reads this
    {
      done + buf[..cnt]
    }

    ghost predicate Valid()
      reads this
    {
      && |buf| == 32 && cnt < 32
      && len == |Input()| % WRAP
      && Folded()
    }

    ghost predicate Folded()
      reads this
    {
      |done| % 32 == 0 && v == Fold(stripe, init, done)
    }

    constructor ()
      ensures Valid() && Input() == [] && stripe == Stripe && init == INIT
    {
      stripe, init := Stripe, INIT;
      len, v, cnt, done := 0, INIT, 0, [];
      buf := seq(32, _ => 0);
    }

    /** `reset`. */
    method Reset()
      modifies this
      ensures Valid() && Input() == []
    {
      len, v, cnt, done := 0, init, 0, [];
      buf := seq(32, _ => 0);
    }

    /** `update`: appends `b0` to the input. */
    method Update(b0: seq<byte>)
      requires Valid()
      modifies this
      ensures Valid() && Input() == old(Input()) + b0
    {
      var b := b0;
      ghost var whole := Input() + b0;
      assert (len + |b|) % WRAP == |whole| % WRAP by { WrapAdd(|Input()|, |b|); }
      len := (len + |b|) % WRAP;
      if cnt + |b| < 32 {
        Keep(cnt, b);
        assert Input() == whole;
        return;
      }
      var n := FillStripe(b);
      assert whole == done + b[n..];
      b := FoldStripes(b[n..]);
      Keep(0, b);
      assert Input() == whole;
    }

    /** All whole stripes of `b0` (xxhash.go:64-70). */
    method FoldStripes(b0: seq<byte>) returns (b: seq<byte>)
      requires Folded()
      modifies this`v, this`done
      ensures Folded() && |b| < 32 && done + b == old(done) + b0
    {
      b := b0;
      while |b| >= 32
        invariant Folded() && done + b == old(done) + b0
        decreases |b|
      {
        FoldNext(stripe, init, done, b[..32]);
        v := stripe(v, b[..32]);
        assert done + b == done + b[..32] + b[32..];
        done := done + b[..32];
        b := b[32..];
      }
    }

    /** `copy(xh.buf[at:], b); xh.cnt = at + len(b)`. */
    method Keep(at: nat, b: seq<byte>)
      requires |buf| == 32 && at + |b| <= 32
      modifies this`buf, this`cnt
      ensures |buf| == 32 && cnt == at + |b| && buf[..cnt] == old(buf[..at]) + b
    {
      buf := buf[..at] + b + buf[at + |b|..];
      cnt := at + |b|;
    }

    /** Complete the buffered stripe, if there is one, with the first bytes of `b` (xxhash.go:54-62). */
    method FillStripe(b: seq<byte>) returns (n: nat)
      requires |buf| == 32 && cnt < 32 && Folded() && cnt + |b| >= 32
      modifies this`v, this`buf, this`cnt, this`done
      ensures n <= |b| && |buf| == 32 && Folded()
      ensures done == old(Input()) + b[..n]
    {
      n := 0;
      if cnt > 0 {
        n := 32 - cnt;
        ghost var rest := buf[..cnt];
        Keep(cnt, b[..n]);
        assert buf[..cnt] == buf;
        FoldNext(stripe, init, done, buf);
        v := stripe(v, buf);
        assert done + buf == done + rest + b[..n];
        done := done + buf;
      }
      cnt := 0;
    }

    /** `digest`: the checksum of the input in one piece, however it was fed. */
    method Digest() returns (h64: bv64)
      requires Valid()
      ensures h64 == Hash(stripe, init, Input()) && unchanged(this)
    {
      CutIsUnique(done, buf[..cnt]);
      RestLength(done, buf[..cnt]);
      h64 := Begin(v, len);
      h64 := MixLoop(h64, buf[..len % 32]);
      h64 := Avalanche(h64);
    }
  }

  /** Feeding any list of pieces to a new hasher gives the checksum of their concatenation. */
  method HashPieces(pieces: seq<seq<byte>>) returns (x: XxHash64, h64: bv64)
    ensures fresh(x) && x.Valid() && x.Input() == Concat(pieces)
    ensures h64 == Hash(Stripe, INIT, Concat(pieces))
  {
    hide Hash, Stripe;
    x := new XxHash64();
    for i := 0 to |pieces|
      invariant x.Valid() && x.Input() == Concat(pieces[..i]) && fresh(x)
    {
      x.Update(pieces[i]);
      ConcatLast(pieces[..i + 1]);
      assert pieces[..i + 1][..i] == pieces[..i];
    }
    assert pieces[..|pieces|] == pieces;
    h64 := x.Digest();
  }

  function Concat(pieces: seq<seq<byte>>): seq<byte> {
    if pieces == [] then [] else pieces[0] + Concat(pieces[1..])
  }

  lemma {:induction false} ConcatLast(pieces: seq<seq<byte>>)
    requires pieces != []
    ensures Concat(pieces) == Concat(pieces[..|pieces| - 1]) + pieces[|pieces| - 1]
  {
    if |pieces| > 1 {
      ConcatLast(pieces[1..]);
      assert pieces[1..][..|pieces| - 2] == pieces[..|pieces| - 1][1..];
      assert Concat(pieces[..|pieces| - 1]) == pieces[0] + Concat(pieces[..|pieces| - 1][1..]);
    }
  }
}
