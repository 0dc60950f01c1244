/** xxHash-64 with seed 0, stated a second time from its published description: the four lanes by index, the input
    by position, rotation as multiplication and division by powers of two. All arithmetic is modulo 2^64. */
module XxReference {
  import opened Arith
  import opened XxHash

  const P1: bv64 := 11400714785074694791
  const P2: bv64 := 14029467366897019727
  const P3: bv64 := 1609587929392839161
  const P4: bv64 := 9650029242287828579
  const P5: bv64 := 2870177450012600261

  /** The byte at `p`, as a digit. */
  function Digit(s: seq<byte>, p: nat): bv64
    requires p < |s|
  {
    Byte(s[p])
  }

  /** The number that the eight bytes from `p` on write in base 256, the lowest digit first. */
  function Eight(s: seq<byte>, p: nat): bv64
    requires p + 8 <= |s|
  {
    Halves(Four(s, p), Four(s, p + 4))
  }

  function Halves(low: bv64, high: bv64): bv64 {
    low + 0x1_0000_0000 * high
  }

  function Four(s: seq<byte>, p: nat): bv64
    requires p + 4 <= |s|
  {
    Base256(Digit(s, p), Digit(s, p + 1), Digit(s, p + 2), Digit(s, p + 3))
  }

  function Over(x: bv64, down: bv64): bv64
    requires down != 0
  {
    x / down
  }

  function Base256(a: bv64, b: bv64, c: bv64, d: bv64): bv64 {
    a + 256 * b + 65536 * c + 16777216 * d
  }

  /** Rotation by k bits, for up = 2^k and down = 2^(64 - k). */
  function Turn(x: bv64, up: bv64, down: bv64): bv64
    requires down != 0
  {
    Add(Mul(x, up), Over(x, down))
  }

  /** One lane takes in one value. */
  function Taken(lane: bv64, value: bv64): bv64 {
    Mul(Turn(Add(lane, Mul(value, P2)), 0x8000_0000, 0x2_0000_0000), P1)
  }

  function Seed(j: nat): bv64 {
    if j == 0 then P1 + P2 else if j == 1 then P2 else if j == 2 then 0 else 0 - P1
  }

  /** Lane `j` after `n` stripes of 32 bytes. */
  function Lane(s: seq<byte>, j: nat, n: nat): bv64
    requires j < 4 && 32 * n <= |s|
    decreases n
  {
    if n == 0 then Seed(j) else Taken(Lane(s, j, n - 1), Eight(s, 32 * (n - 1) + 8 * j))
  }

  function Merged(h: bv64, lane: bv64): bv64 {
    Add(Mul(Xor(h, Taken(0, lane)), P1), P4)
  }

  /** The lanes joined, after `n` stripes. */
  function United(a: bv64, b: bv64, c: bv64, d: bv64): bv64 {
    var h := Add(Add(Add(Turn(a, 2, 0x8000_0000_0000_0000), Turn(b, 128, 0x200_0000_0000_0000)),
                     Turn(c, 4096, 0x10_0000_0000_0000)), Turn(d, 262144, 0x4000_0000_0000));
    Merged(Merged(Merged(Merged(h, a), b), c), d)
  }

  /** The bytes from `p` on: eight at a time, then four, then single ones. */
  function Consumed(h: bv64, s: seq<byte>, p: nat): bv64
    requires p <= |s|
    decreases |s| - p
  {
    if p + 8 <= |s| then
      Consumed(Add(Mul(Turn(Xor(h, Taken(0, Eight(s, p))), 0x800_0000, 0x20_0000_0000), P1), P4), s, p + 8)
    else if p + 4 <= |s| then
      Singles(Add(Mul(Turn(Xor(h, Mul(Four(s, p), P1)), 0x80_0000, 0x200_0000_0000), P2), P3), s, p + 4)
    else Singles(h, s, p)
  }

  function Singles(h: bv64, s: seq<byte>, p: nat): bv64
    requires p <= |s|
    decreases |s| - p
  {
    if p == |s| then h else Singles(Mul(Turn(Xor(h, Mul(Digit(s, p), P5)), 2048, 0x20_0000_0000_0000), P1), s, p + 1)
  }

  function Mixed(h: bv64): bv64 {
    var a := Mul(Xor(h, Over(h, 0x2_0000_0000)), P2);
    var b := Mul(Xor(a, Over(a, 0x2000_0000)), P3);
    Xor(b, Over(b, 0x1_0000_0000))
  }

  /** The lanes joined, or a constant for inputs shorter than a stripe, and the length. */
  function Start(s: seq<byte>): bv64 {
    var n := |s| / 32;
    var h := if n == 0 then P5 else United(Lane(s, 0, n), Lane(s, 1, n), Lane(s, 2, n), Lane(s, 3, n));
    Add(h, Length(|s|))
  }

  /** The published checksum of `s`. */
  function Checksum(s: seq<byte>): bv64 {
    Mixed(Consumed(Start(s), s, |s| / 32 * 32))
  }

  // ----- the two definitions agree -----

  lemma {:induction false} Turn1(x: bv64)
    ensures Turn(x, 2, 0x8000_0000_0000_0000) == Rotate(x, 1)
  {
    assert x * 2 + x / 0x8000_0000_0000_0000 == (x << 1) | (x >> 63);
  }

  lemma {:induction false} Turn7(x: bv64)
    ensures Turn(x, 128, 0x200_0000_0000_0000) == Rotate(x, 7)
  {
    assert x * 128 + x / 0x200_0000_0000_0000 == (x << 7) | (x >> 57);
  }

  lemma {:induction false} Turn11(x: bv64)
    ensures Turn(x, 2048, 0x20_0000_0000_0000) == Rotate(x, 11)
  {
    assert x * 2048 + x / 0x20_0000_0000_0000 == (x << 11) | (x >> 53);
  }

  lemma {:induction false} Turn12(x: bv64)
    ensures Turn(x, 4096, 0x10_0000_0000_0000) == Rotate(x, 12)
  {
    assert x * 4096 + x / 0x10_0000_0000_0000 == (x << 12) | (x >> 52);
  }

  lemma {:induction false} Turn18(x: bv64)
    ensures Turn(x, 262144, 0x4000_0000_0000) == Rotate(x, 18)
  {
    assert x * 262144 + x / 0x4000_0000_0000 == (x << 18) | (x >> 46);
  }

  lemma {:induction false} Turn23(x: bv64)
    ensures Turn(x, 0x80_0000, 0x200_0000_0000) == Rotate(x, 23)
  {
    assert x * 0x80_0000 + x / 0x200_0000_0000 == (x << 23) | (x >> 41);
  }

  lemma {:induction false} Turn27(x: bv64)
    ensures Turn(x, 0x800_0000, 0x20_0000_0000) == Rotate(x, 27)
  {
    assert x * 0x800_0000 + x / 0x20_0000_0000 == (x << 27) | (x >> 37);
  }

  lemma {:induction false} Turn31(x: bv64)
    ensures Turn(x, 0x8000_0000, 0x2_0000_0000) == Rotate(x, 31)
  {
    assert x * 0x8000_0000 + x / 0x2_0000_0000 == (x << 31) | (x >> 33);
  }

  lemma {:induction false} TakenIsRound(v: bv64, n: bv64)
    ensures Taken(v, n) == Round(v, n)
  {
    hide Turn, Rotate, Add, Mul;
    Turn31(Add(v, Mul(n, P2)));
  }

  lemma {:induction false} MergedIs(h: bv64, lane: bv64)
    ensures Merged(h, lane) == MergeRound(h, lane)
  {
    hide Taken, Round, Add, Mul, Xor;
    TakenIsRound(0, lane);
  }

  lemma {:induction false} UnitedIs(a: Acc)
    ensures United(a.v0, a.v1, a.v2, a.v3) == Converge(a)
  {
    hide Turn, Rotate, Merged, MergeRound, Add;
    Turn1(a.v0);
    Turn7(a.v1);
    Turn12(a.v2);
    Turn18(a.v3);
    var h := Add(Add(Add(Rotate(a.v0, 1), Rotate(a.v1, 7)), Rotate(a.v2, 12)), Rotate(a.v3, 18));
    MergedIs(h, a.v0);
    MergedIs(MergeRound(h, a.v0), a.v1);
    MergedIs(MergeRound(MergeRound(h, a.v0), a.v1), a.v2);
    MergedIs(MergeRound(MergeRound(MergeRound(h, a.v0), a.v1), a.v2), a.v3);
  }

  // ----- bytes -----

  lemma {:induction false} DigitsJoin(a: bv64, b: bv64, c: bv64, d: bv64)
    requires a < 256 && b < 256 && c < 256 && d < 256
    ensures Base256(a, b, c, d) == Quad(a, b, c, d)
    ensures Base256(a, b, c, d) < 0x1_0000_0000
  {
  }

  lemma {:induction false} ByteBound(b: byte)
    ensures Byte(b) < 256
  {
  }

  lemma {:induction false} FourIs(s: seq<byte>, p: nat)
    requires p + 4 <= |s|
    ensures Four(s, p) == HalfWord(s[p..]) < 0x1_0000_0000
  {
    hide Base256, Quad, Byte;
    var t := s[p..];
    assert t[0] == s[p] && t[1] == s[p + 1] && t[2] == s[p + 2] && t[3] == s[p + 3];
    ByteBound(s[p]);
    ByteBound(s[p + 1]);
    ByteBound(s[p + 2]);
    ByteBound(s[p + 3]);
    DigitsJoin(Byte(s[p]), Byte(s[p + 1]), Byte(s[p + 2]), Byte(s[p + 3]));
  }

  lemma {:induction false} HalvesJoin(low: bv64, high: bv64)
    requires low < 0x1_0000_0000 && high < 0x1_0000_0000
    ensures Halves(low, high) == Joined(low, high)
  {
  }

  lemma {:induction false} EightIs(s: seq<byte>, p: nat)
    requires p + 8 <= |s|
    ensures Eight(s, p) == Word(s[p..])
  {
    hide Halves, Joined, Four, HalfWord;
    FourIs(s, p);
    FourIs(s, p + 4);
    assert s[p..][4..] == s[p + 4..];
    HalvesJoin(Four(s, p), Four(s, p + 4));
  }

  // ----- stripes -----

  /** The accumulators after `n` stripes. */
  function Lanes(s: seq<byte>, n: nat): Acc
    requires 32 * n <= |s|
  {
    Acc(Lane(s, 0, n), Lane(s, 1, n), Lane(s, 2, n), Lane(s, 3, n))
  }

  lemma {:induction false} StripeIs(s: seq<byte>, n: nat, t: seq<byte>)
    requires n > 0 && 32 * n <= |s| && t == s[32 * (n - 1)..32 * n]
    ensures Stripe(Lanes(s, n - 1), t) == Lanes(s, n)
  {
    hide Taken, Round, Word, Eight;
    var p := 32 * (n - 1);
    EightIn(s, p, t, 0);
    EightIn(s, p, t, 8);
    EightIn(s, p, t, 16);
    EightIn(s, p, t, 24);
    assert t[0..] == t;
    var a := Lanes(s, n - 1);
    TakenIsRound(a.v0, Eight(s, p));
    TakenIsRound(a.v1, Eight(s, p + 8));
    TakenIsRound(a.v2, Eight(s, p + 16));
    TakenIsRound(a.v3, Eight(s, p + 24));
  }

  lemma {:induction false} EightIn(s: seq<byte>, p: nat, t: seq<byte>, k: nat)
    requires p + 32 <= |s| && t == s[p..p + 32] && k + 8 <= 32
    ensures Eight(s, p + k) == Word(t[k..])
  {
    hide Word, Eight;
    EightIs(s, p + k);
    SameWord(s[p + k..], t[k..]);
  }

  lemma {:induction false} SameWord(a: seq<byte>, b: seq<byte>)
    requires |a| >= 8 && |b| >= 8 && a[..8] == b[..8]
    ensures Word(a) == Word(b)
  {
    hide HalfWord, Joined;
    assert a[4..][..4] == a[..8][4..] && b[4..][..4] == b[..8][4..];
    assert a[..4] == a[..8][..4] && b[..4] == b[..8][..4];
    SameHalf(a, b);
    SameHalf(a[4..], b[4..]);
  }

  lemma {:induction false} SameHalf(a: seq<byte>, b: seq<byte>)
    requires |a| >= 4 && |b| >= 4 && a[..4] == b[..4]
    ensures HalfWord(a) == HalfWord(b)
  {
    hide Quad, Byte;
    assert forall i :: 0 <= i < 4 ==> a[i] == a[..4][i] && b[i] == b[..4][i];
  }

  lemma {:induction false} LanesAre(s: seq<byte>, n: nat)
    requires 32 * n <= |s|
    ensures Fold(Stripe, INIT, s[..32 * n]) == Lanes(s, n)
    decreases n
  {
    hide Stripe, Taken, Eight;
    if n == 0 {
      NoStripes(s);
    } else {
      var t := s[32 * (n - 1)..32 * n];
      LanesAre(s, n - 1);
      assert s[..32 * n] == s[..32 * (n - 1)] + t;
      FoldNext(Stripe, INIT, s[..32 * (n - 1)], t);
      StripeIs(s, n, t);
    }
  }

  lemma {:induction false} NoStripes(s: seq<byte>)
    ensures Fold(Stripe, INIT, s[..0]) == Lanes(s, 0)
  {
  }

  // ----- the bytes after the stripes -----

  lemma {:induction false} SinglesAre(h: bv64, s: seq<byte>, p: nat)
    requires p <= |s|
    ensures Singles(h, s, p) == MixBytes(h, s[p..])
    decreases |s| - p
  {
    hide Turn, Rotate, Add, Mul, Xor;
    if p < |s| {
      var x := Xor(h, Mul(Digit(s, p), P5));
      Turn11(x);
      assert s[p..][1..] == s[p + 1..];
      SinglesAre(Mul(Rotate(x, 11), P1), s, p + 1);
    }
  }

  lemma {:induction false} ConsumedIs(h: bv64, s: seq<byte>, p: nat)
    requires p <= |s|
    ensures Consumed(h, s, p) == MixTail(h, s[p..])
    decreases |s| - p
  {
    hide Turn, Rotate, Add, Mul, Xor, Taken, Round, Eight, Word, Four, HalfWord, Singles, MixBytes;
    if p + 8 <= |s| {
      EightIs(s, p);
      TakenIsRound(0, Eight(s, p));
      var x := Xor(h, Round(0, Word(s[p..])));
      Turn27(x);
      assert s[p..][8..] == s[p + 8..];
      ConsumedIs(Add(Mul(Rotate(x, 27), P1), P4), s, p + 8);
    } else if p + 4 <= |s| {
      FourIs(s, p);
      var x := Xor(h, Mul(HalfWord(s[p..]), P1));
      Turn23(x);
      assert s[p..][4..] == s[p + 4..];
      SinglesAre(Add(Mul(Rotate(x, 23), P2), P3), s, p + 4);
    } else {
      SinglesAre(h, s, p);
    }
  }

  lemma {:induction false} OverIsShift(x: bv64)
    ensures Over(x, 0x2_0000_0000) == Shift(x, 33)
    ensures Over(x, 0x2000_0000) == Shift(x, 29)
    ensures Over(x, 0x1_0000_0000) == Shift(x, 32)
  {
    assert x / 0x2_0000_0000 == x >> 33;
    assert x / 0x2000_0000 == x >> 29;
    assert x / 0x1_0000_0000 == x >> 32;
  }

  lemma {:induction false} MixedIs(h: bv64)
    ensures Mixed(h) == Avalanche(h)
  {
    hide Over, Shift, Mul, Xor;
    OverIsShift(h);
    var a := Mul(Xor(h, Shift(h, 33)), P2);
    OverIsShift(a);
    OverIsShift(Mul(Xor(a, Shift(a, 29)), P3));
  }

  lemma {:induction false} StartIs(s: seq<byte>, n: nat)
    requires n == |s| / 32 && (|s| < WRAP || |s| % WRAP >= 32)
    ensures Begin(Lanes(s, n), |s| % WRAP) == Start(s)
  {
    hide Converge, United, Lane, Add, Length;
    SameLength(|s|);
    UnitedIs(Lanes(s, n));
    if n == 0 {
      NoLanes(s);
    }
  }

  lemma {:induction false} SameLength(n: nat)
    ensures Length(n % WRAP) == Length(n)
  {
    assert n % WRAP % WRAP == n % WRAP;
  }

  lemma {:induction false} NoLanes(s: seq<byte>)
    ensures Add(Lanes(s, 0).v2, P5) == P5
  {
  }

  /** The checksum of the code is the published one. Only an input of 2^64 bytes or more could be taken for a short
      one. */
  lemma {:induction false} HashIsChecksum(s: seq<byte>)
    requires |s| < WRAP || |s| % WRAP >= 32
    ensures Hash(Stripe, INIT, s) == Checksum(s)
  {
    hide Stripe, Lane, Consumed, MixTail, Mixed, Avalanche, Begin, Start;
    var n := |s| / 32;
    LanesAre(s, n);
    assert Stripes(s) == s[..32 * n] && Rest(s) == s[32 * n..];
    StartIs(s, n);
    ConsumedIs(Start(s), s, 32 * n);
    MixedIs(Consumed(Start(s), s, 32 * n));
  }
}
