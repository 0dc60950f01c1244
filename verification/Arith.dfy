/** Powers of two, floor logarithms, and bit slices of natural numbers. */
module Arith {

  type byte = b: nat | b < 256

  function Pow2(n: nat): (r: nat)
    ensures r >= 1
  {
    if n == 0 then 1 else 2 * Pow2(n - 1)
  }

  lemma {:induction false} Pow2Add(a: nat, b: nat)
    ensures Pow2(a + b) == Pow2(a) * Pow2(b)
  {
    if a > 0 {
      Pow2Add(a - 1, b);
      assert Pow2(a + b) == 2 * (Pow2(a - 1) * Pow2(b));
      assert 2 * (Pow2(a - 1) * Pow2(b)) == (2 * Pow2(a - 1)) * Pow2(b);
    }
  }

  lemma {:induction false} Pow2Mono(a: nat, b: nat)
    requires a <= b
    ensures Pow2(a) <= Pow2(b)
    ensures a < b ==> 2 * Pow2(a) <= Pow2(b)
  {
    if a < b {
      Pow2Mono(a, b - 1);
    }
  }

  /** The index of the highest set bit, as `15 - bits.LeadingZeros16(n)` computes it. */
  function HighBit(n: nat): (h: nat)
    requires n > 0
    ensures Pow2(h) <= n < Pow2(h + 1)
  {
    HighBitFrom(n, 0)
  }

  function HighBitFrom(n: nat, from: nat): (h: nat)
    requires Pow2(from) <= n
    ensures Pow2(h) <= n < Pow2(h + 1)
    decreases n - Pow2(from)
  {
    if n < Pow2(from + 1) then from else HighBitFrom(n, from + 1)
  }

  lemma {:induction false} HighBitUnique(n: nat, h: nat)
    requires Pow2(h) <= n < Pow2(h + 1)
    ensures HighBit(n) == h
  {
    var g := HighBit(n);
    if g < h {
      Pow2Mono(g + 1, h);
    } else if h < g {
      Pow2Mono(h + 1, g);
    }
  }

  /** Values of the small powers the formats use. */
  lemma {:induction false} Pow2Values()
    ensures Pow2(0) == 1 && Pow2(1) == 2 && Pow2(2) == 4 && Pow2(3) == 8 && Pow2(4) == 16
    ensures Pow2(5) == 32 && Pow2(6) == 64 && Pow2(7) == 128 && Pow2(8) == 256 && Pow2(9) == 512
    ensures Pow2(10) == 1024 && Pow2(11) == 2048 && Pow2(12) == 4096
  {
    assert Pow2(4) == 16;
    assert Pow2(8) == 256;
  }

  // ----- shifts and low bits, as repeated doubling and halving -----

  function Shl(n: nat, b: nat): nat {
    if b == 0 then n else 2 * Shl(n, b - 1)
  }

  function Shr(n: nat, b: nat): nat {
    if b == 0 then n else Shr(n, b - 1) / 2
  }

  /** The low `b` bits of `n`: `n & ((1 << b) - 1)`. */
  function Low(n: nat, b: nat): (r: nat)
    ensures r < Pow2(b)
  {
    if b == 0 then 0 else n % 2 + 2 * Low(n / 2, b - 1)
  }

  /** The `b` bits of `n` that start at bit `p`. */
  function Slice(n: nat, p: nat, b: nat): (r: nat)
    ensures r < Pow2(b)
  {
    Low(Shr(n, p), b)
  }

  lemma {:induction false} ShlFacts(n: nat, m: nat, b: nat)
    ensures n <= m ==> Shl(n, b) <= Shl(m, b)
    ensures Shl(n + m, b) == Shl(n, b) + Shl(m, b)
    ensures Shl(n + 1, b) == Shl(n, b) + Pow2(b)
    ensures Shl(2 * n, b) == 2 * Shl(n, b)
  {
    if b > 0 {
      ShlFacts(n, m, b - 1);
    }
  }

  lemma {:induction false} ShlShl(n: nat, a: nat, b: nat)
    ensures Shl(Shl(n, a), b) == Shl(n, a + b)
  {
    if b > 0 {
      ShlShl(n, a, b - 1);
    }
  }

  lemma {:induction false} ShlIsProduct(n: nat, b: nat)
    ensures Shl(n, b) == n * Pow2(b)
  {
    if b > 0 {
      ShlIsProduct(n, b - 1);
    }
  }

  lemma {:induction false} ShlPow2(h: nat, b: nat)
    ensures Shl(Pow2(h), b) == Pow2(h + b)
  {
    if b > 0 {
      ShlPow2(h, b - 1);
    }
  }

  lemma {:induction false} ShrShr(n: nat, a: nat, b: nat)
    ensures Shr(Shr(n, a), b) == Shr(n, a + b)
  {
    if b > 0 {
      ShrShr(n, a, b - 1);
    }
  }

  /** A number is its low bits plus its high part, and that splitting is unique. */
  lemma {:induction false} Join(n: nat, b: nat)
    ensures n == Low(n, b) + Shl(Shr(n, b), b)
    decreases b
  {
    if b > 0 {
      Join(n / 2, b - 1);
      ShrShr(n, 1, b - 1);
      assert Shr(n, 1) == n / 2;
    }
  }

  lemma {:induction false} Split(l: nat, h: nat, b: nat)
    requires l < Pow2(b)
    ensures Low(l + Shl(h, b), b) == l && Shr(l + Shl(h, b), b) == h
    decreases b
  {
    if b > 0 {
      var n := l + Shl(h, b);
      assert n / 2 == l / 2 + Shl(h, b - 1) && n % 2 == l % 2;
      Split(l / 2, h, b - 1);
      ShrShr(n, 1, b - 1);
      assert Shr(n, 1) == n / 2;
    }
  }

  lemma {:induction false} SmallLow(n: nat, b: nat)
    requires n < Pow2(b)
    ensures Low(n, b) == n
  {
    Split(n, 0, b);
    ShlFacts(0, 0, b);
  }

  /** Adding a multiple of 2^b leaves the low bits alone. */
  lemma {:induction false} LowOfSum(n: nat, z: nat, b: nat)
    ensures Low(n + Shl(z, b), b) == Low(n, b)
  {
    Join(n, b);
    ShlFacts(Shr(n, b), z, b);
    Split(Low(n, b), Shr(n, b) + z, b);
  }

  /** The low b+c bits are the low b bits and the c bits above them. */
  lemma {:induction false} LowSplit(n: nat, b: nat, c: nat)
    ensures Low(n, b + c) == Low(n, b) + Shl(Low(Shr(n, b), c), b)
    decreases b
  {
    if b > 0 {
      LowSplit(n / 2, b - 1, c);
      ShrShr(n, 1, b - 1);
      assert Shr(n, 1) == n / 2;
    }
  }

  lemma {:induction false} LowCut(n: nat, b: nat, c: nat)
    ensures Low(Low(n, b + c), b) == Low(n, b)
    ensures Shr(Low(n, b + c), b) == Low(Shr(n, b), c)
  {
    LowSplit(n, b, c);
    Split(Low(n, b), Low(Shr(n, b), c), b);
  }

  /** A slice splits into its low part and the slice above it. */
  lemma {:induction false} SliceCut(n: nat, p: nat, b: nat, c: nat)
    ensures Slice(n, p, b + c) == Slice(n, p, b) + Shl(Slice(n, p + b, c), b)
    ensures Low(Slice(n, p, b + c), b) == Slice(n, p, b)
    ensures Shr(Slice(n, p, b + c), b) == Slice(n, p + b, c)
  {
    LowSplit(Shr(n, p), b, c);
    LowCut(Shr(n, p), b, c);
    ShrShr(n, p, b);
  }

  /** Shifting right by `b` finds the multiple of 2^b at or just below `y`. */
  lemma {:induction false} ShrExact(n: nat, y: nat, b: nat)
    ensures n == Shr(y, b) <==> Shl(n, b) <= y < Shl(n, b) + Pow2(b)
  {
    Join(y, b);
    if Shl(n, b) <= y < Shl(n, b) + Pow2(b) {
      Split(y - Shl(n, b), n, b);
    }
  }

  // ----- byte strings -----

  /** A little-endian byte string as a number. */
  function LittleEndian(s: seq<byte>): (r: nat) {
    if s == [] then 0 else s[0] + 256 * LittleEndian(s[1..])
  }

  /** `n` as `k` little-endian bytes; higher bits are cut off, as a Go conversion does. */
  function LE(n: nat, k: nat): (r: seq<byte>)
    ensures |r| == k
  {
    if k == 0 then [] else [n % 256] + LE(n / 256, k - 1)
  }

  lemma {:induction false} Shl8(n: nat, b: nat)
    ensures Shl(n, b + 8) == 256 * Shl(n, b)
    ensures Pow2(b + 8) == 256 * Pow2(b)
  {
    assert Shl(n, b + 2) == 4 * Shl(n, b) && Pow2(b + 2) == 4 * Pow2(b);
    assert Shl(n, b + 4) == 4 * Shl(n, b + 2) && Pow2(b + 4) == 4 * Pow2(b + 2);
    assert Shl(n, b + 6) == 4 * Shl(n, b + 4) && Pow2(b + 6) == 4 * Pow2(b + 4);
    assert Shl(n, b + 8) == 4 * Shl(n, b + 6) && Pow2(b + 8) == 4 * Pow2(b + 6);
  }

  lemma {:induction false} LittleEndianBound(s: seq<byte>)
    ensures LittleEndian(s) < Pow2(8 * |s|)
  {
    if s != [] {
      LittleEndianBound(s[1..]);
      Shl8(0, 8 * |s[1..]|);
    }
  }

  lemma {:induction false} LittleEndianConcat(s: seq<byte>, t: seq<byte>)
    ensures LittleEndian(s + t) == LittleEndian(s) + Shl(LittleEndian(t), 8 * |s|)
  {
    if s == [] {
      assert s + t == t;
    } else {
      LittleEndianConcat(s[1..], t);
      assert (s + t)[1..] == s[1..] + t;
      Shl8(LittleEndian(t), 8 * |s[1..]|);
    }
  }

  lemma {:induction false} LittleEndianSplit(s: seq<byte>, t: seq<byte>)
    ensures Shr(LittleEndian(s + t), 8 * |s|) == LittleEndian(t)
    ensures Low(LittleEndian(s + t), 8 * |s|) == LittleEndian(s)
  {
    LittleEndianConcat(s, t);
    LittleEndianBound(s);
    Split(LittleEndian(s), LittleEndian(t), 8 * |s|);
  }

  /** Cutting a byte string at byte `k` cuts its number at bit 8k. */
  lemma {:induction false} LittleEndianCut(s: seq<byte>, k: nat)
    requires k <= |s|
    ensures Shr(LittleEndian(s), 8 * k) == LittleEndian(s[k..])
    ensures Low(LittleEndian(s), 8 * k) == LittleEndian(s[..k])
  {
    LittleEndianSplit(s[..k], s[k..]);
    assert s == s[..k] + s[k..];
  }

  // ----- division by a variable -----

  lemma {:induction false} MulMono(a: int, b: int, d: int)
    requires a <= b && 0 <= d
    ensures a * d <= b * d
  {
  }

  lemma {:induction false} DivModUnique(n: int, d: int, q: int, r: int)
    requires d > 0 && n == q * d + r && 0 <= r < d
    ensures n / d == q && n % d == r
  {
    var q', r' := n / d, n % d;
    assert n == q' * d + r' && 0 <= r' < d;
    if q' < q {
      MulMono(q' + 1, q, d);
    } else if q < q' {
      MulMono(q + 1, q', d);
    }
  }

  // ----- sets -----

  lemma {:induction false} SubsetSize<T>(a: set<T>, b: set<T>)
    requires a <= b
    ensures |a| <= |b|
    ensures |a| == |b| ==> a == b
  {
    assert b == a + (b - a);
    assert |b| == |a| + |b - a|;
  }
}
