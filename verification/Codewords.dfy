/** Lists of codes, and the numbers and bytes they are written as. */
module Codewords {
  import opened Arith
  import opened BitStreams

  datatype Codeword = Codeword(code: nat, len: nat)

  function Length(cs: seq<Codeword>): nat {
    if cs == [] then 0 else cs[0].len + Length(cs[1..])
  }

  /** Codes one after the other, the first one at the top. */
  function Packed(cs: seq<Codeword>): nat {
    if cs == [] then 0 else Shl(cs[0].code, Length(cs[1..])) + Packed(cs[1..])
  }

  ghost predicate AllFit(cs: seq<Codeword>) {
    forall k :: 0 <= k < |cs| ==> cs[k].code < Pow2(cs[k].len)
  }

  lemma {:induction false} PackedBound(cs: seq<Codeword>)
    requires AllFit(cs)
    ensures Packed(cs) < Pow2(Length(cs))
  {
    if cs != [] {
      PackedBound(cs[1..]);
      assert cs[0].code < Pow2(cs[0].len);
      BelowTop(cs[0].code, Packed(cs[1..]), cs[0].len, Length(cs[1..]));
    }
  }

  lemma {:induction false} PackedConcat(a: seq<Codeword>, b: seq<Codeword>)
    ensures Length(a + b) == Length(a) + Length(b)
    ensures Packed(a + b) == Shl(Packed(a), Length(b)) + Packed(b)
    decreases |a|
  {
    if a == [] {
      assert a + b == b;
      ShlFacts(0, 0, Length(b));
    } else {
      PackedConcat(a[1..], b);
      assert (a + b)[1..] == a[1..] + b && (a + b)[0] == a[0];
      ShlInParts(a[0].code, Length(a[1..]), Length(b), Packed(a[1..]));
    }
  }

  lemma {:induction false} ShlInParts(c: nat, a: nat, b: nat, x: nat)
    ensures Shl(Shl(c, a) + x, b) == Shl(c, a + b) + Shl(x, b)
  {
    ShlFacts(Shl(c, a), x, b);
    ShlShl(c, a, b);
  }

  lemma {:induction false} BelowTop(f: nat, y: nat, k: nat, w: nat)
    requires y < Pow2(w) && f < Pow2(k)
    ensures Shl(f, w) + y < Pow2(k + w)
  {
    ShlFacts(f, 0, w);
    ShlFacts(f + 1, Pow2(k), w);
    ShlPow2(k, w);
  }

  // ----- codes at the top of a reverse stream -----

  /** The next bits of a stream with `left` bits are the codes, one after the other. */
  ghost predicate Ahead(m: nat, left: nat, cs: seq<Codeword>)
    decreases |cs|
  {
    cs == [] ||
    (cs[0].len <= left && NextBits(m, left, cs[0].len) == cs[0].code && Ahead(m, left - cs[0].len, cs[1..]))
  }

  lemma {:induction false} PackedIsAhead(m: nat, left: nat, cs: seq<Codeword>)
    requires AllFit(cs) && left == Length(cs) && Low(m, left) == Packed(cs)
    ensures Ahead(m, left, cs)
    decreases |cs|
  {
    hide Shl, Shr, Low, Pow2;
    if cs != [] {
      var w, l := cs[0], Length(cs[1..]);
      PackedBound(cs[1..]);
      Split(Packed(cs[1..]), w.code, l);
      LowCut(m, l, w.len);
      PackedIsAhead(m, l, cs[1..]);
    }
  }

  lemma {:induction false} AheadConcat(m: nat, left: nat, a: seq<Codeword>, b: seq<Codeword>)
    requires Ahead(m, left, a + b)
    ensures Ahead(m, left, a) && Length(a) <= left && Ahead(m, left - Length(a), b)
    decreases |a|
  {
    if a == [] {
      assert a + b == b;
    } else {
      assert (a + b)[1..] == a[1..] + b && (a + b)[0] == a[0];
      AheadConcat(m, left - a[0].len, a[1..], b);
    }
  }

  /** A marker bit and the codes below it. */
  function Marked(cs: seq<Codeword>): nat {
    Pow2(Length(cs)) + Packed(cs)
  }

  lemma {:induction false} MarkedIsAhead(cs: seq<Codeword>)
    requires AllFit(cs)
    ensures Marked(cs) > 0 && HighBit(Marked(cs)) == Length(cs) && Ahead(Marked(cs), Length(cs), cs)
  {
    hide Shl, Low, Pow2;
    var l := Length(cs);
    PackedBound(cs);
    assert Pow2(l + 1) == 2 * Pow2(l) by { Pow2Add(1, l); Pow2Values(); }
    HighBitUnique(Marked(cs), l);
    ShlPow2(0, l);
    Pow2Values();
    Split(Packed(cs), 1, l);
    PackedIsAhead(Marked(cs), l, cs);
  }

  // ----- bytes -----

  lemma {:induction false} BytesAreNumber(n: nat, k: nat)
    requires n < Pow2(8 * k)
    ensures LittleEndian(LE(n, k)) == n
    decreases k
  {
    if k > 0 {
      Shl8(0, 8 * (k - 1));
      BytesAreNumber(n / 256, k - 1);
      assert LE(n, k)[1..] == LE(n / 256, k - 1);
    }
  }

  /** A marked list in whole bytes; the last one is never zero. */
  function MarkedBytes(cs: seq<Codeword>): seq<byte> {
    LE(Marked(cs), Length(cs) / 8 + 1)
  }

  lemma {:induction false} BytesOfMarked(cs: seq<Codeword>)
    requires AllFit(cs)
    ensures var s := MarkedBytes(cs); s != [] && s[|s| - 1] != 0 && LittleEndian(s) == Marked(cs)
  {
    hide Shl, Low, LittleEndian, LE;
    var l, s := Length(cs), MarkedBytes(cs);
    MarkedIsAhead(cs);
    Pow2Mono(l + 1, 8 * |s|);
    BytesAreNumber(Marked(cs), |s|);
    var below := s[..|s| - 1];
    if s[|s| - 1] == 0 {
      ZeroOnTop(below);
      assert s == below + [0];
      LittleEndianBound(below);
      Pow2Mono(8 * |below|, l);
      assert false;
    }
  }

  lemma {:induction false} ZeroOnTop(s: seq<byte>)
    ensures LittleEndian(s + [0]) == LittleEndian(s)
  {
    LittleEndianConcat(s, [0]);
    ShlFacts(0, 0, 8 * |s|);
    assert LittleEndian([0]) == 0;
  }
}
