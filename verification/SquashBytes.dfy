/** Little-endian fields, fixed-layout records and in-place patches of byte buffers. */
module SquashBytes {
  import opened Options
  import opened Arith

  type bytes = seq<byte>

  /** 256^k, the numbers that fit `k` bytes. */
  function Pow256(k: nat): (r: nat)
    ensures r >= 1
  {
    if k == 0 then 1 else 256 * Pow256(k - 1)
  }

  lemma {:induction false} LEDecode(n: nat, k: nat)
    requires n < Pow256(k)
    ensures LittleEndian(LE(n, k)) == n
    decreases k
  {
    if k > 0 {
      LEDecode(n / 256, k - 1);
      assert LE(n, k)[1..] == LE(n / 256, k - 1);
    }
  }

  lemma {:induction false} Pow256Values()
    ensures Pow256(2) == 65536 && Pow256(4) == 4294967296
  {
    assert Pow256(1) == 256;
    assert Pow256(3) == 16777216;
  }

  // ----- records of fixed-width fields -----

  datatype Field = Field(value: nat, width: nat)

  function Encode(fs: seq<Field>): bytes {
    if fs == [] then [] else LE(fs[0].value, fs[0].width) + Encode(fs[1..])
  }

  function Width(ws: seq<nat>): nat {
    if ws == [] then 0 else ws[0] + Width(ws[1..])
  }

  /** Read fields of the given widths; None when the bytes run out. */
  function Decode(s: bytes, ws: seq<nat>): Option<seq<nat>> {
    if ws == [] then Some([])
    else if |s| < ws[0] then None
    else match Decode(s[ws[0]..], ws[1..])
         case None => None
         case Some(vs) => Some([LittleEndian(s[..ws[0]])] + vs)
  }

  function Widths(fs: seq<Field>): (ws: seq<nat>)
    ensures |ws| == |fs|
  {
    if fs == [] then [] else [fs[0].width] + Widths(fs[1..])
  }

  function Values(fs: seq<Field>): (vs: seq<nat>)
    ensures |vs| == |fs|
  {
    if fs == [] then [] else [fs[0].value] + Values(fs[1..])
  }

  predicate Fits(fs: seq<Field>) {
    forall i :: 0 <= i < |fs| ==> fs[i].value < Pow256(fs[i].width)
  }

  lemma {:induction false} EncodeLength(fs: seq<Field>)
    ensures |Encode(fs)| == Width(Widths(fs))
  {
    if fs != [] {
      EncodeLength(fs[1..]);
      assert Widths(fs)[1..] == Widths(fs[1..]);
    }
  }

  /** Fields that fit their width are read back, whatever follows them. */
  lemma {:induction false} DecodeEncode(fs: seq<Field>, rest: bytes)
    requires Fits(fs)
    ensures Decode(Encode(fs) + rest, Widths(fs)) == Some(Values(fs))
    decreases |fs|
  {
    if fs != [] {
      var f, more := fs[0], fs[1..];
      var s := Encode(fs) + rest;
      assert LittleEndian(s[..f.width]) == f.value by {
        LEDecode(f.value, f.width);
        assert s[..f.width] == LE(f.value, f.width);
      }
      assert s[f.width..] == Encode(more) + rest;
      assert Widths(fs)[1..] == Widths(more);
      assert Fits(more);
      DecodeEncode(more, rest);
    }
  }

  // ----- patches -----

  /** `binary.LittleEndian.PutUint..(s[at:], ..)`. */
  datatype Patch = Patch(at: nat, content: bytes)

  predicate InRange(size: nat, p: Patch) {
    p.at + |p.content| <= size
  }

  predicate AllInRange(size: nat, ps: seq<Patch>) {
    forall i :: 0 <= i < |ps| ==> InRange(size, ps[i])
  }

  function Apply(s: bytes, p: Patch): (r: bytes)
    ensures |r| == |s|
  {
    if InRange(|s|, p) then s[..p.at] + p.content + s[p.at + |p.content|..] else s
  }

  function ApplyAll(s: bytes, ps: seq<Patch>): (r: bytes)
    ensures |r| == |s|
  {
    if ps == [] then s else Apply(ApplyAll(s, ps[..|ps| - 1]), ps[|ps| - 1])
  }

  function Shift(ps: seq<Patch>, d: nat): (r: seq<Patch>)
    ensures |r| == |ps| && forall i :: 0 <= i < |ps| ==> r[i] == Patch(ps[i].at + d, ps[i].content)
  {
    seq(|ps|, i requires 0 <= i < |ps| => Patch(ps[i].at + d, ps[i].content))
  }

  /** Patching a part of a buffer leaves the rest alone. */
  lemma {:induction false} ApplyInPart(a: bytes, s: bytes, b: bytes, ps: seq<Patch>)
    requires AllInRange(|s|, ps)
    ensures AllInRange(|a + s + b|, Shift(ps, |a|))
    ensures ApplyAll(a + s + b, Shift(ps, |a|)) == a + ApplyAll(s, ps) + b
    decreases |ps|
  {
    if ps != [] {
      var init, p := ps[..|ps| - 1], ps[|ps| - 1];
      assert AllInRange(|s|, init);
      ApplyInPart(a, s, b, init);
      assert Shift(ps, |a|)[..|ps| - 1] == Shift(init, |a|);
      ApplyOneInPart(a, ApplyAll(s, init), b, p);
    }
  }

  lemma {:induction false} ApplyOneInPart(a: bytes, s: bytes, b: bytes, p: Patch)
    requires InRange(|s|, p)
    ensures InRange(|a + s + b|, Patch(p.at + |a|, p.content))
    ensures Apply(a + s + b, Patch(p.at + |a|, p.content)) == a + Apply(s, p) + b
  {
    var t := a + s + b;
    var n := p.at + |p.content|;
    assert t[..p.at + |a|] == a + s[..p.at];
    assert t[|a| + n..] == s[n..] + b;
  }

  lemma {:induction false} ApplyConcat(s: bytes, ps: seq<Patch>, qs: seq<Patch>)
    requires AllInRange(|s|, ps) && AllInRange(|s|, qs)
    ensures AllInRange(|s|, ps + qs)
    ensures ApplyAll(s, ps + qs) == ApplyAll(ApplyAll(s, ps), qs)
    decreases |qs|
  {
    if qs == [] {
      assert ps + qs == ps;
    } else {
      var n := |qs| - 1;
      assert (ps + qs)[..|ps| + n] == ps + qs[..n];
      ApplyConcat(s, ps, qs[..n]);
    }
  }

  // ----- buffers made of pieces -----

  /** A piece of a buffer as it was first written, and the patches it gets later. */
  datatype Piece = Piece(raw: bytes, patches: seq<Patch>)

  predicate PieceOk(p: Piece) {
    AllInRange(|p.raw|, p.patches)
  }

  predicate PiecesOk(ps: seq<Piece>) {
    forall i :: 0 <= i < |ps| ==> PieceOk(ps[i])
  }

  function Raw(ps: seq<Piece>): bytes {
    if ps == [] then [] else Raw(ps[..|ps| - 1]) + ps[|ps| - 1].raw
  }

  function Final(ps: seq<Piece>): (r: bytes)
    ensures |r| == |Raw(ps)|
  {
    if ps == [] then []
    else Final(ps[..|ps| - 1]) + ApplyAll(ps[|ps| - 1].raw, ps[|ps| - 1].patches)
  }

  /** All patches of the buffer, at their places in it. */
  function Patches(ps: seq<Piece>): seq<Patch> {
    if ps == [] then []
    else Patches(ps[..|ps| - 1]) + Shift(ps[|ps| - 1].patches, |Raw(ps[..|ps| - 1])|)
  }

  /** The fixup pass over the whole buffer patches every piece in its own place and moves nothing. */
  lemma {:induction false} FixupPass(ps: seq<Piece>)
    requires PiecesOk(ps)
    ensures AllInRange(|Raw(ps)|, Patches(ps))
    ensures ApplyAll(Raw(ps), Patches(ps)) == Final(ps)
  {
    if ps != [] {
      var init, last := ps[..|ps| - 1], ps[|ps| - 1];
      assert PiecesOk(init) && PieceOk(last);
      FixupPass(init);
      FixupLast(Raw(init), Patches(init), last);
    }
  }

  lemma {:induction false} FixupLast(a: bytes, ps: seq<Patch>, last: Piece)
    requires AllInRange(|a|, ps) && PieceOk(last)
    ensures AllInRange(|a + last.raw|, ps + Shift(last.patches, |a|))
    ensures ApplyAll(a + last.raw, ps + Shift(last.patches, |a|)) == ApplyAll(a, ps) + ApplyAll(last.raw, last.patches)
  {
    var s := last.raw;
    ApplyInPart([], a, s, ps);
    assert [] + a + s == a + s;
    assert Shift(ps, 0) == ps;
    var a' := ApplyAll(a, ps);
    assert [] + a' + s == a' + s;
    ApplyInPart(a', s, [], last.patches);
    assert a' + s + [] == a' + s;
    var s' := ApplyAll(s, last.patches);
    assert a' + s' + [] == a' + s';
    ApplyConcat(a + s, ps, Shift(last.patches, |a|));
  }

  // ----- finding pieces -----

  /** Where piece `i` starts. */
  function Offset(ps: seq<Piece>, i: nat): nat
    requires i <= |ps|
  {
    if i == 0 then 0 else Offset(ps, i - 1) + |ps[i - 1].raw|
  }

  lemma {:induction false} OffsetPrefix(ps: seq<Piece>, qs: seq<Piece>, i: nat)
    requires i <= |ps| && ps <= qs
    ensures Offset(ps, i) == Offset(qs, i)
    decreases i
  {
    if i > 0 {
      OffsetPrefix(ps, qs, i - 1);
    }
  }

  lemma {:induction false} OffsetOfEnd(ps: seq<Piece>)
    ensures Offset(ps, |ps|) == |Raw(ps)|
    decreases |ps|
  {
    if ps != [] {
      OffsetOfEnd(ps[..|ps| - 1]);
      OffsetPrefix(ps[..|ps| - 1], ps, |ps| - 1);
    }
  }

  /** The final buffer up to piece `i` is the final form of the first `i` pieces. */
  lemma {:induction false} FinalPrefix(ps: seq<Piece>, i: nat)
    requires i <= |ps|
    ensures Offset(ps, i) == |Final(ps[..i])| <= |Final(ps)|
    ensures Final(ps)[..Offset(ps, i)] == Final(ps[..i])
    decreases |ps| - i
  {
    if i < |ps| {
      FinalPrefix(ps, i + 1);
      assert ps[..i + 1][..i] == ps[..i];
      assert Final(ps)[..Offset(ps, i)] == Final(ps)[..Offset(ps, i + 1)][..Offset(ps, i)];
    } else {
      assert ps[..i] == ps;
      OffsetOfEnd(ps);
    }
  }

  lemma {:induction false} FinalConcat(a: seq<Piece>, b: seq<Piece>)
    ensures Final(a + b) == Final(a) + Final(b)
    decreases |b|
  {
    if b == [] {
      assert a + b == a;
    } else {
      var init, last := b[..|b| - 1], b[|b| - 1];
      FinalConcat(a, init);
      assert (a + b)[..|a + b| - 1] == a + init;
      var x := ApplyAll(last.raw, last.patches);
      assert Final(a) + Final(init) + x == Final(a) + (Final(init) + x);
    }
  }

  lemma {:induction false} FinalCons(p: Piece, x: bytes, ps: seq<Piece>, all: seq<Piece>)
    requires ApplyAll(p.raw, p.patches) == x && all == [p] + ps
    ensures Final(all) == x + Final(ps)
  {
    FinalConcat([p], ps);
    assert Final([p]) == [] + x;
  }

  /** Pieces that follow each other lie next to each other in the final buffer, patched. */
  lemma {:induction false} FinalRange(ps: seq<Piece>, part: seq<Piece>, lo: nat, hi: nat, p: nat, q: nat)
    requires lo <= hi <= |ps| && part == ps[lo..hi] && p == Offset(ps, lo) && q == Offset(ps, hi)
    ensures p <= q <= |Final(ps)| && Final(ps)[p..q] == Final(part)
  {
    FinalPrefix(ps, lo);
    FinalPrefix(ps, hi);
    assert ps[..hi] == ps[..lo] + part;
    FinalConcat(ps[..lo], part);
    var whole := Final(ps)[..q];
    assert whole == Final(ps[..lo]) + Final(part);
    assert Final(ps)[p..q] == whole[p..];
  }

  /** Piece `i` lies in the final buffer at its offset, patched. */
  lemma {:induction false} PieceAt(ps: seq<Piece>, i: nat)
    requires i < |ps|
    ensures Offset(ps, i + 1) == Offset(ps, i) + |ps[i].raw| <= |Final(ps)|
    ensures Final(ps)[Offset(ps, i)..Offset(ps, i + 1)] == ApplyAll(ps[i].raw, ps[i].patches)
  {
    assert ps[i..i + 1] == [ps[i]];
    FinalRange(ps, [ps[i]], i, i + 1, Offset(ps, i), Offset(ps, i + 1));
    assert Final([ps[i]]) == [] + ApplyAll(ps[i].raw, ps[i].patches);
  }
}
