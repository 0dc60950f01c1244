/** Writing an FSE distribution as section 4.1.1 of RFC 8878 describes it, and reading it back with `readFSE`. */
module FseEncode {
  import opened Arith
  import opened BitStreams
  import opened Codewords
  import opened FseSpread
  import opened FseTable
  import opened FseHeader

  // ----- codewords from the lowest bit up -----

  /** The codewords one after the other, the first one in the lowest bits. */
  function Number(cs: seq<Codeword>): nat {
    if cs == [] then 0 else cs[0].code + Shl(Number(cs[1..]), cs[0].len)
  }

  /** The codewords stand in `n` from bit `p` on. */
  ghost predicate StandsAt(n: nat, p: nat, cs: seq<Codeword>)
    decreases |cs|
  {
    cs == [] || (Slice(n, p, cs[0].len) == cs[0].code && StandsAt(n, p + cs[0].len, cs[1..]))
  }

  lemma {:induction false} StandsInSlice(n: nat, p: nat, cs: seq<Codeword>)
    requires AllFit(cs) && Slice(n, p, Length(cs)) == Number(cs)
    ensures StandsAt(n, p, cs)
    decreases |cs|
  {
    if cs != [] {
      var w := cs[0].len;
      SliceCut(n, p, w, Length(cs[1..]));
      Split(cs[0].code, Number(cs[1..]), w);
      StandsInSlice(n, p + w, cs[1..]);
    }
  }

  lemma {:induction false} StandsConcat(n: nat, p: nat, a: seq<Codeword>, b: seq<Codeword>)
    ensures StandsAt(n, p, a + b) <==> StandsAt(n, p, a) && StandsAt(n, p + Length(a), b)
    ensures Length(a + b) == Length(a) + Length(b)
    decreases |a|
  {
    if a == [] {
      assert a + b == b;
    } else {
      assert (a + b)[1..] == a[1..] + b;
      StandsConcat(n, p + a[0].len, a[1..], b);
    }
  }

  // ----- the encoder -----

  /** How many zero counts follow at `i`. */
  function ZerosFrom(counts: seq<Count>, i: nat): (z: nat)
    requires i <= |counts|
    ensures i + z <= |counts| && (forall j :: i <= j < i + z ==> counts[j] == 0)
    ensures i + z < |counts| ==> counts[i + z] != 0
    decreases |counts| - i
  {
    if i < |counts| && counts[i] == 0 then 1 + ZerosFrom(counts, i + 1) else 0
  }

  /** The repeat flags for `z` more zeros: threes while there are three, then what is left. */
  function Flags(z: nat): seq<Codeword> {
    if z >= 3 then [Codeword(3, 2)] + Flags(z - 3) else [Codeword(z, 2)]
  }

  /** The cells that the counts from `i` on take. */
  function CellsFrom(counts: seq<Count>, i: nat): nat
    requires i <= |counts|
    decreases |counts| - i
  {
    if i == |counts| then 0 else Weight(counts[i]) + CellsFrom(counts, i + 1)
  }

  /** A count is coded as itself plus one, a value between 0 and the number of cells left plus one. */
  function Coded(count: Count, left: nat): Codeword
    requires Weight(count) <= left
  {
    var (code, width) := WriteCount(count + 1, left + 1);
    Codeword(code, width)
  }

  /** The counts from `i` on: after a zero count flags say how many more zeros follow. */
  function EncodeCounts(counts: seq<Count>, i: nat): seq<Codeword>
    requires i <= |counts|
    decreases |counts| - i
  {
    if i == |counts| then []
    else if counts[i] != 0 then [Coded(counts[i], CellsFrom(counts, i))] + EncodeCounts(counts, i + 1)
    else
      var z := ZerosFrom(counts, i + 1);
      [Coded(0, CellsFrom(counts, i))] + (Flags(z) + EncodeCounts(counts, i + 1 + z))
  }

  /** Four bits of accuracy, then the counts. */
  function EncodeHeader(accuracy: nat, counts: seq<Count>): seq<Codeword>
    requires accuracy >= 5
  {
    [Codeword(accuracy - 5, 4)] + EncodeCounts(counts, 0)
  }

  /** A distribution that can be written: it fills the table, and its last count is not zero. */
  ghost predicate Writable(accuracy: nat, counts: seq<Count>) {
    && 5 <= accuracy <= 20 && counts != [] && counts[|counts| - 1] != 0
    && CellsFrom(counts, 0) == Pow2(accuracy)
  }

  /** The example of section 4.1.1: with 156 cells left, values up to 97 take 7 bits, the others 8. */
  lemma {:induction false} ExampleOfTheStandard(v: nat)
    requires v <= 157
    ensures WriteCount(v, 157) == if v <= 97 then (v, 7) else if v <= 127 then (v, 8) else (v + 98, 8)
  {
    Pow2Values();
    HighBitUnique(157, 7);
  }

  // ----- reading it -----

  /** Flags that say `z` are read as `z` more zeros. */
  lemma {:induction false} FlagsAreRead(n: nat, p: nat, from: nat, z: nat, maxSym: nat)
    requires StandsAt(n, p, Flags(z)) && from + z <= maxSym
    ensures ReadRun(n, p, from, maxSym) == (from + z, p + Length(Flags(z)))
    decreases z
  {
    if z >= 3 {
      assert Flags(z)[1..] == Flags(z - 3);
      FlagsAreRead(n, p + 2, from + 3, z - 3, maxSym);
    } else {
      assert Flags(z)[1..] == [];
    }
  }

  lemma {:induction false} SomeLeft(counts: seq<Count>, i: nat)
    requires i < |counts| && counts[|counts| - 1] != 0
    ensures CellsFrom(counts, i) > 0
    decreases |counts| - i
  {
    if i < |counts| - 1 {
      SomeLeft(counts, i + 1);
    }
  }

  lemma {:induction false} CellsOfZeros(counts: seq<Count>, i: nat, z: nat)
    requires i + z <= |counts| && forall j :: i <= j < i + z ==> counts[j] == 0
    ensures CellsFrom(counts, i) == CellsFrom(counts, i + z) && counts[..i] + Zeros(z) == counts[..i + z]
    decreases z
  {
    if z > 0 {
      CellsOfZeros(counts, i + 1, z - 1);
    }
  }

  /** Bits that hold the encoding of the counts from `i` on are read as these counts, and end where it ends. */
  lemma {:induction false} CountsAreRead(n: nat, p: nat, counts: seq<Count>, i: nat, maxSym: nat)
    requires i <= |counts| <= maxSym + 1 && (i < |counts| ==> counts[|counts| - 1] != 0)
    requires StandsAt(n, p, EncodeCounts(counts, i))
    ensures ReadCounts(n, p, CellsFrom(counts, i) + 1, counts[..i], false, maxSym) ==
      Counts(counts, 1, p + Length(EncodeCounts(counts, i)))
    decreases |counts| - i, 1
  {
    hide ReadCount, ReadRun;
    if i == |counts| {
      assert counts[..i] == counts;
    } else {
      if counts[i] != 0 {
        NonZeroIsRead(n, p, counts, i, maxSym);
      } else {
        ZeroIsRead(n, p, counts, i, maxSym);
      }
    }
  }

  lemma {:induction false} CodedIsRead(n: nat, p: nat, count: Count, left: nat)
    requires Weight(count) <= left && Slice(n, p, Coded(count, left).len) == Coded(count, left).code
    ensures ReadCount(n, p, left + 1) == (count + 1, Coded(count, left).len)
  {
    CountRoundTrip(n, p, left + 1, count + 1);
  }

  lemma {:induction false} ThisFits(counts: seq<Count>, i: nat)
    requires i < |counts|
    ensures CellsFrom(counts, i) == Weight(counts[i]) + CellsFrom(counts, i + 1)
  {
  }

  lemma {:induction false} ZeroFits(counts: seq<Count>, i: nat)
    requires i < |counts| && counts[i] == 0
    ensures Weight(0) == 0 && CellsFrom(counts, i) == CellsFrom(counts, i + 1)
  {
  }

  /** What the bits of a count that is not zero say. */
  lemma {:induction false} NonZeroStands(n: nat, p: nat, counts: seq<Count>, i: nat, left: nat, w: nat)
    requires i < |counts| && counts[i] != 0 && left == CellsFrom(counts, i) && w == Coded(counts[i], left).len
    requires StandsAt(n, p, EncodeCounts(counts, i))
    ensures ReadCount(n, p, left + 1) == (counts[i] + 1, w)
    ensures StandsAt(n, p + w, EncodeCounts(counts, i + 1))
    ensures Length(EncodeCounts(counts, i)) == w + Length(EncodeCounts(counts, i + 1))
  {
    hide ReadCount, Slice, Coded, CellsFrom, Weight;
    ThisFits(counts, i);
    var c, rest := Coded(counts[i], left), EncodeCounts(counts, i + 1);
    assert ([c] + rest)[1..] == rest;
    CodedIsRead(n, p, counts[i], left);
  }

  lemma {:induction false} OneCountStep(
    n: nat, p: nat, w: nat, remaining: nat, before: seq<Count>, c: Count, after: seq<Count>, maxSym: nat)
    requires remaining > 1 && |before| <= maxSym && c != 0 && Weight(c) < remaining && after == before + [c]
    requires ReadCount(n, p, remaining) == (c + 1, w)
    ensures ReadCounts(n, p, remaining, before, false, maxSym) ==
      ReadCounts(n, p + w, remaining - Weight(c), after, false, maxSym)
  {
    hide ReadCount, ReadRun;
    assert before + [c + 1 - 1] == after;
  }

  /** A count that is not zero, and the rest. */
  lemma {:induction false} NonZeroIsRead(n: nat, p: nat, counts: seq<Count>, i: nat, maxSym: nat)
    requires i < |counts| <= maxSym + 1 && counts[|counts| - 1] != 0 && counts[i] != 0
    requires StandsAt(n, p, EncodeCounts(counts, i))
    ensures ReadCounts(n, p, CellsFrom(counts, i) + 1, counts[..i], false, maxSym) ==
      Counts(counts, 1, p + Length(EncodeCounts(counts, i)))
    decreases |counts| - i, 0
  {
    hide ReadCount, ReadCounts, Coded, EncodeCounts, StandsAt, Length;
    var left := CellsFrom(counts, i);
    var w := Coded(counts[i], left).len;
    NonZeroStands(n, p, counts, i, left, w);
    OneCountStep(n, p, w, left + 1, counts[..i], counts[i], counts[..i + 1], maxSym);
    CountsAreRead(n, p + w, counts, i + 1, maxSym);
  }

  /** What the bits of a zero count and of the flags after it say. */
  lemma {:induction false} ZeroStands(n: nat, p: nat, counts: seq<Count>, i: nat, left: nat, w: nat, z: nat, q: nat)
    requires i < |counts| && counts[i] == 0 && left == CellsFrom(counts, i) && w == Coded(0, left).len
    requires z == ZerosFrom(counts, i + 1) && q == p + w + Length(Flags(z))
    requires StandsAt(n, p, EncodeCounts(counts, i))
    ensures ReadCount(n, p, left + 1) == (1, w) && StandsAt(n, p + w, Flags(z))
    ensures StandsAt(n, q, EncodeCounts(counts, i + 1 + z))
    ensures p + Length(EncodeCounts(counts, i)) == q + Length(EncodeCounts(counts, i + 1 + z))
  {
    hide ReadCount, Slice, Coded, Flags, CellsFrom, Weight;
    ZeroFits(counts, i);
    var c, fs, rest := Coded(0, left), Flags(z), EncodeCounts(counts, i + 1 + z);
    assert ([c] + (fs + rest))[1..] == fs + rest;
    StandsConcat(n, p + w, fs, rest);
    CodedIsRead(n, p, 0, left);
  }

  lemma {:induction false} OneZeroStep(
    n: nat, p: nat, w: nat, remaining: nat, before: seq<Count>, z: nat, q: nat, after: seq<Count>, maxSym: nat)
    requires remaining > 1 && |before| + 1 + z <= maxSym && ReadCount(n, p, remaining) == (1, w)
    requires ReadRun(n, p + w, |before| + 1, maxSym) == (|before| + 1 + z, q) && after == before + [0] + Zeros(z)
    ensures ReadCounts(n, p, remaining, before, false, maxSym) == ReadCounts(n, q, remaining, after, false, maxSym)
  {
    hide ReadCount, ReadRun;
    var c: Count := 0;
    assert before + [1 - 1] == before + [c];
    assert ReadCounts(n, p, remaining, before, false, maxSym) ==
      ReadCounts(n, p + w, remaining, before + [c], true, maxSym);
  }

  /** A zero count, the flags for those after it, and the rest. */
  lemma {:induction false} ZeroIsRead(n: nat, p: nat, counts: seq<Count>, i: nat, maxSym: nat)
    requires i < |counts| <= maxSym + 1 && counts[|counts| - 1] != 0 && counts[i] == 0
    requires StandsAt(n, p, EncodeCounts(counts, i))
    ensures ReadCounts(n, p, CellsFrom(counts, i) + 1, counts[..i], false, maxSym) ==
      Counts(counts, 1, p + Length(EncodeCounts(counts, i)))
    decreases |counts| - i, 0
  {
    hide ReadCount, ReadCounts, ReadRun, Coded, EncodeCounts, StandsAt, Length, Flags, CellsFrom, Weight;
    ZeroFits(counts, i);
    var left, z := CellsFrom(counts, i), ZerosFrom(counts, i + 1);
    var w := Coded(0, left).len;
    var q := p + w + Length(Flags(z));
    ZeroStands(n, p, counts, i, left, w, z, q);
    SomeLeft(counts, i);
    FlagsAreRead(n, p + w, i + 1, z, maxSym);
    CellsOfZeros(counts, i + 1, z);
    OneZeroStep(n, p, w, left + 1, counts[..i], z, q, counts[..i + 1 + z], maxSym);
    CountsAreRead(n, q, counts, i + 1 + z, maxSym);
  }

  // ----- from the bytes -----

  /** The encoding in whole bytes. */
  function HeaderBytes(accuracy: nat, counts: seq<Count>): seq<byte>
    requires accuracy >= 5
  {
    var cs := EncodeHeader(accuracy, counts);
    LE(Number(cs), (Length(cs) + 7) / 8)
  }

  lemma {:induction false} CodedFits(count: Count, left: nat)
    requires Weight(count) <= left
    ensures Coded(count, left).code < Pow2(Coded(count, left).len)
  {
  }

  lemma {:induction false} FlagsFit(z: nat)
    ensures AllFit(Flags(z))
    decreases z
  {
    Pow2Values();
    if z >= 3 {
      FlagsFit(z - 3);
    }
  }

  lemma {:induction false} CountsFit(counts: seq<Count>, i: nat)
    requires i <= |counts|
    ensures AllFit(EncodeCounts(counts, i))
    decreases |counts| - i
  {
    hide Coded, Pow2, CellsFrom, Weight, Flags, ZerosFrom;
    if i < |counts| {
      ThisFits(counts, i);
      CodedFits(counts[i], CellsFrom(counts, i));
      if counts[i] != 0 {
        CountsFit(counts, i + 1);
      } else {
        var z := ZerosFrom(counts, i + 1);
        FlagsFit(z);
        CountsFit(counts, i + 1 + z);
      }
    }
  }

  lemma {:induction false} HeaderFits(accuracy: nat, counts: seq<Count>)
    requires 5 <= accuracy <= 20
    ensures AllFit(EncodeHeader(accuracy, counts))
  {
    CountsFit(counts, 0);
    Pow2Values();
  }

  lemma {:induction false} NumberBound(cs: seq<Codeword>)
    requires AllFit(cs)
    ensures Number(cs) < Pow2(Length(cs))
  {
    if cs != [] {
      var w, rest := cs[0].len, Length(cs[1..]);
      NumberBound(cs[1..]);
      assert cs[0].code < Pow2(w);
      ShlFacts(Number(cs[1..]) + 1, Pow2(rest), w);
      ShlFacts(Number(cs[1..]), 0, w);
      ShlPow2(rest, w);
    }
  }

  /** The bits of a number stand in data that holds its bytes. */
  lemma {:induction false} BytesHold(before: seq<byte>, n: nat, w: nat, after: seq<byte>)
    requires n < Pow2(w)
    ensures Slice(LittleEndian(before + LE(n, (w + 7) / 8) + after), 8 * |before|, w) == n
  {
    var k := (w + 7) / 8;
    var s := LE(n, k);
    Pow2Mono(w, 8 * k);
    BytesAreNumber(n, k);
    assert before + s + after == before + (s + after);
    LittleEndianSplit(before, s + after);
    LittleEndianConcat(s, after);
    ShlShl(LittleEndian(after), 8 * k - w, w);
    Split(n, Shl(LittleEndian(after), 8 * k - w), w);
  }

  /** The last count of a header stands before its end. */
  lemma {:induction false} LastBeforeEnd(
    n: nat, p: nat, remaining: nat, counts: seq<Count>, prev0: bool, maxSym: nat, last: nat)
    requires remaining > 0 && last <= p && ReadCounts(n, p, remaining, counts, prev0, maxSym).Counts?
    ensures LastRead(n, p, remaining, counts, prev0, maxSym, last) <=
      ReadCounts(n, p, remaining, counts, prev0, maxSym).end
    decreases maxSym + 1 - |counts|, prev0
  {
    hide ReadRun, ReadCount, LastFlag, Zeros, NewRemaining;
    if remaining == 1 || |counts| > maxSym {
    } else if prev0 {
      var (z, q) := ReadRun(n, p, |counts|, maxSym);
      LastFlagBefore(n, p, |counts|, maxSym);
      LastBeforeEnd(n, q, remaining, counts + Zeros(z - |counts|), false, maxSym, LastFlag(n, p, |counts|, maxSym));
    } else {
      var (v, w) := ReadCount(n, p, remaining);
      LastBeforeEnd(n, p + w, NewRemaining(remaining, v), counts + [v - 1], v == 1, maxSym, p);
    }
  }

  /** Data that holds an encoded header, with two bytes or more behind it. */
  ghost predicate HoldsHeader(data: seq<byte>, off: nat, accuracy: nat, counts: seq<Count>) {
    && Writable(accuracy, counts) && off <= |data|
    && exists after :: |after| >= 2 && data == data[..off] + HeaderBytes(accuracy, counts) + after
  }

  /** Every distribution that can be written is read back from its bytes: the accuracy, the counts, and where the
      header ends. */
  lemma {:induction false} HeaderIsDecoded(data: seq<byte>, off: nat, accuracy: nat, counts: seq<Count>, maxSym: nat)
    requires HoldsHeader(data, off, accuracy, counts) && |counts| <= maxSym + 1
    ensures Accuracy(data, off) == accuracy
    ensures HeaderAt(data, off, maxSym) == Counts(counts, 1, 8 * off + Length(EncodeHeader(accuracy, counts)))
    ensures off + |HeaderBytes(accuracy, counts)| + 2 <= |data|
  {
    hide LittleEndian, ReadCounts, EncodeCounts, Number, Slice, LE;
    var after :| |after| >= 2 && data == data[..off] + HeaderBytes(accuracy, counts) + after;
    var cs, n, p := EncodeHeader(accuracy, counts), LittleEndian(data), 8 * off;
    HeaderFits(accuracy, counts);
    NumberBound(cs);
    BytesHold(data[..off], Number(cs), Length(cs), after);
    StandsInSlice(n, p, cs);
    assert cs[1..] == EncodeCounts(counts, 0);
    CountsAreRead(n, p + 4, counts, 0, maxSym);
    assert counts[..0] == [];
  }

  /** `readFSE` accepts it, and returns the offset of the byte behind it. */
  lemma {:induction false} HeaderRoundTrip(
    data: seq<byte>, off: nat, accuracy: nat, counts: seq<Count>, maxSym: nat, maxBits: nat)
    requires HoldsHeader(data, off, accuracy, counts) && |counts| <= maxSym + 1
    ensures FseOutcome(data, off, maxSym, maxBits) ==
      if accuracy > maxBits then AccuracyTooLarge else FseOk(accuracy, off + |HeaderBytes(accuracy, counts)|)
    ensures forall t, bits, roff :: Decodes(data, off, maxSym, bits, roff, t) ==>
      bits == accuracy && TableFor(Padded(counts, maxSym), maxSym, accuracy, t)
  {
    hide LittleEndian, ReadCounts, ReadWithin, LastRead, EncodeHeader, Number, Padded, TableFor, HoldsHeader;
    HeaderIsDecoded(data, off, accuracy, counts, maxSym);
    LastBeforeEnd(LittleEndian(data), 8 * off + 4, Pow2(accuracy) + 1, [], false, maxSym, 8 * off);
    AcceptedIff(data, off, maxSym, maxBits);
  }
}
