/** Reading an FSE distribution (`readFSE`, pkg/lib/zstd/fse.go:20-147, section 4.1.1 of RFC 8878). */
module FseHeader {
  import opened Arith
  import opened BitStreams
  import opened FseSpread
  import opened FseTable

  // ----- the reference: a distribution as the standard describes it, over the bits of one number -----

  /** A value in [0, remaining], coded in h or h+1 bits, h the index of the top bit of `remaining`. */
  function ReadCount(n: nat, p: nat, remaining: nat): (r: (nat, nat))
    requires remaining > 0
    ensures r.0 <= remaining && r.1 <= HighBit(remaining) + 1
  {
    var h := HighBit(remaining);
    var spare := 2 * Pow2(h) - 1 - remaining;
    var short := Slice(n, p, h);
    SliceCut(n, p, h, 1);
    if short < spare then
      (short, h)
    else
      var long := Slice(n, p, h + 1);
      TopBitOfLong(n, p, h);
      (if long >= Pow2(h) then long - spare else long, h + 1)
  }

  lemma {:induction false} TopBitOfLong(n: nat, p: nat, h: nat)
    ensures Slice(n, p, h + 1) == Slice(n, p, h) || Slice(n, p, h + 1) == Slice(n, p, h) + Pow2(h)
  {
    SliceCut(n, p, h, 1);
    ShlPow2(0, h);
    ShlFacts(0, 0, h);
    assert Slice(n, p + h, 1) < 2;
  }

  /** The codeword of a value: the inverse of ReadCount. */
  function WriteCount(v: nat, remaining: nat): (r: (nat, nat))
    requires v <= remaining && remaining > 0
  {
    var h := HighBit(remaining);
    var spare := 2 * Pow2(h) - 1 - remaining;
    if v < spare then (v, h) else if v < Pow2(h) then (v, h + 1) else (v + spare, h + 1)
  }

  /** Every value in [0, remaining] has its own codeword and is read back from it. */
  lemma {:induction false} CountRoundTrip(n: nat, p: nat, remaining: nat, v: nat)
    requires remaining > 0 && v <= remaining
    requires var (code, width) := WriteCount(v, remaining); Slice(n, p, width) == code
    ensures ReadCount(n, p, remaining) == (v, WriteCount(v, remaining).1)
  {
    TopBitOfLong(n, p, HighBit(remaining));
  }

  /** Repeat flags after a zero count: each 3 means three more zeros and another flag. */
  function ReadRun(n: nat, p: nat, z: nat, maxSym: nat): (r: (nat, nat))
    ensures r.0 >= z
    decreases maxSym + 1 - z
  {
    var flag := Slice(n, p, 2);
    if z > maxSym then (z, p)
    else if flag == 3 then ReadRun(n, p + 2, z + 3, maxSym)
    else (z + flag, p + 2)
  }

  /** `CutOff`: the data ends first. */
  datatype Distribution = Overflow | CutOff | Counts(counts: seq<Count>, remaining: nat, end: nat)

  function Zeros(k: nat): (z: seq<Count>)
    ensures |z| == k && forall i :: 0 <= i < k ==> z[i] == 0
  {
    seq(k, _ => 0)
  }

  /** Counts from bit `p` on, when `counts` came before and `remaining` - 1 cells are still free. */
  function ReadCounts(n: nat, p: nat, remaining: nat, counts: seq<Count>, prev0: bool, maxSym: nat)
    : (d: Distribution)
    requires remaining > 0
    decreases maxSym + 1 - |counts|, prev0
  {
    if remaining == 1 || |counts| > maxSym then
      Counts(counts, remaining, p)
    else if prev0 then
      var (z, q) := ReadRun(n, p, |counts|, maxSym);
      if z > maxSym then Overflow
      else ReadCounts(n, q, remaining, counts + Zeros(z - |counts|), false, maxSym)
    else
      var (v, w) := ReadCount(n, p, remaining);
      ReadCounts(n, p + w, NewRemaining(remaining, v), counts + [v - 1], v == 1, maxSym)
  }

  /** The code value `v` stands for the count v - 1, and 0 for "less than one cell". */
  function NewRemaining(remaining: nat, v: nat): (r: nat)
    requires 1 < remaining && v <= remaining
    ensures 1 <= r <= remaining
  {
    if v == 0 then remaining - 1 else remaining - (v - 1)
  }

  // ----- every distribution read accounts for every cell -----

  lemma {:induction false} SumAppend(a: seq<Count>, b: seq<Count>, i: nat)
    requires i <= |b|
    ensures Sum(a + b, |a| + i) == Sum(a, |a|) + Sum(b, i)
    decreases i
  {
    if i == 0 {
      SumPrefix(a, b, |a|);
    } else {
      SumAppend(a, b, i - 1);
      assert (a + b)[|a| + i - 1] == b[i - 1];
    }
  }

  lemma {:induction false} SumPrefix(a: seq<Count>, b: seq<Count>, i: nat)
    requires i <= |a|
    ensures Sum(a + b, i) == Sum(a, i)
  {
    if i > 0 {
      SumPrefix(a, b, i - 1);
    }
  }

  lemma {:induction false} SumZeros(k: nat, i: nat)
    requires i <= k
    ensures Sum(Zeros(k), i) == 0
  {
    if i > 0 {
      SumZeros(k, i - 1);
    }
  }

  lemma {:induction false} AppendZeros(counts: seq<Count>, k: nat)
    ensures Sum(counts + Zeros(k), |counts| + k) == Sum(counts, |counts|)
  {
    SumAppend(counts, Zeros(k), k);
    SumZeros(k, k);
  }

  lemma {:induction false} AppendCount(counts: seq<Count>, remaining: nat, v: nat)
    requires 1 < remaining && v <= remaining
    ensures Sum(counts + [v - 1], |counts| + 1) + NewRemaining(remaining, v) == Sum(counts, |counts|) + remaining
  {
    SumAppend(counts, [v - 1], 1);
    assert Sum([v - 1], 1) == Sum([v - 1], 0) + Weight(v - 1);
  }

  /** Cells taken plus cells free is the same at every point of the header. */
  lemma {:induction false} CellsAreConserved(
    n: nat, p: nat, remaining: nat, counts: seq<Count>, prev0: bool, maxSym: nat)
    requires remaining > 0
    ensures var d := ReadCounts(n, p, remaining, counts, prev0, maxSym);
      d.Counts? ==> Sum(d.counts, |d.counts|) + d.remaining == Sum(counts, |counts|) + remaining
    decreases maxSym + 1 - |counts|, prev0
  {
    hide Sum, ReadRun, ReadCount, Zeros;
    if remaining == 1 || |counts| > maxSym {
    } else if prev0 {
      var (z, q) := ReadRun(n, p, |counts|, maxSym);
      if z <= maxSym {
        var more := counts + Zeros(z - |counts|);
        assert Sum(more, |more|) == Sum(counts, |counts|) by { AppendZeros(counts, z - |counts|); }
        CellsAreConserved(n, q, remaining, more, false, maxSym);
      }
    } else {
      var (v, w) := ReadCount(n, p, remaining);
      var more, free := counts + [v - 1], NewRemaining(remaining, v);
      assert Sum(more, |more|) + free == Sum(counts, |counts|) + remaining by { AppendCount(counts, remaining, v); }
      CellsAreConserved(n, p + w, free, more, v == 1, maxSym);
    }
  }

  // ----- the same header in data that ends: a flag or a value is only read where 16 bits are left -----

  datatype FlagRun = CutRun | FlagRun(zeros: nat, end: nat)

  function RunWithin(n: nat, size: nat, p: nat, z: nat): (r: FlagRun)
    requires p + 16 <= size
    ensures r.FlagRun? ==> r.zeros >= z && r.end + 14 <= size
    decreases size - p
  {
    var flag := Slice(n, p, 2);
    if flag != 3 then FlagRun(z + flag, p + 2)
    else if p + 18 > size then CutRun
    else RunWithin(n, size, p + 2, z + 3)
  }

  function ReadWithin(n: nat, size: nat, p: nat, remaining: nat, counts: seq<Count>, prev0: bool, maxSym: nat)
    : (d: Distribution)
    requires remaining > 0
    decreases maxSym + 1 - |counts|, prev0
  {
    if remaining == 1 || |counts| > maxSym then
      Counts(counts, remaining, p)
    else if p + 16 > size then
      CutOff
    else if prev0 then
      match RunWithin(n, size, p, |counts|)
      case CutRun => CutOff
      case FlagRun(z, q) =>
        if z > maxSym then Overflow
        else ReadWithin(n, size, q, remaining, counts + Zeros(z - |counts|), false, maxSym)
    else
      var (v, w) := ReadCount(n, p, remaining);
      ReadWithin(n, size, p + w, NewRemaining(remaining, v), counts + [v - 1], v == 1, maxSym)
  }

  /** Where the last flag of a run stands. */
  function LastFlag(n: nat, p: nat, z: nat, maxSym: nat): (q: nat)
    ensures q >= p
    decreases maxSym + 1 - z
  {
    if z <= maxSym && Slice(n, p, 2) == 3 then LastFlag(n, p + 2, z + 3, maxSym) else p
  }

  /** Where the last flag or value of a header stands; `last` when nothing more is read. */
  function LastRead(n: nat, p: nat, remaining: nat, counts: seq<Count>, prev0: bool, maxSym: nat, last: nat): (q: nat)
    requires remaining > 0
    decreases maxSym + 1 - |counts|, prev0
  {
    if remaining == 1 || |counts| > maxSym then
      last
    else if prev0 then
      var (z, q) := ReadRun(n, p, |counts|, maxSym);
      if z > maxSym then p
      else LastRead(n, q, remaining, counts + Zeros(z - |counts|), false, maxSym, LastFlag(n, p, |counts|, maxSym))
    else
      var (v, w) := ReadCount(n, p, remaining);
      LastRead(n, p + w, NewRemaining(remaining, v), counts + [v - 1], v == 1, maxSym, p)
  }

  /** A run that does not overflow is read exactly when 16 bits are left at its last flag; and one that is read is
      the run of the standard. */
  lemma {:induction false} RunIsReadIff(n: nat, size: nat, p: nat, z: nat, maxSym: nat)
    requires p + 16 <= size
    ensures RunWithin(n, size, p, z).FlagRun? && RunWithin(n, size, p, z).zeros > maxSym ==>
      ReadRun(n, p, z, maxSym).0 > maxSym
    ensures RunWithin(n, size, p, z).FlagRun? && RunWithin(n, size, p, z).zeros <= maxSym ==>
      ReadRun(n, p, z, maxSym) == (RunWithin(n, size, p, z).zeros, RunWithin(n, size, p, z).end)
    ensures ReadRun(n, p, z, maxSym).0 <= maxSym ==>
      (RunWithin(n, size, p, z).FlagRun? <==> LastFlag(n, p, z, maxSym) + 16 <= size)
    ensures LastFlag(n, p, z, maxSym) <= ReadRun(n, p, z, maxSym).1
    decreases size - p
  {
    if z > maxSym {
    } else if Slice(n, p, 2) == 3 {
      if p + 18 <= size {
        RunIsReadIff(n, size, p + 2, z + 3, maxSym);
      } else {
        LastFlagBefore(n, p + 2, z + 3, maxSym);
      }
    }
  }

  lemma {:induction false} LastFlagBefore(n: nat, p: nat, z: nat, maxSym: nat)
    ensures p <= LastFlag(n, p, z, maxSym) <= ReadRun(n, p, z, maxSym).1
    decreases maxSym + 1 - z
  {
    if z <= maxSym && Slice(n, p, 2) == 3 {
      LastFlagBefore(n, p + 2, z + 3, maxSym);
    }
  }

  lemma {:induction false} LastReadAfter(
    n: nat, p: nat, remaining: nat, counts: seq<Count>, prev0: bool, maxSym: nat, last: nat)
    requires remaining > 0 && last <= p
    ensures LastRead(n, p, remaining, counts, prev0, maxSym, last) >= last
    ensures !(remaining == 1 || |counts| > maxSym) ==> LastRead(n, p, remaining, counts, prev0, maxSym, last) >= p
    decreases maxSym + 1 - |counts|, prev0
  {
    if remaining == 1 || |counts| > maxSym {
    } else if prev0 {
      var (z, q) := ReadRun(n, p, |counts|, maxSym);
      LastFlagBefore(n, p, |counts|, maxSym);
      if z <= maxSym {
        LastReadAfter(n, q, remaining, counts + Zeros(z - |counts|), false, maxSym, LastFlag(n, p, |counts|, maxSym));
      }
    } else {
      var (v, w) := ReadCount(n, p, remaining);
      LastReadAfter(n, p + w, NewRemaining(remaining, v), counts + [v - 1], v == 1, maxSym, p);
    }
  }

  /** Where the data does not end first the result is that of the standard; and counts are read exactly when 16
      bits are left where the last of them is coded. */
  lemma {:induction false} HeaderIsReadIff(
    n: nat, size: nat, p: nat, remaining: nat, counts: seq<Count>, prev0: bool, maxSym: nat, last: nat)
    requires remaining > 0 && last <= p && last + 16 <= size
    ensures
      var d := ReadWithin(n, size, p, remaining, counts, prev0, maxSym);
      var e := ReadCounts(n, p, remaining, counts, prev0, maxSym);
      (d != CutOff ==> d == e) &&
      (e.Counts? ==> (d.Counts? <==> LastRead(n, p, remaining, counts, prev0, maxSym, last) + 16 <= size))
    decreases maxSym + 1 - |counts|, prev0
  {
    hide ReadRun, RunWithin, ReadCount, LastFlag, Zeros, NewRemaining;
    LastReadAfter(n, p, remaining, counts, prev0, maxSym, last);
    if remaining == 1 || |counts| > maxSym || p + 16 > size {
    } else if prev0 {
      RunIsReadIff(n, size, p, |counts|, maxSym);
      var (z, q) := ReadRun(n, p, |counts|, maxSym);
      if z <= maxSym {
        var more, flag := counts + Zeros(z - |counts|), LastFlag(n, p, |counts|, maxSym);
        LastReadAfter(n, q, remaining, more, false, maxSym, flag);
        if flag + 16 <= size {
          HeaderIsReadIff(n, size, q, remaining, more, false, maxSym, flag);
        }
      }
    } else {
      var (v, w) := ReadCount(n, p, remaining);
      HeaderIsReadIff(n, size, p + w, NewRemaining(remaining, v), counts + [v - 1], v == 1, maxSym, p);
    }
  }

  /** `k` flags in a row that are all 3. */
  lemma {:induction false} RunOfThrees(n: nat, size: nat, p: nat, z: nat, k: nat)
    requires p + 16 <= size && Slice(n, p, 2 * k) == Pow2(2 * k) - 1
    ensures p + 2 * k + 16 <= size ==> RunWithin(n, size, p, z) == RunWithin(n, size, p + 2 * k, z + 3 * k)
    ensures p + 2 * k + 16 > size ==> RunWithin(n, size, p, z) == CutRun
    decreases k
  {
    if k > 0 {
      ThreeFirst(n, p, k);
      if p + 18 <= size {
        RunOfThrees(n, size, p + 2, z + 3, k - 1);
      }
    }
  }

  lemma {:induction false} ThreeFirst(n: nat, p: nat, k: nat)
    requires k > 0 && Slice(n, p, 2 * k) == Pow2(2 * k) - 1
    ensures Slice(n, p, 2) == 3 && Slice(n, p + 2, 2 * (k - 1)) == Pow2(2 * (k - 1)) - 1
  {
    SliceCut(n, p, 2, 2 * (k - 1));
    var rest := Slice(n, p + 2, 2 * (k - 1));
    assert Shl(rest, 1) == 2 * rest;
    assert Shl(rest, 2) == 4 * rest;
    assert Pow2(2 * k) == 4 * Pow2(2 * (k - 1));
    assert Pow2(2) == 4;
  }

  /** The run of zeros after a zero count, six flags at a time while they are all 3. */
  method ReadZeroRun(br: BitReader, sym: nat) returns (ok: bool, zsym: nat)
    requires br.Valid() && br.cnt >= 16 && br.Pos() + 16 <= 8 * |br.data|
    modifies br
    ensures br.Valid()
    ensures var r := RunWithin(LittleEndian(br.data), 8 * |br.data|, old(br.Pos()), sym);
      if ok then r == FlagRun(zsym, br.Pos()) else r == CutRun
  {
    zsym := sym;
    ghost var n, size := LittleEndian(br.data), 8 * |br.data|;
    ghost var run := RunWithin(n, size, br.Pos(), sym);
    while br.Peek(12) == 0xfff
      invariant br.Valid() && br.cnt >= 16 && br.Pos() + 16 <= size
      invariant RunWithin(n, size, br.Pos(), zsym) == run
      decreases size - br.Pos()
    {
      Pow2Values();
      ok, zsym := SkipThrees(br, zsym, 6);
      if !ok {
        return;
      }
    }
    while br.Peek(2) == 3
      invariant br.Valid() && br.cnt >= 16 && br.Pos() + 16 <= size
      invariant RunWithin(n, size, br.Pos(), zsym) == run
      decreases size - br.Pos()
    {
      Pow2Values();
      ok, zsym := SkipThrees(br, zsym, 1);
      if !ok {
        return;
      }
    }
    var flag := br.Val(2);
    zsym := zsym + flag;
    ok := true;
  }

  /** `k` flags that are all 3 are taken, and the buffer is filled again. */
  method SkipThrees(br: BitReader, zsym0: nat, k: nat) returns (ok: bool, zsym: nat)
    requires br.Valid() && br.cnt >= 16 && br.Pos() + 16 <= 8 * |br.data|
    requires 0 < k <= 6 && br.Peek(2 * k) == Pow2(2 * k) - 1
    modifies br
    ensures br.Valid() && br.Pos() == old(br.Pos()) + 2 * k
    ensures ok ==> br.cnt >= 16 && br.Pos() + 16 <= 8 * |br.data|
    ensures var n, size := LittleEndian(br.data), 8 * |br.data|;
      RunWithin(n, size, old(br.Pos()), zsym0) == if ok then RunWithin(n, size, br.Pos(), zsym) else CutRun
  {
    RunOfThrees(LittleEndian(br.data), 8 * |br.data|, br.Pos(), zsym0, k);
    zsym := zsym0 + 3 * k;
    br.Drop(2 * k);
    ok := br.MoreBits();
  }

  /** One coded value: `threshold` is the largest power of two not above `remaining`. */
  method ReadValue(br: BitReader, remaining: nat, threshold: nat, bitsNeeded: nat) returns (count: nat)
    requires br.Valid() && 1 <= bitsNeeded <= br.cnt
    requires threshold == Pow2(bitsNeeded - 1) && threshold <= remaining < 2 * threshold
    modifies br
    ensures br.Valid()
    ensures (count, br.Pos() - old(br.Pos())) == ReadCount(LittleEndian(br.data), old(br.Pos()), remaining)
  {
    HighBitUnique(remaining, bitsNeeded - 1);
    var max := 2 * threshold - 1 - remaining;
    if br.Peek(bitsNeeded - 1) < max {
      count := br.Peek(bitsNeeded - 1);
      br.Drop(bitsNeeded - 1);
    } else {
      TopBitOfLong(LittleEndian(br.data), br.Pos(), bitsNeeded - 1);
      count := br.Peek(bitsNeeded);
      if count >= threshold {
        count := count - max;
      }
      br.Drop(bitsNeeded);
    }
  }

  datatype FseResult = FseOk(tableBits: nat, roff: nat) | Eof | AccuracyTooLarge | SymbolOverflow | TooManySymbols

  /** What the standard reads at byte `off`: the accuracy, then the counts. */
  function Accuracy(data: seq<byte>, off: nat): nat {
    Slice(LittleEndian(data), 8 * off, 4) + 5
  }

  function HeaderAt(data: seq<byte>, off: nat, maxSym: nat): Distribution {
    ReadCounts(LittleEndian(data), 8 * off + 4, Pow2(Accuracy(data, off)) + 1, [], false, maxSym)
  }

  /** The same, as the data ends. */
  function HeaderWithin(data: seq<byte>, off: nat, maxSym: nat): Distribution {
    ReadWithin(LittleEndian(data), 8 * |data|, 8 * off + 4, Pow2(Accuracy(data, off)) + 1, [], false, maxSym)
  }

  /** What `readFSE` returns. */
  function FseOutcome(data: seq<byte>, off: nat, maxSym: nat, maxBits: nat): FseResult {
    if 8 * off + 16 > 8 * |data| then Eof
    else if Accuracy(data, off) > maxBits then AccuracyTooLarge
    else
      match HeaderWithin(data, off, maxSym)
      case CutOff => Eof
      case Overflow => SymbolOverflow
      case Counts(_, remaining, end) =>
        if remaining != 1 then TooManySymbols else FseOk(Accuracy(data, off), (end + 7) / 8)
  }

  /** Where the last count of the header at `off` is coded. */
  function LastCount(data: seq<byte>, off: nat, maxSym: nat): nat {
    LastRead(LittleEndian(data), 8 * off + 4, Pow2(Accuracy(data, off)) + 1, [], false, maxSym, 8 * off)
  }

  /** A header is accepted exactly when its accuracy is allowed, its counts fill the table, and 16 bits are left
      where the last count is coded; and errors other than the end of the data are those of the standard. */
  lemma {:induction false} AcceptedIff(data: seq<byte>, off: nat, maxSym: nat, maxBits: nat)
    ensures var d := HeaderAt(data, off, maxSym);
      FseOutcome(data, off, maxSym, maxBits).FseOk? <==>
      Accuracy(data, off) <= maxBits && d.Counts? && d.remaining == 1 && LastCount(data, off, maxSym) + 16 <= 8 * |data|
    ensures var d, r := HeaderAt(data, off, maxSym), FseOutcome(data, off, maxSym, maxBits);
      && (r.SymbolOverflow? ==> d == Overflow) && (r.TooManySymbols? ==> d.Counts? && d.remaining != 1)
      && (r.FseOk? ==> d == HeaderWithin(data, off, maxSym))
  {
    hide LittleEndian, Pow2, Accuracy, ReadWithin, ReadCounts, LastRead;
    var n, all := LittleEndian(data), Pow2(Accuracy(data, off)) + 1;
    if 8 * off + 16 <= 8 * |data| {
      HeaderIsReadIff(n, 8 * |data|, 8 * off + 4, all, [], false, maxSym, 8 * off);
    } else {
      LastReadAfter(n, 8 * off + 4, all, [], false, maxSym, 8 * off);
    }
  }

  lemma {:induction false} SixOnes()
    ensures Slice(1008, 0, 4) == 0 && Slice(1008, 4, 5) == 31 && Slice(1008, 4, 6) == 63
  {
    assert Shr(1008, 2) == 252 && Shr(1008, 4) == 63;
    assert Low(15, 4) == 15 && Low(31, 5) == 31;
    assert Low(126, 1) == 0 && Low(252, 2) == 0 && Low(504, 3) == 0;
  }

  lemma {:induction false} TwoBytes(s: seq<byte>)
    requires |s| == 2
    ensures LittleEndian(s) == s[0] as int + 256 * (s[1] as int)
  {
    assert s[1..][0] == s[1] && s[1..][1..] == [];
    assert LittleEndian(s[1..]) == s[1] as int;
  }

  lemma {:induction false} OneCount()
    ensures ReadCounts(1008, 4, 33, [], false, 35) == Counts([32], 1, 10)
  {
    hide Slice;
    Pow2Values();
    HighBitUnique(33, 5);
    SixOnes();
    assert ReadCount(1008, 4, 33) == (33, 6);
    assert [] + [32 as Count] == [32];
  }

  /** A distribution that is complete and lies inside the data can be rejected all the same: this one ends at bit
      10 of 16. */
  lemma {:induction false} ShortHeaderIsRejected()
    ensures var data: seq<byte> := [240, 3];
      && HeaderAt(data, 0, 35) == Counts([32], 1, 10) && 10 <= 8 * |data| && Accuracy(data, 0) == 5
      && FseOutcome(data, 0, 35, 9) == Eof
  {
    hide LittleEndian, Slice, ReadCount, ReadCounts;
    TwoBytes([240, 3]);
    Pow2Values();
    SixOnes();
    OneCount();
  }

  function Padded(counts: seq<Count>, maxSym: nat): seq<Count> {
    if |counts| <= maxSym then counts + Zeros(maxSym + 1 - |counts|) else counts
  }

  lemma {:induction false} PaddedFillsTable(data: seq<byte>, off: nat, maxSym: nat)
    requires var d := HeaderAt(data, off, maxSym); d.Counts? && d.remaining == 1 && |d.counts| <= maxSym + 1
    ensures var norm := Padded(HeaderAt(data, off, maxSym).counts, maxSym);
      |norm| == maxSym + 1 && Sum(norm, |norm|) == Pow2(Accuracy(data, off))
  {
    var d := HeaderAt(data, off, maxSym);
    assert Sum(d.counts, |d.counts|) == Pow2(Accuracy(data, off)) by {
      CellsAreConserved(LittleEndian(data), 8 * off + 4, Pow2(Accuracy(data, off)) + 1, [], false, maxSym);
    }
    PaddedSum(d.counts, maxSym);
  }

  lemma {:induction false} PaddedSum(counts: seq<Count>, maxSym: nat)
    requires |counts| <= maxSym + 1
    ensures |Padded(counts, maxSym)| == maxSym + 1 && Sum(Padded(counts, maxSym), maxSym + 1) == Sum(counts, |counts|)
  {
    if |counts| <= maxSym {
      AppendZeros(counts, maxSym + 1 - |counts|);
    }
  }

  /** The counts read so far, and where the reader stands, determine the rest of the header. */
  ghost predicate Reading(
    br: BitReader, d: Distribution, remaining: nat, norm: seq<Count>, sym: nat, prev0: bool, maxSym: nat)
    reads br
  {
    && br.Valid() && remaining >= 1 && |norm| == 256 && sym <= maxSym + 1 <= 256
    && d == ReadWithin(LittleEndian(br.data), 8 * |br.data|, br.Pos(), remaining, norm[..sym], prev0, maxSym)
  }

  ghost predicate Scaled(remaining: nat, threshold: nat, bitsNeeded: nat) {
    1 <= bitsNeeded && threshold == Pow2(bitsNeeded - 1) && threshold <= remaining < 2 * threshold
  }

  /** `for remaining < threshold`: halve the threshold until it is at most `remaining` again. */
  method Rescale(remaining: nat, threshold0: nat, bitsNeeded0: nat) returns (threshold: nat, bitsNeeded: nat)
    requires 1 <= remaining < 2 * threshold0 && 1 <= bitsNeeded0 && threshold0 == Pow2(bitsNeeded0 - 1)
    ensures Scaled(remaining, threshold, bitsNeeded) && bitsNeeded <= bitsNeeded0
  {
    threshold, bitsNeeded := threshold0, bitsNeeded0;
    while remaining < threshold
      invariant 1 <= bitsNeeded <= bitsNeeded0 && threshold == Pow2(bitsNeeded - 1) && remaining < 2 * threshold
    {
      bitsNeeded := bitsNeeded - 1;
      threshold := threshold / 2;
    }
  }

  /** The loop body after a zero count. */
  method ZeroStep(br: BitReader, ghost d: Distribution, remaining: nat, norm0: seq<Count>, sym0: nat, maxSym: nat)
    returns (r: FseResult, norm: seq<Count>, sym: nat)
    requires Reading(br, d, remaining, norm0, sym0, true, maxSym)
    requires remaining > 1 && sym0 <= maxSym && br.cnt >= 16
    modifies br
    ensures br.Valid() && |norm| == 256
    ensures r.FseOk? ==> Reading(br, d, remaining, norm, sym, false, maxSym) && sym0 <= sym
    ensures r.FseOk? || (r.Eof? && d == CutOff) || (r.SymbolOverflow? && d == Overflow)
  {
    norm := norm0;
    var ok;
    ok, sym := ReadZeroRun(br, sym0);
    if !ok {
      return Eof, norm, sym;
    }
    if sym > maxSym {
      return SymbolOverflow, norm, sym;
    }
    norm := ZeroFill(norm, sym0, sym);
    r := FseOk(0, 0);
  }

  /** The loop body otherwise: one count. */
  method CountStep(
    br: BitReader, ghost d: Distribution, remaining0: nat, threshold: nat, bitsNeeded: nat,
    norm0: seq<Count>, sym: nat, maxSym: nat)
    returns (norm: seq<Count>, remaining: nat, prev0: bool)
    requires Reading(br, d, remaining0, norm0, sym, false, maxSym) && Scaled(remaining0, threshold, bitsNeeded)
    requires remaining0 > 1 && sym <= maxSym && bitsNeeded <= br.cnt && br.Pos() + 16 <= 8 * |br.data|
    modifies br
    ensures Reading(br, d, remaining, norm, sym + 1, prev0, maxSym)
    ensures 1 <= remaining <= remaining0
  {
    var count := ReadValue(br, remaining0, threshold, bitsNeeded);
    var c: Count := count as int - 1;
    norm := norm0[sym := c];
    assert norm[..sym + 1] == norm0[..sym] + [c];
    remaining := NewRemaining(remaining0, count);
    prev0 := count == 1;
  }

  /** What `ReadNorm` promises about the distribution `d` that starts where the reader stood. */
  ghost predicate Outcome(br: BitReader, d: Distribution, r: FseResult, norm: seq<Count>, maxSym: nat)
    reads br
  {
    && br.Valid() && |norm| == 256 && maxSym <= 255
    && match r
       case FseOk(_, _) => d.Counts? && d.remaining == 1 && |d.counts| <= maxSym + 1
         && norm[..maxSym + 1] == Padded(d.counts, maxSym) && br.Pos() == d.end
       case SymbolOverflow => d == Overflow
       case TooManySymbols => d.Counts? && d.remaining != 1
       case Eof => d == CutOff
       case AccuracyTooLarge => false
  }

  /** The main loop: on success the counts are those of the reference. */
  method ReadNorm(br: BitReader, accuracyLog: nat, maxSym: nat) returns (r: FseResult, norm: seq<Count>)
    requires br.Valid() && 1 <= accuracyLog <= 14 && maxSym <= 255
    modifies br
    ensures Outcome(br,
      ReadWithin(LittleEndian(br.data), 8 * |br.data|, old(br.Pos()), Pow2(accuracyLog) + 1, [], false, maxSym),
      r, norm, maxSym)
  {
    hide LittleEndian, ReadRun, RunWithin, ReadCount;
    var remaining: nat, threshold, bitsNeeded: nat := Pow2(accuracyLog) + 1, Pow2(accuracyLog), accuracyLog + 1;
    var sym, prev0 := 0, false;
    norm := Zeros(256);
    ghost var d := ReadWithin(LittleEndian(br.data), 8 * |br.data|, br.Pos(), remaining, [], false, maxSym);
    while remaining > 1 && sym <= maxSym
      invariant Reading(br, d, remaining, norm, sym, prev0, maxSym)
      invariant Scaled(remaining, threshold, bitsNeeded) && bitsNeeded <= accuracyLog + 1
      decreases maxSym + 1 - sym, prev0
    {
      var ok := br.MoreBits();
      if !ok {
        return Eof, norm;
      }
      if prev0 {
        r, norm, sym := ZeroStep(br, d, remaining, norm, sym, maxSym);
        if !r.FseOk? {
          return;
        }
        prev0 := false;
      } else {
        norm, remaining, prev0 := CountStep(br, d, remaining, threshold, bitsNeeded, norm, sym, maxSym);
        sym := sym + 1;
        threshold, bitsNeeded := Rescale(remaining, threshold, bitsNeeded);
      }
    }
    if remaining != 1 {
      return TooManySymbols, norm;
    }
    norm := ZeroFill(norm, sym, maxSym + 1);
    r := FseOk(accuracyLog, 0);
  }

  /** `for ; sym < upTo; sym++ { norm[sym] = 0 }`. */
  method ZeroFill(norm0: seq<Count>, sym: nat, upTo: nat) returns (norm: seq<Count>)
    requires sym <= upTo <= |norm0|
    ensures |norm| == |norm0| && norm[..upTo] == norm0[..sym] + Zeros(upTo - sym)
  {
    norm := norm0;
    for i := sym to upTo
      invariant |norm| == |norm0| && norm[..sym] == norm0[..sym]
      invariant forall j :: sym <= j < i ==> norm[j] == 0
    {
      norm := norm[i := 0];
    }
  }

  /** A header that was read completely, and the table it describes. */
  ghost predicate Decodes(data: seq<byte>, off: nat, maxSym: nat, tableBits: nat, roff: nat, t: seq<FseEntry>) {
    var d := HeaderAt(data, off, maxSym);
    && tableBits == Accuracy(data, off)
    && d.Counts? && d.remaining == 1 && roff == (d.end + 7) / 8 <= |data|
    && TableFor(Padded(d.counts, maxSym), maxSym, tableBits, t)
  }

  ghost predicate TableFor(norm: seq<Count>, maxSym: nat, tableBits: nat, t: seq<FseEntry>) {
    && |norm| == maxSym + 1 && Sum(norm, |norm|) == Pow2(tableBits)
    && IsTable(t, norm, tableBits) && InOrder(t, norm, tableBits)
  }

  /** The first four bits of a header. */
  method ReadAccuracy(data: seq<byte>, off: nat) returns (br: BitReader, ok: bool, accuracyLog: nat)
    requires off <= |data|
    ensures fresh(br) && br.Valid() && br.data == data
    ensures ok <==> 8 * off + 16 <= 8 * |data|
    ensures ok ==> br.Pos() == 8 * off + 4 && accuracyLog == Accuracy(data, off)
  {
    br := new BitReader(data, off);
    ok := br.MoreBits();
    accuracyLog := 5;
    if ok {
      var a := br.Val(4);
      accuracyLog := a + 5;
    }
  }

  /** `readFSE`. The result is `FseOutcome`, errors included. On success the table decodes the distribution that
      the standard reads at `off`, and the new offset is the byte after its last bit; neither error of `buildFSE`
      can be returned. */
  method ReadFse(data: seq<byte>, off: nat, maxSym: nat, maxBits: nat, table: array<FseEntry>)
    returns (r: FseResult)
    requires off <= |data| && maxSym <= 255 && maxBits <= 14 && table.Length >= Pow2(maxBits)
    modifies table
    ensures r.FseOk? ==> 5 <= r.tableBits <= maxBits && Pow2(r.tableBits) <= table.Length
    ensures r.FseOk? ==> Decodes(data, off, maxSym, r.tableBits, r.roff, table[..Pow2(r.tableBits)])
    ensures r == FseOutcome(data, off, maxSym, maxBits)
  {
    hide LittleEndian, Sum, Padded, IsTable, InOrder, ReadWithin, ReadCounts;
    var br, ok, accuracyLog := ReadAccuracy(data, off);
    if !ok {
      return Eof;
    }
    if accuracyLog > maxBits {
      return AccuracyTooLarge;
    }
    ghost var d := HeaderWithin(data, off, maxSym);
    var norm;
    r, norm := ReadNorm(br, accuracyLog, maxSym);
    assert Outcome(br, d, r, norm, maxSym);
    if r.FseOk? {
      assert HeaderAt(data, off, maxSym) == d by { AcceptedIff(data, off, maxSym, maxBits); }
      PaddedFillsTable(data, off, maxSym);
      br.Backup();
      assert br.off == (d.end + 7) / 8;
      var err := BuildTable(norm[..maxSym + 1], table, accuracyLog, maxBits, maxSym);
      r := FseOk(accuracyLog, br.off);
    }
  }

  method BuildTable(norm: seq<Count>, table: array<FseEntry>, accuracyLog: nat, maxBits: nat, maxSym: nat)
    returns (err: BuildError)
    requires 5 <= accuracyLog <= maxBits <= 14 && table.Length >= Pow2(maxBits)
    requires |norm| == maxSym + 1 <= 256 && Sum(norm, |norm|) == Pow2(accuracyLog)
    modifies table
    ensures Pow2(accuracyLog) <= table.Length
    ensures err == NoError && TableFor(norm, maxSym, accuracyLog, table[..Pow2(accuracyLog)])
  {
    Pow2Mono(accuracyLog, maxBits);
    FillingCloses(norm, accuracyLog);
    err := BuildFse(norm, table, accuracyLog);
  }
}
