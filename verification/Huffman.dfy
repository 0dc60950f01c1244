/** The Huffman table built from weights (pkg/lib/zstd/huff.go:129-199, section 4.2.1.3 of RFC 8878):
    a complete, prefix-free canonical code. */
module Huffman {
  import opened Arith

  /** The cells a weight takes: 2^(w-1), none for weight 0. */
  function Cells(w: nat): nat {
    if w == 0 then 0 else Pow2(w - 1)
  }

  function Total(ws: seq<nat>, i: nat): nat
    requires i <= |ws|
  {
    if i == 0 then 0 else Total(ws, i - 1) + Cells(ws[i - 1])
  }

  /** How many of the first `i` weights equal `w`. */
  function Rank(ws: seq<nat>, i: nat, w: nat): (n: nat)
    requires i <= |ws|
    ensures n <= i
  {
    if i == 0 then 0 else Rank(ws, i - 1, w) + (if ws[i - 1] == w then 1 else 0)
  }

  /** The first cell of weight `w`: longer codes come first. */
  function Start(ws: seq<nat>, w: nat): nat
  {
    if w <= 1 then 0 else Start(ws, w - 1) + Shl(Rank(ws, |ws|, w - 1), w - 2)
  }

  /** The first cell of symbol `i`. */
  function RunStart(ws: seq<nat>, i: nat): nat
    requires i < |ws| && ws[i] > 0
  {
    Start(ws, ws[i]) + Shl(Rank(ws, i, ws[i]), ws[i] - 1)
  }

  /** The table entry of symbol `i`: the symbol in the high byte, its code length in the low byte. */
  function EntryOf(ws: seq<nat>, i: nat, bits: nat): nat
    requires i < |ws| && ws[i] <= bits
  {
    i * 256 + (bits + 1 - ws[i])
  }

  /** All weights fit, and together they take exactly 2^bits cells. */
  ghost predicate Accepted(ws: seq<nat>, bits: nat) {
    && |ws| <= 256 && 1 <= bits <= 11
    && (forall i :: 0 <= i < |ws| ==> ws[i] <= bits)
    && Total(ws, |ws|) == Pow2(bits)
  }

  ghost predicate IsHuffTable(t: seq<nat>, ws: seq<nat>, bits: nat) {
    && Accepted(ws, bits) && |t| == Pow2(bits)
    && (forall i: nat :: i < |ws| && ws[i] > 0 ==> Filled(t, ws, bits, i))
  }

  ghost predicate Filled(t: seq<nat>, ws: seq<nat>, bits: nat, i: nat)
    requires i < |ws| && 0 < ws[i] <= bits
  {
    && RunStart(ws, i) + Pow2(ws[i] - 1) <= |t|
    && (forall x :: RunStart(ws, i) <= x < RunStart(ws, i) + Pow2(ws[i] - 1) ==> t[x] == EntryOf(ws, i, bits))
  }

  // ----- the cells of all weights below w, and of all weights from w on -----

  /** Cells of the first `i` symbols with weight below `w`. */
  function TotalBelow(ws: seq<nat>, i: nat, w: nat): nat
    requires i <= |ws|
  {
    if i == 0 then 0 else TotalBelow(ws, i - 1, w) + (if ws[i - 1] < w then Cells(ws[i - 1]) else 0)
  }

  lemma {:induction false} TotalBelowStep(ws: seq<nat>, i: nat, w: nat)
    requires i <= |ws| && w > 0
    ensures TotalBelow(ws, i, w + 1) == TotalBelow(ws, i, w) + Shl(Rank(ws, i, w), w - 1)
  {
    if i > 0 {
      TotalBelowStep(ws, i - 1, w);
      ShlFacts(Rank(ws, i - 1, w), 0, w - 1);
    } else {
      ShlFacts(0, 0, w - 1);
    }
  }

  lemma {:induction false} TotalBelowOne(ws: seq<nat>, i: nat)
    requires i <= |ws|
    ensures TotalBelow(ws, i, 1) == 0
  {
    if i > 0 {
      TotalBelowOne(ws, i - 1);
    }
  }

  lemma {:induction false} StartIsTotal(ws: seq<nat>, w: nat)
    requires w >= 1
    ensures Start(ws, w) == TotalBelow(ws, |ws|, w)
  {
    if w == 1 {
      TotalBelowOne(ws, |ws|);
    } else {
      StartIsTotal(ws, w - 1);
      TotalBelowStep(ws, |ws|, w - 1);
    }
  }

  lemma {:induction false} TotalBelowAll(ws: seq<nat>, i: nat, w: nat)
    requires i <= |ws| && forall j :: 0 <= j < i ==> ws[j] < w
    ensures TotalBelow(ws, i, w) == Total(ws, i)
  {
    if i > 0 {
      TotalBelowAll(ws, i - 1, w);
    }
  }

  lemma {:induction false} StartMono(ws: seq<nat>, v: nat, w: nat)
    requires v <= w
    ensures Start(ws, v) <= Start(ws, w)
    decreases w - v
  {
    if v < w {
      StartMono(ws, v, w - 1);
    }
  }

  /** The runs of all weights end exactly at the table's end. */
  lemma {:induction false} StartsEnd(ws: seq<nat>, bits: nat)
    requires Accepted(ws, bits)
    ensures Start(ws, bits + 1) == Pow2(bits)
  {
    StartIsTotal(ws, bits + 1);
    TotalBelowAll(ws, |ws|, bits + 1);
  }

  lemma {:induction false} RankMono(ws: seq<nat>, i: nat, j: nat, w: nat)
    requires i <= j <= |ws|
    ensures Rank(ws, i, w) <= Rank(ws, j, w)
    ensures i < j && ws[i] == w ==> Rank(ws, i, w) < Rank(ws, j, w)
  {
    if i < j {
      RankMono(ws, i, j - 1, w);
    }
  }

  lemma {:induction false} SymbolOfRank(ws: seq<nat>, i: nat, w: nat, r: nat) returns (s: nat)
    requires i <= |ws| && r < Rank(ws, i, w)
    ensures s < i && ws[s] == w && Rank(ws, s, w) == r
  {
    if ws[i - 1] == w && Rank(ws, i - 1, w) == r {
      s := i - 1;
    } else {
      s := SymbolOfRank(ws, i - 1, w, r);
    }
  }

  // ----- alignment -----

  /** Cells of the weights from `w` to `bits`, in units of 2^(w-1). */
  function UpperUnits(ws: seq<nat>, w: nat, bits: nat): nat
    decreases bits + 1 - w
  {
    if w > bits then 0 else Rank(ws, |ws|, w) + 2 * UpperUnits(ws, w + 1, bits)
  }

  lemma {:induction false} StartPlusUpper(ws: seq<nat>, w: nat, bits: nat)
    requires Accepted(ws, bits) && 1 <= w <= bits + 1
    ensures Start(ws, w) + Shl(UpperUnits(ws, w, bits), w - 1) == Pow2(bits)
    decreases bits + 1 - w
  {
    if w == bits + 1 {
      StartsEnd(ws, bits);
      ShlFacts(0, 0, w - 1);
    } else {
      StartPlusUpper(ws, w + 1, bits);
      var r, u := Rank(ws, |ws|, w), UpperUnits(ws, w + 1, bits);
      ShlFacts(r, 2 * u, w - 1);
      ShlFacts(u, 0, w - 1);
    }
  }

  /** The code of symbol `i`: the top bits shared by all its cells. */
  function Code(ws: seq<nat>, bits: nat, i: nat): int
    requires i < |ws| && 0 < ws[i] <= bits
  {
    Pow2(bits + 1 - ws[i]) - UpperUnits(ws, ws[i], bits) + Rank(ws, i, ws[i])
  }

  lemma {:induction false} StartUnits(ws: seq<nat>, w: nat, bits: nat)
    requires Accepted(ws, bits) && 1 <= w <= bits
    ensures UpperUnits(ws, w, bits) <= Pow2(bits + 1 - w)
    ensures Start(ws, w) == Shl(Pow2(bits + 1 - w) - UpperUnits(ws, w, bits), w - 1)
  {
    StartPlusUpper(ws, w, bits);
    ShlPow2(bits + 1 - w, w - 1);
    Difference(Start(ws, w), UpperUnits(ws, w, bits), Pow2(bits + 1 - w), w - 1);
  }

  lemma {:induction false} Difference(s: nat, u: nat, p: nat, b: nat)
    requires s + Shl(u, b) == Shl(p, b)
    ensures u <= p && s == Shl(p - u, b)
  {
    if u > p {
      ShlFacts(p, 0, b);
      ShlFacts(p + 1, u, b);
    } else {
      ShlFacts(p - u, u, b);
    }
  }

  /** Every run starts at a multiple of its length. */
  lemma {:induction false} RunIsAligned(ws: seq<nat>, bits: nat, i: nat)
    requires Accepted(ws, bits) && i < |ws| && ws[i] > 0
    ensures 0 <= Code(ws, bits, i) && RunStart(ws, i) == Shl(Code(ws, bits, i), ws[i] - 1)
  {
    StartUnits(ws, ws[i], bits);
    ShlFacts(Pow2(bits + 1 - ws[i]) - UpperUnits(ws, ws[i], bits), Rank(ws, i, ws[i]), ws[i] - 1);
  }

  /** Runs of one weight end before the next weight starts. */
  lemma {:induction false} RunEnds(ws: seq<nat>, bits: nat, i: nat)
    requires Accepted(ws, bits) && i < |ws| && ws[i] > 0
    ensures RunStart(ws, i) + Pow2(ws[i] - 1) <= Start(ws, ws[i] + 1) <= Pow2(bits)
  {
    var w := ws[i];
    var r := Rank(ws, i, w);
    RankMono(ws, i, |ws|, w);
    ShlFacts(r, 0, w - 1);
    ShlFacts(r + 1, Rank(ws, |ws|, w), w - 1);
    StartMono(ws, w + 1, bits + 1);
    StartsEnd(ws, bits);
  }

  /** Cell `x` belongs to symbol `i`. */
  ghost predicate InRun(ws: seq<nat>, i: nat, x: nat) {
    i < |ws| && ws[i] > 0 && RunStart(ws, i) <= x < RunStart(ws, i) + Pow2(ws[i] - 1)
  }

  /** The cells of a symbol are those that share its code as top bits. */
  lemma {:induction false} InRunIsPrefix(ws: seq<nat>, bits: nat, i: nat, x: nat)
    requires Accepted(ws, bits) && i < |ws| && ws[i] > 0
    ensures InRun(ws, i, x) <==> Shr(x, ws[i] - 1) == Code(ws, bits, i)
  {
    RunIsAligned(ws, bits, i);
    ShrExact(Code(ws, bits, i), x, ws[i] - 1);
  }

  // ----- the code is complete and prefix-free -----

  lemma {:induction false} WeightAt(ws: seq<nat>, x: nat, w: nat) returns (v: nat)
    requires x < Start(ws, w + 1)
    ensures 1 <= v <= w && Start(ws, v) <= x < Start(ws, v + 1)
  {
    if Start(ws, w) <= x {
      v := w;
    } else {
      v := WeightAt(ws, x, w - 1);
    }
  }

  /** Every cell lies in some run. */
  lemma {:induction false} Complete(ws: seq<nat>, bits: nat, x: nat) returns (i: nat)
    requires Accepted(ws, bits) && x < Pow2(bits)
    ensures InRun(ws, i, x)
  {
    StartsEnd(ws, bits);
    var w := WeightAt(ws, x, bits);
    var y := x - Start(ws, w);
    var r := Shr(y, w - 1);
    ShrExact(r, y, w - 1);
    var n := Rank(ws, |ws|, w);
    if r >= n {
      ShlFacts(n, r, w - 1);
    }
    i := SymbolOfRank(ws, |ws|, w, r);
  }

  /** No two runs share a cell. */
  lemma {:induction false} PrefixFree(ws: seq<nat>, bits: nat, i: nat, j: nat, x: nat)
    requires Accepted(ws, bits) && InRun(ws, i, x) && InRun(ws, j, x)
    ensures i == j
  {
    if ws[i] < ws[j] {
      RunEnds(ws, bits, i);
      StartMono(ws, ws[i] + 1, ws[j]);
    } else if ws[j] < ws[i] {
      RunEnds(ws, bits, j);
      StartMono(ws, ws[j] + 1, ws[i]);
    } else {
      InRunIsPrefix(ws, bits, i, x);
      InRunIsPrefix(ws, bits, j, x);
      if i < j {
        RankMono(ws, i, j, ws[i]);
      } else if j < i {
        RankMono(ws, j, i, ws[i]);
      }
    }
  }

  /** The whole table: every cell holds the entry of the one symbol whose code it starts with. */
  lemma {:induction false} TableIsCanonicalCode(t: seq<nat>, ws: seq<nat>, bits: nat, x: nat) returns (i: nat)
    requires IsHuffTable(t, ws, bits) && x < Pow2(bits)
    ensures i < |ws| && 0 < ws[i] <= bits
    ensures t[x] == EntryOf(ws, i, bits) && Shr(x, ws[i] - 1) == Code(ws, bits, i)
    ensures forall j: nat :: j < |ws| && 0 < ws[j] <= bits && Shr(x, ws[j] - 1) == Code(ws, bits, j) ==> j == i
  {
    i := Complete(ws, bits, x);
    InRunIsPrefix(ws, bits, i, x);
    assert Filled(t, ws, bits, i);
    forall j: nat | j < |ws| && 0 < ws[j] <= bits && Shr(x, ws[j] - 1) == Code(ws, bits, j) ensures j == i {
      InRunIsPrefix(ws, bits, j, x);
      PrefixFree(ws, bits, i, j, x);
    }
  }

  /** A run ends before the runs of higher weights, and of the same weight and higher symbols, start. */
  lemma {:induction false} RunsAscend(ws: seq<nat>, bits: nat, i: nat, j: nat)
    requires Accepted(ws, bits) && i < |ws| && j < |ws| && 0 < ws[i] <= ws[j] && (ws[i] == ws[j] ==> i < j)
    ensures RunStart(ws, i) + Pow2(ws[i] - 1) <= RunStart(ws, j)
  {
    if ws[i] < ws[j] {
      RunEnds(ws, bits, i);
      StartMono(ws, ws[i] + 1, ws[j]);
    } else {
      RankMono(ws, i, j, ws[i]);
      ShlFacts(Rank(ws, i, ws[i]), 0, ws[i] - 1);
      ShlFacts(Rank(ws, i, ws[i]) + 1, Rank(ws, j, ws[i]), ws[i] - 1);
    }
  }

  /** From the first cell to the last the weights do not fall, and the symbols of one weight ascend: the order of
      section 4.2.1.3 of RFC 8878. */
  lemma {:induction false} SymbolsInOrder(t: seq<nat>, ws: seq<nat>, bits: nat, x: nat, y: nat)
    returns (i: nat, j: nat)
    requires IsHuffTable(t, ws, bits) && x <= y < Pow2(bits)
    ensures i < |ws| && 0 < ws[i] <= bits && t[x] == EntryOf(ws, i, bits)
    ensures j < |ws| && 0 < ws[j] <= bits && t[y] == EntryOf(ws, j, bits)
    ensures ws[i] < ws[j] || (ws[i] == ws[j] && i <= j)
  {
    hide RunStart;
    i := Complete(ws, bits, x);
    j := Complete(ws, bits, y);
    assert Filled(t, ws, bits, i) && Filled(t, ws, bits, j);
    if ws[j] < ws[i] || (ws[j] == ws[i] && j < i) {
      RunsAscend(ws, bits, j, i);
    }
  }

  /** The example of section 4.2.1.3: six symbols, of which the fourth does not occur. */
  lemma {:induction false} CodeOfTheStandard()
    ensures var ws := [4, 3, 2, 0, 1, 1];
      && Total(ws, 6) == 16 == Pow2(4)
      && Code(ws, 4, 0) == 1 && Code(ws, 4, 1) == 1 && Code(ws, 4, 2) == 1 && Code(ws, 4, 4) == 0 && Code(ws, 4, 5) == 1
  {
    var ws := [4, 3, 2, 0, 1, 1];
    Pow2Values();
    RanksOfTheStandard(ws);
    assert UpperUnits(ws, 5, 4) == 0;
    assert UpperUnits(ws, 4, 4) == 1 && UpperUnits(ws, 3, 4) == 3;
    assert UpperUnits(ws, 2, 4) == 7 && UpperUnits(ws, 1, 4) == 16;
  }

  lemma {:induction false} RanksOfTheStandard(ws: seq<nat>)
    requires ws == [4, 3, 2, 0, 1, 1]
    ensures Total(ws, 6) == 16
    ensures forall w :: 1 <= w <= 4 ==> Rank(ws, 6, w) == if w == 1 then 2 else 1
    ensures Rank(ws, 0, 4) == Rank(ws, 1, 3) == Rank(ws, 2, 2) == Rank(ws, 4, 1) == 0 && Rank(ws, 5, 1) == 1
  {
    Pow2Values();
    assert Cells(4) == 8 && Cells(3) == 4 && Cells(2) == 2 && Cells(1) == 1;
    assert Total(ws, 1) == 8;
    assert Total(ws, 2) == 12;
    assert Total(ws, 3) == 14;
    assert Total(ws, 4) == 14;
    assert Total(ws, 5) == 15;
    forall w | 1 <= w <= 4
      ensures Rank(ws, 2, w) == if w >= 3 then 1 else 0
      ensures Rank(ws, 4, w) == if w >= 2 then 1 else 0
      ensures Rank(ws, 6, w) == if w == 1 then 2 else 1
    {
      assert Rank(ws, 2, w) == if w >= 3 then 1 else 0;
      assert Rank(ws, 4, w) == if w >= 2 then 1 else 0;
    }
  }

  // ----- readHuff, from the weights on -----

  datatype HuffResult = HuffOk(tableBits: nat, ws: seq<nat>) | WeightOverflow | BadWeights | TableTooSmall

  lemma {:induction false} CellsBound(ws: seq<nat>, i: nat, j: nat)
    requires j < i <= |ws|
    ensures Cells(ws[j]) <= Total(ws, i)
  {
    if j < i - 1 {
      CellsBound(ws, i - 1, j);
    }
  }

  lemma {:induction false} PrefixSame(ws: seq<nat>, last: nat, i: nat, w: nat)
    requires i <= |ws|
    ensures Total(ws + [last], i) == Total(ws, i) && Rank(ws + [last], i, w) == Rank(ws, i, w)
  {
    if i > 0 {
      PrefixSame(ws, last, i - 1, w);
    }
  }

  lemma {:induction false} WeightFits(w: nat, total: nat, bits: nat)
    requires Cells(w) <= total < Pow2(bits)
    ensures w <= bits
  {
    if w > bits {
      Pow2Mono(bits, w - 1);
    }
  }

  /** Appending the weight that fills the table up gives an accepted list. */
  lemma {:induction false} Completed(ws: seq<nat>, high: nat, bits: nat)
    requires |ws| < 256 && 1 <= bits <= 11 && Total(ws, |ws|) + Pow2(high) == Pow2(bits)
    requires Total(ws, |ws|) > 0
    ensures Accepted(ws + [high + 1], bits)
  {
    WeightFits(high + 1, Pow2(high), bits);
    CompletedTotal(ws, high);
    CompletedFits(ws, high + 1, bits);
  }

  lemma {:induction false} CompletedTotal(ws: seq<nat>, high: nat)
    ensures Total(ws + [high + 1], |ws| + 1) == Total(ws, |ws|) + Pow2(high)
  {
    PrefixSame(ws, high + 1, |ws|, 0);
    assert (ws + [high + 1])[|ws|] == high + 1;
  }

  lemma {:induction false} CompletedFits(ws: seq<nat>, last: nat, bits: nat)
    requires last <= bits && Total(ws, |ws|) < Pow2(bits)
    ensures forall j :: 0 <= j < |ws + [last]| ==> (ws + [last])[j] <= bits
  {
    forall j | 0 <= j < |ws| ensures ws[j] <= bits {
      EarlierFits(ws, j, bits);
    }
  }

  lemma {:induction false} EarlierFits(ws: seq<nat>, j: nat, bits: nat)
    requires j < |ws| && Total(ws, |ws|) < Pow2(bits)
    ensures ws[j] <= bits
  {
    CellsBound(ws, |ws|, j);
    WeightFits(ws[j], Total(ws, |ws|), bits);
  }

  /** At most one last weight completes a list to a power of two, and the table size is then fixed. */
  lemma {:induction false} CompletionIsUnique(total: nat, a: nat, b: nat)
    requires total > 0 && total + Pow2(a) == Pow2(b)
    ensures b == HighBit(total) + 1 && HighBit(Pow2(b) - total) == a
  {
    if a >= b { Pow2Mono(b, a); }
    Pow2Mono(a, b - 1);
    HighBitUnique(total, b - 1);
    HighBitUnique(Pow2(a), a);
  }

  /** `last` and `bits` make a usable code out of the weights read. */
  ghost predicate Completes(ws: seq<nat>, last: nat, bits: nat, tableLen: nat) {
    && last > 0 && Total(ws, |ws|) > 0 && Pow2(bits) <= tableLen
    && Accepted(ws + [last], bits)
    && Rank(ws + [last], |ws| + 1, 1) >= 2
  }

  lemma {:induction false} CompletionFacts(ws: seq<nat>, last: nat, bits: nat, tableLen: nat)
    requires Completes(ws, last, bits, tableLen)
    ensures bits == HighBit(Total(ws, |ws|)) + 1
    ensures Pow2(bits) > Total(ws, |ws|) && HighBit(Pow2(bits) - Total(ws, |ws|)) == last - 1
    ensures Pow2(last - 1) == Pow2(bits) - Total(ws, |ws|)
    ensures Rank(ws + [last], |ws| + 1, 1) % 2 == 0 && |ws| < 256
    ensures forall i :: 0 <= i < |ws| ==> ws[i] <= 11
  {
    PrefixSame(ws, last, |ws|, 0);
    CompletionIsUnique(Total(ws, |ws|), last - 1, bits);
    OnesAreEven(ws + [last], bits);
    forall i | 0 <= i < |ws| ensures ws[i] <= 11 {
      assert (ws + [last])[i] == ws[i];
    }
  }

  /** An accepted list has an even number of longest codes. */
  lemma {:induction false} OnesAreEven(ws: seq<nat>, bits: nat)
    requires Accepted(ws, bits)
    ensures Rank(ws, |ws|, 1) % 2 == 0
  {
    assert Start(ws, 2) == Rank(ws, |ws|, 1);
    if bits == 1 {
      StartsEnd(ws, 1);
    } else {
      StartUnits(ws, 2, bits);
    }
  }

  ghost predicate Marked(mark: seq<nat>, ws: seq<nat>, i: nat) {
    |mark| == 13 && i <= |ws| && forall v: nat :: v < 13 ==> mark[v] == Rank(ws, i, v)
  }

  ghost predicate Completable(ws: seq<nat>, tableLen: nat) {
    exists last: nat, bits: nat :: Completes(ws, last, bits, tableLen)
  }

  /** Of the lists that some last weight makes a complete code, exactly those without a longest code are rejected. */
  lemma {:induction false} RejectedIff(ws: seq<nat>, last: nat, bits: nat, tableLen: nat)
    requires last > 0 && Total(ws, |ws|) > 0 && Pow2(bits) <= tableLen && Accepted(ws + [last], bits)
    ensures Completable(ws, tableLen) <==> Rank(ws + [last], |ws| + 1, 1) > 0
  {
    if Completable(ws, tableLen) {
      var l: nat, b: nat :| Completes(ws, l, b, tableLen);
      SameCompletion(ws, l, b, last, bits);
    }
    OnesAreEven(ws + [last], bits);
    if Rank(ws + [last], |ws| + 1, 1) > 0 {
      assert Completes(ws, last, bits, tableLen);
    }
  }

  lemma {:induction false} SameCompletion(ws: seq<nat>, l: nat, b: nat, last: nat, bits: nat)
    requires l > 0 && last > 0 && Total(ws, |ws|) > 0 && Accepted(ws + [l], b) && Accepted(ws + [last], bits)
    ensures l == last && b == bits
  {
    var total := Total(ws, |ws|);
    assert total + Pow2(l - 1) == Pow2(b) by { CompletedTotal(ws, l - 1); }
    assert total + Pow2(last - 1) == Pow2(bits) by { CompletedTotal(ws, last - 1); }
    CompletionIsUnique(total, l - 1, b);
    CompletionIsUnique(total, last - 1, bits);
  }

  /** Two symbols of weight 2 are a complete code, and are rejected. */
  lemma {:induction false} TwosAreRejected(tableLen: nat)
    requires tableLen >= 4
    ensures Accepted([2] + [2], 2) && !Completable([2], tableLen)
  {
    Pow2Values();
    assert Total([2], 0) == 0 && Total([2], 1) == 2;
    PrefixSame([2], 2, 1, 1);
    assert Total([2] + [2], 2) == 4;
    assert Rank([2], 0, 1) == 0 && Rank([2], 1, 1) == 0;
    assert Rank([2] + [2], 2, 1) == 0;
    RejectedIff([2], 2, 2, tableLen);
  }

  predicate EvenOnes(ws: seq<nat>) {
    Rank(ws, |ws|, 1) >= 2 && Rank(ws, |ws|, 1) % 2 == 0
  }

  /** What the checks test, when some last weight makes the list a code. */
  lemma {:induction false} ChecksPass(ws: seq<nat>, tableLen: nat) returns (last: nat, bits: nat)
    requires Completable(ws, tableLen)
    ensures |ws| < 256 && forall i :: 0 <= i < |ws| ==> ws[i] <= 11
    ensures Total(ws, |ws|) > 0 && last > 0 && bits == HighBit(Total(ws, |ws|)) + 1
    ensures bits <= 11 && Pow2(bits) <= tableLen && Pow2(bits) - Total(ws, |ws|) == Pow2(last - 1)
    ensures HighBit(Pow2(last - 1)) == last - 1 && EvenOnes(ws + [last])
  {
    last, bits :| Completes(ws, last, bits, tableLen);
    CompletionFacts(ws, last, bits, tableLen);
  }

  /** `weightMark` and `weightMask` (huff.go:131-141). */
  method CountWeights(weights: seq<nat>) returns (ok: bool, mark: seq<nat>, weightMask: nat)
    ensures ok ==> Marked(mark, weights, |weights|) && weightMask == Total(weights, |weights|)
    ensures ok <==> forall i :: 0 <= i < |weights| ==> weights[i] <= 12
  {
    mark := seq(13, _ => 0);
    weightMask := 0;
    for i := 0 to |weights|
      invariant Marked(mark, weights, i)
      invariant weightMask == Total(weights, i)
      invariant forall j :: 0 <= j < i ==> weights[j] <= 12
    {
      var w := weights[i];
      if w > 12 {
        return false, mark, weightMask;
      }
      mark := mark[w := mark[w] + 1];
      if w > 0 {
        weightMask := weightMask + Pow2(w - 1);
      }
    }
    ok := true;
  }

  /** The checks and the omitted last weight (huff.go:131-174): a list is accepted exactly when some
      last weight makes it a code. */
  method CompleteWeights(weights: seq<nat>, tableLen: nat) returns (r: HuffResult, mark: seq<nat>)
    requires |weights| <= 256
    ensures r.HuffOk? ==> |r.ws| == |weights| + 1 && r.ws == weights + [r.ws[|weights|]]
    ensures r.HuffOk? ==> Completes(weights, r.ws[|weights|], r.tableBits, tableLen)
    ensures r.HuffOk? ==> Marked(mark, r.ws, |r.ws|)
    ensures Completable(weights, tableLen) <==> r.HuffOk?
  {
    if Completable(weights, tableLen) {
      ghost var _, _ := ChecksPass(weights, tableLen);
    }
    var ok, weightMask;
    ok, mark, weightMask := CountWeights(weights);
    if !ok {
      return WeightOverflow, mark;
    }
    if weightMask == 0 {
      return BadWeights, mark;
    }
    var tableBits := HighBit(weightMask) + 1;
    if tableBits > 11 {
      return BadWeights, mark;
    }
    if tableLen < Pow2(tableBits) {
      return TableTooSmall, mark;
    }
    var left := Pow2(tableBits) - weightMask;
    var highBit := HighBit(left);
    if Pow2(highBit) != left {
      return BadWeights, mark;
    }
    if |weights| >= 256 {
      return WeightOverflow, mark;
    }
    r, mark := AppendLast(weights, mark, tableBits, highBit, tableLen);
  }

  method AppendLast(weights: seq<nat>, mark0: seq<nat>, tableBits: nat, highBit: nat, ghost tableLen: nat)
    returns (r: HuffResult, mark: seq<nat>)
    requires |weights| < 256 && 1 <= tableBits <= 11 && Total(weights, |weights|) > 0
    requires Pow2(tableBits) <= tableLen && Marked(mark0, weights, |weights|)
    requires Total(weights, |weights|) + Pow2(highBit) == Pow2(tableBits)
    ensures r.HuffOk? ==> r == HuffOk(tableBits, weights + [highBit + 1])
    ensures r.HuffOk? ==> Completes(weights, highBit + 1, tableBits, tableLen) && Marked(mark, r.ws, |r.ws|)
    ensures r.HuffOk? <==> EvenOnes(weights + [highBit + 1])
  {
    Completed(weights, highBit, tableBits);
    var last := highBit + 1;
    assert last <= 11 by { assert (weights + [last])[|weights|] == last; }
    MarkLast(mark0, weights, last);
    mark := mark0[last := mark0[last] + 1];
    if mark[1] < 2 || mark[1] % 2 != 0 {
      return BadWeights, mark;
    }
    r := HuffOk(tableBits, weights + [last]);
  }

  lemma {:induction false} MarkLast(mark: seq<nat>, ws: seq<nat>, last: nat)
    requires Marked(mark, ws, |ws|) && last < 13
    ensures Marked(mark[last := mark[last] + 1], ws + [last], |ws| + 1)
  {
    var mark' := mark[last := mark[last] + 1];
    forall v: nat | v < 13 ensures mark'[v] == Rank(ws + [last], |ws| + 1, v) {
      PrefixSame(ws, last, |ws|, v);
    }
  }

  /** `weightMark` turned from counts into the first cell of each weight (huff.go:179-184). */
  method FirstCells(mark0: seq<nat>, ghost ws: seq<nat>, tableBits: nat) returns (mark: seq<nat>)
    requires Marked(mark0, ws, |ws|) && tableBits <= 11
    ensures |mark| == 13 && forall v: nat :: 1 <= v <= tableBits ==> mark[v] == Start(ws, v)
  {
    mark := mark0;
    var next := 0;
    for i := 0 to tableBits
      invariant |mark| == 13 && next == Start(ws, i + 1)
      invariant forall v: nat :: 1 <= v <= i ==> mark[v] == Start(ws, v)
      invariant forall v: nat :: i < v < 13 ==> mark[v] == Rank(ws, |ws|, v)
    {
      var cur := next;
      next := next + Shl(mark[i + 1], i);
      mark := mark[i + 1 := cur];
    }
  }

  method FillRun(table: array<nat>, start: nat, length: nat, v: nat)
    requires start + length <= table.Length
    modifies table
    ensures forall x :: start <= x < start + length ==> table[x] == v
    ensures forall x :: 0 <= x < table.Length && !(start <= x < start + length) ==> table[x] == old(table[x])
  {
    for j := 0 to length
      invariant forall x :: start <= x < start + j ==> table[x] == v
      invariant forall x :: 0 <= x < table.Length && !(start <= x < start + j) ==> table[x] == old(table[x])
    {
      table[start + j] := v;
    }
  }

  ghost predicate FilledUpTo(t: seq<nat>, ws: seq<nat>, bits: nat, i: nat)
    requires Accepted(ws, bits)
  {
    i <= |ws| && forall j: nat :: j < i && ws[j] > 0 ==> Filled(t, ws, bits, j)
  }

  /** Where each weight's next run goes when the first `i` symbols are placed. */
  ghost predicate NextCells(mark: seq<nat>, ws: seq<nat>, bits: nat, i: nat) {
    && |mark| == 13 && bits <= 11 && i <= |ws|
    && forall v: nat :: 1 <= v <= bits ==> mark[v] == Start(ws, v) + Shl(Rank(ws, i, v), v - 1)
  }

  lemma {:induction false} NextCellsInit(mark: seq<nat>, ws: seq<nat>, bits: nat)
    requires |mark| == 13 && bits <= 11 && forall v: nat :: 1 <= v <= bits ==> mark[v] == Start(ws, v)
    ensures NextCells(mark, ws, bits, 0)
  {
    forall v: nat | 1 <= v <= bits ensures mark[v] == Start(ws, v) + Shl(Rank(ws, 0, v), v - 1) {
      ShlFacts(0, 0, v - 1);
    }
  }

  lemma {:induction false} NextCellsStep(mark: seq<nat>, ws: seq<nat>, bits: nat, i: nat)
    requires NextCells(mark, ws, bits, i) && i < |ws| && 0 < ws[i] <= bits
    ensures NextCells(mark[ws[i] := mark[ws[i]] + Pow2(ws[i] - 1)], ws, bits, i + 1)
  {
    ShlFacts(Rank(ws, i, ws[i]), 0, ws[i] - 1);
  }

  /** A run written for symbol `i` leaves the runs before it alone. */
  lemma {:induction false} FillStep(t: seq<nat>, u: seq<nat>, ws: seq<nat>, bits: nat, i: nat)
    requires Accepted(ws, bits) && FilledUpTo(t, ws, bits, i) && |u| == |t| && i < |ws| && ws[i] > 0
    requires Filled(u, ws, bits, i)
    requires forall x :: 0 <= x < |t| && !InRun(ws, i, x) ==> u[x] == t[x]
    ensures FilledUpTo(u, ws, bits, i + 1)
  {
    forall j: nat | j < i && ws[j] > 0 ensures Filled(u, ws, bits, j) {
      assert Filled(t, ws, bits, j);
      forall x | RunStart(ws, j) <= x < RunStart(ws, j) + Pow2(ws[j] - 1) ensures u[x] == EntryOf(ws, j, bits) {
        if InRun(ws, i, x) {
          PrefixFree(ws, bits, i, j, x);
        }
      }
    }
  }

  /** `readHuff` from the weights on: the table of the completed canonical code. */
  method BuildHuff(weights: seq<nat>, table: array<nat>) returns (r: HuffResult)
    requires |weights| <= 256
    modifies table
    ensures r.HuffOk? ==> |r.ws| == |weights| + 1 && r.ws == weights + [r.ws[|weights|]]
    ensures r.HuffOk? ==> Completes(weights, r.ws[|weights|], r.tableBits, table.Length)
    ensures r.HuffOk? ==> IsHuffTable(table[..Pow2(r.tableBits)], r.ws, r.tableBits)
    ensures Completable(weights, table.Length) <==> r.HuffOk?
  {
    var mark;
    r, mark := CompleteWeights(weights, table.Length);
    if r.HuffOk? {
      FillTable(mark, r.ws, r.tableBits, table);
    }
  }

  method FillTable(mark0: seq<nat>, ws: seq<nat>, bits: nat, table: array<nat>)
    requires Accepted(ws, bits) && Marked(mark0, ws, |ws|) && Pow2(bits) <= table.Length
    modifies table
    ensures IsHuffTable(table[..Pow2(bits)], ws, bits)
  {
    var mark := FirstCells(mark0, ws, bits);
    NextCellsInit(mark, ws, bits);
    for i := 0 to |ws|
      invariant Filling(mark, table[..Pow2(bits)], ws, bits, i)
    {
      mark := PlaceSymbol(mark, ws, bits, i, table);
    }
  }

  ghost predicate Filling(mark: seq<nat>, t: seq<nat>, ws: seq<nat>, bits: nat, i: nat)
    requires Accepted(ws, bits)
  {
    NextCells(mark, ws, bits, i) && FilledUpTo(t, ws, bits, i)
  }

  lemma {:induction false} NoRun(mark: seq<nat>, t: seq<nat>, ws: seq<nat>, bits: nat, i: nat)
    requires Accepted(ws, bits) && i < |ws| && ws[i] == 0 && Filling(mark, t, ws, bits, i)
    ensures Filling(mark, t, ws, bits, i + 1)
  {
  }

  /** The body of the fill loop for symbol `i`. */
  method PlaceSymbol(mark0: seq<nat>, ws: seq<nat>, bits: nat, i: nat, table: array<nat>) returns (mark: seq<nat>)
    requires Accepted(ws, bits) && Pow2(bits) <= table.Length && i < |ws|
    requires Filling(mark0, table[..Pow2(bits)], ws, bits, i)
    modifies table
    ensures Filling(mark, table[..Pow2(bits)], ws, bits, i + 1)
  {
    var w := ws[i];
    mark := mark0;
    if w == 0 {
      NoRun(mark, table[..Pow2(bits)], ws, bits, i);
    } else {
      var length := Pow2(w - 1);
      var start := mark[w];
      RunEnds(ws, bits, i);
      NextCellsStep(mark, ws, bits, i);
      PlaceRun(table, ws, bits, i, start, length);
      mark := mark[w := mark[w] + length];
    }
  }

  /** One symbol's run: the cells of the earlier symbols stay as they are. */
  method PlaceRun(table: array<nat>, ws: seq<nat>, bits: nat, i: nat, start: nat, length: nat)
    requires Accepted(ws, bits) && Pow2(bits) <= table.Length && i < |ws| && ws[i] > 0
    requires start == RunStart(ws, i) && length == Pow2(ws[i] - 1) && start + length <= Pow2(bits)
    requires FilledUpTo(table[..Pow2(bits)], ws, bits, i)
    modifies table
    ensures FilledUpTo(table[..Pow2(bits)], ws, bits, i + 1)
  {
    ghost var size := Pow2(bits);
    ghost var before := table[..size];
    FillRun(table, start, length, EntryOf(ws, i, bits));
    FillStep(before, table[..size], ws, bits, i);
  }
}
