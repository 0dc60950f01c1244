/** The FSE decoding table (pkg/lib/zstd/fse.go:152-201): for every symbol the intervals
    [base, base + 2^bits) of its cells tile the state space. */
module FseTable {
  import opened Arith
  import opened FseSpread

  /** How many of the first `i` cells hold symbol `s`. */
  function CountSym(t: seq<FseEntry>, i: nat, s: nat): (n: nat)
    requires i <= |t|
    ensures n <= i
  {
    if i == 0 then 0 else CountSym(t, i - 1, s) + (if t[i - 1].sym == s then 1 else 0)
  }

  lemma {:induction false} CountMono(t: seq<FseEntry>, i: nat, j: nat, s: nat)
    requires i <= j <= |t|
    ensures CountSym(t, i, s) <= CountSym(t, j, s)
    ensures i < j && t[i].sym == s ==> CountSym(t, i, s) < CountSym(t, j, s)
  {
    if i < j {
      CountMono(t, i, j - 1, s);
    }
  }

  lemma {:induction false} CountIsCells(t: seq<FseEntry>, i: nat, s: nat)
    requires i <= |t|
    ensures CountSym(t, i, s) == |CellsOf(t, s, Below(i))|
  {
    if i > 0 {
      CountIsCells(t, i - 1, s);
      CellsGrow(t, Below(i - 1), i - 1, t[i - 1], s);
      assert t[i - 1 := t[i - 1]] == t;
    }
  }

  lemma {:induction false} CountSameSyms(t: seq<FseEntry>, u: seq<FseEntry>, i: nat, s: nat)
    requires i <= |t| && i <= |u| && forall c :: 0 <= c < i ==> t[c].sym == u[c].sym
    ensures CountSym(t, i, s) == CountSym(u, i, s)
  {
    if i > 0 {
      CountSameSyms(t, u, i - 1, s);
    }
  }

  /** The n-th cell of a symbol. */
  lemma {:induction false} Occurrence(t: seq<FseEntry>, i: nat, s: nat, n: nat) returns (c: nat)
    requires i <= |t| && n < CountSym(t, i, s)
    ensures c < i && t[c].sym == s && CountSym(t, c, s) == n
  {
    if t[i - 1].sym == s && CountSym(t, i - 1, s) == n {
      c := i - 1;
    } else {
      c := Occurrence(t, i - 1, s, n);
    }
  }

  /** The number cell `i` gets: its symbol's cells are numbered w, w + 1, ..., 2w - 1 in table order. */
  function CellNumber(t: seq<FseEntry>, norm: seq<Count>, i: nat): nat
    requires i < |t| && t[i].sym < |norm|
  {
    Weight(norm[t[i].sym]) + CountSym(t, i, t[i].sym)
  }

  /** The entry of the cell numbered `n`: the bits that lift `n` to a (k+1)-bit number, and its base. */
  predicate Numbered(e: FseEntry, n: nat, k: nat) {
    && n > 0 && HighBit(n) <= k
    && e.bits == k - HighBit(n)
    && e.base == Shl(n, e.bits) - Pow2(k)
  }

  ghost predicate CellOk(t: seq<FseEntry>, norm: seq<Count>, k: nat, i: nat)
    requires i < |t|
  {
    t[i].sym < |norm| && Numbered(t[i], CellNumber(t, norm, i), k)
  }

  /** A decoding table for `norm` with 2^k states. */
  ghost predicate IsTable(t: seq<FseEntry>, norm: seq<Count>, k: nat) {
    && |t| == Pow2(k)
    && Complete(t, norm)
    && (forall i: nat :: i < |t| ==> CellOk(t, norm, k, i))
  }

  /** Every symbol has all its cells. */
  ghost predicate Complete(t: seq<FseEntry>, norm: seq<Count>) {
    forall s: nat :: s < |norm| ==> CountSym(t, |t|, s) == Weight(norm[s])
  }

  datatype BuildError = NoError | CountError | StateError

  lemma {:induction false} WeightBound(norm: seq<Count>, s: nat, i: nat)
    requires s < i <= |norm|
    ensures Weight(norm[s]) <= Sum(norm, i)
  {
    if s < i - 1 {
      WeightBound(norm, s, i - 1);
    }
  }

  /** The numbers of a symbol's cells run over [w, 2w). */
  lemma {:induction false} CellNumberRange(t: seq<FseEntry>, norm: seq<Count>, k: nat, i: nat)
    requires |t| == Pow2(k) == Sum(norm, |norm|) && i < |t| && t[i].sym < |norm|
    requires CountSym(t, |t|, t[i].sym) == Weight(norm[t[i].sym])
    ensures 1 <= Weight(norm[t[i].sym]) <= CellNumber(t, norm, i) < 2 * Weight(norm[t[i].sym]) <= Pow2(k + 1)
    ensures HighBit(CellNumber(t, norm, i)) <= k
  {
    CountMono(t, i, |t|, t[i].sym);
    WeightBound(norm, t[i].sym, |norm|);
    var n := CellNumber(t, norm, i);
    if HighBit(n) > k {
      Pow2Mono(k + 1, HighBit(n));
    }
  }

  /** The first `i` cells carry their number, and `next` holds the number each symbol gives out next. */
  ghost predicate PartlyNumbered(t: seq<FseEntry>, norm: seq<Count>, k: nat, i: nat) {
    && i <= |t|
    && (forall c :: 0 <= c < |t| ==> t[c].sym < |norm|)
    && (forall c: nat :: c < i ==> CellOk(t, norm, k, c))
  }

  ghost predicate NextNumbers(next: seq<nat>, t: seq<FseEntry>, norm: seq<Count>, i: nat) {
    && i <= |t| && |next| == |norm|
    && (forall s: nat :: s < |norm| ==> next[s] == Weight(norm[s]) + CountSym(t, i, s))
  }

  lemma {:induction false} SpreadIsComplete(t: seq<FseEntry>, norm: seq<Count>)
    requires Spreads(t, norm)
    ensures Complete(t, norm)
  {
    forall s: nat | s < |norm| ensures CountSym(t, |t|, s) == Weight(norm[s]) {
      CountIsCells(t, |t|, s);
    }
  }

  /** Storing the number of cell `i` keeps all counts, so the invariant moves on by one cell. */
  lemma {:induction false} NumberStep(t: seq<FseEntry>, norm: seq<Count>, k: nat, i: nat, e: FseEntry)
    requires PartlyNumbered(t, norm, k, i) && i < |t|
    requires e.sym == t[i].sym && Numbered(e, CellNumber(t, norm, i), k)
    ensures PartlyNumbered(t[i := e], norm, k, i + 1)
  {
    var u := t[i := e];
    forall c: nat | c < i + 1 ensures CellOk(u, norm, k, c) {
      NumberKept(t, u, norm, c);
      assert c < i ==> CellOk(t, norm, k, c);
    }
  }

  lemma {:induction false} NumberKept(t: seq<FseEntry>, u: seq<FseEntry>, norm: seq<Count>, c: nat)
    requires c < |t| && c < |u| && t[c].sym < |norm|
    requires forall d :: 0 <= d <= c ==> t[d].sym == u[d].sym
    ensures CellNumber(u, norm, c) == CellNumber(t, norm, c)
  {
    CountSameSyms(u, t, c, t[c].sym);
  }

  lemma {:induction false} NextStep(next: seq<nat>, t: seq<FseEntry>, norm: seq<Count>, i: nat, e: FseEntry)
    requires NextNumbers(next, t, norm, i) && i < |t| && e.sym == t[i].sym < |norm|
    ensures NextNumbers(next[e.sym := next[e.sym] + 1], t[i := e], norm, i + 1)
  {
    var next' := next[e.sym := next[e.sym] + 1];
    forall s: nat | s < |norm| ensures next'[s] == Weight(norm[s]) + CountSym(t[i := e], i + 1, s) {
      CountSameSyms(t[i := e], t, i + 1, s);
    }
  }

  lemma {:induction false} CompleteStep(t: seq<FseEntry>, norm: seq<Count>, i: nat, e: FseEntry)
    requires Complete(t, norm) && i < |t| && e.sym == t[i].sym
    ensures Complete(t[i := e], norm)
  {
    forall s: nat | s < |norm| ensures CountSym(t[i := e], |t|, s) == Weight(norm[s]) {
      CountSameSyms(t[i := e], t, |t|, s);
    }
  }

  /** A distribution that fills the table closes the walk. */
  lemma {:induction false} FillingCloses(norm: seq<Count>, k: nat)
    requires Sum(norm, |norm|) == Pow2(k)
    ensures Dealable(norm, k) && Closes(norm, k)
  {
    hide Pow2, Sum, Lows, Positives;
    SumSplits(norm, 0, |norm|);
    if Lows(norm, |norm|) < Pow2(k) {
      DivModUnique(Positives(norm, |norm|), Pow2(k) - Lows(norm, |norm|), 1, 0);
    }
  }

  /** The check for the walk alone does not tell that a distribution fills the table. */
  lemma {:induction false} OverfullCloses(k: nat)
    ensures var norm: seq<Count> := [2 * Pow2(k)];
      Dealable(norm, k) && Closes(norm, k) && Sum(norm, |norm|) == 2 * Pow2(k)
  {
    var norm: seq<Count> := [2 * Pow2(k)];
    assert Lows(norm, 1) == Lows(norm, 0) == 0 && Positives(norm, 1) == Positives(norm, 0) + 2 * Pow2(k);
    assert Sum(norm, 1) == Sum(norm, 0) + 2 * Pow2(k);
    DivModUnique(2 * Pow2(k), Pow2(k), 2, 0);
  }

  /** `buildFSE`. The count error is returned exactly for distributions that do not fill the table, unless their
      counts go round it a whole number of times. */
  method BuildFse(norm: seq<Count>, table: array<FseEntry>, tableBits: nat) returns (err: BuildError)
    requires 4 <= tableBits <= 14 && |norm| <= 256 && Pow2(tableBits) <= table.Length
    requires Dealable(norm, tableBits) && (Closes(norm, tableBits) ==> Sum(norm, |norm|) == Pow2(tableBits))
    modifies table
    ensures err == if Sum(norm, |norm|) == Pow2(tableBits) then NoError else CountError
    ensures err == NoError ==>
      IsTable(table[..Pow2(tableBits)], norm, tableBits) && InOrder(table[..Pow2(tableBits)], norm, tableBits)
    ensures table[Pow2(tableBits)..] == old(table[Pow2(tableBits)..])
  {
    hide Complete, InOrder, Pow2, HighBit, Sum, Dealable, Closes;
    var tableSize := Pow2(tableBits);
    var pos := Spread(norm, table, tableBits);
    if pos != 0 {
      assert Sum(norm, |norm|) != tableSize by {
        if Sum(norm, |norm|) == tableSize {
          FillingCloses(norm, tableBits);
        }
      }
      return CountError;
    }
    err := NoError;
    SpreadIsComplete(table[..tableSize], norm);
    var next: seq<nat> := seq(|norm|, i requires 0 <= i < |norm| => Weight(norm[i]));
    for i := 0 to tableSize
      invariant PartlyNumbered(table[..tableSize], norm, tableBits, i)
      invariant Complete(table[..tableSize], norm)
      invariant NextNumbers(next, table[..tableSize], norm, i) && InOrder(table[..tableSize], norm, tableBits)
      invariant table[tableSize..] == old(table[tableSize..])
    {
      ghost var before := table[..tableSize];
      NumberReady(before, norm, tableBits, i, next);
      var sym := table[i].sym;
      var nextState := next[sym];
      if nextState == 0 {
        assert false;
      }
      var e := Entry(sym, nextState, tableBits);
      NumberStep(before, norm, tableBits, i, e);
      NextStep(next, before, norm, i, e);
      CompleteStep(before, norm, i, e);
      OrderKept(before, norm, tableBits, i, e);
      next := next[sym := next[sym] + 1];
      SetCell(table, tableSize, i, e);
    }
  }

  lemma {:induction false} NumberReady(t: seq<FseEntry>, norm: seq<Count>, k: nat, i: nat, next: seq<nat>)
    requires |t| == Pow2(k) == Sum(norm, |norm|) && i < |t| && t[i].sym < |norm|
    requires Complete(t, norm) && NextNumbers(next, t, norm, i)
    ensures next[t[i].sym] == CellNumber(t, norm, i) > 0
    ensures HighBit(next[t[i].sym]) <= k
  {
    CellNumberRange(t, norm, k, i);
  }

  /** A distribution has exactly one decoding table. */
  lemma {:induction false} TableIsUnique(t: seq<FseEntry>, u: seq<FseEntry>, norm: seq<Count>, k: nat)
    requires k >= 4 && Sum(norm, |norm|) == Pow2(k)
    requires IsTable(t, norm, k) && InOrder(t, norm, k) && IsTable(u, norm, k) && InOrder(u, norm, k)
    ensures t == u
  {
    forall c: nat | c < |t| ensures t[c].sym == u[c].sym {
      OrderIsUnique(t, u, norm, k, c);
    }
    forall c: nat | c < |t| ensures t[c] == u[c] {
      assert CellOk(t, norm, k, c) && CellOk(u, norm, k, c);
      CountSameSyms(t, u, c, t[c].sym);
    }
  }

  /** What one pass of the last loop stores: the width is what `nextState` lacks to k+1 bits. */
  function Entry(sym: nat, nextState: nat, k: nat): (e: FseEntry)
    requires nextState > 0 && HighBit(nextState) <= k
    ensures Numbered(e, nextState, k) && e.sym == sym
  {
    LiftBounds(nextState, k);
    FseEntry(sym, k - HighBit(nextState), Shl(nextState, k - HighBit(nextState)) - Pow2(k))
  }

  /** Shifting `n` up to k+1 bits lands in [2^k, 2^(k+1)), and so does the end of its interval. */
  lemma {:induction false} LiftBounds(n: nat, k: nat)
    requires n > 0 && HighBit(n) <= k
    ensures Pow2(k) <= Shl(n, k - HighBit(n))
    ensures Shl(n, k - HighBit(n)) + Pow2(k - HighBit(n)) <= Pow2(k + 1)
  {
    var h := HighBit(n);
    var b := k - h;
    ShlPow2(h, b);
    ShlPow2(h + 1, b);
    ShlFacts(Pow2(h), n, b);
    ShlFacts(n, 0, b);
    ShlFacts(n + 1, Pow2(h + 1), b);
  }

  /** Following an entry with any bits of its width stays inside the table. */
  lemma {:induction false} StatesStayInTable(t: seq<FseEntry>, norm: seq<Count>, k: nat, i: nat)
    requires IsTable(t, norm, k) && i < |t|
    ensures t[i].base + Pow2(t[i].bits) <= |t|
  {
    assert CellOk(t, norm, k, i);
    EntryEnds(t[i], CellNumber(t, norm, i), k);
  }

  lemma {:induction false} EntryEnds(e: FseEntry, n: nat, k: nat)
    requires Numbered(e, n, k)
    ensures e.base + Pow2(e.bits) <= Pow2(k)
  {
    LiftBounds(n, k);
  }

  ghost predicate Covers(e: FseEntry, x: nat) {
    e.base <= x < e.base + Pow2(e.bits)
  }

  /** Which cell number of a symbol with weight `w`, 2^h <= w < 2^(h+1), leads to the state whose
      number is `y`, y < 2^(h+b+1). */
  function Predecessor(w: nat, y: nat, b: nat): nat {
    if b == 0 || Shr(y, b) >= w then Shr(y, b) else Shr(y, b - 1)
  }

  /** Dropping `b` bits of an (h+b+1)-bit number leaves an (h+1)-bit number. */
  lemma {:induction false} TopBits(y: nat, h: nat, b: nat)
    requires Pow2(h + b) <= y < Pow2(h + b + 1)
    ensures Pow2(h) <= Shr(y, b) < Pow2(h + 1)
    decreases b
  {
    if b > 0 {
      TopBits(y, h + 1, b - 1);
    }
  }

  lemma {:induction false} PredecessorRange(w: nat, h: nat, b: nat, y: nat)
    requires Pow2(h) <= w < Pow2(h + 1) && w <= Pow2(h + b)
    requires Pow2(h + b) <= y < Pow2(h + b + 1)
    ensures w <= Predecessor(w, y, b) < 2 * w
  {
    TopBits(y, h, b);
    if b > 0 {
      TopBits(y, h + 1, b - 1);
      assert Shr(y, b) == Shr(y, b - 1) / 2;
    }
  }

  /** Among the numbers [w, 2w) exactly Predecessor(w, y, b) is `y` without its low bits. */
  lemma {:induction false} PredecessorUnique(w: nat, h: nat, b: nat, y: nat, n: nat, c: nat)
    requires Pow2(h) <= w < Pow2(h + 1) && w <= Pow2(h + b)
    requires Pow2(h + b) <= y < Pow2(h + b + 1)
    requires w <= n < 2 * w && (if n < Pow2(h + 1) then c == b else c == b - 1)
    ensures n == Shr(y, c) <==> n == Predecessor(w, y, b)
  {
    TopBits(y, h, b);
    if b > 0 {
      TopBits(y, h + 1, b - 1);
      assert Shr(y, b) == Shr(y, b - 1) / 2;
    }
  }

  /** The numbers [w, 2w) have as many bits as w or one more. */
  lemma {:induction false} NumberHigh(w: nat, n: nat)
    requires 1 <= w <= n < 2 * w
    ensures HighBit(n) == if n < Pow2(HighBit(w) + 1) then HighBit(w) else HighBit(w) + 1
  {
    HighBitUnique(n, if n < Pow2(HighBit(w) + 1) then HighBit(w) else HighBit(w) + 1);
  }

  lemma {:induction false} WeightHigh(w: nat, k: nat)
    requires 1 <= w <= Pow2(k)
    ensures HighBit(w) <= k
  {
    if HighBit(w) > k {
      Pow2Mono(k + 1, HighBit(w));
    }
  }

  lemma {:induction false} CoversIsShift(e: FseEntry, n: nat, k: nat, x: nat)
    requires Numbered(e, n, k)
    ensures Covers(e, x) <==> n == Shr(x + Pow2(k), k - HighBit(n))
  {
    ShrExact(n, x + Pow2(k), e.bits);
  }

  /** Exactly the cell with the predecessor's number covers `x`. */
  lemma {:induction false} PredecessorIsExact(w: nat, k: nat, x: nat, n: nat, e: FseEntry)
    requires 1 <= w <= Pow2(k) && x < Pow2(k) && w <= n < 2 * w && Numbered(e, n, k)
    ensures HighBit(w) <= k
    ensures Covers(e, x) <==> n == Predecessor(w, x + Pow2(k), k - HighBit(w))
  {
    CoversIsShift(e, n, k, x);
    WeightHigh(w, k);
    NumberHigh(w, n);
    PredecessorUnique(w, HighBit(w), k - HighBit(w), x + Pow2(k), n, k - HighBit(n));
  }

  /** Tiling: every state has exactly one predecessor cell per symbol that occurs. */
  lemma {:induction false} Tiling(t: seq<FseEntry>, norm: seq<Count>, k: nat, s: nat, x: nat) returns (c: nat)
    requires IsTable(t, norm, k) && Sum(norm, |norm|) == Pow2(k)
    requires s < |norm| && norm[s] != 0 && x < Pow2(k)
    ensures c < |t| && t[c].sym == s && Covers(t[c], x)
    ensures forall d :: 0 <= d < |t| && t[d].sym == s && Covers(t[d], x) ==> d == c
  {
    c := CoveringCell(t, norm, k, s, x);
    forall d | 0 <= d < |t| && t[d].sym == s && Covers(t[d], x) ensures d == c {
      NoOverlap(t, norm, k, c, d, x);
    }
  }

  lemma {:induction false} CoveringCell(t: seq<FseEntry>, norm: seq<Count>, k: nat, s: nat, x: nat) returns (c: nat)
    requires IsTable(t, norm, k) && Sum(norm, |norm|) == Pow2(k)
    requires s < |norm| && norm[s] != 0 && x < Pow2(k)
    ensures c < |t| && t[c].sym == s && Covers(t[c], x)
  {
    var w := Weight(norm[s]);
    WeightBound(norm, s, |norm|);
    WeightHigh(w, k);
    PredecessorRange(w, HighBit(w), k - HighBit(w), x + Pow2(k));
    c := Occurrence(t, |t|, s, Predecessor(w, x + Pow2(k), k - HighBit(w)) - w);
    assert CellOk(t, norm, k, c);
    CoveringNumber(t, norm, k, s, c, x);
  }

  lemma {:induction false} NoOverlap(t: seq<FseEntry>, norm: seq<Count>, k: nat, c: nat, d: nat, x: nat)
    requires IsTable(t, norm, k) && Sum(norm, |norm|) == Pow2(k) && x < Pow2(k)
    requires c < |t| && d < |t| && t[c].sym == t[d].sym && Covers(t[c], x) && Covers(t[d], x)
    ensures c == d
  {
    var s := t[c].sym;
    assert CellOk(t, norm, k, c) && CellOk(t, norm, k, d);
    CoveringNumber(t, norm, k, s, c, x);
    CoveringNumber(t, norm, k, s, d, x);
    SameNumber(t, c, d, s);
  }

  lemma {:induction false} CoveringNumber(t: seq<FseEntry>, norm: seq<Count>, k: nat, s: nat, d: nat, x: nat)
    requires IsTable(t, norm, k) && Sum(norm, |norm|) == Pow2(k)
    requires d < |t| && x < Pow2(k) && CellOk(t, norm, k, d) && t[d].sym == s
    ensures 1 <= Weight(norm[s]) && HighBit(Weight(norm[s])) <= k
    ensures Covers(t[d], x) <==>
      Weight(norm[s]) + CountSym(t, d, s) ==
      Predecessor(Weight(norm[s]), x + Pow2(k), k - HighBit(Weight(norm[s])))
  {
    CellNumberRange(t, norm, k, d);
    WeightBound(norm, s, |norm|);
    PredecessorIsExact(Weight(norm[s]), k, x, CellNumber(t, norm, d), t[d]);
  }

  lemma {:induction false} SameNumber(t: seq<FseEntry>, c: nat, d: nat, s: nat)
    requires c < |t| && d < |t| && t[c].sym == s && t[d].sym == s
    requires CountSym(t, c, s) == CountSym(t, d, s)
    ensures c == d
  {
    if d < c {
      CountMono(t, d, c, s);
    } else if c < d {
      CountMono(t, c, d, s);
    }
  }
}
