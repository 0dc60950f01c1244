/** The symbol spread of an FSE decoding table (pkg/lib/zstd/fse.go, section 4.1.1 of RFC 8878):
    a walk with an odd step over a power-of-two table is a permutation of the cells. */
module FseSpread {
  import opened Arith

  /** `fseEntry`: symbol, number of bits to read, and the state those bits are added to. */
  datatype FseEntry = FseEntry(sym: nat, bits: nat, base: nat)

  /** A normalised count: -1 stands for a probability below one cell and takes one cell. */
  type Count = n: int | -1 <= n witness 0

  function Weight(n: Count): nat {
    if n < 0 then 1 else n
  }

  /** Cells taken by the first `i` symbols, by the low-probability ones, and by the others. */
  function Sum(norm: seq<Count>, i: nat): nat
    requires i <= |norm|
  {
    if i == 0 then 0 else Sum(norm, i - 1) + Weight(norm[i - 1])
  }

  function Lows(norm: seq<Count>, i: nat): nat
    requires i <= |norm|
  {
    if i == 0 then 0 else Lows(norm, i - 1) + (if norm[i - 1] < 0 then 1 else 0)
  }

  function Positives(norm: seq<Count>, i: nat): nat
    requires i <= |norm|
  {
    if i == 0 then 0 else Positives(norm, i - 1) + (if norm[i - 1] < 0 then 0 else norm[i - 1])
  }

  lemma {:induction false} SumSplits(norm: seq<Count>, i: nat, j: nat)
    requires i <= j <= |norm|
    ensures Sum(norm, j) == Lows(norm, j) + Positives(norm, j)
    ensures Sum(norm, i) <= Sum(norm, j) && Lows(norm, i) <= Lows(norm, j)
    ensures Positives(norm, i) <= Positives(norm, j)
  {
    if i < j {
      SumSplits(norm, i, j - 1);
    } else if j > 0 {
      SumSplits(norm, j - 1, j - 1);
    }
  }

  // ----- the walk -----

  function Step(k: nat): nat {
    Pow2(k) / 2 + Pow2(k) / 8 + 3
  }

  /** Where the walk stands after `t` raw steps. */
  function Walk(k: nat, t: nat): (r: nat)
    ensures r < Pow2(k)
  {
    t * Step(k) % Pow2(k)
  }

  lemma {:induction false} StepIsOdd(k: nat)
    requires k >= 4
    ensures Step(k) % 2 == 1
  {
    SixteenTimes(k - 4);
    OddSum(Pow2(k - 4));
  }

  lemma {:induction false} SixteenTimes(j: nat)
    ensures Pow2(j + 4) == 16 * Pow2(j)
  {
    assert Pow2(j + 1) == 2 * Pow2(j);
    assert Pow2(j + 2) == 4 * Pow2(j);
    assert Pow2(j + 3) == 8 * Pow2(j);
  }

  lemma {:induction false} OddSum(p: nat)
    ensures (16 * p / 2 + 16 * p / 8 + 3) % 2 == 1
  {
    assert 16 * p / 2 == 8 * p;
    assert 16 * p / 8 == 2 * p;
    assert 8 * p + 2 * p + 3 == 2 * (5 * p + 1) + 1;
  }

  lemma {:induction false} AddMod(a: nat, b: nat, m: nat)
    requires m > 0
    ensures (a % m + b) % m == (a + b) % m
  {
    var q := (a % m + b) / m;
    assert a + b == (a / m + q) * m + (a % m + b) % m by {
      assert (a / m + q) * m == a / m * m + q * m;
    }
    DivModUnique(a + b, m, a / m + q, (a % m + b) % m);
  }

  lemma {:induction false} WalkNext(k: nat, t: nat)
    ensures Walk(k, t + 1) == (Walk(k, t) + Step(k)) % Pow2(k)
  {
    NextMultiple(t, Step(k), Pow2(k));
  }

  lemma {:induction false} NextMultiple(t: nat, p: nat, m: nat)
    requires m > 0
    ensures (t + 1) * p % m == (t * p % m + p) % m
  {
    AddMod(t * p, p, m);
    assert (t + 1) * p == t * p + p;
  }

  lemma {:induction false} MultipleMod(m: nat, p: nat)
    requires m > 0
    ensures m * p % m == 0
  {
    DivModUnique(m * p, m, p, 0);
  }

  lemma {:induction false} WalkReturns(k: nat)
    ensures Walk(k, Pow2(k)) == 0 && Walk(k, 0) == 0
  {
    MultipleMod(Pow2(k), Step(k));
    MultipleMod(Pow2(k), 0);
  }

  /** An odd multiple of `d` is divisible by 2^k only if `d` is. */
  lemma {:induction false} OddFactor(k: nat, d: nat, q: nat, s: nat)
    requires s % 2 == 1 && d * s == q * Pow2(k)
    ensures d % Pow2(k) == 0
  {
    if k > 0 {
      HalveProduct(d, s, q, Pow2(k - 1));
      OddFactor(k - 1, d / 2, q, s);
      DoubleMultiple(d, Pow2(k - 1));
    }
  }

  lemma {:induction false} HalveProduct(d: nat, s: nat, q: nat, p: nat)
    requires s % 2 == 1 && d * s == q * (2 * p)
    ensures d % 2 == 0 && d / 2 * s == q * p
  {
    var e, r := d / 2, s / 2;
    assert q * (2 * p) == 2 * (q * p);
    OddTimesOdd(e, r);
    assert (2 * e) * s == 2 * (e * s);
  }

  lemma {:induction false} DoubleMultiple(d: nat, p: nat)
    requires p > 0 && d % 2 == 0 && d / 2 % p == 0
    ensures d % (2 * p) == 0
  {
    var f := d / 2 / p;
    assert d / 2 == f * p;
    assert d == f * (2 * p);
    DivModUnique(d, 2 * p, f, 0);
  }

  lemma {:induction false} OddTimesOdd(a: nat, b: nat)
    ensures (2 * a + 1) * (2 * b + 1) == 2 * (2 * a * b + a + b) + 1
  {
  }

  lemma {:induction false} WalkInjective(k: nat, s: nat, t: nat)
    requires k >= 4 && s < t < Pow2(k)
    ensures Walk(k, s) != Walk(k, t)
  {
    StepIsOdd(k);
    NoWrap(k, s, t, Step(k));
  }

  lemma {:induction false} NoWrap(k: nat, s: nat, t: nat, p: nat)
    requires p % 2 == 1 && s < t < Pow2(k)
    ensures s * p % Pow2(k) != t * p % Pow2(k)
  {
    if s * p % Pow2(k) == t * p % Pow2(k) {
      var q := CongruentProducts(s, t, p, Pow2(k));
      OddFactor(k, t - s, q, p);
      DivModUnique(t - s, Pow2(k), 0, t - s);
    }
  }

  lemma {:induction false} CongruentProducts(s: nat, t: nat, p: nat, m: nat) returns (q: nat)
    requires m > 0 && s <= t && s * p % m == t * p % m
    ensures (t - s) * p == q * m
  {
    var a, b := s * p, t * p;
    assert (t - s) * p == b - a;
    var d := b / m - a / m;
    assert b - a == d * m by { assert d * m == b / m * m - a / m * m; }
    NonNegativeFactor(t - s, p, d, m);
    q := d;
  }

  lemma {:induction false} NonNegativeFactor(a: nat, p: nat, q: int, m: nat)
    requires a * p == q * m && m > 0
    ensures q >= 0
  {
    if q < 0 {
      MulMono(q, -1, m);
    }
  }

  ghost function Image(k: nat, t: nat): set<nat>
  {
    if t == 0 then {} else Image(k, t - 1) + {Walk(k, t - 1)}
  }

  lemma {:induction false} ImageMembers(k: nat, t: nat, c: nat)
    ensures c in Image(k, t) <==> exists s: nat :: s < t && Walk(k, s) == c
  {
    if t > 0 {
      ImageMembers(k, t - 1, c);
    }
  }

  /** The walk visits `t` different cells in its first `t` steps: it is a permutation of the table. */
  lemma {:induction false} WalkIsPermutation(k: nat, t: nat)
    requires k >= 4 && t <= Pow2(k)
    ensures |Image(k, t)| == t
    ensures forall c: nat :: c in Image(k, t) ==> c < Pow2(k)
    ensures t == Pow2(k) ==> Image(k, t) == Below(Pow2(k))
  {
    if t > 0 {
      WalkIsPermutation(k, t - 1);
      var c := Walk(k, t - 1);
      ImageMembers(k, t - 1, c);
      forall s: nat | s < t - 1 ensures Walk(k, s) != c {
        WalkInjective(k, s, t - 1);
      }
    }
    if t == Pow2(k) {
      FullSet(Image(k, t), t);
    }
  }

  ghost function Below(n: nat): (r: set<nat>)
    ensures forall c: nat :: c in r <==> c < n
    ensures |r| == n
  {
    if n == 0 then {} else Below(n - 1) + {n - 1}
  }

  lemma {:induction false} FullSet(d: set<nat>, n: nat)
    requires forall c :: c in d ==> c < n
    ensures |d| <= n
    ensures |d| == n ==> d == Below(n)
  {
    assert d <= Below(n);
    SubsetSize(d, Below(n));
  }

  // ----- cells of a symbol -----

  /** The cells of `dom` that hold symbol `s`. */
  ghost function CellsOf(t: seq<FseEntry>, s: nat, dom: set<nat>): set<nat>
    requires forall c :: c in dom ==> c < |t|
  {
    set c | c in dom && t[c].sym == s
  }

  lemma {:induction false} CellsGrow(t: seq<FseEntry>, dom: set<nat>, c: nat, e: FseEntry, s: nat)
    requires forall d :: d in dom ==> d < |t|
    requires c < |t| && c !in dom
    ensures |CellsOf(t[c := e], s, dom + {c})| == |CellsOf(t, s, dom)| + (if e.sym == s then 1 else 0)
  {
    var old', new' := CellsOf(t, s, dom), CellsOf(t[c := e], s, dom + {c});
    if e.sym == s {
      assert new' == old' + {c};
    } else {
      assert new' == old';
    }
  }

  /** How many cells symbol `s` has once the spread stands before copy `j` of symbol `i`. */
  function Placed(norm: seq<Count>, i: nat, j: nat, s: nat): nat
    requires s < |norm|
  {
    if norm[s] < 0 then 1 else if s < i then norm[s] else if s == i then j else 0
  }

  ghost predicate Holds(t: seq<FseEntry>, norm: seq<Count>, dom: set<nat>, i: nat, j: nat) {
    && (forall c :: c in dom ==> c < |t| && t[c].sym < |norm|)
    && (forall s: nat :: s < |norm| ==> |CellsOf(t, s, dom)| == Placed(norm, i, j, s))
  }

  /** The same before the low-probability symbols from `i` on have their cell. */
  ghost predicate HoldsLows(t: seq<FseEntry>, norm: seq<Count>, dom: set<nat>, i: nat) {
    && (forall c :: c in dom ==> c < |t| && t[c].sym < |norm|)
    && (forall s: nat :: s < |norm| ==> |CellsOf(t, s, dom)| == if s < i && norm[s] < 0 then 1 else 0)
  }

  lemma {:induction false} LowStep(t: seq<FseEntry>, norm: seq<Count>, dom: set<nat>, i: nat, c: nat)
    requires HoldsLows(t, norm, dom, i) && i < |norm| && norm[i] < 0 && c < |t| && c !in dom
    ensures HoldsLows(t[c := t[c].(sym := i)], norm, dom + {c}, i + 1)
  {
    forall s: nat | s < |norm| {
      CellsGrow(t, dom, c, t[c].(sym := i), s);
    }
  }

  lemma {:induction false} PlaceStep(t: seq<FseEntry>, norm: seq<Count>, dom: set<nat>, i: nat, j: nat, c: nat)
    requires Holds(t, norm, dom, i, j) && i < |norm| && j < norm[i] && c < |t| && c !in dom
    ensures Holds(t[c := t[c].(sym := i)], norm, dom + {c}, i, j + 1)
  {
    var u := t[c := t[c].(sym := i)];
    forall s: nat | s < |norm| ensures |CellsOf(u, s, dom + {c})| == Placed(norm, i, j + 1, s) {
      CellsGrow(t, dom, c, t[c].(sym := i), s);
    }
  }

  /** What the spread promises: every cell holds a symbol, and every symbol has its count of cells. */
  ghost predicate Spreads(t: seq<FseEntry>, norm: seq<Count>) {
    && (forall c :: 0 <= c < |t| ==> t[c].sym < |norm|)
    && (forall s: nat :: s < |norm| ==> |CellsOf(t, s, Below(|t|))| == Weight(norm[s]))
  }

  // ----- the order of the spread -----

  /** How many of the first `t` stops of the walk lie at or below `high`. */
  function Visits(k: nat, high: int, t: nat): nat {
    if t == 0 then 0 else Visits(k, high, t - 1) + if Walk(k, t - 1) <= high then 1 else 0
  }

  /** Copy `n` of all copies, symbol after symbol, is one of symbol `s`. */
  predicate DealtTo(norm: seq<Count>, s: nat, n: nat) {
    s < |norm| && Positives(norm, s) <= n < Positives(norm, s + 1)
  }

  /** Low-probability symbol `s` has its cell: the first one the last cell, and so on downwards. */
  predicate LowAt(t: seq<FseEntry>, norm: seq<Count>, s: nat)
    requires s < |norm|
  {
    norm[s] < 0 ==> Lows(norm, s) < |t| && t[|t| - 1 - Lows(norm, s)].sym == s
  }

  /** Stop `s` of the walk, if it lies at or below `high`, holds the symbol whose turn it is. */
  predicate StopOk(t: seq<FseEntry>, norm: seq<Count>, k: nat, high: int, s: nat) {
    |t| == Pow2(k) && (Walk(k, s) <= high ==> DealtTo(norm, t[Walk(k, s)].sym, Visits(k, high, s)))
  }

  ghost predicate LowsAt(t: seq<FseEntry>, norm: seq<Count>, i: nat) {
    i <= |norm| && forall s: nat :: s < i ==> LowAt(t, norm, s)
  }

  ghost predicate DealtAt(t: seq<FseEntry>, norm: seq<Count>, k: nat, high: int, n: nat) {
    forall s: nat :: s < n ==> StopOk(t, norm, k, high, s)
  }

  /** The whole table is spread in the order of section 4.1.1 of RFC 8878. */
  ghost predicate InOrder(t: seq<FseEntry>, norm: seq<Count>, k: nat) {
    && |t| == Pow2(k) && LowsAt(t, norm, |norm|)
    && DealtAt(t, norm, k, |t| - 1 - Lows(norm, |norm|), Pow2(k))
  }

  lemma {:induction false} DealStep(
    t: seq<FseEntry>, norm: seq<Count>, k: nat, high: int, n: nat, n': nat, i: nat, e: FseEntry)
    requires k >= 4 && |t| == Pow2(k) && DealtAt(t, norm, k, high, n) && n < n' <= Pow2(k) && Walk(k, n) <= high
    requires forall s: nat :: n < s < n' ==> Walk(k, s) > high
    requires e.sym == i && DealtTo(norm, i, Visits(k, high, n))
    ensures DealtAt(t[Walk(k, n) := e], norm, k, high, n')
  {
    var u := t[Walk(k, n) := e];
    forall s: nat | s < n' ensures StopOk(u, norm, k, high, s) {
      if s < n {
        assert StopOk(t, norm, k, high, s);
        WalkInjective(k, s, n);
      }
    }
  }

  lemma {:induction false} LowsKept(t: seq<FseEntry>, norm: seq<Count>, high: int, c: nat, e: FseEntry)
    requires LowsAt(t, norm, |norm|) && high == |t| - 1 - Lows(norm, |norm|) && c <= high && c < |t|
    ensures LowsAt(t[c := e], norm, |norm|)
  {
    var u := t[c := e];
    forall s: nat | s < |norm| ensures LowAt(u, norm, s) {
      assert LowAt(t, norm, s);
      if norm[s] < 0 {
        SumSplits(norm, s + 1, |norm|);
      }
    }
  }

  lemma {:induction false} LowPlaced(t: seq<FseEntry>, norm: seq<Count>, i: nat, e: FseEntry)
    requires i < |norm| && LowsAt(t, norm, i) && norm[i] < 0 && Lows(norm, i) < |t| && e.sym == i
    ensures LowsAt(t[|t| - 1 - Lows(norm, i) := e], norm, i + 1)
  {
    var u := t[|t| - 1 - Lows(norm, i) := e];
    forall s: nat | s < i + 1 ensures LowAt(u, norm, s) {
      if s < i {
        assert LowAt(t, norm, s);
        SumSplits(norm, s + 1, i);
      }
    }
  }

  /** The order leaves no choice: two tables spread in order hold the same symbol in every cell. */
  lemma {:induction false} OrderIsUnique(t: seq<FseEntry>, u: seq<FseEntry>, norm: seq<Count>, k: nat, c: nat)
    requires k >= 4 && Sum(norm, |norm|) == Pow2(k) && InOrder(t, norm, k) && InOrder(u, norm, k) && c < Pow2(k)
    ensures t[c].sym == u[c].sym < |norm|
  {
    var high := Pow2(k) - 1 - Lows(norm, |norm|);
    if c <= high {
      var s := StopAt(k, c);
      assert StopOk(t, norm, k, high, s) && StopOk(u, norm, k, high, s);
      OneTurn(norm, t[c].sym, u[c].sym, Visits(k, high, s));
    } else {
      var s := LowOfRank(norm, |norm|, Pow2(k) - 1 - c);
      assert LowAt(t, norm, s) && LowAt(u, norm, s);
    }
  }

  /** When the walk stands on a cell. */
  lemma {:induction false} StopAt(k: nat, c: nat) returns (s: nat)
    requires k >= 4 && c < Pow2(k)
    ensures s < Pow2(k) && Walk(k, s) == c
  {
    WalkIsPermutation(k, Pow2(k));
    ImageMembers(k, Pow2(k), c);
    s :| s < Pow2(k) && Walk(k, s) == c;
  }

  /** Storing widths and bases does not disturb the order. */
  lemma {:induction false} OrderKept(t: seq<FseEntry>, norm: seq<Count>, k: nat, c: nat, e: FseEntry)
    requires InOrder(t, norm, k) && c < |t| && e.sym == t[c].sym
    ensures InOrder(t[c := e], norm, k)
  {
    var u, high := t[c := e], |t| - 1 - Lows(norm, |norm|);
    forall s: nat | s < |norm| ensures LowAt(u, norm, s) {
      assert LowAt(t, norm, s);
    }
    forall s: nat | s < Pow2(k) ensures StopOk(u, norm, k, high, s) {
      assert StopOk(t, norm, k, high, s);
    }
  }

  lemma {:induction false} OneTurn(norm: seq<Count>, a: nat, b: nat, n: nat)
    requires DealtTo(norm, a, n) && DealtTo(norm, b, n)
    ensures a == b
  {
    if a < b {
      SumSplits(norm, a + 1, b);
    } else if b < a {
      SumSplits(norm, b + 1, a);
    }
  }

  lemma {:induction false} LowOfRank(norm: seq<Count>, i: nat, m: nat) returns (s: nat)
    requires i <= |norm| && m < Lows(norm, i)
    ensures s < i && norm[s] < 0 && Lows(norm, s) == m
    decreases i
  {
    if m < Lows(norm, i - 1) {
      s := LowOfRank(norm, i - 1, m);
    } else {
      s := i - 1;
    }
  }

  ghost predicate IsAbove(dom: set<nat>, high: int, size: nat) {
    forall c: nat :: c in dom <==> high < c < size
  }

  lemma {:induction false} LowsFit(norm: seq<Count>, i: nat)
    requires i < |norm| && norm[i] < 0
    ensures Lows(norm, i) < Lows(norm, |norm|)
  {
    SumSplits(norm, i + 1, |norm|);
  }

  method SetCell(table: array<FseEntry>, tableSize: nat, c: nat, e: FseEntry)
    requires c < tableSize <= table.Length
    modifies table
    ensures table[..tableSize] == old(table[..tableSize])[c := e]
    ensures table[tableSize..] == old(table[tableSize..])
  {
    table[c] := e;
  }

  /** `buildFSE`'s first loop: low-probability symbols take one cell each from the top of the table. */
  method PlaceLows(norm: seq<Count>, table: array<FseEntry>, tableSize: nat)
    returns (high: int, ghost dom: set<nat>)
    requires Lows(norm, |norm|) <= tableSize <= table.Length
    modifies table
    ensures high == tableSize - 1 - Lows(norm, |norm|) && -1 <= high
    ensures IsAbove(dom, high, tableSize) && |dom| == Lows(norm, |norm|)
    ensures Holds(table[..tableSize], norm, dom, 0, 0) && LowsAt(table[..tableSize], norm, |norm|)
    ensures table[tableSize..] == old(table[tableSize..])
  {
    high := tableSize - 1;
    dom := {};
    PlacingStart(table[..tableSize], norm);
    for i := 0 to |norm|
      invariant -1 <= high && PlacingLows(table[..tableSize], norm, dom, i, high)
      invariant table[tableSize..] == old(table[tableSize..])
    {
      if norm[i] < 0 {
        LowsFit(norm, i);
        PlacingStep(table[..tableSize], norm, dom, i, high, table[high].(sym := i));
        SetCell(table, tableSize, high, table[high].(sym := i));
        dom := dom + {high};
        high := high - 1;
      } else {
        PlacingSkip(table[..tableSize], norm, dom, i, high);
      }
    }
    PlacingDone(table[..tableSize], norm, dom, high);
  }

  lemma {:induction false} PlacingStart(t: seq<FseEntry>, norm: seq<Count>)
    ensures PlacingLows(t, norm, {}, 0, |t| - 1)
  {
  }

  lemma {:induction false} PlacingDone(t: seq<FseEntry>, norm: seq<Count>, dom: set<nat>, high: int)
    requires PlacingLows(t, norm, dom, |norm|, high)
    ensures Holds(t, norm, dom, 0, 0)
  {
  }

  /** The first `i` symbols have been looked at. */
  ghost predicate PlacingLows(t: seq<FseEntry>, norm: seq<Count>, dom: set<nat>, i: nat, high: int) {
    && i <= |norm| && high == |t| - 1 - Lows(norm, i) && IsAbove(dom, high, |t|) && |dom| == Lows(norm, i)
    && HoldsLows(t, norm, dom, i) && LowsAt(t, norm, i)
  }

  lemma {:induction false} PlacingStep(
    t: seq<FseEntry>, norm: seq<Count>, dom: set<nat>, i: nat, high: int, e: FseEntry)
    requires PlacingLows(t, norm, dom, i, high) && i < |norm| && norm[i] < 0 && high >= 0 && e == t[high].(sym := i)
    ensures PlacingLows(t[high := e], norm, dom + {high}, i + 1, high - 1)
  {
    LowStep(t, norm, dom, i, high);
    LowPlaced(t, norm, i, e);
  }

  lemma {:induction false} PlacingSkip(t: seq<FseEntry>, norm: seq<Count>, dom: set<nat>, i: nat, high: int)
    requires PlacingLows(t, norm, dom, i, high) && i < |norm| && norm[i] >= 0
    ensures PlacingLows(t, norm, dom, i + 1, high)
  {
  }

  /** `dom` is what lies above `high` plus what the first `t` steps visited below it. */
  ghost predicate Covered(k: nat, high: int, t: nat, dom: set<nat>) {
    forall c: nat :: c in dom <==> c < Pow2(k) && (c > high || c in Image(k, t))
  }

  ghost predicate Walking(k: nat, high: int, t: nat, pos: nat, dom: set<nat>) {
    && t <= Pow2(k) && pos == Walk(k, t)
    && (if high < 0 then t == 0 else pos <= high)
    && Covered(k, high, t, dom)
  }

  /** Until the table is full the walk stands on a cell not written yet. */
  lemma {:induction false} FreshCell(k: nat, high: int, t: nat, pos: nat, dom: set<nat>)
    requires k >= 4 && Walking(k, high, t, pos, dom) && high >= 0
    requires |dom| < Pow2(k) || t < Pow2(k)
    ensures pos !in dom && t < Pow2(k)
  {
    if t == Pow2(k) {
      WalkIsPermutation(k, t);
      FullDomain(k, high, dom);
    }
    ImageMembers(k, t, pos);
    forall s: nat | s < t ensures Walk(k, s) != pos {
      WalkInjective(k, s, t);
    }
  }

  lemma {:induction false} FullDomain(k: nat, high: int, dom: set<nat>)
    requires Covered(k, high, Pow2(k), dom) && Image(k, Pow2(k)) == Below(Pow2(k))
    ensures |dom| == Pow2(k)
  {
    assert dom == Below(Pow2(k));
  }

  /** One placement: move to the next cell at or below `high`. */
  method Advance(k: nat, high: int, ghost t: nat, pos: nat) returns (ghost t': nat, pos': nat)
    requires k >= 4 && high >= 0 && t < Pow2(k) && pos == Walk(k, t) <= high
    ensures t < t' <= Pow2(k) && pos' == Walk(k, t') <= high && Visits(k, high, t') == Visits(k, high, t) + 1
    ensures forall s: nat :: t < s < t' ==> Walk(k, s) > high
  {
    var tableSize := Pow2(k);
    var step := tableSize / 2 + tableSize / 8 + 3;
    WalkNext(k, t);
    pos', t' := (pos + step) % tableSize, t + 1;
    while pos' > high
      invariant t < t' <= tableSize && pos' == Walk(k, t') && Visits(k, high, t') == Visits(k, high, t) + 1
      invariant forall s: nat :: t < s < t' ==> Walk(k, s) > high
      decreases tableSize - t'
    {
      WalkReturns(k);
      WalkNext(k, t');
      pos', t' := (pos' + step) % tableSize, t' + 1;
    }
  }

  lemma {:induction false} WalksOn(k: nat, high: int, t: nat, t': nat, dom: set<nat>)
    requires k >= 4 && t < t' <= Pow2(k) && Walking(k, high, t, Walk(k, t), dom) && high >= 0 && Walk(k, t') <= high
    requires forall s: nat :: t < s < t' ==> Walk(k, s) > high
    ensures Walking(k, high, t', Walk(k, t'), dom + {Walk(k, t)})
  {
    forall c: nat ensures c in dom + {Walk(k, t)} <==> c < Pow2(k) && (c > high || c in Image(k, t')) {
      ImageMembers(k, t, c);
      ImageMembers(k, t', c);
    }
  }

  // ----- going round more than once -----

  /** The cells at or below `high` among the first `t` stops. */
  ghost function Stops(k: nat, high: int, t: nat): set<nat> {
    set c | c in Image(k, t) && c <= high
  }

  lemma {:induction false} VisitsAreStops(k: nat, high: int, t: nat)
    requires k >= 4 && t <= Pow2(k)
    ensures Visits(k, high, t) == |Stops(k, high, t)|
  {
    if t > 0 {
      VisitsAreStops(k, high, t - 1);
      NewStop(k, t - 1);
      StopsGrow(k, high, t - 1);
    }
  }

  /** A step leads to a cell not visited before. */
  lemma {:induction false} NewStop(k: nat, t: nat)
    requires k >= 4 && t < Pow2(k)
    ensures Walk(k, t) !in Image(k, t)
  {
    ImageMembers(k, t, Walk(k, t));
    forall s: nat | s < t ensures Walk(k, s) != Walk(k, t) {
      WalkInjective(k, s, t);
    }
  }

  lemma {:induction false} StopsGrow(k: nat, high: int, t: nat)
    ensures Stops(k, high, t + 1) == Stops(k, high, t) + if Walk(k, t) <= high then {Walk(k, t)} else {}
  {
    hide Walk;
  }

  /** One round passes every cell at or below `high` once. */
  lemma {:induction false} OneRound(k: nat, high: int)
    requires k >= 4 && -1 <= high < Pow2(k)
    ensures Visits(k, high, Pow2(k)) == high + 1
  {
    VisitsAreStops(k, high, Pow2(k));
    WalkIsPermutation(k, Pow2(k));
    assert Stops(k, high, Pow2(k)) == Below(high + 1);
  }

  lemma {:induction false} VisitsMono(k: nat, high: int, t: nat, u: nat)
    requires t <= u
    ensures Visits(k, high, t) <= Visits(k, high, u)
    ensures t < u && Walk(k, t) <= high ==> Visits(k, high, t) < Visits(k, high, u)
    decreases u
  {
    if t < u {
      VisitsMono(k, high, t, u - 1);
    }
  }

  /** After `n` placements the walk stands at stop `t` of round `laps`. A round that has ended counts as
      the next one only when a placement begins it. */
  ghost predicate Lapping(k: nat, high: int, t: nat, laps: nat, pos: nat, n: nat) {
    && t <= Pow2(k) && pos == Walk(k, t) && n == laps * (high + 1) + Visits(k, high, t) && (laps > 0 ==> t > 0)
    && if high < 0 then t == laps == 0 else pos <= high
  }

  lemma {:induction false} NextLap(k: nat, high: int, laps: nat, n: nat)
    requires k >= 4 && 0 <= high < Pow2(k) && Lapping(k, high, Pow2(k), laps, 0, n)
    ensures n == (laps + 1) * (high + 1) + Visits(k, high, 0)
  {
    OneRound(k, high);
  }

  /** Where the walk stands says how many placements there were, up to whole rounds. */
  lemma {:induction false} LapPosition(k: nat, high: int, t: nat, laps: nat, pos: nat, n: nat)
    requires k >= 4 && 0 <= high < Pow2(k) && Lapping(k, high, t, laps, pos, n)
    ensures pos == 0 <==> n % (high + 1) == 0
    ensures n <= high + 1 ==> laps == 0 && (n == high + 1 ==> t == Pow2(k))
  {
    hide Pow2, Walk;
    WalkReturns(k);
    OneRound(k, high);
    VisitsMono(k, high, 0, t);
    VisitsMono(k, high, t, Pow2(k));
    if 0 < t < Pow2(k) {
      WalkInjective(k, 0, t);
    }
    PartOfRound(n, laps, Visits(k, high, t), high + 1);
  }

  lemma {:induction false} PartOfRound(n: nat, laps: nat, v: nat, round: nat)
    requires v <= round && round > 0 && n == laps * round + v
    ensures n % round == 0 <==> v == 0 || v == round
    ensures laps > 0 && v > 0 ==> n > round
  {
    if v < round {
      DivModUnique(n, round, laps, v);
    } else {
      DivModUnique(n, round, laps + 1, 0);
    }
    if laps > 0 {
      MulMono(1, laps, round);
    }
  }

  /** The spread stands at stop `t`, with `n` copies dealt. */
  ghost predicate Dealing(t: seq<FseEntry>, norm: seq<Count>, k: nat, high: int, at: nat, n: nat) {
    && |t| == Pow2(k) && high == |t| - 1 - Lows(norm, |norm|) && LowsAt(t, norm, |norm|)
    && DealtAt(t, norm, k, high, at) && Visits(k, high, at) == n
  }

  lemma {:induction false} DealingStep(
    t: seq<FseEntry>, norm: seq<Count>, k: nat, high: int, at: nat, at': nat, i: nat, j: nat, e: FseEntry)
    requires k >= 4 && i < |norm| && j < norm[i] && Dealing(t, norm, k, high, at, Positives(norm, i) + j)
    requires at < at' <= Pow2(k) && Walk(k, at) <= high && Visits(k, high, at') == Visits(k, high, at) + 1
    requires forall s: nat :: at < s < at' ==> Walk(k, s) > high
    requires e.sym == i
    ensures Dealing(t[Walk(k, at) := e], norm, k, high, at', Positives(norm, i) + j + 1)
  {
    DealStep(t, norm, k, high, at, at', i, e);
    LowsKept(t, norm, high, Walk(k, at), e);
  }

  lemma {:induction false} AllDealt(t: seq<FseEntry>, norm: seq<Count>, k: nat, high: int, at: nat, n: nat)
    requires Dealing(t, norm, k, high, at, n) && (high >= 0 ==> at == Pow2(k))
    ensures InOrder(t, norm, k)
  {
  }

  /** The counts above 0 go round the cells that low-probability symbols left an exact number of times. */
  predicate Closes(norm: seq<Count>, k: nat) {
    Lows(norm, |norm|) >= Pow2(k) || Positives(norm, |norm|) % (Pow2(k) - Lows(norm, |norm|)) == 0
  }

  /** The loops end inside the table: with no cell left there is nothing to deal. */
  predicate Dealable(norm: seq<Count>, k: nat) {
    Lows(norm, |norm|) < Pow2(k) || (Lows(norm, |norm|) == Pow2(k) && Positives(norm, |norm|) == 0)
  }

  /** `buildFSE`'s second loop: the other symbols are dealt along the walk, skipping the cells above
      `high`. The walk closes exactly when whole rounds were dealt; on a distribution that fills the table
      that is one round, and every cell is written once. */
  method Spread(norm: seq<Count>, table: array<FseEntry>, k: nat) returns (pos: nat)
    requires k >= 4 && Pow2(k) <= table.Length && Dealable(norm, k)
    modifies table
    ensures pos == 0 <==> Closes(norm, k)
    ensures Sum(norm, |norm|) == Pow2(k) ==> Spreads(table[..Pow2(k)], norm) && InOrder(table[..Pow2(k)], norm, k)
    ensures table[Pow2(k)..] == old(table[Pow2(k)..])
  {
    var tableSize := Pow2(k);
    var high;
    ghost var dom;
    high, dom := PlaceLows(norm, table, tableSize);
    pos := 0;
    ghost var t, laps := 0, 0;
    WalkReturns(k);
    for i := 0 to |norm|
      invariant Lapping(k, high, t, laps, pos, Positives(norm, i))
      invariant laps == 0 ==> Spreading(table[..tableSize], norm, k, high, t, pos, dom, i, 0)
      invariant table[tableSize..] == old(table[tableSize..])
    {
      t, laps, pos, dom := SpreadSymbol(norm, table, k, high, i, t, laps, pos, dom);
    }
    assert table[..tableSize] == table[..Pow2(k)];
    SpreadEnds(table[..tableSize], norm, k, high, t, laps, pos, dom);
  }

  lemma {:induction false} SpreadEnds(
    u: seq<FseEntry>, norm: seq<Count>, k: nat, high: int, t: nat, laps: nat, pos: nat, dom: set<nat>)
    requires k >= 4 && Dealable(norm, k) && high == Pow2(k) - 1 - Lows(norm, |norm|)
    requires Lapping(k, high, t, laps, pos, Positives(norm, |norm|))
    requires laps == 0 ==> Spreading(u, norm, k, high, t, pos, dom, |norm|, 0)
    ensures pos == 0 <==> Closes(norm, k)
    ensures Sum(norm, |norm|) == Pow2(k) ==> Spreads(u, norm) && InOrder(u, norm, k)
  {
    SumSplits(norm, 0, |norm|);
    WalkReturns(k);
    if high >= 0 {
      LapPosition(k, high, t, laps, pos, Positives(norm, |norm|));
    }
    if Sum(norm, |norm|) == Pow2(k) {
      Finished(k, high, t, pos, dom);
      AllDealt(u, norm, k, high, t, Positives(norm, |norm|));
    }
  }

  /** Where the loop stands when `j` cells of symbol `i` have been dealt. */
  ghost predicate Spreading(
    u: seq<FseEntry>, norm: seq<Count>, k: nat, high: int, t: nat, pos: nat, dom: set<nat>, i: nat, j: nat) {
    && i <= |norm| && Walking(k, high, t, pos, dom) && |dom| == Lows(norm, |norm|) + Positives(norm, i) + j
    && Holds(u, norm, dom, i, j) && Dealing(u, norm, k, high, t, Positives(norm, i) + j)
  }

  /** The inner loop: all cells of one symbol. */
  method SpreadSymbol(
    norm: seq<Count>, table: array<FseEntry>, k: nat, high: int, i: nat, ghost t0: nat, ghost laps0: nat, pos0: nat,
    ghost dom0: set<nat>)
    returns (ghost t: nat, ghost laps: nat, pos: nat, ghost dom: set<nat>)
    requires k >= 4 && Pow2(k) <= table.Length && Dealable(norm, k) && i < |norm|
    requires high == Pow2(k) - 1 - Lows(norm, |norm|) && Lapping(k, high, t0, laps0, pos0, Positives(norm, i))
    requires laps0 == 0 ==> Spreading(table[..Pow2(k)], norm, k, high, t0, pos0, dom0, i, 0)
    modifies table
    ensures Lapping(k, high, t, laps, pos, Positives(norm, i + 1))
    ensures laps == 0 ==> Spreading(table[..Pow2(k)], norm, k, high, t, pos, dom, i + 1, 0)
    ensures table[Pow2(k)..] == old(table[Pow2(k)..])
  {
    hide Lapping, Dealing, Walking, Pow2, InOrder;
    t, laps, pos, dom := t0, laps0, pos0, dom0;
    SumSplits(norm, i + 1, |norm|);
    var j := 0;
    while j < norm[i]
      invariant 0 <= j <= Weight(norm[i]) && (norm[i] < 0 ==> j == 0)
      invariant Lapping(k, high, t, laps, pos, Positives(norm, i) + j)
      invariant laps == 0 ==> Spreading(table[..Pow2(k)], norm, k, high, t, pos, dom, i, j)
      invariant table[Pow2(k)..] == old(table[Pow2(k)..])
    {
      t, laps, pos, dom := SpreadCell(norm, table, k, high, i, j, t, laps, pos, dom);
      j := j + 1;
    }
    if laps == 0 {
      NextSymbol(table[..Pow2(k)], norm, dom, i, j);
    }
  }

  /** One cell. */
  method SpreadCell(
    norm: seq<Count>, table: array<FseEntry>, k: nat, high: int, i: nat, j: nat,
    ghost t0: nat, ghost laps0: nat, pos0: nat,
    ghost dom0: set<nat>)
    returns (ghost t: nat, ghost laps: nat, pos: nat, ghost dom: set<nat>)
    requires k >= 4 && Pow2(k) <= table.Length && 0 <= high < Pow2(k) && i < |norm| && j < norm[i]
    requires Lapping(k, high, t0, laps0, pos0, Positives(norm, i) + j)
    requires laps0 == 0 ==> Spreading(table[..Pow2(k)], norm, k, high, t0, pos0, dom0, i, j)
    modifies table
    ensures Lapping(k, high, t, laps, pos, Positives(norm, i) + j + 1)
    ensures laps == 0 ==> Spreading(table[..Pow2(k)], norm, k, high, t, pos, dom, i, j + 1)
    ensures table[Pow2(k)..] == old(table[Pow2(k)..])
  {
    ghost var before, e, at := table[..Pow2(k)], table[pos0].(sym := i), if t0 == Pow2(k) then 0 else t0;
    laps := if t0 == Pow2(k) then laps0 + 1 else laps0;
    WalkReturns(k);
    if t0 == Pow2(k) {
      NextLap(k, high, laps0, Positives(norm, i) + j);
    }
    SetCell(table, Pow2(k), pos0, table[pos0].(sym := i));
    t, pos := Advance(k, high, at, pos0);
    dom := dom0 + {pos0};
    if laps == 0 {
      CellDealt(before, norm, k, high, t0, t, dom0, i, j, e);
    }
  }

  lemma {:induction false} CellDealt(
    u: seq<FseEntry>, norm: seq<Count>, k: nat, high: int, t: nat, t': nat, dom: set<nat>, i: nat, j: nat, e: FseEntry)
    requires k >= 4 && i < |norm| && j < norm[i] && 0 <= high < Pow2(k) && t < t' <= Pow2(k)
    requires Spreading(u, norm, k, high, t, Walk(k, t), dom, i, j) && e == u[Walk(k, t)].(sym := i)
    requires Walk(k, t') <= high && Visits(k, high, t') == Visits(k, high, t) + 1
    requires forall s: nat :: t < s < t' ==> Walk(k, s) > high
    ensures Spreading(u[Walk(k, t) := e], norm, k, high, t', Walk(k, t'), dom + {Walk(k, t)}, i, j + 1)
  {
    FreshCell(k, high, t, Walk(k, t), dom);
    PlaceStep(u, norm, dom, i, j, Walk(k, t));
    WalksOn(k, high, t, t', dom);
    DealingStep(u, norm, k, high, t, t', i, j, e);
  }

  lemma {:induction false} NextSymbol(t: seq<FseEntry>, norm: seq<Count>, dom: set<nat>, i: nat, j: nat)
    requires i < |norm| && j == (if norm[i] < 0 then 0 else norm[i]) && Holds(t, norm, dom, i, j)
    ensures Holds(t, norm, dom, i + 1, 0)
  {
  }

  /** With every count dealt out the walk is back at cell 0. */
  lemma {:induction false} Finished(k: nat, high: int, t: nat, pos: nat, dom: set<nat>)
    requires k >= 4 && Walking(k, high, t, pos, dom) && |dom| == Pow2(k)
    ensures pos == 0 && dom == Below(Pow2(k)) && (high >= 0 ==> t == Pow2(k))
  {
    FullSet(dom, Pow2(k));
    if high >= 0 && t < Pow2(k) {
      NotFinished(k, high, t, pos, dom);
    } else {
      assert t == 0 || t == Pow2(k);
      WalkReturns(k);
    }
  }

  lemma {:induction false} NotFinished(k: nat, high: int, t: nat, pos: nat, dom: set<nat>)
    requires k >= 4 && Walking(k, high, t, pos, dom) && high >= 0 && t < Pow2(k)
    ensures dom != Below(Pow2(k))
  {
    FreshCell(k, high, t, pos, dom);
    assert pos in Below(Pow2(k));
  }
}
