/** The predefined tables are those of the default distributions of section 3.1.1.3.2.2 of RFC 8878: spreading the
    distribution and converting the cells gives the literal tables of pkg/lib/zstd/fse.go:356-430. */
module SeqDefaults {
  import opened Arith
  import opened FseSpread
  import opened FseTable
  import opened SeqTables

  // ----- the default distributions -----

  function Symbols(kind: Kind): nat {
    match kind case Literal => 36 case Offset => 29 case Match => 53
  }

  function NormAt(kind: Kind, s: nat): Count {
    match kind
    case Literal =>
      if s == 0 then 4 else if s == 1 || s == 25 then 3
      else if s >= 32 then -1
      else if 13 <= s < 16 || s >= 27 then 1 else 2
    case Offset => if s >= 24 then -1 else if 6 <= s < 9 then 2 else 1
    case Match =>
      if s == 1 then 4 else if s == 2 then 3
      else if s >= 46 then -1
      else if 3 <= s < 9 then 2 else 1
  }

  function DefaultNorm(kind: Kind): seq<Count> {
    seq(Symbols(kind), s requires 0 <= s => NormAt(kind, s))
  }

  // ----- the spread of these distributions -----

  /** Cells of the symbols below `s`. */
  function PositivesAt(kind: Kind, s: nat): nat {
    match kind
    case Literal =>
      if s == 0 then 0 else if s == 1 then 4
      else if s <= 13 then 3 + 2 * s
      else if s <= 16 then 16 + s
      else if s <= 25 then 2 * s
      else if s == 26 then 53
      else if s <= 32 then 28 + s else 60
    case Offset => if s <= 6 then s else if s <= 9 then 2 * s - 6 else if s <= 24 then 3 + s else 27
    case Match =>
      if s <= 1 then s else if s == 2 then 5
      else if s <= 9 then 2 * s + 2
      else if s <= 46 then 11 + s else 57
  }

  function LowsAtSymbol(kind: Kind, s: nat): nat {
    var first := match kind case Literal => 32 case Offset => 24 case Match => 46;
    if s <= first then 0 else s - first
  }

  function Size(kind: Kind): nat {
    match kind case Literal => 64 case Offset => 32 case Match => 64
  }

  function Bits(kind: Kind): nat {
    match kind case Literal => 6 case Offset => 5 case Match => 6
  }

  /** The last cell that no symbol of low probability takes. */
  function High(kind: Kind): nat {
    match kind case Literal => 59 case Offset => 26 case Match => 56
  }

  /** The step of the walk, 43 or 23, times this is 1 modulo the number of cells. */
  function InverseOf(kind: Kind): nat {
    match kind case Literal => 3 case Offset => 7 case Match => 3
  }

  /** When the walk stands on cell `c`. */
  function StopOf(kind: Kind, c: nat): nat {
    match kind case Literal => 3 * c % 64 case Offset => 7 * c % 32 case Match => 3 * c % 64
  }

  /** How many cells are dealt before stop `s`: all stops but those above `High`. */
  function Dealt(kind: Kind, s: nat): int {
    match kind
    case Literal =>
      if s <= 52 then s else if s <= 55 then s - 1 else if s <= 58 then s - 2 else if s <= 61 then s - 3 else s - 4
    case Offset =>
      if s <= 4 then s else if s <= 11 then s - 1 else if s <= 18 then s - 2 else if s <= 25 then s - 3
      else if s <= 29 then s - 4 else s - 5
    case Match =>
      if s <= 43 then s else if s <= 46 then s - 1 else if s <= 49 then s - 2 else if s <= 52 then s - 3
      else if s <= 55 then s - 4 else if s <= 58 then s - 5 else if s <= 61 then s - 6 else s - 7
  }

  lemma {:induction false} NormSums(kind: Kind, s: nat)
    requires s <= Symbols(kind)
    ensures Positives(DefaultNorm(kind), s) == PositivesAt(kind, s)
    ensures Lows(DefaultNorm(kind), s) == LowsAtSymbol(kind, s)
  {
    if s > 0 {
      NormSums(kind, s - 1);
    }
  }

  lemma {:induction false} Sizes(kind: Kind)
    ensures Predefined(kind).1 == Bits(kind) >= 4 && Pow2(Bits(kind)) == Size(kind) == |Predefined(kind).0|
    ensures Sum(DefaultNorm(kind), Symbols(kind)) == Size(kind)
    ensures High(kind) == Size(kind) - 1 - Lows(DefaultNorm(kind), Symbols(kind))
  {
    Pow2Values();
    NormSums(kind, Symbols(kind));
    SumSplits(DefaultNorm(kind), 0, Symbols(kind));
  }

  lemma {:induction false} StopIsCell(kind: Kind, c: nat)
    requires c < Size(kind)
    ensures StopOf(kind, c) < Size(kind) && Walk(Bits(kind), StopOf(kind, c)) == c
  {
    Pow2Values();
    Inverse(c, InverseOf(kind), Step(Bits(kind)), Size(kind));
  }

  lemma {:induction false} Inverse(c: nat, a: nat, b: nat, m: nat)
    requires m > 0 && a * b % m == 1 && c < m
    ensures b * (a * c % m) % m == c
  {
    var x := a * c;
    var q, p := x / m, a * b / m;
    assert x % m == x - q * m;
    assert b * (x - q * m) == a * b * c - b * q * m;
    assert a * b == p * m + 1;
    assert a * b * c == (p * m + 1) * c == p * c * m + c;
    assert b * (x % m) == (p * c - b * q) * m + c;
    DivModUnique(b * (x % m), m, p * c - b * q, c);
  }

  lemma {:induction false} OneMoreLiteral(c: nat, s: nat)
    requires c < 64 && s == 3 * c % 64
    ensures Dealt(Literal, s + 1) == Dealt(Literal, s) + if c <= 59 then 1 else 0
  {
  }

  lemma {:induction false} OneMoreMatch(c: nat, s: nat)
    requires c < 64 && s == 3 * c % 64
    ensures Dealt(Match, s + 1) == Dealt(Match, s) + if c <= 56 then 1 else 0
  {
  }

  lemma {:induction false} OneMoreDealt(kind: Kind, c: nat, s: nat)
    requires c < Size(kind) && s < Size(kind) && StopOf(kind, c) == s
    ensures Dealt(kind, s + 1) == Dealt(kind, s) + if c <= High(kind) then 1 else 0
  {
    match kind {
      case Literal => OneMoreLiteral(c, s);
      case Offset =>
      case Match => OneMoreMatch(c, s);
    }
  }

  lemma {:induction false} WalksBack(kind: Kind, s: nat)
    requires s < Size(kind)
    ensures Walk(Bits(kind), s) < Size(kind) && StopOf(kind, Walk(Bits(kind), s)) == s
  {
    Pow2Values();
    Inverse(s, Step(Bits(kind)), InverseOf(kind), Size(kind));
  }

  lemma {:induction false} NoneDealt(kind: Kind)
    ensures Dealt(kind, 0) == 0
  {
  }

  lemma {:induction false} DealtBefore(kind: Kind, s: nat)
    requires s <= Size(kind)
    ensures Visits(Bits(kind), High(kind), s) == Dealt(kind, s)
  {
    hide Dealt, Walk;
    if s == 0 {
      NoneDealt(kind);
    } else {
      DealtBefore(kind, s - 1);
      WalksBack(kind, s - 1);
      OneMoreDealt(kind, Walk(Bits(kind), s - 1), s - 1);
    }
  }

  /** Cell `c`, which the walk reaches at `stop`, goes to symbol `s`. */
  predicate OwnedBy(kind: Kind, c: nat, stop: nat, s: nat) {
    if c > High(kind) then NormAt(kind, s) < 0 && LowsAtSymbol(kind, s) == Size(kind) - 1 - c
    else StopOf(kind, c) == stop && PositivesAt(kind, s) <= Dealt(kind, stop) < PositivesAt(kind, s + 1)
  }

  /** A table of the default distribution. */
  ghost predicate Built(kind: Kind, t: seq<FseEntry>) {
    IsTable(t, DefaultNorm(kind), Bits(kind)) && InOrder(t, DefaultNorm(kind), Bits(kind))
  }

  lemma {:induction false} OwnerIs(kind: Kind, t: seq<FseEntry>, c: nat, stop: nat, s: nat)
    requires Built(kind, t) && c < Size(kind) && s < Symbols(kind) && OwnedBy(kind, c, stop, s)
    ensures c < |t| && t[c].sym == s
  {
    var norm, k := DefaultNorm(kind), Bits(kind);
    Sizes(kind);
    NormSums(kind, s);
    NormSums(kind, s + 1);
    if c > High(kind) {
      assert LowAt(t, norm, s);
    } else {
      StopIsCell(kind, c);
      DealtBefore(kind, stop);
      assert StopOk(t, norm, k, High(kind), stop);
      OneTurn(norm, t[c].sym, s, Visits(k, High(kind), stop));
    }
  }

  // ----- the numbers of a symbol's cells -----

  predicate Ascending(chain: seq<nat>) {
    forall i, j :: 0 <= i < j < |chain| ==> chain[i] < chain[j]
  }

  ghost predicate AllHold(t: seq<FseEntry>, chain: seq<nat>, s: nat) {
    forall i :: 0 <= i < |chain| ==> chain[i] < |t| && t[chain[i]].sym == s
  }

  lemma {:induction false} AtLeast(t: seq<FseEntry>, chain: seq<nat>, s: nat, i: nat)
    requires Ascending(chain) && AllHold(t, chain, s) && i < |chain|
    ensures i <= CountSym(t, chain[i], s)
  {
    if i > 0 {
      AtLeast(t, chain, s, i - 1);
      CountMono(t, chain[i - 1], chain[i], s);
    }
  }

  lemma {:induction false} AtMost(t: seq<FseEntry>, chain: seq<nat>, s: nat, i: nat)
    requires Ascending(chain) && AllHold(t, chain, s) && i < |chain|
    ensures CountSym(t, chain[i], s) + (|chain| - i) <= CountSym(t, |t|, s)
    decreases |chain| - i
  {
    if i + 1 < |chain| {
      AtMost(t, chain, s, i + 1);
      CountMono(t, chain[i], chain[i + 1], s);
    } else {
      CountMono(t, chain[i], |t|, s);
    }
  }

  /** As many cells of a symbol as it has are all of them, and their ranks are their places in the list. */
  lemma {:induction false} RankOf(t: seq<FseEntry>, chain: seq<nat>, s: nat, c: nat) returns (r: nat)
    requires Ascending(chain) && AllHold(t, chain, s) && CountSym(t, |t|, s) == |chain| && c < |t| && t[c].sym == s
    ensures r < |chain| && chain[r] == c && CountSym(t, c, s) == r
  {
    r := CountSym(t, c, s);
    CountMono(t, c, |t|, s);
    AtLeast(t, chain, s, r);
    AtMost(t, chain, s, r);
    if c < chain[r] {
      CountMono(t, c, chain[r], s);
    } else if chain[r] < c {
      CountMono(t, chain[r], c, s);
    }
  }

  /** The entry of the cell numbered `n` in a table of `size` cells, for the small numbers that occur. */
  function SmallEntry(kind: Kind, s: nat, n: nat): FseEntry {
    var (size, bits) := (Size(kind), Bits(kind));
    if n < 2 then FseEntry(s, bits, 0)
    else if n < 4 then FseEntry(s, bits - 1, (n - 2) * (size / 2))
    else FseEntry(s, bits - 2, (n - 4) * (size / 4))
  }

  lemma {:induction false} NumberedIs(kind: Kind, e: FseEntry, n: nat)
    requires Numbered(e, n, Bits(kind)) && 1 <= n < 8
    ensures e == SmallEntry(kind, e.sym, n)
  {
    Pow2Values();
    HighBitUnique(n, if n < 2 then 0 else if n < 4 then 1 else 2);
    ShiftedSmall(n, e.bits);
  }

  lemma {:induction false} ShiftedSmall(n: nat, b: nat)
    requires 3 <= b <= 6
    ensures Shl(n, b) == n * (if b == 3 then 8 else if b == 4 then 16 else if b == 5 then 32 else 64)
  {
    assert Shl(n, 1) == 2 * n;
    assert Shl(n, 2) == 4 * n;
    assert Shl(n, 3) == 8 * n;
    assert Shl(n, 4) == 16 * n;
    assert Shl(n, 5) == 32 * n;
  }

  /** A cell, and when the walk stands on it. */
  datatype Cell = Cell(at: nat, stop: nat)

  /** The cell goes to symbol `s`, and the literal table has for it what the number `n` asks for. */
  predicate Entered(kind: Kind, c: Cell, s: nat, n: nat) {
    && c.at < Size(kind) && OwnedBy(kind, c.at, c.stop, s) && s <= MaxSym(kind)
    && PredefinedAt(kind, c.at) == Convert(kind, SmallEntry(kind, s, n))
  }

  function PredefinedAt(kind: Kind, c: nat): BaselineEntry
    requires c < Size(kind)
  {
    match kind
    case Literal => if c < 32 then PREDEFINED_LITERAL_LOW[c] else PREDEFINED_LITERAL_HIGH[c - 32]
    case Offset => PREDEFINED_OFFSET[c]
    case Match => if c < 32 then PREDEFINED_MATCH_LOW[c] else PREDEFINED_MATCH_HIGH[c - 32]
  }

  lemma {:induction false} PredefinedIsAt(kind: Kind, c: nat)
    requires c < Size(kind)
    ensures |Predefined(kind).0| == Size(kind) && Predefined(kind).0[c] == PredefinedAt(kind, c)
  {
  }

  ghost predicate SymbolAgrees(kind: Kind, t: seq<FseEntry>, s: nat) {
    forall c: nat :: c < |t| && t[c].sym == s ==> Agrees(kind, t, c)
  }

  ghost predicate Agrees(kind: Kind, t: seq<FseEntry>, c: nat) {
    && c < |t| == |Predefined(kind).0| && t[c].sym <= MaxSym(kind)
    && Predefined(kind).0[c] == Convert(kind, t[c])
  }

  function Ats(cells: seq<Cell>): seq<nat> {
    seq(|cells|, i requires 0 <= i < |cells| => cells[i].at)
  }

  /** All cells of one symbol. */
  lemma {:induction false} Chain(kind: Kind, t: seq<FseEntry>, s: nat, cells: seq<Cell>)
    requires Built(kind, t) && s < Symbols(kind) && Ascending(Ats(cells)) && |cells| == Weight(NormAt(kind, s)) <= 4
    requires forall i :: 0 <= i < |cells| ==> Entered(kind, cells[i], s, |cells| + i)
    ensures SymbolAgrees(kind, t, s)
  {
    hide OwnedBy, InOrder, Convert, SmallEntry, Numbered, DefaultNorm, Predefined, PredefinedAt;
    var chain := Ats(cells);
    Sizes(kind);
    NormIs(kind, s);
    forall i | 0 <= i < |chain| ensures chain[i] < |t| && t[chain[i]].sym == s {
      assert Entered(kind, cells[i], s, |cells| + i);
      OwnerIs(kind, t, cells[i].at, cells[i].stop, s);
    }
    forall c: nat | c < |t| && t[c].sym == s ensures Agrees(kind, t, c) {
      var r := RankOf(t, chain, s, c);
      assert Entered(kind, cells[r], s, |cells| + r);
      PredefinedIsAt(kind, c);
      assert CellOk(t, DefaultNorm(kind), Bits(kind), c);
      NumberedIs(kind, t[c], |chain| + r);
    }
  }

  lemma {:induction false} One(kind: Kind, t: seq<FseEntry>, s: nat, a: Cell)
    requires Built(kind, t) && s < Symbols(kind) && Weight(NormAt(kind, s)) == 1 && Entered(kind, a, s, 1)
    ensures SymbolAgrees(kind, t, s)
  {
    Chain(kind, t, s, [a]);
  }

  lemma {:induction false} Two(kind: Kind, t: seq<FseEntry>, s: nat, a: Cell, b: Cell)
    requires Built(kind, t) && s < Symbols(kind) && NormAt(kind, s) == 2 && a.at < b.at
    requires Entered(kind, a, s, 2) && Entered(kind, b, s, 3)
    ensures SymbolAgrees(kind, t, s)
  {
    Chain(kind, t, s, [a, b]);
  }

  lemma {:induction false} Three(kind: Kind, t: seq<FseEntry>, s: nat, a: Cell, b: Cell, c: Cell)
    requires Built(kind, t) && s < Symbols(kind) && NormAt(kind, s) == 3 && a.at < b.at < c.at
    requires Entered(kind, a, s, 3) && Entered(kind, b, s, 4) && Entered(kind, c, s, 5)
    ensures SymbolAgrees(kind, t, s)
  {
    hide Built, Entered, SymbolAgrees, Symbols;
    Chain(kind, t, s, [a, b, c]);
  }

  lemma {:induction false} Four(kind: Kind, t: seq<FseEntry>, s: nat, a: Cell, b: Cell, c: Cell, d: Cell)
    requires Built(kind, t) && s < Symbols(kind) && NormAt(kind, s) == 4 && a.at < b.at < c.at < d.at
    requires Entered(kind, a, s, 4) && Entered(kind, b, s, 5) && Entered(kind, c, s, 6) && Entered(kind, d, s, 7)
    ensures SymbolAgrees(kind, t, s)
  {
    hide Built, Entered, SymbolAgrees, Symbols;
    Chain(kind, t, s, [a, b, c, d]);
  }

  lemma {:induction false} NormIs(kind: Kind, s: nat)
    requires s < Symbols(kind)
    ensures |DefaultNorm(kind)| == Symbols(kind) && DefaultNorm(kind)[s] == NormAt(kind, s)
  {
  }

  // ----- the codes -----

  lemma {:induction false} LiteralCodes()
    ensures forall s: nat :: s < 16 ==> CodeValue(Literal, s) == (s, 0)
    ensures CodeValue(Literal, 16) == (16, 1) && CodeValue(Literal, 17) == (18, 1) && CodeValue(Literal, 18) == (20, 1)
    ensures CodeValue(Literal, 19) == (22, 1) && CodeValue(Literal, 20) == (24, 2) && CodeValue(Literal, 21) == (28, 2)
    ensures CodeValue(Literal, 22) == (32, 3) && CodeValue(Literal, 23) == (40, 3) && CodeValue(Literal, 24) == (48, 4)
    ensures CodeValue(Literal, 25) == (64, 6) && CodeValue(Literal, 26) == (128, 7) &&
      CodeValue(Literal, 27) == (256, 8)
    ensures CodeValue(Literal, 28) == (512, 9) && CodeValue(Literal, 29) == (1024, 10)
    ensures CodeValue(Literal, 30) == (2048, 11) && CodeValue(Literal, 31) == (4096, 12)
    ensures CodeValue(Literal, 32) == (8192, 13) && CodeValue(Literal, 33) == (16384, 14)
    ensures CodeValue(Literal, 34) == (32768, 15) && CodeValue(Literal, 35) == (65536, 16)
  {
  }

  lemma {:induction false} MatchCodes()
    ensures forall s: nat :: s < 32 ==> CodeValue(Match, s) == (s + 3, 0)
    ensures CodeValue(Match, 32) == (35, 1) && CodeValue(Match, 33) == (37, 1) && CodeValue(Match, 34) == (39, 1)
    ensures CodeValue(Match, 35) == (41, 1) && CodeValue(Match, 36) == (43, 2) && CodeValue(Match, 37) == (47, 2)
    ensures CodeValue(Match, 38) == (51, 3) && CodeValue(Match, 39) == (59, 3) && CodeValue(Match, 40) == (67, 4)
    ensures CodeValue(Match, 41) == (83, 4) && CodeValue(Match, 42) == (99, 5) && CodeValue(Match, 43) == (131, 7)
    ensures CodeValue(Match, 44) == (259, 8) && CodeValue(Match, 45) == (515, 9) && CodeValue(Match, 46) == (1027, 10)
    ensures CodeValue(Match, 47) == (2051, 11) && CodeValue(Match, 48) == (4099, 12)
    ensures CodeValue(Match, 49) == (8195, 13) && CodeValue(Match, 50) == (16387, 14)
    ensures CodeValue(Match, 51) == (32771, 15) && CodeValue(Match, 52) == (65539, 16)
  {
  }

  lemma {:induction false} OffsetCodes()
    ensures CodeValue(Offset, 0) == (1, 0) && CodeValue(Offset, 1) == (2, 1) && CodeValue(Offset, 2) == (1, 2)
    ensures CodeValue(Offset, 3) == (5, 3) && CodeValue(Offset, 4) == (13, 4) && CodeValue(Offset, 5) == (29, 5)
    ensures CodeValue(Offset, 6) == (61, 6) && CodeValue(Offset, 7) == (125, 7) && CodeValue(Offset, 8) == (253, 8)
    ensures CodeValue(Offset, 9) == (509, 9) && CodeValue(Offset, 10) == (1021, 10) &&
      CodeValue(Offset, 11) == (2045, 11)
    ensures CodeValue(Offset, 12) == (4093, 12) && CodeValue(Offset, 13) == (8189, 13)
    ensures CodeValue(Offset, 14) == (16381, 14) && CodeValue(Offset, 15) == (32765, 15)
    ensures CodeValue(Offset, 16) == (65533, 16) && CodeValue(Offset, 17) == (131069, 17)
    ensures CodeValue(Offset, 18) == (262141, 18) && CodeValue(Offset, 19) == (524285, 19)
    ensures CodeValue(Offset, 20) == (1048573, 20) && CodeValue(Offset, 21) == (2097149, 21)
    ensures CodeValue(Offset, 22) == (4194301, 22) && CodeValue(Offset, 23) == (8388605, 23)
    ensures CodeValue(Offset, 24) == (16777213, 24) && CodeValue(Offset, 25) == (33554429, 25)
    ensures CodeValue(Offset, 26) == (67108861, 26) && CodeValue(Offset, 27) == (134217725, 27)
    ensures CodeValue(Offset, 28) == (268435453, 28)
  {
    Pow2Values();
    Pow2Middle();
  }

  // ----- the cells of every symbol -----

  ghost predicate AgreeFrom(kind: Kind, t: seq<FseEntry>, from: nat, to: nat) {
    forall s: nat :: from <= s < to ==> SymbolAgrees(kind, t, s)
  }


  lemma {:induction false} Literals0To1(t: seq<FseEntry>)
    requires Built(Literal, t)
    ensures AgreeFrom(Literal, t, 0, 1)
  {
    hide SymbolAgrees, Agrees, Built, Predefined, CodeValue;
    LiteralCodes();
    assert SymbolAgrees(Literal, t, 0) by { Four(Literal, t, 0, Cell(0, 0), Cell(1, 3), Cell(22, 2), Cell(43, 1)); }
  }

  lemma {:induction false} Literals1To2(t: seq<FseEntry>)
    requires Built(Literal, t)
    ensures AgreeFrom(Literal, t, 1, 2)
  {
    hide SymbolAgrees, Agrees, Built, Predefined, CodeValue;
    LiteralCodes();
    assert SymbolAgrees(Literal, t, 1) by { Three(Literal, t, 1, Cell(2, 6), Cell(23, 5), Cell(44, 4)); }
  }

  lemma {:induction false} Literals2To4(t: seq<FseEntry>)
    requires Built(Literal, t)
    ensures AgreeFrom(Literal, t, 2, 4)
  {
    hide SymbolAgrees, Agrees, Built, Predefined, CodeValue;
    LiteralCodes();
    assert SymbolAgrees(Literal, t, 2) by { Two(Literal, t, 2, Cell(24, 8), Cell(45, 7)); }
    assert SymbolAgrees(Literal, t, 3) by { Two(Literal, t, 3, Cell(3, 9), Cell(46, 10)); }
  }

  lemma {:induction false} Literals4To6(t: seq<FseEntry>)
    requires Built(Literal, t)
    ensures AgreeFrom(Literal, t, 4, 6)
  {
    hide SymbolAgrees, Agrees, Built, Predefined, CodeValue;
    LiteralCodes();
    assert SymbolAgrees(Literal, t, 4) by { Two(Literal, t, 4, Cell(4, 12), Cell(25, 11)); }
    assert SymbolAgrees(Literal, t, 5) by { Two(Literal, t, 5, Cell(26, 14), Cell(47, 13)); }
  }

  lemma {:induction false} Literals6To8(t: seq<FseEntry>)
    requires Built(Literal, t)
    ensures AgreeFrom(Literal, t, 6, 8)
  {
    hide SymbolAgrees, Agrees, Built, Predefined, CodeValue;
    LiteralCodes();
    assert SymbolAgrees(Literal, t, 6) by { Two(Literal, t, 6, Cell(5, 15), Cell(48, 16)); }
    assert SymbolAgrees(Literal, t, 7) by { Two(Literal, t, 7, Cell(6, 18), Cell(27, 17)); }
  }

  lemma {:induction false} Literals8To10(t: seq<FseEntry>)
    requires Built(Literal, t)
    ensures AgreeFrom(Literal, t, 8, 10)
  {
    hide SymbolAgrees, Agrees, Built, Predefined, CodeValue;
    LiteralCodes();
    assert SymbolAgrees(Literal, t, 8) by { Two(Literal, t, 8, Cell(28, 20), Cell(49, 19)); }
    assert SymbolAgrees(Literal, t, 9) by { Two(Literal, t, 9, Cell(7, 21), Cell(50, 22)); }
  }

  lemma {:induction false} Literals10To12(t: seq<FseEntry>)
    requires Built(Literal, t)
    ensures AgreeFrom(Literal, t, 10, 12)
  {
    hide SymbolAgrees, Agrees, Built, Predefined, CodeValue;
    LiteralCodes();
    assert SymbolAgrees(Literal, t, 10) by { Two(Literal, t, 10, Cell(8, 24), Cell(29, 23)); }
    assert SymbolAgrees(Literal, t, 11) by { Two(Literal, t, 11, Cell(30, 26), Cell(51, 25)); }
  }

  lemma {:induction false} Literals12To16(t: seq<FseEntry>)
    requires Built(Literal, t)
    ensures AgreeFrom(Literal, t, 12, 16)
  {
    hide SymbolAgrees, Agrees, Built, Predefined, CodeValue;
    LiteralCodes();
    assert SymbolAgrees(Literal, t, 12) by { Two(Literal, t, 12, Cell(9, 27), Cell(52, 28)); }
    assert SymbolAgrees(Literal, t, 13) by { One(Literal, t, 13, Cell(31, 29)); }
    assert SymbolAgrees(Literal, t, 14) by { One(Literal, t, 14, Cell(10, 30)); }
    assert SymbolAgrees(Literal, t, 15) by { One(Literal, t, 15, Cell(53, 31)); }
  }

  lemma {:induction false} Literals16To18(t: seq<FseEntry>)
    requires Built(Literal, t)
    ensures AgreeFrom(Literal, t, 16, 18)
  {
    hide SymbolAgrees, Agrees, Built, Predefined, CodeValue;
    LiteralCodes();
    assert SymbolAgrees(Literal, t, 16) by { Two(Literal, t, 16, Cell(11, 33), Cell(32, 32)); }
    assert SymbolAgrees(Literal, t, 17) by { Two(Literal, t, 17, Cell(33, 35), Cell(54, 34)); }
  }

  lemma {:induction false} Literals18To20(t: seq<FseEntry>)
    requires Built(Literal, t)
    ensures AgreeFrom(Literal, t, 18, 20)
  {
    hide SymbolAgrees, Agrees, Built, Predefined, CodeValue;
    LiteralCodes();
    assert SymbolAgrees(Literal, t, 18) by { Two(Literal, t, 18, Cell(12, 36), Cell(55, 37)); }
    assert SymbolAgrees(Literal, t, 19) by { Two(Literal, t, 19, Cell(13, 39), Cell(34, 38)); }
  }

  lemma {:induction false} Literals20To22(t: seq<FseEntry>)
    requires Built(Literal, t)
    ensures AgreeFrom(Literal, t, 20, 22)
  {
    hide SymbolAgrees, Agrees, Built, Predefined, CodeValue;
    LiteralCodes();
    assert SymbolAgrees(Literal, t, 20) by { Two(Literal, t, 20, Cell(35, 41), Cell(56, 40)); }
    assert SymbolAgrees(Literal, t, 21) by { Two(Literal, t, 21, Cell(14, 42), Cell(57, 43)); }
  }

  lemma {:induction false} Literals22To24(t: seq<FseEntry>)
    requires Built(Literal, t)
    ensures AgreeFrom(Literal, t, 22, 24)
  {
    hide SymbolAgrees, Agrees, Built, Predefined, CodeValue;
    LiteralCodes();
    assert SymbolAgrees(Literal, t, 22) by { Two(Literal, t, 22, Cell(15, 45), Cell(36, 44)); }
    assert SymbolAgrees(Literal, t, 23) by { Two(Literal, t, 23, Cell(37, 47), Cell(58, 46)); }
  }

  lemma {:induction false} Literals24To26(t: seq<FseEntry>)
    requires Built(Literal, t)
    ensures AgreeFrom(Literal, t, 24, 26)
  {
    hide SymbolAgrees, Agrees, Built, Predefined, CodeValue;
    LiteralCodes();
    assert SymbolAgrees(Literal, t, 24) by { Two(Literal, t, 24, Cell(16, 48), Cell(59, 49)); }
    assert SymbolAgrees(Literal, t, 25) by { Three(Literal, t, 25, Cell(17, 51), Cell(38, 50), Cell(39, 53)); }
  }

  lemma {:induction false} Literals26To30(t: seq<FseEntry>)
    requires Built(Literal, t)
    ensures AgreeFrom(Literal, t, 26, 30)
  {
    hide SymbolAgrees, Agrees, Built, Predefined, CodeValue;
    LiteralCodes();
    assert SymbolAgrees(Literal, t, 26) by { Two(Literal, t, 26, Cell(18, 54), Cell(40, 56)); }
    assert SymbolAgrees(Literal, t, 27) by { One(Literal, t, 27, Cell(19, 57)); }
    assert SymbolAgrees(Literal, t, 28) by { One(Literal, t, 28, Cell(41, 59)); }
    assert SymbolAgrees(Literal, t, 29) by { One(Literal, t, 29, Cell(20, 60)); }
  }

  lemma {:induction false} Literals30To35(t: seq<FseEntry>)
    requires Built(Literal, t)
    ensures AgreeFrom(Literal, t, 30, 35)
  {
    hide SymbolAgrees, Agrees, Built, Predefined, CodeValue;
    LiteralCodes();
    assert SymbolAgrees(Literal, t, 30) by { One(Literal, t, 30, Cell(42, 62)); }
    assert SymbolAgrees(Literal, t, 31) by { One(Literal, t, 31, Cell(21, 63)); }
    assert SymbolAgrees(Literal, t, 32) by { One(Literal, t, 32, Cell(63, 61)); }
    assert SymbolAgrees(Literal, t, 33) by { One(Literal, t, 33, Cell(62, 58)); }
    assert SymbolAgrees(Literal, t, 34) by { One(Literal, t, 34, Cell(61, 55)); }
  }

  lemma {:induction false} Literals35To36(t: seq<FseEntry>)
    requires Built(Literal, t)
    ensures AgreeFrom(Literal, t, 35, 36)
  {
    hide SymbolAgrees, Agrees, Built, Predefined, CodeValue;
    LiteralCodes();
    assert SymbolAgrees(Literal, t, 35) by { One(Literal, t, 35, Cell(60, 52)); }
  }

  lemma {:induction false} AllLiterals(t: seq<FseEntry>)
    requires Built(Literal, t)
    ensures AgreeFrom(Literal, t, 0, 36)
  {
    hide SymbolAgrees, Built;
    Literals0To1(t);
    Literals1To2(t);
    Literals2To4(t);
    Literals4To6(t);
    Literals6To8(t);
    Literals8To10(t);
    Literals10To12(t);
    Literals12To16(t);
    Literals16To18(t);
    Literals18To20(t);
    Literals20To22(t);
    Literals22To24(t);
    Literals24To26(t);
    Literals26To30(t);
    Literals30To35(t);
    Literals35To36(t);
  }

  lemma {:induction false} Offsets0To4(t: seq<FseEntry>)
    requires Built(Offset, t)
    ensures AgreeFrom(Offset, t, 0, 4)
  {
    hide SymbolAgrees, Agrees, Built, Predefined, CodeValue;
    OffsetCodes();
    assert SymbolAgrees(Offset, t, 0) by { One(Offset, t, 0, Cell(0, 0)); }
    assert SymbolAgrees(Offset, t, 1) by { One(Offset, t, 1, Cell(23, 1)); }
    assert SymbolAgrees(Offset, t, 2) by { One(Offset, t, 2, Cell(14, 2)); }
    assert SymbolAgrees(Offset, t, 3) by { One(Offset, t, 3, Cell(5, 3)); }
  }

  lemma {:induction false} Offsets4To7(t: seq<FseEntry>)
    requires Built(Offset, t)
    ensures AgreeFrom(Offset, t, 4, 7)
  {
    hide SymbolAgrees, Agrees, Built, Predefined, CodeValue;
    OffsetCodes();
    assert SymbolAgrees(Offset, t, 4) by { One(Offset, t, 4, Cell(19, 5)); }
    assert SymbolAgrees(Offset, t, 5) by { One(Offset, t, 5, Cell(10, 6)); }
    assert SymbolAgrees(Offset, t, 6) by { Two(Offset, t, 6, Cell(1, 7), Cell(24, 8)); }
  }

  lemma {:induction false} Offsets7To9(t: seq<FseEntry>)
    requires Built(Offset, t)
    ensures AgreeFrom(Offset, t, 7, 9)
  {
    hide SymbolAgrees, Agrees, Built, Predefined, CodeValue;
    OffsetCodes();
    assert SymbolAgrees(Offset, t, 7) by { Two(Offset, t, 7, Cell(6, 10), Cell(15, 9)); }
    assert SymbolAgrees(Offset, t, 8) by { Two(Offset, t, 8, Cell(11, 13), Cell(20, 12)); }
  }

  lemma {:induction false} Offsets9To14(t: seq<FseEntry>)
    requires Built(Offset, t)
    ensures AgreeFrom(Offset, t, 9, 14)
  {
    hide SymbolAgrees, Agrees, Built, Predefined, CodeValue;
    OffsetCodes();
    assert SymbolAgrees(Offset, t, 9) by { One(Offset, t, 9, Cell(2, 14)); }
    assert SymbolAgrees(Offset, t, 10) by { One(Offset, t, 10, Cell(25, 15)); }
    assert SymbolAgrees(Offset, t, 11) by { One(Offset, t, 11, Cell(16, 16)); }
    assert SymbolAgrees(Offset, t, 12) by { One(Offset, t, 12, Cell(7, 17)); }
    assert SymbolAgrees(Offset, t, 13) by { One(Offset, t, 13, Cell(21, 19)); }
  }

  lemma {:induction false} Offsets14To19(t: seq<FseEntry>)
    requires Built(Offset, t)
    ensures AgreeFrom(Offset, t, 14, 19)
  {
    hide SymbolAgrees, Agrees, Built, Predefined, CodeValue;
    OffsetCodes();
    assert SymbolAgrees(Offset, t, 14) by { One(Offset, t, 14, Cell(12, 20)); }
    assert SymbolAgrees(Offset, t, 15) by { One(Offset, t, 15, Cell(3, 21)); }
    assert SymbolAgrees(Offset, t, 16) by { One(Offset, t, 16, Cell(26, 22)); }
    assert SymbolAgrees(Offset, t, 17) by { One(Offset, t, 17, Cell(17, 23)); }
    assert SymbolAgrees(Offset, t, 18) by { One(Offset, t, 18, Cell(8, 24)); }
  }

  lemma {:induction false} Offsets19To24(t: seq<FseEntry>)
    requires Built(Offset, t)
    ensures AgreeFrom(Offset, t, 19, 24)
  {
    hide SymbolAgrees, Agrees, Built, Predefined, CodeValue;
    OffsetCodes();
    assert SymbolAgrees(Offset, t, 19) by { One(Offset, t, 19, Cell(22, 26)); }
    assert SymbolAgrees(Offset, t, 20) by { One(Offset, t, 20, Cell(13, 27)); }
    assert SymbolAgrees(Offset, t, 21) by { One(Offset, t, 21, Cell(4, 28)); }
    assert SymbolAgrees(Offset, t, 22) by { One(Offset, t, 22, Cell(18, 30)); }
    assert SymbolAgrees(Offset, t, 23) by { One(Offset, t, 23, Cell(9, 31)); }
  }

  lemma {:induction false} Offsets24To29(t: seq<FseEntry>)
    requires Built(Offset, t)
    ensures AgreeFrom(Offset, t, 24, 29)
  {
    hide SymbolAgrees, Agrees, Built, Predefined, CodeValue;
    OffsetCodes();
    assert SymbolAgrees(Offset, t, 24) by { One(Offset, t, 24, Cell(31, 25)); }
    assert SymbolAgrees(Offset, t, 25) by { One(Offset, t, 25, Cell(30, 18)); }
    assert SymbolAgrees(Offset, t, 26) by { One(Offset, t, 26, Cell(29, 11)); }
    assert SymbolAgrees(Offset, t, 27) by { One(Offset, t, 27, Cell(28, 4)); }
    assert SymbolAgrees(Offset, t, 28) by { One(Offset, t, 28, Cell(27, 29)); }
  }

  lemma {:induction false} AllOffsets(t: seq<FseEntry>)
    requires Built(Offset, t)
    ensures AgreeFrom(Offset, t, 0, 29)
  {
    hide SymbolAgrees, Built;
    Offsets0To4(t);
    Offsets4To7(t);
    Offsets7To9(t);
    Offsets9To14(t);
    Offsets14To19(t);
    Offsets19To24(t);
    Offsets24To29(t);
  }

  lemma {:induction false} Matches0To1(t: seq<FseEntry>)
    requires Built(Match, t)
    ensures AgreeFrom(Match, t, 0, 1)
  {
    hide SymbolAgrees, Agrees, Built, Predefined, CodeValue;
    MatchCodes();
    assert SymbolAgrees(Match, t, 0) by { One(Match, t, 0, Cell(0, 0)); }
  }

  lemma {:induction false} Matches1To2(t: seq<FseEntry>)
    requires Built(Match, t)
    ensures AgreeFrom(Match, t, 1, 2)
  {
    hide SymbolAgrees, Agrees, Built, Predefined, CodeValue;
    MatchCodes();
    assert SymbolAgrees(Match, t, 1) by { Four(Match, t, 1, Cell(1, 3), Cell(22, 2), Cell(43, 1), Cell(44, 4)); }
  }

  lemma {:induction false} Matches2To3(t: seq<FseEntry>)
    requires Built(Match, t)
    ensures AgreeFrom(Match, t, 2, 3)
  {
    hide SymbolAgrees, Agrees, Built, Predefined, CodeValue;
    MatchCodes();
    assert SymbolAgrees(Match, t, 2) by { Three(Match, t, 2, Cell(2, 6), Cell(23, 5), Cell(45, 7)); }
  }

  lemma {:induction false} Matches3To5(t: seq<FseEntry>)
    requires Built(Match, t)
    ensures AgreeFrom(Match, t, 3, 5)
  {
    hide SymbolAgrees, Agrees, Built, Predefined, CodeValue;
    MatchCodes();
    assert SymbolAgrees(Match, t, 3) by { Two(Match, t, 3, Cell(3, 9), Cell(24, 8)); }
    assert SymbolAgrees(Match, t, 4) by { Two(Match, t, 4, Cell(25, 11), Cell(46, 10)); }
  }

  lemma {:induction false} Matches5To7(t: seq<FseEntry>)
    requires Built(Match, t)
    ensures AgreeFrom(Match, t, 5, 7)
  {
    hide SymbolAgrees, Agrees, Built, Predefined, CodeValue;
    MatchCodes();
    assert SymbolAgrees(Match, t, 5) by { Two(Match, t, 5, Cell(4, 12), Cell(47, 13)); }
    assert SymbolAgrees(Match, t, 6) by { Two(Match, t, 6, Cell(5, 15), Cell(26, 14)); }
  }

  lemma {:induction false} Matches7To9(t: seq<FseEntry>)
    requires Built(Match, t)
    ensures AgreeFrom(Match, t, 7, 9)
  {
    hide SymbolAgrees, Agrees, Built, Predefined, CodeValue;
    MatchCodes();
    assert SymbolAgrees(Match, t, 7) by { Two(Match, t, 7, Cell(27, 17), Cell(48, 16)); }
    assert SymbolAgrees(Match, t, 8) by { Two(Match, t, 8, Cell(6, 18), Cell(49, 19)); }
  }

  lemma {:induction false} Matches9To14(t: seq<FseEntry>)
    requires Built(Match, t)
    ensures AgreeFrom(Match, t, 9, 14)
  {
    hide SymbolAgrees, Agrees, Built, Predefined, CodeValue;
    MatchCodes();
    assert SymbolAgrees(Match, t, 9) by { One(Match, t, 9, Cell(28, 20)); }
    assert SymbolAgrees(Match, t, 10) by { One(Match, t, 10, Cell(7, 21)); }
    assert SymbolAgrees(Match, t, 11) by { One(Match, t, 11, Cell(50, 22)); }
    assert SymbolAgrees(Match, t, 12) by { One(Match, t, 12, Cell(29, 23)); }
    assert SymbolAgrees(Match, t, 13) by { One(Match, t, 13, Cell(8, 24)); }
  }

  lemma {:induction false} Matches14To19(t: seq<FseEntry>)
    requires Built(Match, t)
    ensures AgreeFrom(Match, t, 14, 19)
  {
    hide SymbolAgrees, Agrees, Built, Predefined, CodeValue;
    MatchCodes();
    assert SymbolAgrees(Match, t, 14) by { One(Match, t, 14, Cell(51, 25)); }
    assert SymbolAgrees(Match, t, 15) by { One(Match, t, 15, Cell(30, 26)); }
    assert SymbolAgrees(Match, t, 16) by { One(Match, t, 16, Cell(9, 27)); }
    assert SymbolAgrees(Match, t, 17) by { One(Match, t, 17, Cell(52, 28)); }
    assert SymbolAgrees(Match, t, 18) by { One(Match, t, 18, Cell(31, 29)); }
  }

  lemma {:induction false} Matches19To24(t: seq<FseEntry>)
    requires Built(Match, t)
    ensures AgreeFrom(Match, t, 19, 24)
  {
    hide SymbolAgrees, Agrees, Built, Predefined, CodeValue;
    MatchCodes();
    assert SymbolAgrees(Match, t, 19) by { One(Match, t, 19, Cell(10, 30)); }
    assert SymbolAgrees(Match, t, 20) by { One(Match, t, 20, Cell(53, 31)); }
    assert SymbolAgrees(Match, t, 21) by { One(Match, t, 21, Cell(32, 32)); }
    assert SymbolAgrees(Match, t, 22) by { One(Match, t, 22, Cell(11, 33)); }
    assert SymbolAgrees(Match, t, 23) by { One(Match, t, 23, Cell(54, 34)); }
  }

  lemma {:induction false} Matches24To29(t: seq<FseEntry>)
    requires Built(Match, t)
    ensures AgreeFrom(Match, t, 24, 29)
  {
    hide SymbolAgrees, Agrees, Built, Predefined, CodeValue;
    MatchCodes();
    assert SymbolAgrees(Match, t, 24) by { One(Match, t, 24, Cell(33, 35)); }
    assert SymbolAgrees(Match, t, 25) by { One(Match, t, 25, Cell(12, 36)); }
    assert SymbolAgrees(Match, t, 26) by { One(Match, t, 26, Cell(55, 37)); }
    assert SymbolAgrees(Match, t, 27) by { One(Match, t, 27, Cell(34, 38)); }
    assert SymbolAgrees(Match, t, 28) by { One(Match, t, 28, Cell(13, 39)); }
  }

  lemma {:induction false} Matches29To34(t: seq<FseEntry>)
    requires Built(Match, t)
    ensures AgreeFrom(Match, t, 29, 34)
  {
    hide SymbolAgrees, Agrees, Built, Predefined, CodeValue;
    MatchCodes();
    assert SymbolAgrees(Match, t, 29) by { One(Match, t, 29, Cell(56, 40)); }
    assert SymbolAgrees(Match, t, 30) by { One(Match, t, 30, Cell(35, 41)); }
    assert SymbolAgrees(Match, t, 31) by { One(Match, t, 31, Cell(14, 42)); }
    assert SymbolAgrees(Match, t, 32) by { One(Match, t, 32, Cell(36, 44)); }
    assert SymbolAgrees(Match, t, 33) by { One(Match, t, 33, Cell(15, 45)); }
  }

  lemma {:induction false} Matches34To39(t: seq<FseEntry>)
    requires Built(Match, t)
    ensures AgreeFrom(Match, t, 34, 39)
  {
    hide SymbolAgrees, Agrees, Built, Predefined, CodeValue;
    MatchCodes();
    assert SymbolAgrees(Match, t, 34) by { One(Match, t, 34, Cell(37, 47)); }
    assert SymbolAgrees(Match, t, 35) by { One(Match, t, 35, Cell(16, 48)); }
    assert SymbolAgrees(Match, t, 36) by { One(Match, t, 36, Cell(38, 50)); }
    assert SymbolAgrees(Match, t, 37) by { One(Match, t, 37, Cell(17, 51)); }
    assert SymbolAgrees(Match, t, 38) by { One(Match, t, 38, Cell(39, 53)); }
  }

  lemma {:induction false} Matches39To44(t: seq<FseEntry>)
    requires Built(Match, t)
    ensures AgreeFrom(Match, t, 39, 44)
  {
    hide SymbolAgrees, Agrees, Built, Predefined, CodeValue;
    MatchCodes();
    assert SymbolAgrees(Match, t, 39) by { One(Match, t, 39, Cell(18, 54)); }
    assert SymbolAgrees(Match, t, 40) by { One(Match, t, 40, Cell(40, 56)); }
    assert SymbolAgrees(Match, t, 41) by { One(Match, t, 41, Cell(19, 57)); }
    assert SymbolAgrees(Match, t, 42) by { One(Match, t, 42, Cell(41, 59)); }
    assert SymbolAgrees(Match, t, 43) by { One(Match, t, 43, Cell(20, 60)); }
  }

  lemma {:induction false} Matches44To49(t: seq<FseEntry>)
    requires Built(Match, t)
    ensures AgreeFrom(Match, t, 44, 49)
  {
    hide SymbolAgrees, Agrees, Built, Predefined, CodeValue;
    MatchCodes();
    assert SymbolAgrees(Match, t, 44) by { One(Match, t, 44, Cell(42, 62)); }
    assert SymbolAgrees(Match, t, 45) by { One(Match, t, 45, Cell(21, 63)); }
    assert SymbolAgrees(Match, t, 46) by { One(Match, t, 46, Cell(63, 61)); }
    assert SymbolAgrees(Match, t, 47) by { One(Match, t, 47, Cell(62, 58)); }
    assert SymbolAgrees(Match, t, 48) by { One(Match, t, 48, Cell(61, 55)); }
  }

  lemma {:induction false} Matches49To53(t: seq<FseEntry>)
    requires Built(Match, t)
    ensures AgreeFrom(Match, t, 49, 53)
  {
    hide SymbolAgrees, Agrees, Built, Predefined, CodeValue;
    MatchCodes();
    assert SymbolAgrees(Match, t, 49) by { One(Match, t, 49, Cell(60, 52)); }
    assert SymbolAgrees(Match, t, 50) by { One(Match, t, 50, Cell(59, 49)); }
    assert SymbolAgrees(Match, t, 51) by { One(Match, t, 51, Cell(58, 46)); }
    assert SymbolAgrees(Match, t, 52) by { One(Match, t, 52, Cell(57, 43)); }
  }

  lemma {:induction false} AllMatches(t: seq<FseEntry>)
    requires Built(Match, t)
    ensures AgreeFrom(Match, t, 0, 53)
  {
    hide SymbolAgrees, Built;
    Matches0To1(t);
    Matches1To2(t);
    Matches2To3(t);
    Matches3To5(t);
    Matches5To7(t);
    Matches7To9(t);
    Matches9To14(t);
    Matches14To19(t);
    Matches19To24(t);
    Matches24To29(t);
    Matches29To34(t);
    Matches34To39(t);
    Matches39To44(t);
    Matches44To49(t);
    Matches49To53(t);
  }

  /** The table of the default distribution, converted, is the predefined one. */
  lemma {:induction false} PredefinedIsDefault(kind: Kind, t: seq<FseEntry>)
    requires IsTable(t, DefaultNorm(kind), Bits(kind)) && InOrder(t, DefaultNorm(kind), Bits(kind))
    ensures |t| == |Predefined(kind).0|
    ensures forall c :: 0 <= c < |t| ==> t[c].sym <= MaxSym(kind) && Predefined(kind).0[c] == Convert(kind, t[c])
  {
    hide Convert, Predefined, InOrder;
    match kind {
      case Literal => AllLiterals(t);
      case Offset => AllOffsets(t);
      case Match => AllMatches(t);
    }
    Sizes(kind);
    forall c | 0 <= c < |t|
      ensures t[c].sym <= MaxSym(kind) && Predefined(kind).0[c] == Convert(kind, t[c])
    {
      assert CellOk(t, DefaultNorm(kind), Bits(kind), c);
      assert SymbolAgrees(kind, t, t[c].sym) && Agrees(kind, t, c);
    }
  }

  /** Building and converting the default table gives the predefined one. */
  method RebuildPredefined(kind: Kind) returns (table: seq<BaselineEntry>, ghost fse: seq<FseEntry>)
    ensures table == Predefined(kind).0 && IsTable(fse, DefaultNorm(kind), Bits(kind)) && |fse| == |table|
    ensures forall i :: 0 <= i < |fse| ==> fse[i].sym <= MaxSym(kind) && table[i] == Convert(kind, fse[i])
  {
    hide Predefined, Convert;
    var bits := Bits(kind);
    Sizes(kind);
    FillingCloses(DefaultNorm(kind), bits);
    var scratch := new FseEntry[Size(kind)](_ => FseEntry(0, 0, 0));
    var err := BuildFse(DefaultNorm(kind), scratch, bits);
    assert scratch[..] == scratch[..Size(kind)];
    PredefinedIsDefault(kind, scratch[..]);
    var ok;
    ok, table := MakeBaseline(kind, scratch[..]);
    fse := scratch[..];
  }
}
