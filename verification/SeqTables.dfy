/** The tables that drive sequence decoding (pkg/lib/zstd/fse.go:203-430, block.go:58-242,
    section 3.1.1.3.2.1 of RFC 8878). */
module SeqTables {
  import opened Arith
  import opened FseSpread
  import opened FseTable

  datatype Kind = Literal | Offset | Match

  /** `fseBaselineEntry`: value = baseline + basebits extra bits; next state = base + bits extra bits. */
  datatype BaselineEntry = BaselineEntry(baseline: nat, basebits: nat, bits: nat, base: nat)

  function MaxSym(kind: Kind): nat {
    match kind case Literal => 35 case Offset => 31 case Match => 52
  }

  function MaxBits(kind: Kind): nat {
    match kind case Literal => 9 case Offset => 8 case Match => 9
  }

  const LITERAL_LENGTH_BASE: seq<(nat, nat)> := [
    (16, 1), (18, 1), (20, 1), (22, 1), (24, 2), (28, 2), (32, 3), (40, 3), (48, 4), (64, 6),
    (128, 7), (256, 8), (512, 9), (1024, 10), (2048, 11), (4096, 12), (8192, 13), (16384, 14),
    (32768, 15), (65536, 16)]

  const MATCH_LENGTH_BASE: seq<(nat, nat)> := [
    (35, 1), (37, 1), (39, 1), (41, 1), (43, 2), (47, 2), (51, 3), (59, 3), (67, 4), (83, 4), (99, 5),
    (131, 7), (259, 8), (515, 9), (1027, 10), (2051, 11), (4099, 12), (8195, 13), (16387, 14),
    (32771, 15), (65539, 16)]

  /** The baseline and the number of extra bits of a code. For offsets the 3 that the standard
      subtracts from every offset value above 3 is already taken off. */
  function CodeValue(kind: Kind, sym: nat): (r: (nat, nat))
    requires sym <= MaxSym(kind)
  {
    match kind
    case Literal => if sym < 16 then (sym, 0) else LITERAL_LENGTH_BASE[sym - 16]
    case Offset => OffsetFits(sym); (if sym >= 2 then Pow2(sym) - 3 else Pow2(sym), sym)
    case Match => if sym < 32 then (sym + 3, 0) else MATCH_LENGTH_BASE[sym - 32]
  }

  lemma {:induction false} OffsetFits(sym: nat)
    ensures sym >= 2 ==> Pow2(sym) >= 4
  {
    if sym >= 2 {
      Pow2Mono(2, sym);
      Pow2Values();
    }
  }

  function Convert(kind: Kind, e: FseEntry): BaselineEntry
    requires e.sym <= MaxSym(kind)
  {
    var (baseline, basebits) := CodeValue(kind, e.sym);
    BaselineEntry(baseline, basebits, e.bits, e.base)
  }

  /** `makeLiteralBaselineFSE`, `makeOffsetBaselineFSE` and `makeMatchBaselineFSE`. */
  method MakeBaseline(kind: Kind, fse: seq<FseEntry>) returns (ok: bool, table: seq<BaselineEntry>)
    ensures ok <==> forall i :: 0 <= i < |fse| ==> fse[i].sym <= MaxSym(kind)
    ensures ok ==> |table| == |fse| && forall i :: 0 <= i < |fse| ==> table[i] == Convert(kind, fse[i])
  {
    table := [];
    for i := 0 to |fse|
      invariant |table| == i
      invariant forall j :: 0 <= j < i ==> fse[j].sym <= MaxSym(kind) && table[j] == Convert(kind, fse[j])
    {
      if fse[i].sym > MaxSym(kind) {
        return false, table;
      }
      table := table + [Convert(kind, fse[i])];
    }
    ok := true;
  }

  /** What `execSeqs` relies on: the ranges of the values, and that every next state exists. */
  predicate EntryOk(kind: Kind, e: BaselineEntry, size: nat) {
    && e.bits <= 9 && e.base + Pow2(e.bits) <= size
    && match kind
       case Literal => e.basebits <= 16
       case Offset => e.basebits <= 31 && (e.baseline, e.basebits) == CodeValue(Offset, e.basebits)
       case Match => e.basebits <= 16 && e.baseline >= 3
  }

  ghost predicate TableOk(kind: Kind, t: seq<BaselineEntry>, bits: nat) {
    && bits <= 9 && |t| == Pow2(bits)
    && (forall i: nat :: i < |t| ==> EntryOk(kind, t[i], |t|))
  }

  // ----- the length codes -----

  /** Consecutive length codes cover consecutive ranges. */
  lemma {:induction false} LengthsTile(kind: Kind, c: nat)
    requires kind != Offset && c < MaxSym(kind)
    ensures CodeValue(kind, c + 1).0 == CodeValue(kind, c).0 + Pow2(CodeValue(kind, c).1)
  {
    Pow2Values();
    Pow2Middle();
    var i := c - (if kind == Literal then 16 else 32);
    assert i < 0 || i == 0 || i == 1 || i == 2 || i == 3 || i == 4 || i == 5 || i == 6 || i == 7 || i == 8
        || i == 9 || i == 10 || i == 11 || i == 12 || i == 13 || i == 14 || i == 15 || i == 16 || i == 17
        || i == 18 || i == 19;
  }

  ghost predicate Encodes(kind: Kind, c: nat, length: nat) {
    c <= MaxSym(kind) && CodeValue(kind, c).0 <= length < CodeValue(kind, c).0 + Pow2(CodeValue(kind, c).1)
  }

  lemma {:induction false} BaselinesGrow(kind: Kind, c: nat, d: nat)
    requires kind != Offset && c < d <= MaxSym(kind)
    ensures CodeValue(kind, c).0 + Pow2(CodeValue(kind, c).1) <= CodeValue(kind, d).0
    decreases d
  {
    LengthsTile(kind, d - 1);
    if c < d - 1 {
      BaselinesGrow(kind, c, d - 1);
    }
  }

  /** Every length from the first baseline on has exactly one code. */
  lemma {:induction false} LengthHasOneCode(kind: Kind, length: nat, top: nat) returns (c: nat)
    requires kind != Offset && top <= MaxSym(kind)
    requires CodeValue(kind, 0).0 <= length < CodeValue(kind, top).0 + Pow2(CodeValue(kind, top).1)
    ensures Encodes(kind, c, length)
    ensures forall d: nat :: Encodes(kind, d, length) ==> d == c
  {
    if CodeValue(kind, top).0 <= length {
      c := top;
    } else {
      LengthsTile(kind, top - 1);
      c := LengthHasOneCode(kind, length, top - 1);
    }
    forall d: nat | Encodes(kind, d, length) ensures d == c {
      if d < c { BaselinesGrow(kind, d, c); }
      if c < d { BaselinesGrow(kind, c, d); }
    }
  }

  // ----- the predefined tables -----

  const PREDEFINED_LITERAL_LOW: seq<BaselineEntry> := [
    BaselineEntry(0, 0, 4, 0), BaselineEntry(0, 0, 4, 16), BaselineEntry(1, 0, 5, 32), BaselineEntry(3, 0, 5, 0),
    BaselineEntry(4, 0, 5, 0), BaselineEntry(6, 0, 5, 0), BaselineEntry(7, 0, 5, 0), BaselineEntry(9, 0, 5, 0),
    BaselineEntry(10, 0, 5, 0), BaselineEntry(12, 0, 5, 0), BaselineEntry(14, 0, 6, 0), BaselineEntry(16, 1, 5, 0),
    BaselineEntry(20, 1, 5, 0), BaselineEntry(22, 1, 5, 0), BaselineEntry(28, 2, 5, 0), BaselineEntry(32, 3, 5, 0),
    BaselineEntry(48, 4, 5, 0), BaselineEntry(64, 6, 5, 32), BaselineEntry(128, 7, 5, 0),
    BaselineEntry(256, 8, 6, 0), BaselineEntry(1024, 10, 6, 0), BaselineEntry(4096, 12, 6, 0),
    BaselineEntry(0, 0, 4, 32), BaselineEntry(1, 0, 4, 0), BaselineEntry(2, 0, 5, 0), BaselineEntry(4, 0, 5, 32),
    BaselineEntry(5, 0, 5, 0), BaselineEntry(7, 0, 5, 32), BaselineEntry(8, 0, 5, 0), BaselineEntry(10, 0, 5, 32),
    BaselineEntry(11, 0, 5, 0), BaselineEntry(13, 0, 6, 0)]

  const PREDEFINED_LITERAL_HIGH: seq<BaselineEntry> := [
    BaselineEntry(16, 1, 5, 32), BaselineEntry(18, 1, 5, 0), BaselineEntry(22, 1, 5, 32), BaselineEntry(24, 2, 5, 0),
    BaselineEntry(32, 3, 5, 32), BaselineEntry(40, 3, 5, 0), BaselineEntry(64, 6, 4, 0), BaselineEntry(64, 6, 4, 16),
    BaselineEntry(128, 7, 5, 32), BaselineEntry(512, 9, 6, 0), BaselineEntry(2048, 11, 6, 0),
    BaselineEntry(0, 0, 4, 48), BaselineEntry(1, 0, 4, 16), BaselineEntry(2, 0, 5, 32), BaselineEntry(3, 0, 5, 32),
    BaselineEntry(5, 0, 5, 32), BaselineEntry(6, 0, 5, 32), BaselineEntry(8, 0, 5, 32), BaselineEntry(9, 0, 5, 32),
    BaselineEntry(11, 0, 5, 32), BaselineEntry(12, 0, 5, 32), BaselineEntry(15, 0, 6, 0),
    BaselineEntry(18, 1, 5, 32), BaselineEntry(20, 1, 5, 32), BaselineEntry(24, 2, 5, 32),
    BaselineEntry(28, 2, 5, 32), BaselineEntry(40, 3, 5, 32), BaselineEntry(48, 4, 5, 32),
    BaselineEntry(65536, 16, 6, 0), BaselineEntry(32768, 15, 6, 0), BaselineEntry(16384, 14, 6, 0),
    BaselineEntry(8192, 13, 6, 0)]

  const PREDEFINED_OFFSET: seq<BaselineEntry> := [
    BaselineEntry(1, 0, 5, 0), BaselineEntry(61, 6, 4, 0), BaselineEntry(509, 9, 5, 0),
    BaselineEntry(32765, 15, 5, 0), BaselineEntry(2097149, 21, 5, 0), BaselineEntry(5, 3, 5, 0),
    BaselineEntry(125, 7, 4, 0), BaselineEntry(4093, 12, 5, 0), BaselineEntry(262141, 18, 5, 0),
    BaselineEntry(8388605, 23, 5, 0), BaselineEntry(29, 5, 5, 0), BaselineEntry(253, 8, 4, 0),
    BaselineEntry(16381, 14, 5, 0), BaselineEntry(1048573, 20, 5, 0), BaselineEntry(1, 2, 5, 0),
    BaselineEntry(125, 7, 4, 16), BaselineEntry(2045, 11, 5, 0), BaselineEntry(131069, 17, 5, 0),
    BaselineEntry(4194301, 22, 5, 0), BaselineEntry(13, 4, 5, 0), BaselineEntry(253, 8, 4, 16),
    BaselineEntry(8189, 13, 5, 0), BaselineEntry(524285, 19, 5, 0), BaselineEntry(2, 1, 5, 0),
    BaselineEntry(61, 6, 4, 16), BaselineEntry(1021, 10, 5, 0), BaselineEntry(65533, 16, 5, 0),
    BaselineEntry(268435453, 28, 5, 0), BaselineEntry(134217725, 27, 5, 0), BaselineEntry(67108861, 26, 5, 0),
    BaselineEntry(33554429, 25, 5, 0), BaselineEntry(16777213, 24, 5, 0)]

  const PREDEFINED_MATCH_LOW: seq<BaselineEntry> := [
    BaselineEntry(3, 0, 6, 0), BaselineEntry(4, 0, 4, 0), BaselineEntry(5, 0, 5, 32), BaselineEntry(6, 0, 5, 0),
    BaselineEntry(8, 0, 5, 0), BaselineEntry(9, 0, 5, 0), BaselineEntry(11, 0, 5, 0), BaselineEntry(13, 0, 6, 0),
    BaselineEntry(16, 0, 6, 0), BaselineEntry(19, 0, 6, 0), BaselineEntry(22, 0, 6, 0), BaselineEntry(25, 0, 6, 0),
    BaselineEntry(28, 0, 6, 0), BaselineEntry(31, 0, 6, 0), BaselineEntry(34, 0, 6, 0), BaselineEntry(37, 1, 6, 0),
    BaselineEntry(41, 1, 6, 0), BaselineEntry(47, 2, 6, 0), BaselineEntry(59, 3, 6, 0), BaselineEntry(83, 4, 6, 0),
    BaselineEntry(131, 7, 6, 0), BaselineEntry(515, 9, 6, 0), BaselineEntry(4, 0, 4, 16), BaselineEntry(5, 0, 4, 0),
    BaselineEntry(6, 0, 5, 32), BaselineEntry(7, 0, 5, 0), BaselineEntry(9, 0, 5, 32), BaselineEntry(10, 0, 5, 0),
    BaselineEntry(12, 0, 6, 0), BaselineEntry(15, 0, 6, 0), BaselineEntry(18, 0, 6, 0), BaselineEntry(21, 0, 6, 0)]

  const PREDEFINED_MATCH_HIGH: seq<BaselineEntry> := [
    BaselineEntry(24, 0, 6, 0), BaselineEntry(27, 0, 6, 0), BaselineEntry(30, 0, 6, 0), BaselineEntry(33, 0, 6, 0),
    BaselineEntry(35, 1, 6, 0), BaselineEntry(39, 1, 6, 0), BaselineEntry(43, 2, 6, 0), BaselineEntry(51, 3, 6, 0),
    BaselineEntry(67, 4, 6, 0), BaselineEntry(99, 5, 6, 0), BaselineEntry(259, 8, 6, 0), BaselineEntry(4, 0, 4, 32),
    BaselineEntry(4, 0, 4, 48), BaselineEntry(5, 0, 4, 16), BaselineEntry(7, 0, 5, 32), BaselineEntry(8, 0, 5, 32),
    BaselineEntry(10, 0, 5, 32), BaselineEntry(11, 0, 5, 32), BaselineEntry(14, 0, 6, 0), BaselineEntry(17, 0, 6, 0),
    BaselineEntry(20, 0, 6, 0), BaselineEntry(23, 0, 6, 0), BaselineEntry(26, 0, 6, 0), BaselineEntry(29, 0, 6, 0),
    BaselineEntry(32, 0, 6, 0), BaselineEntry(65539, 16, 6, 0), BaselineEntry(32771, 15, 6, 0),
    BaselineEntry(16387, 14, 6, 0), BaselineEntry(8195, 13, 6, 0), BaselineEntry(4099, 12, 6, 0),
    BaselineEntry(2051, 11, 6, 0), BaselineEntry(1027, 10, 6, 0)]

  function Predefined(kind: Kind): (seq<BaselineEntry>, nat) {
    match kind
    case Literal => (PREDEFINED_LITERAL_LOW + PREDEFINED_LITERAL_HIGH, 6)
    case Offset => (PREDEFINED_OFFSET, 5)
    case Match => (PREDEFINED_MATCH_LOW + PREDEFINED_MATCH_HIGH, 6)
  }

  lemma {:induction false} PredefinedLiteralLow(e: BaselineEntry)
    requires e in PREDEFINED_LITERAL_LOW
    ensures EntryOk(Literal, e, 64)
  {
    Pow2Values();
  }

  lemma {:induction false} PredefinedLiteralHigh(e: BaselineEntry)
    requires e in PREDEFINED_LITERAL_HIGH
    ensures EntryOk(Literal, e, 64)
  {
    Pow2Values();
  }

  lemma {:induction false} PredefinedMatchLow(e: BaselineEntry)
    requires e in PREDEFINED_MATCH_LOW
    ensures EntryOk(Match, e, 64)
  {
    Pow2Values();
  }

  lemma {:induction false} PredefinedMatchHigh(e: BaselineEntry)
    requires e in PREDEFINED_MATCH_HIGH
    ensures EntryOk(Match, e, 64)
  {
    Pow2Values();
  }

  lemma {:induction false} PredefinedOffset(e: BaselineEntry)
    requires e in PREDEFINED_OFFSET
    ensures EntryOk(Offset, e, 32)
  {
    Pow2Values();
    Pow2Middle();
  }

  lemma {:induction false} Pow2Middle()
    ensures Pow2(13) == 8192 && Pow2(14) == 16384 && Pow2(15) == 32768 && Pow2(16) == 65536
    ensures Pow2(17) == 131072 && Pow2(18) == 262144 && Pow2(19) == 524288 && Pow2(20) == 1048576
    ensures Pow2(21) == 2097152 && Pow2(22) == 4194304 && Pow2(23) == 8388608 && Pow2(24) == 16777216
    ensures Pow2(25) == 33554432 && Pow2(26) == 67108864 && Pow2(27) == 134217728 && Pow2(28) == 268435456
  {
    Pow2Values();
    assert Pow2(14) == 4 * Pow2(12);
    assert Pow2(16) == 4 * Pow2(14);
    assert Pow2(18) == 4 * Pow2(16);
    assert Pow2(20) == 4 * Pow2(18);
    assert Pow2(22) == 4 * Pow2(20);
    assert Pow2(24) == 4 * Pow2(22);
    assert Pow2(26) == 4 * Pow2(24);
  }

  /** Predefined mode yields a usable table. */
  lemma {:induction false} PredefinedIsOk(kind: Kind)
    ensures TableOk(kind, Predefined(kind).0, Predefined(kind).1)
  {
    var (t, bits) := Predefined(kind);
    Pow2Values();
    forall i: nat | i < |t| ensures EntryOk(kind, t[i], |t|) {
      match kind
      case Literal =>
        if i < 32 {
          PredefinedLiteralLow(t[i]);
        } else {
          PredefinedLiteralHigh(t[i]);
        }
      case Offset => PredefinedOffset(t[i]);
      case Match =>
        if i < 32 {
          PredefinedMatchLow(t[i]);
        } else {
          PredefinedMatchHigh(t[i]);
        }
    }
  }

  // ----- the other modes -----

  lemma {:induction false} ConvertOk(kind: Kind, e: FseEntry, size: nat)
    requires e.sym <= MaxSym(kind) && e.bits <= 9 && e.base + Pow2(e.bits) <= size
    ensures EntryOk(kind, Convert(kind, e), size)
  {
  }

  /** RLE mode: a single state that never changes. */
  lemma {:induction false} RleIsOk(kind: Kind, sym: nat)
    requires sym <= MaxSym(kind)
    ensures TableOk(kind, [Convert(kind, FseEntry(sym, 0, 0))], 0)
  {
    ConvertOk(kind, FseEntry(sym, 0, 0), 1);
  }

  /** A table read from a distribution header never leads out of itself. */
  lemma {:induction false} ConvertedIsOk(
    kind: Kind, fse: seq<FseEntry>, norm: seq<Count>, bits: nat, t: seq<BaselineEntry>)
    requires IsTable(fse, norm, bits) && |norm| == MaxSym(kind) + 1 && bits <= 9
    requires |t| == |fse| && forall i :: 0 <= i < |fse| ==> fse[i].sym <= MaxSym(kind) && t[i] == Convert(kind, fse[i])
    ensures TableOk(kind, t, bits)
  {
    forall i: nat | i < |t| ensures EntryOk(kind, t[i], |t|) {
      StatesStayInTable(fse, norm, bits, i);
      assert CellOk(fse, norm, bits, i);
      ConvertOk(kind, fse[i], |t|);
    }
  }
}
