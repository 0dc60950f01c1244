/** Packets taken apart through all levels (pkg/lib/dhcp/options6_pd.go): options of a packet, options of an IA_PD
    among them, and options of the prefixes in those. */
module Dhcp6Nest {
  import opened Options
  import opened Arith
  import opened Dhcp6

  // ----- inside an IA_PD -----

  /** Options of an IA_PD: prefixes, and others between them. */
  datatype Item = Prefix(p: IAPrefix) | Other(o: Option6)

  function OptionOf(i: Item): Option6 {
    match i case Prefix(p) => PrefixOption(p) case Other(o) => o
  }

  function OptionsOf(items: seq<Item>): seq<Option6> {
    if items == [] then [] else [OptionOf(items[0])] + OptionsOf(items[1..])
  }

  predicate HoldsPrefix(o: Option6) {
    o.code == IA_PREFIX && |o.data| >= 25
  }

  /** An option taken apart; a prefix that is too short stays as it is. */
  function ItemOf(o: Option6): Item {
    if HoldsPrefix(o) then Prefix(ParsePrefix(o.data).value) else Other(o)
  }

  function ItemsOf(opts: seq<Option6>): seq<Item> {
    if opts == [] then [] else [ItemOf(opts[0])] + ItemsOf(opts[1..])
  }

  /** Numbers in the range of their fields, and no prefix left unparsed. */
  predicate ItemTyped(i: Item) {
    match i case Prefix(p) => TypedPrefix(p) case Other(o) => Typed(o) && !HoldsPrefix(o)
  }

  predicate ItemShort(i: Item) {
    Short(OptionOf(i)) && (i.Prefix? ==> AllShort(i.p.options))
  }

  predicate ItemsTyped(items: seq<Item>) {
    items == [] || (ItemTyped(items[0]) && ItemsTyped(items[1..]))
  }

  predicate ItemsShort(items: seq<Item>) {
    items == [] || (ItemShort(items[0]) && ItemsShort(items[1..]))
  }

  /** The options nested in a prefix parse without error. */
  predicate ItemClean(o: Option6) {
    HoldsPrefix(o) ==> Parse(o.data[25..]).ok
  }

  predicate ItemsClean(opts: seq<Option6>) {
    opts == [] || (ItemClean(opts[0]) && ItemsClean(opts[1..]))
  }

  /** What was read is not longer when it is written again. */
  lemma {:induction false} ParsedIsShorter(data: bytes)
    ensures |Marshal(Parse(data).opts)| <= |data|
    decreases |data|
  {
    if |data| >= 4 && |data| >= 4 + Get16(data[2..4]) {
      var n := Get16(data[2..4]);
      var o, rest := Option6(Get16(data[..2]), data[4..4 + n]), Parse(data[4 + n..]).opts;
      ParsedIsShorter(data[4 + n..]);
      assert ([o] + rest)[1..] == rest;
      assert |Wire(o)| == 4 + n;
    }
  }

  lemma {:induction false} ItemIsShorter(o: Option6)
    requires Typed(o) && Short(o)
    ensures ItemTyped(ItemOf(o)) && ItemShort(ItemOf(o)) && |OptionOf(ItemOf(o)).data| <= |o.data|
    ensures Typed(OptionOf(ItemOf(o)))
  {
    if HoldsPrefix(o) {
      ParsedIsShorter(o.data[25..]);
      ParsedFits(o.data[25..]);
    }
  }

  /** An option comes back from its item exactly when nothing was lost inside it. */
  lemma {:induction false} ItemRebuiltIff(o: Option6)
    ensures OptionOf(ItemOf(o)) == o <==> ItemClean(o)
  {
    if HoldsPrefix(o) {
      PrefixBytesRoundTrip(o.data);
    }
  }

  lemma {:induction false} ItemsRebuiltIff(opts: seq<Option6>)
    ensures |OptionsOf(ItemsOf(opts))| == |opts|
    ensures OptionsOf(ItemsOf(opts)) == opts <==> ItemsClean(opts)
    decreases |opts|
  {
    if opts != [] {
      ItemRebuiltIff(opts[0]);
      ItemsRebuiltIff(opts[1..]);
      var items := ItemsOf(opts);
      assert items[1..] == ItemsOf(opts[1..]);
      assert OptionsOf(items)[0] == OptionOf(ItemOf(opts[0])) && OptionsOf(items)[1..] == OptionsOf(ItemsOf(opts[1..]));
      assert opts == [opts[0]] + opts[1..];
    }
  }

  lemma {:induction false} ItemsAreShorter(opts: seq<Option6>)
    requires AllTyped(opts) && AllShort(opts)
    ensures ItemsTyped(ItemsOf(opts)) && ItemsShort(ItemsOf(opts))
    ensures |Marshal(OptionsOf(ItemsOf(opts)))| <= |Marshal(opts)|
    ensures AllTyped(OptionsOf(ItemsOf(opts))) && AllShort(OptionsOf(ItemsOf(opts)))
    decreases |opts|
  {
    if opts != [] {
      assert Typed(opts[0]) && Short(opts[0]);
      ItemIsShorter(opts[0]);
      ItemsAreShorter(opts[1..]);
      var items := ItemsOf(opts);
      assert items[1..] == ItemsOf(opts[1..]);
      var o, more := OptionOf(items[0]), OptionsOf(items[1..]);
      assert ([o] + more)[1..] == more;
      assert |Wire(o)| <= |Wire(opts[0])|;
    }
  }

  /** Items that fit are found again in their options. */
  lemma {:induction false} ItemsComeBack(items: seq<Item>)
    requires ItemsTyped(items) && ItemsShort(items)
    ensures ItemsOf(OptionsOf(items)) == items && AllTyped(OptionsOf(items)) && AllShort(OptionsOf(items))
    decreases |items|
  {
    if items != [] {
      ItemsComeBack(items[1..]);
      var opts := OptionsOf(items);
      assert opts[1..] == OptionsOf(items[1..]);
      if items[0].Prefix? {
        PrefixRoundTrip(items[0].p);
      }
      assert items == [items[0]] + items[1..];
    }
  }

  /** `IAPD.Prefixes` of an IA_PD that was put together from items. */
  function PrefixesIn(items: seq<Item>): seq<IAPrefix> {
    if items == [] then []
    else (if items[0].Prefix? then [items[0].p] else []) + PrefixesIn(items[1..])
  }

  lemma {:induction false} PrefixesAreItems(opts: seq<Option6>)
    ensures Prefixes(opts) == PrefixesIn(ItemsOf(opts))
    decreases |opts|
  {
    if opts != [] {
      PrefixesAreItems(opts[1..]);
      assert ItemsOf(opts)[1..] == ItemsOf(opts[1..]);
    }
  }

  // ----- inside a packet -----

  /** Options of a packet: IA_PDs taken apart, and others. */
  datatype Top = Delegation(iaid: nat, t1: nat, t2: nat, items: seq<Item>) | Plain(o: Option6)

  datatype Deep = Deep(msgType: byte, transaction: bytes, tops: seq<Top>)

  function IAOf(t: Top): IA
    requires t.Delegation?
  {
    IA(t.iaid, t.t1, t.t2, OptionsOf(t.items))
  }

  function TopOption(t: Top): Option6 {
    if t.Delegation? then Option6(IA_PD, MarshalIA(IAOf(t))) else t.o
  }

  function TopOptions(tops: seq<Top>): seq<Option6> {
    if tops == [] then [] else [TopOption(tops[0])] + TopOptions(tops[1..])
  }

  predicate HoldsIA(o: Option6) {
    o.code == IA_PD && |o.data| >= 12
  }

  function TopOf(o: Option6): Top {
    if HoldsIA(o) then
      var ia := ParseIA(o.data).value;
      Delegation(ia.iaid, ia.t1, ia.t2, ItemsOf(ia.options))
    else Plain(o)
  }

  function TopsOf(opts: seq<Option6>): seq<Top> {
    if opts == [] then [] else [TopOf(opts[0])] + TopsOf(opts[1..])
  }

  function Encode(p: Deep): bytes {
    MarshalPacket(Packet6(p.msgType, p.transaction, TopOptions(p.tops)))
  }

  function Decode(data: bytes): Option<Deep> {
    match Unmarshal(data)
    case None => None
    case Some(p) => Some(Deep(p.msgType, p.transaction, TopsOf(p.options)))
  }

  predicate TopTyped(t: Top) {
    match t
    case Delegation(iaid, t1, t2, items) => Fits32(iaid) && Fits32(t1) && Fits32(t2) && ItemsTyped(items)
    case Plain(o) => Typed(o) && !HoldsIA(o)
  }

  predicate TopShort(t: Top) {
    Short(TopOption(t)) && (t.Delegation? ==> ItemsShort(t.items))
  }

  predicate TopsTyped(tops: seq<Top>) {
    tops == [] || (TopTyped(tops[0]) && TopsTyped(tops[1..]))
  }

  predicate TopsShort(tops: seq<Top>) {
    tops == [] || (TopShort(tops[0]) && TopsShort(tops[1..]))
  }

  /** The options nested in an IA_PD parse without error, and so do those nested in its prefixes. */
  predicate TopClean(o: Option6) {
    HoldsIA(o) ==> Parse(o.data[12..]).ok && ItemsClean(Parse(o.data[12..]).opts)
  }

  predicate TopsClean(opts: seq<Option6>) {
    opts == [] || (TopClean(opts[0]) && TopsClean(opts[1..]))
  }

  lemma {:induction false} TopIsShorter(o: Option6)
    requires Typed(o) && Short(o)
    ensures TopTyped(TopOf(o)) && TopShort(TopOf(o)) && Typed(TopOption(TopOf(o)))
  {
    if HoldsIA(o) {
      var opts := Parse(o.data[12..]).opts;
      ParsedIsShorter(o.data[12..]);
      ParsedFits(o.data[12..]);
      ItemsAreShorter(opts);
    }
  }

  lemma {:induction false} TopRebuiltIff(o: Option6)
    ensures TopOption(TopOf(o)) == o <==> TopClean(o)
  {
    if HoldsIA(o) {
      var ia, d := ParseIA(o.data).value, o.data;
      ItemsRebuiltIff(ia.options);
      if ItemsClean(ia.options) {
        IABytesRoundTrip(d);
      } else {
        LossShows(ia, OptionsOf(ItemsOf(ia.options)), d);
      }
    }
  }

  /** An IA with other options is not written as the same bytes. */
  lemma {:induction false} LossShows(ia: IA, opts: seq<Option6>, d: bytes)
    requires |d| >= 12 && ParseIA(d) == Some(ia) && opts == OptionsOf(ItemsOf(ia.options)) && opts != ia.options
    ensures MarshalIA(IA(ia.iaid, ia.t1, ia.t2, opts)) != d
  {
    var e := MarshalIA(IA(ia.iaid, ia.t1, ia.t2, opts));
    assert e[12..] == Marshal(opts);
    ParsedFits(d[12..]);
    ItemsAreShorter(ia.options);
    ParseMarshal(opts);
  }

  lemma {:induction false} TopsRebuiltIff(opts: seq<Option6>)
    ensures |TopOptions(TopsOf(opts))| == |opts|
    ensures TopOptions(TopsOf(opts)) == opts <==> TopsClean(opts)
    decreases |opts|
  {
    if opts != [] {
      TopRebuiltIff(opts[0]);
      TopsRebuiltIff(opts[1..]);
      var tops := TopsOf(opts);
      assert tops[1..] == TopsOf(opts[1..]);
      assert TopOptions(tops)[0] == TopOption(TopOf(opts[0])) && TopOptions(tops)[1..] == TopOptions(TopsOf(opts[1..]));
      assert opts == [opts[0]] + opts[1..];
    }
  }

  lemma {:induction false} TopsAreShorter(opts: seq<Option6>)
    requires AllTyped(opts) && AllShort(opts)
    ensures TopsTyped(TopsOf(opts)) && TopsShort(TopsOf(opts))
    ensures AllTyped(TopOptions(TopsOf(opts))) && AllShort(TopOptions(TopsOf(opts)))
    decreases |opts|
  {
    if opts != [] {
      assert Typed(opts[0]) && Short(opts[0]);
      TopIsShorter(opts[0]);
      TopsAreShorter(opts[1..]);
      assert TopsOf(opts)[1..] == TopsOf(opts[1..]);
    }
  }

  lemma {:induction false} TopsComeBack(tops: seq<Top>)
    requires TopsTyped(tops) && TopsShort(tops)
    ensures TopsOf(TopOptions(tops)) == tops && AllTyped(TopOptions(tops)) && AllShort(TopOptions(tops))
    decreases |tops|
  {
    if tops != [] {
      TopsComeBack(tops[1..]);
      var opts := TopOptions(tops);
      assert opts[1..] == TopOptions(tops[1..]);
      if tops[0].Delegation? {
        ItemsComeBack(tops[0].items);
        IARoundTrip(IAOf(tops[0]));
      }
      assert tops == [tops[0]] + tops[1..];
    }
  }

  // ----- whole packets, both ways -----

  /** Bytes that unmarshal are rebuilt from everything that was taken out of them exactly when no nested options,
      of an IA_PD or of a prefix in one, were cut off. */
  lemma {:induction false} DeepBytesRoundTrip(data: bytes)
    requires Unmarshal(data).Some?
    ensures Decode(data).Some? && (Encode(Decode(data).value) == data <==> TopsClean(Unmarshal(data).value.options))
  {
    var p := Unmarshal(data).value;
    var opts := TopOptions(TopsOf(p.options));
    BytesRoundTrip(data);
    TopsRebuiltIff(p.options);
    if opts != p.options && Encode(Decode(data).value) == data {
      assert Encode(Decode(data).value)[4..] == Marshal(opts);
      ParsedFits(data[4..]);
      TopsAreShorter(p.options);
      ParseMarshal(opts);
    }
  }

  /** A packet put together through all levels is taken apart into the same parts exactly when, at every level, the
      lengths fit. */
  lemma {:induction false} DeepRoundTrip(p: Deep)
    requires |p.transaction| == 3 && TopsTyped(p.tops)
    ensures Decode(Encode(p)) == Some(p) <==> TopsShort(p.tops)
  {
    var flat := Packet6(p.msgType, p.transaction, TopOptions(p.tops));
    if TopsShort(p.tops) {
      TopsComeBack(p.tops);
      PacketRoundTrip(flat);
    } else if Decode(Encode(p)) == Some(p) {
      var got := Unmarshal(Encode(p)).value;
      ParsedFits(Encode(p)[4..]);
      TopsAreShorter(got.options);
    }
  }

  /** The first IA_PD of such a packet is found, with its prefixes and their own options. */
  lemma {:induction false} DelegationIsFound(p: Deep, before: seq<Top>, t: Top, after: seq<Top>)
    requires |p.transaction| == 3 && TopsTyped(p.tops) && TopsShort(p.tops)
    requires p.tops == before + [t] + after && t.Delegation? && Lacks(TopOptions(before), IA_PD)
    ensures var got := Unmarshal(Encode(p));
      && got.Some? && Get(got.value.options, IA_PD).Some?
      && ParseIA(Get(got.value.options, IA_PD).value) == Some(IAOf(t)) &&
        Prefixes(OptionsOf(t.items)) == PrefixesIn(t.items)
  {
    TopsComeBack(p.tops);
    PacketRoundTrip(Packet6(p.msgType, p.transaction, TopOptions(p.tops)));
    TopsSplit(before, t, after);
    GetFirst(TopOptions(before), TopOption(t), TopOptions(after));
    TopAt(before, t, after);
    DelegationParses(t);
  }

  lemma {:induction false} TopsSplit(before: seq<Top>, t: Top, after: seq<Top>)
    ensures TopOptions(before + [t] + after) == TopOptions(before) + [TopOption(t)] + TopOptions(after)
  {
    assert before + [t] + after == before + ([t] + after);
    TopsConcat(before, [t] + after);
    TopsConcat([t], after);
    assert TopOptions([t]) == [TopOption(t)];
  }

  lemma {:induction false} DelegationParses(t: Top)
    requires t.Delegation? && TopTyped(t) && TopShort(t)
    ensures ParseIA(TopOption(t).data) == Some(IAOf(t)) && Prefixes(OptionsOf(t.items)) == PrefixesIn(t.items)
  {
    ItemsComeBack(t.items);
    IARoundTrip(IAOf(t));
    PrefixesAreItems(OptionsOf(t.items));
  }

  lemma {:induction false} TopsConcat(a: seq<Top>, b: seq<Top>)
    ensures TopOptions(a + b) == TopOptions(a) + TopOptions(b)
    decreases |a|
  {
    if a == [] {
      assert a + b == b;
    } else {
      TopsConcat(a[1..], b);
      assert (a + b)[1..] == a[1..] + b;
      var first, more := [TopOption(a[0])], TopOptions(a[1..]);
      assert TopOptions(a + b) == first + TopOptions(a[1..] + b);
      assert first + (more + TopOptions(b)) == (first + more) + TopOptions(b);
    }
  }

  lemma {:induction false} TopAt(before: seq<Top>, t: Top, after: seq<Top>)
    requires TopsTyped(before + [t] + after) && TopsShort(before + [t] + after)
    ensures TopTyped(t) && TopShort(t)
    decreases |before|
  {
    if before != [] {
      assert (before + [t] + after)[1..] == before[1..] + [t] + after;
      TopAt(before[1..], t, after);
    }
  }
}
