/** The DHCPv6 codec (pkg/lib/dhcp/options6.go, options6_pd.go, packet6.go): type-length-value options
    that nest inside identity associations and prefixes, and packets of them. */
module Dhcp6 {
  import opened Options
  import opened Arith

  type bytes = seq<byte>

  const IA_NA: nat := 3
  const IA_PD: nat := 25
  const IA_PREFIX: nat := 26

  // ----- big-endian integers -----

  function Put16(n: nat): (r: bytes)
    ensures |r| == 2
  {
    [n / 256 % 256, n % 256]
  }

  function Put32(n: nat): (r: bytes)
    ensures |r| == 4
  {
    Put16(n / 65536) + Put16(n)
  }

  function Get16(s: bytes): (n: nat)
    requires |s| == 2
    ensures n < 65536
  {
    (s[0] as int) * 256 + s[1]
  }

  function Get32(s: bytes): (n: nat)
    requires |s| == 4
    ensures n < 0x1_0000_0000
  {
    Get16(s[..2]) * 65536 + Get16(s[2..])
  }

  lemma {:induction false} Put16Get(n: nat)
    ensures Get16(Put16(n)) == n % 65536
  {
  }

  lemma {:induction false} Get16Put(s: bytes)
    requires |s| == 2
    ensures Put16(Get16(s)) == s
  {
  }

  lemma {:induction false} Put32Get(n: nat)
    requires n < 0x1_0000_0000
    ensures Get32(Put32(n)) == n
  {
    Put16Get(n / 65536);
    Put16Get(n);
    var s := Put32(n);
    assert s[..2] == Put16(n / 65536) && s[2..] == Put16(n);
  }

  lemma {:induction false} Get32Put(s: bytes)
    requires |s| == 4
    ensures Put32(Get32(s)) == s
  {
    Get16Put(s[..2]);
    Get16Put(s[2..]);
    assert s == s[..2] + s[2..];
    Put16OfLow(Get16(s[..2]), Get16(s[2..]));
  }

  lemma {:induction false} Put16OfLow(a: nat, b: nat)
    requires b < 65536
    ensures (a * 65536 + b) / 65536 == a && Put16(a * 65536 + b) == Put16(b)
  {
    assert (a * 65536 + b) % 256 == b % 256;
    assert (a * 65536 + b) / 256 == a * 256 + b / 256;
    assert (a * 256 + b / 256) % 256 == b / 256;
  }

  /** Network order is little-endian order read backwards: the first byte counts most. */
  lemma {:induction false} FirstByteCountsMost(s: bytes)
    ensures |s| == 2 ==> Get16(s) == LittleEndian([s[1], s[0]])
    ensures |s| == 4 ==> Get32(s) == LittleEndian([s[3], s[2], s[1], s[0]])
  {
    if |s| == 2 {
      TwoBytes(s[1], s[0]);
    } else if |s| == 4 {
      TwoBytes(s[1], s[0]);
      TwoBytes(s[3], s[2]);
      var t := [s[3], s[2], s[1], s[0]];
      assert t[1..][1..] == [s[1], s[0]] && [s[3], s[2]][1..] == [s[2]];
    }
  }

  lemma {:induction false} TwoBytes(low: byte, high: byte)
    ensures LittleEndian([low, high]) == low + 256 * high
  {
    assert [low, high][1..] == [high] && LittleEndian([high]) == high + 256 * LittleEndian([]);
  }

  // ----- options -----

  datatype Option6 = Option6(code: nat, data: bytes)

  /** The code is a uint16. */
  predicate Typed(o: Option6) {
    o.code < 65536
  }

  predicate AllTyped(opts: seq<Option6>) {
    forall i :: 0 <= i < |opts| ==> Typed(opts[i])
  }

  /** The length fits its field. */
  predicate Short(o: Option6) {
    |o.data| < 65536
  }

  predicate AllShort(opts: seq<Option6>) {
    forall i :: 0 <= i < |opts| ==> Short(opts[i])
  }

  function Wire(o: Option6): bytes {
    Put16(o.code) + Put16(|o.data|) + o.data
  }

  function Marshal(opts: seq<Option6>): bytes {
    if opts == [] then [] else Wire(opts[0]) + Marshal(opts[1..])
  }

  /** The options read before an error, and whether there was none. */
  datatype Parsed = Parsed(opts: seq<Option6>, ok: bool)

  function Parse(data: bytes): Parsed
    decreases |data|
  {
    if data == [] then Parsed([], true)
    else if |data| < 4 then Parsed([], false)
    else
      var n := Get16(data[2..4]);
      if |data| < 4 + n then Parsed([], false)
      else
        var rest := Parse(data[4 + n..]);
        Parsed([Option6(Get16(data[..2]), data[4..4 + n])] + rest.opts, rest.ok)
  }

  lemma {:induction false} ParseWire(o: Option6, rest: bytes)
    requires Typed(o) && Short(o)
    ensures Parse(Wire(o) + rest) == Parsed([o] + Parse(rest).opts, Parse(rest).ok)
  {
    var data, n := Wire(o) + rest, |o.data|;
    assert Get16(data[..2]) == o.code by { Put16Get(o.code); assert data[..2] == Put16(o.code); }
    assert Get16(data[2..4]) == n by { Put16Get(n); assert data[2..4] == Put16(n); }
    assert data[4..4 + n] == o.data && data[4 + n..] == rest;
  }

  /** What is marshalled is parsed back, without error. */
  lemma {:induction false} ParseMarshal(opts: seq<Option6>)
    requires AllTyped(opts) && AllShort(opts)
    ensures Parse(Marshal(opts)) == Parsed(opts, true)
    decreases |opts|
  {
    if opts != [] {
      assert Typed(opts[0]) && Short(opts[0]);
      ParseMarshal(opts[1..]);
      ParseWire(opts[0], Marshal(opts[1..]));
    }
  }

  lemma {:induction false} ParsedFits(data: bytes)
    ensures AllTyped(Parse(data).opts) && AllShort(Parse(data).opts)
    decreases |data|
  {
    if |data| >= 4 && |data| >= 4 + Get16(data[2..4]) {
      ParsedFits(data[4 + Get16(data[2..4])..]);
    }
  }

  /** What parses without error is marshalled back to the same bytes. */
  lemma {:induction false} MarshalParse(data: bytes)
    requires Parse(data).ok
    ensures Marshal(Parse(data).opts) == data
    decreases |data|
  {
    hide Get16, Wire, Parse, Marshal;
    ParseCut(data);
    if data == [] {
      assert Marshal([]) == [] by { MarshalNone(); }
    } else {
      var n := Get16(data[2..4]);
      var o, rest := Option6(Get16(data[..2]), data[4..4 + n]), Parse(data[4 + n..]).opts;
      MarshalParse(data[4 + n..]);
      WireParsed(data);
      MarshalCons(o, rest);
      assert data == data[..4 + n] + data[4 + n..];
    }
  }

  /** The first option of data that parses without error, and the rest. */
  lemma {:induction false} ParseCut(data: bytes)
    requires Parse(data).ok
    ensures data == [] ==> Parse(data).opts == []
    ensures data != [] ==> |data| >= 4 && |data| >= 4 + Get16(data[2..4])
    ensures data != [] ==>
      var n := Get16(data[2..4]);
      var rest := Parse(data[4 + n..]);
      rest.ok && Parse(data).opts == [Option6(Get16(data[..2]), data[4..4 + n])] + rest.opts
  {
    hide Get16;
  }

  lemma {:induction false} MarshalNone()
    ensures Marshal([]) == []
  {
  }

  lemma {:induction false} MarshalCons(o: Option6, rest: seq<Option6>)
    ensures Marshal([o] + rest) == Wire(o) + Marshal(rest)
  {
    hide Wire;
    assert ([o] + rest)[1..] == rest;
  }

  lemma {:induction false} WireParsed(data: bytes)
    requires |data| >= 4 && |data| >= 4 + Get16(data[2..4])
    ensures var n := Get16(data[2..4]); Wire(Option6(Get16(data[..2]), data[4..4 + n])) == data[..4 + n]
  {
    Get16Put(data[..2]);
    Get16Put(data[2..4]);
  }

  /** One round of the parser, from position `i` on. */
  lemma {:induction false} ParseAt(data: bytes, i: nat)
    requires i + 4 <= |data|
    ensures var n := Get16(data[i + 2..i + 4]);
      var rest := if i + 4 + n <= |data| then Parse(data[i + 4 + n..]) else Parsed([], true);
      Parse(data[i..]) == if i + 4 + n > |data| then Parsed([], false)
                          else Parsed([Option6(Get16(data[i..i + 2]), data[i + 4..i + 4 + n])] + rest.opts, rest.ok)
  {
    var d, n := data[i..], Get16(data[i + 2..i + 4]);
    assert d[..2] == data[i..i + 2] && d[2..4] == data[i + 2..i + 4];
    if i + 4 + n <= |data| {
      assert d[4..4 + n] == data[i + 4..i + 4 + n] && d[4 + n..] == data[i + 4 + n..];
    }
  }

  /** The round trip holds exactly for options whose lengths fit. */
  lemma {:induction false} RoundTripIff(opts: seq<Option6>)
    requires AllTyped(opts)
    ensures Parse(Marshal(opts)) == Parsed(opts, true) <==> AllShort(opts)
  {
    ParsedFits(Marshal(opts));
    if AllShort(opts) {
      ParseMarshal(opts);
    }
  }

  /** An option of 65536 bytes is lost: its length field says 0. */
  lemma {:induction false} LongOptionIsLost(data: bytes)
    requires |data| == 65536
    ensures Parse(Marshal([Option6(1, data)])) != Parsed([Option6(1, data)], true)
  {
    var opts := [Option6(1, data)];
    assert !Short(opts[0]) && AllTyped(opts);
    RoundTripIff(opts);
  }

  /** A single byte is no option. */
  lemma {:induction false} CutOption()
    ensures Parse([0]) == Parsed([], false)
  {
  }

  method MarshalOptions(opts: seq<Option6>) returns (buf: bytes)
    ensures buf == Marshal(opts)
  {
    buf := [];
    var k := 0;
    while k < |opts|
      invariant 0 <= k <= |opts|
      invariant buf + Marshal(opts[k..]) == Marshal(opts)
    {
      var o := opts[k];
      assert Marshal(opts[k..]) == Wire(o) + Marshal(opts[k + 1..]) by { assert opts[k..][1..] == opts[k + 1..]; }
      assert buf + (Wire(o) + Marshal(opts[k + 1..])) == buf + Wire(o) + Marshal(opts[k + 1..]);
      assert buf + (Put16(o.code) + Put16(|o.data|)) + o.data == buf + Wire(o);
      buf := buf + (Put16(o.code) + Put16(|o.data|)) + o.data;
      k := k + 1;
    }
    assert opts[k..] == [] && buf + [] == buf;
  }

  /** `ParseOptions6`. */
  method ParseOptions(data: bytes) returns (opts: seq<Option6>, ok: bool)
    ensures Parsed(opts, ok) == Parse(data)
  {
    opts := [];
    var i := 0;
    assert data[0..] == data;
    while i < |data|
      invariant 0 <= i <= |data|
      invariant Parse(data) == Parsed(opts + Parse(data[i..]).opts, Parse(data[i..]).ok)
    {
      if i + 4 > |data| {
        return opts, false;
      }
      var code := Get16(data[i..i + 2]);
      var length := Get16(data[i + 2..i + 4]);
      ParseAt(data, i);
      i := i + 4;
      if i + length > |data| {
        return opts, false;
      }
      var o := Option6(code, data[i..i + length]);
      assert opts + ([o] + Parse(data[i + length..]).opts) == opts + [o] + Parse(data[i + length..]).opts;
      opts := opts + [o];
      i := i + length;
    }
    ok := true;
  }

  /** `Options6.Get`: the data of the first option with the code. */
  function Get(opts: seq<Option6>, code: nat): Option<bytes> {
    if opts == [] then None
    else if opts[0].code == code then Some(opts[0].data)
    else Get(opts[1..], code)
  }

  predicate Lacks(opts: seq<Option6>, code: nat) {
    forall i :: 0 <= i < |opts| ==> opts[i].code != code
  }

  lemma {:induction false} GetFirst(before: seq<Option6>, o: Option6, after: seq<Option6>)
    requires Lacks(before, o.code)
    ensures Get(before + [o] + after, o.code) == Some(o.data)
    decreases |before|
  {
    var all := before + [o] + after;
    if before != [] {
      assert all[1..] == before[1..] + [o] + after;
      GetFirst(before[1..], o, after);
    } else {
      assert all[0] == o;
    }
  }

  // ----- packets -----

  datatype Packet6 = Packet6(msgType: byte, transaction: bytes, options: seq<Option6>)

  function MarshalPacket(p: Packet6): bytes {
    [p.msgType] + p.transaction + Marshal(p.options)
  }

  function Unmarshal(data: bytes): Option<Packet6> {
    if |data| < 4 then None
    else
      var r := Parse(data[4..]);
      if r.ok then Some(Packet6(data[0], data[1..4], r.opts)) else None
  }

  /** A packet comes back exactly when its options' lengths fit. */
  lemma {:induction false} PacketRoundTrip(p: Packet6)
    requires |p.transaction| == 3 && AllTyped(p.options)
    ensures Unmarshal(MarshalPacket(p)) == Some(p) <==> AllShort(p.options)
  {
    var data := MarshalPacket(p);
    assert data[4..] == Marshal(p.options) && data[1..4] == p.transaction;
    RoundTripIff(p.options);
  }

  lemma {:induction false} BytesRoundTrip(data: bytes)
    requires Unmarshal(data).Some?
    ensures MarshalPacket(Unmarshal(data).value) == data
  {
    MarshalParse(data[4..]);
    assert data == [data[0]] + data[1..4] + data[4..];
  }

  /** The layout of section 8 of RFC 8415: a Solicit with an elapsed time of zero. */
  lemma {:induction false} PacketOnTheWire()
    ensures MarshalPacket(Packet6(1, [0xA, 0xB, 0xC], [Option6(8, [0, 0])])) == [1, 0xA, 0xB, 0xC, 0, 8, 0, 2, 0, 0]
  {
    var o := Option6(8, [0, 0]);
    assert [o][1..] == [] && Wire(o) == [0, 8, 0, 2, 0, 0];
  }

  // ----- identity associations -----

  /** IA_NA and IA_PD share their layout. */
  datatype IA = IA(iaid: nat, t1: nat, t2: nat, options: seq<Option6>)

  predicate Fits32(n: nat) {
    n < 0x1_0000_0000
  }

  predicate TypedIA(ia: IA) {
    Fits32(ia.iaid) && Fits32(ia.t1) && Fits32(ia.t2) && AllTyped(ia.options)
  }

  function MarshalIA(ia: IA): bytes {
    Put32(ia.iaid) + Put32(ia.t1) + Put32(ia.t2) + Marshal(ia.options)
  }

  /** `parseIAPD`, and the body of `Options6.IANA`: an error among the nested options is dropped. */
  function ParseIA(d: bytes): Option<IA> {
    if |d| < 12 then None
    else Some(IA(Get32(d[..4]), Get32(d[4..8]), Get32(d[8..12]), Parse(d[12..]).opts))
  }

  lemma {:induction false} IARoundTrip(ia: IA)
    requires TypedIA(ia)
    ensures ParseIA(MarshalIA(ia)) == Some(ia) <==> AllShort(ia.options)
  {
    var d := MarshalIA(ia);
    Put32Get(ia.iaid);
    Put32Get(ia.t1);
    Put32Get(ia.t2);
    assert d[..4] == Put32(ia.iaid) && d[4..8] == Put32(ia.t1) && d[8..12] == Put32(ia.t2);
    assert d[12..] == Marshal(ia.options);
    ParsedFits(d[12..]);
    if AllShort(ia.options) {
      ParseMarshal(ia.options);
    }
  }

  /** An IA with a byte too many is read without an error, and the byte is lost. */
  lemma {:induction false} IALosesByte(head: bytes)
    requires |head| == 12
    ensures ParseIA(head + [0]).Some? && MarshalIA(ParseIA(head + [0]).value) != head + [0]
  {
    CutOption();
    assert (head + [0])[12..] == [0];
    IABytesRoundTrip(head + [0]);
  }

  /** The bytes come back exactly when the nested options parse without error. */
  lemma {:induction false} IABytesRoundTrip(d: bytes)
    requires ParseIA(d).Some?
    ensures MarshalIA(ParseIA(d).value) == d <==> Parse(d[12..]).ok
  {
    Get32Put(d[..4]);
    Get32Put(d[4..8]);
    Get32Put(d[8..12]);
    assert d == d[..4] + d[4..8] + d[8..12] + d[12..];
    var r := Parse(d[12..]);
    if r.ok {
      MarshalParse(d[12..]);
    } else if MarshalIA(ParseIA(d).value) == d {
      assert MarshalIA(ParseIA(d).value)[12..] == Marshal(r.opts);
      ParsedFits(d[12..]);
      ParseMarshal(r.opts);
      assert false;
    }
  }

  /** The layout of section 21.21 of RFC 8415: IAID 1, T1 of an hour, T2 of 5760 seconds, and an option 13 with
      two bytes. */
  lemma {:induction false} IAOnTheWire()
    ensures MarshalIA(IA(1, 3600, 5760, [Option6(13, [0, 6])])) ==
      [0, 0, 0, 1, 0, 0, 0x0E, 0x10, 0, 0, 0x16, 0x80, 0, 13, 0, 2, 0, 6]
  {
    var o := Option6(13, [0, 6]);
    assert [o][1..] == [] && Wire(o) == [0, 13, 0, 2, 0, 6];
    assert Put32(1) == [0, 0, 0, 1] && Put32(3600) == [0, 0, 0x0E, 0x10] && Put32(5760) == [0, 0, 0x16, 0x80];
  }

  // ----- prefixes -----

  datatype IAPrefix = IAPrefix(preferred: nat, valid: nat, length: byte, prefix: bytes, options: seq<Option6>)

  predicate TypedPrefix(p: IAPrefix) {
    Fits32(p.preferred) && Fits32(p.valid) && |p.prefix| == 16 && AllTyped(p.options)
  }

  function MarshalPrefix(p: IAPrefix): bytes {
    Put32(p.preferred) + Put32(p.valid) + [p.length] + p.prefix + Marshal(p.options)
  }

  /** `Option6IAPrefixOpt`. */
  function PrefixOption(p: IAPrefix): Option6 {
    Option6(IA_PREFIX, MarshalPrefix(p))
  }

  function ParsePrefix(d: bytes): Option<IAPrefix> {
    if |d| < 25 then None
    else Some(IAPrefix(Get32(d[..4]), Get32(d[4..8]), d[8], d[9..25], Parse(d[25..]).opts))
  }

  lemma {:induction false} PrefixRoundTrip(p: IAPrefix)
    requires TypedPrefix(p)
    ensures ParsePrefix(MarshalPrefix(p)) == Some(p) <==> AllShort(p.options)
  {
    var d := MarshalPrefix(p);
    Put32Get(p.preferred);
    Put32Get(p.valid);
    assert d[..4] == Put32(p.preferred) && d[4..8] == Put32(p.valid) && d[9..25] == p.prefix;
    assert d[25..] == Marshal(p.options);
    ParsedFits(d[25..]);
    if AllShort(p.options) {
      ParseMarshal(p.options);
    }
  }

  /** So it is with a prefix. */
  lemma {:induction false} PrefixLosesByte(head: bytes)
    requires |head| == 25
    ensures ParsePrefix(head + [0]).Some? && MarshalPrefix(ParsePrefix(head + [0]).value) != head + [0]
  {
    CutOption();
    assert (head + [0])[25..] == [0];
    PrefixBytesRoundTrip(head + [0]);
  }

  /** The bytes of a prefix come back exactly when its nested options parse without error. */
  lemma {:induction false} PrefixBytesRoundTrip(d: bytes)
    requires ParsePrefix(d).Some?
    ensures MarshalPrefix(ParsePrefix(d).value) == d <==> Parse(d[25..]).ok
  {
    Get32Put(d[..4]);
    Get32Put(d[4..8]);
    assert d == d[..4] + d[4..8] + [d[8]] + d[9..25] + d[25..];
    var r := Parse(d[25..]);
    if r.ok {
      MarshalParse(d[25..]);
    } else if MarshalPrefix(ParsePrefix(d).value) == d {
      assert MarshalPrefix(ParsePrefix(d).value)[25..] == Marshal(r.opts);
      ParsedFits(d[25..]);
      ParseMarshal(r.opts);
      assert false;
    }
  }

  /** The layout of section 21.22 of RFC 8415: the preferred lifetime, the valid lifetime, the length, the prefix. */
  lemma {:induction false} PrefixOnTheWire(prefix: bytes)
    requires |prefix| == 16
    ensures MarshalPrefix(IAPrefix(3600, 5760, 56, prefix, [])) ==
      [0, 0, 0x0E, 0x10, 0, 0, 0x16, 0x80, 56] + prefix
  {
    assert Put32(3600) == [0, 0, 0x0E, 0x10] && Put32(5760) == [0, 0, 0x16, 0x80];
  }

  /** `IAPD.Prefixes`: IA_PREFIX options in order, those too short skipped. */
  function Prefixes(opts: seq<Option6>): seq<IAPrefix> {
    if opts == [] then []
    else
      var rest := Prefixes(opts[1..]);
      var p := if opts[0].code == IA_PREFIX then ParsePrefix(opts[0].data) else None;
      if p.Some? then [p.value] + rest else rest
  }

  method CollectPrefixes(opts: seq<Option6>) returns (ps: seq<IAPrefix>)
    ensures ps == Prefixes(opts)
  {
    ps := [];
    var k := 0;
    while k < |opts|
      invariant 0 <= k <= |opts|
      invariant ps + Prefixes(opts[k..]) == Prefixes(opts)
    {
      assert opts[k..][1..] == opts[k + 1..];
      if opts[k].code == IA_PREFIX {
        var p := ParsePrefix(opts[k].data);
        if p.Some? {
          ps := ps + [p.value];
        }
      }
      k := k + 1;
    }
    assert opts[k..] == [];
  }
}
