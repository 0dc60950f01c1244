/** Decoding a stream of Huffman codes (`readLiteralsOneStream`, pkg/lib/zstd/literals.go:174-200):
    every message written with the code is read back. */
module HuffmanStream {
  import opened Arith
  import opened BitStreams
  import opened Codewords
  import opened Huffman

  // ----- the codes of a table -----

  /** The codeword of a symbol. */
  function WordOf(ws: seq<nat>, bits: nat, i: nat): Codeword {
    if i < |ws| && 0 < ws[i] <= bits && Code(ws, bits, i) >= 0 then Codeword(Code(ws, bits, i), bits + 1 - ws[i])
    else Codeword(0, 0)
  }

  function WordsOf(ws: seq<nat>, bits: nat, msg: seq<nat>): seq<Codeword> {
    seq(|msg|, k requires 0 <= k < |msg| => WordOf(ws, bits, msg[k]))
  }

  ghost predicate IsMessage(ws: seq<nat>, msg: seq<nat>) {
    forall k :: 0 <= k < |msg| ==> msg[k] < |ws| && ws[msg[k]] > 0
  }

  /** Cells that start with the codeword hold the symbol and its length. */
  ghost predicate Finds(t: seq<nat>, bits: nat, sym: nat, w: Codeword) {
    && w.len <= bits && w.code < Pow2(w.len)
    && (forall x :: 0 <= x < |t| && Shr(x, bits - w.len) == w.code ==> t[x] / 256 == sym && t[x] % 256 == w.len)
  }

  ghost predicate FindsAll(t: seq<nat>, bits: nat, msg: seq<nat>, cs: seq<Codeword>) {
    |cs| == |msg| && forall k :: 0 <= k < |msg| ==> Finds(t, bits, msg[k], cs[k])
  }

  lemma {:induction false} CodeFits(ws: seq<nat>, bits: nat, i: nat)
    requires Accepted(ws, bits) && i < |ws| && ws[i] > 0
    ensures 0 <= Code(ws, bits, i) < Pow2(bits + 1 - ws[i])
  {
    RunIsAligned(ws, bits, i);
    RunEnds(ws, bits, i);
    var c, l, b := Code(ws, bits, i), bits + 1 - ws[i], ws[i] - 1;
    assert Shl(c, b) + Pow2(b) <= Pow2(l + b);
    if c >= Pow2(l) {
      ShlFacts(Pow2(l), c, b);
      ShlPow2(l, b);
    }
  }

  /** A Huffman table finds every symbol by its codeword. */
  lemma {:induction false} TableFinds(t: seq<nat>, ws: seq<nat>, bits: nat, i: nat)
    requires IsHuffTable(t, ws, bits) && i < |ws| && ws[i] > 0
    ensures Finds(t, bits, i, WordOf(ws, bits, i))
  {
    hide Code, Shr, Pow2, RunStart, EntryOf;
    CodeFits(ws, bits, i);
    assert Filled(t, ws, bits, i);
    var w := WordOf(ws, bits, i);
    forall x | 0 <= x < |t| && Shr(x, bits - w.len) == w.code ensures t[x] / 256 == i && t[x] % 256 == w.len {
      InRunIsPrefix(ws, bits, i, x);
      EntryParts(ws, i, bits);
    }
  }

  lemma {:induction false} EntryParts(ws: seq<nat>, i: nat, bits: nat)
    requires i < |ws| && 0 < ws[i] <= bits <= 11
    ensures EntryOf(ws, i, bits) / 256 == i && EntryOf(ws, i, bits) % 256 == bits + 1 - ws[i]
  {
  }

  lemma {:induction false} TableFindsAll(t: seq<nat>, ws: seq<nat>, bits: nat, msg: seq<nat>)
    requires IsHuffTable(t, ws, bits) && IsMessage(ws, msg)
    ensures FindsAll(t, bits, msg, WordsOf(ws, bits, msg))
  {
    forall k | 0 <= k < |msg| ensures Finds(t, bits, msg[k], WordsOf(ws, bits, msg)[k]) {
      TableFinds(t, ws, bits, msg[k]);
    }
  }

  // ----- decoding -----

  datatype Decoded = OutOfBits | Symbols(s: seq<nat>)

  /** `n` symbols from the top of the `left` low bits of `m`. */
  function Decode(t: seq<nat>, bits: nat, m: nat, left: int, n: nat): Decoded
    requires |t| == Pow2(bits)
    decreases n
  {
    if n == 0 then Symbols([])
    else if left < bits then OutOfBits
    else
      var e := t[NextBits(m, left, bits)];
      match Decode(t, bits, m, left - e % 256, n - 1)
      case OutOfBits => OutOfBits
      case Symbols(s) => Symbols([e / 256] + s)
  }

  /** The top `bits` bits of a stream that starts with the code `c` of length `l` start with `c`. */
  lemma {:induction false} TopOfStream(m: nat, left: nat, bits: nat, c: nat, l: nat, rest: nat)
    requires l <= bits <= left && rest < Pow2(left - l) && Low(m, left) == Shl(c, left - l) + rest
    ensures Shr(NextBits(m, left, bits), bits - l) == c
    ensures Low(m, left - l) == rest
  {
    hide Pow2, Shl, Shr, Low;
    assert Shr(Low(m, left), left - l) == c && Low(m, left - l) == rest by {
      Split(rest, c, left - l);
      LowCut(m, left - l, l);
    }
    assert Shr(Low(m, left), left - bits) == NextBits(m, left, bits) by { LowCut(m, left - bits, bits); }
    ShrShr(Low(m, left), left - bits, bits - l);
  }

  /** Only the low `left` bits of a number are looked at. */
  lemma {:induction false} DecodeLow(t: seq<nat>, bits: nat, m: nat, k: nat, left: int, n: nat)
    requires |t| == Pow2(bits) && (left >= 0 ==> Low(m, left) == Low(k, left))
    ensures Decode(t, bits, m, left, n) == Decode(t, bits, k, left, n)
    decreases n
  {
    hide Low, Shr, Pow2;
    if n > 0 && left >= bits {
      LowCut(m, left - bits, bits);
      LowCut(k, left - bits, bits);
      assert NextBits(m, left, bits) == NextBits(k, left, bits);
      var rest := left - t[NextBits(m, left, bits)] % 256;
      if rest >= 0 {
        LowCut(m, rest, left - rest);
        LowCut(k, rest, left - rest);
      }
      DecodeLow(t, bits, m, k, rest, n - 1);
    }
  }

  /** After a list of codewords the decoder stands on the `tailLen` bits that follow it. */
  lemma {:induction false} ListThenTail(
    t: seq<nat>, bits: nat, msg: seq<nat>, cs: seq<Codeword>, m: nat, tail: nat, tailLen: nat, left: nat, n: nat)
    requires |t| == Pow2(bits) && FindsAll(t, bits, msg, cs) && bits <= tailLen && tail < Pow2(tailLen)
    requires left == Length(cs) + tailLen && Low(m, left) == Shl(Packed(cs), tailLen) + tail
    ensures Decode(t, bits, m, left, |msg| + n) == After(msg, Decode(t, bits, tail, tailLen, n))
    decreases |msg|
  {
    hide Pow2, Low, NextBits;
    var d := Decode(t, bits, tail, tailLen, n);
    if msg == [] {
      assert Low(m, tailLen) == tail == Low(tail, tailLen) by {
        ShlFacts(0, 0, tailLen);
        Split(tail, 0, tailLen);
      }
      DecodeLow(t, bits, m, tail, tailLen, n);
      assert d.Symbols? ==> [] + d.s == d.s;
    } else {
      var w, more, rest := cs[0], cs[1..], Shl(Packed(cs[1..]), tailLen) + tail;
      assert Finds(t, bits, msg[0], w);
      FirstWord(t, bits, msg, cs, m, tail, tailLen, left, rest);
      ListThenTail(t, bits, msg[1..], more, m, tail, tailLen, left - w.len, n);
      DecodeNext(t, bits, m, left, |msg| + n, [], t[NextBits(m, left, bits)]);
      AfterTwice(msg, d);
      AfterNone(Decode(t, bits, m, left, |msg| + n));
      assert [] + [msg[0]] == [msg[0]];
    }
  }

  lemma {:induction false} AfterTwice(msg: seq<nat>, d: Decoded)
    requires msg != []
    ensures After([msg[0]], After(msg[1..], d)) == After(msg, d)
  {
    if d.Symbols? {
      assert [msg[0]] + (msg[1..] + d.s) == msg + d.s;
    }
  }

  lemma {:induction false} AfterNone(d: Decoded)
    ensures After([], d) == d
  {
    if d.Symbols? {
      assert [] + d.s == d.s;
    }
  }

  /** A list of codewords is decoded to its symbols, whatever `tailLen` bits follow it. */
  lemma {:induction false} ListIsDecoded(
    t: seq<nat>, bits: nat, msg: seq<nat>, cs: seq<Codeword>, m: nat, tail: nat, tailLen: nat, left: nat)
    requires |t| == Pow2(bits) && FindsAll(t, bits, msg, cs) && bits <= tailLen && tail < Pow2(tailLen)
    requires left == Length(cs) + tailLen && Low(m, left) == Shl(Packed(cs), tailLen) + tail
    ensures Decode(t, bits, m, left, |msg|) == Symbols(msg)
  {
    ListThenTail(t, bits, msg, cs, m, tail, tailLen, left, 0);
    assert msg + [] == msg;
  }

  /** The first lookup finds the first codeword, and leaves the rest of the list. */
  lemma {:induction false} FirstWord(
    t: seq<nat>, bits: nat, msg: seq<nat>, cs: seq<Codeword>, m: nat, tail: nat, tailLen: nat, left: nat, rest: nat)
    requires |t| == Pow2(bits) && FindsAll(t, bits, msg, cs) && msg != [] && bits <= tailLen && tail < Pow2(tailLen)
    requires left == Length(cs) + tailLen && Low(m, left) == Shl(Packed(cs), tailLen) + tail
    requires rest == Shl(Packed(cs[1..]), tailLen) + tail
    ensures t[NextBits(m, left, bits)] / 256 == msg[0] && t[NextBits(m, left, bits)] % 256 == cs[0].len
    ensures Low(m, left - cs[0].len) == rest
  {
    var w, l := cs[0], Length(cs[1..]);
    assert Finds(t, bits, msg[0], w);
    assert rest < Pow2(l + tailLen) by {
      forall k | 0 <= k < |cs[1..]| ensures cs[1..][k].code < Pow2(cs[1..][k].len) {
        assert Finds(t, bits, msg[k + 1], cs[k + 1]);
      }
      PackedBound(cs[1..]);
      BelowTop(Packed(cs[1..]), tail, l, tailLen);
    }
    assert Low(m, left) == Shl(w.code, l + tailLen) + rest by { ShlInParts(w.code, l, tailLen, Packed(cs[1..])); }
    TopOfStream(m, left, bits, w.code, w.len, rest);
  }

  /** Whatever bits follow it, an encoded message is decoded to itself. */
  lemma {:induction false} HuffmanRoundTrip(
    t: seq<nat>, ws: seq<nat>, bits: nat, msg: seq<nat>, m: nat, tail: nat, tailLen: nat, left: nat)
    requires IsHuffTable(t, ws, bits) && IsMessage(ws, msg) && bits <= tailLen && tail < Pow2(tailLen)
    requires left == Length(WordsOf(ws, bits, msg)) + tailLen
    requires Low(m, left) == Shl(Packed(WordsOf(ws, bits, msg)), tailLen) + tail
    ensures Decode(t, bits, m, left, |msg|) == Symbols(msg)
  {
    TableFindsAll(t, ws, bits, msg);
    ListIsDecoded(t, bits, msg, WordsOf(ws, bits, msg), m, tail, tailLen, left);
  }

  /** The loop of `readLiteralsOneStream`. */
  method ReadSymbols(rbr: ReverseBitReader, table: seq<nat>, huffBits: nat, regeneratedSize: nat)
    returns (r: Decoded)
    requires rbr.Valid() && rbr.cnt <= 18 && 1 <= huffBits <= 11 && |table| == Pow2(huffBits)
    requires forall x :: 0 <= x < |table| ==> table[x] % 256 <= huffBits
    modifies rbr
    ensures r == Decode(table, huffBits, rbr.Stream(), old(rbr.Left()), regeneratedSize)
  {
    var out: seq<nat> := [];
    ghost var whole := Decode(table, huffBits, rbr.Stream(), rbr.Left(), regeneratedSize);
    for i := 0 to regeneratedSize
      invariant rbr.Valid() && rbr.cnt <= 18 && |out| == i
      invariant whole == After(out, Decode(table, huffBits, rbr.Stream(), rbr.Left(), regeneratedSize - i))
    {
      var ok;
      ok, out := ReadOne(rbr, table, huffBits, regeneratedSize - i, out);
      if !ok {
        return OutOfBits;
      }
    }
    r := Symbols(out);
  }

  /** One pass of the loop; `n` symbols are still to come. */
  method ReadOne(rbr: ReverseBitReader, table: seq<nat>, huffBits: nat, ghost n: nat, out: seq<nat>)
    returns (ok: bool, out': seq<nat>)
    requires rbr.Valid() && rbr.cnt <= 18 && 1 <= huffBits <= 11 && |table| == Pow2(huffBits) && n > 0
    requires forall x :: 0 <= x < |table| ==> table[x] % 256 <= huffBits
    modifies rbr
    ensures rbr.Valid() && rbr.cnt <= 18
    ensures !ok ==> Decode(table, huffBits, rbr.Stream(), old(rbr.Left()), n) == OutOfBits
    ensures ok ==> |out'| == |out| + 1
    ensures ok ==>
      After(out, Decode(table, huffBits, rbr.Stream(), old(rbr.Left()), n)) ==
      After(out', Decode(table, huffBits, rbr.Stream(), rbr.Left(), n - 1))
  {
    hide Pow2, NextBits, After, Decode, LittleEndian, Slice, HighBit;
    out' := out;
    var e;
    ok, e := LookupTop(rbr, table, huffBits);
    if !ok {
      DecodeEnds(table, huffBits, rbr.Stream(), rbr.Left(), n);
    } else {
      DecodeNext(table, huffBits, rbr.Stream(), rbr.Left(), n, out, e);
      out' := out + [e / 256];
      rbr.Take(e % 256);
    }
  }

  /** The bytes the reader may look at: the stream, and the two before it. */
  ghost function Reach(data: seq<byte>, off: nat, compressedSize: nat): (m: nat)
    requires 2 <= off && off + compressedSize <= |data| && data[off + compressedSize - 1] != 0
    ensures m > 0
  {
    var s, c := data[off - 2..off + compressedSize - 1], data[off + compressedSize - 1];
    TopByte(s, c, 8);
    LittleEndian(s + [c])
  }

  datatype Literals = ZeroByte | Read(d: Decoded)

  /** `readLiteralsOneStream`. A literals section begins with a header of at least three bytes, so the stream does
      not start before the third byte. */
  method ReadLiteralsOneStream(
    data: seq<byte>, off: nat, compressedSize: nat, table: seq<nat>, huffBits: nat, regeneratedSize: nat)
    returns (r: Literals)
    requires 2 <= off && off + compressedSize <= |data| && 1 <= huffBits <= 11 && |table| == Pow2(huffBits)
    requires forall x :: 0 <= x < |table| ==> table[x] % 256 <= huffBits
    ensures r == if data[off + compressedSize - 1] == 0 then ZeroByte
      else var m := Reach(data, off, compressedSize); Read(Decode(table, huffBits, m, HighBit(m), regeneratedSize))
  {
    var last := off + compressedSize - 1;
    if data[last] == 0 {
      return ZeroByte;
    }
    var rbr := new ReverseBitReader(data, last, off - 2);
    assert data[rbr.low..rbr.end + 1] == data[off - 2..last] + [data[last]];
    var d := ReadSymbols(rbr, table, huffBits, regeneratedSize);
    r := Read(d);
  }

  /** A stream that carries a message: the marker bit, then its codes. */
  ghost predicate Carries(s: seq<byte>, ws: seq<nat>, bits: nat, msg: seq<nat>) {
    var cs := WordsOf(ws, bits, msg);
    LittleEndian(s) == Pow2(Length(cs)) + Packed(cs)
  }

  /** A stream that carries a message is read as that message, whatever the two bytes before it are. What it carries
      beyond that is not looked at: nothing requires the stream to be used up. */
  lemma {:induction false} CarriedIsRead(
    t: seq<nat>, ws: seq<nat>, bits: nat, data: seq<byte>, off: nat, compressedSize: nat, msg: seq<nat>, more: seq<nat>)
    requires IsHuffTable(t, ws, bits) && IsMessage(ws, msg) && IsMessage(ws, more)
    requires 2 <= off && off + compressedSize <= |data| && data[off + compressedSize - 1] != 0
    requires Carries(data[off..off + compressedSize], ws, bits, msg + more)
    ensures Decode(t, bits, Reach(data, off, compressedSize), HighBit(Reach(data, off, compressedSize)), |msg|) ==
      Symbols(msg)
  {
    hide Decode, HighBit, Low, Shl, Pow2, FindsAll, LittleEndian;
    var y, a, b := data[off - 2..off], WordsOf(ws, bits, msg), WordsOf(ws, bits, more);
    assert WordsOf(ws, bits, msg + more) == a + b;
    ReachParts(data, off, compressedSize);
    TableFindsAll(t, ws, bits, msg);
    TableFindsAll(t, ws, bits, more);
    NumberIsRead(t, bits, Reach(data, off, compressedSize), LittleEndian(data[off..off + compressedSize]),
                 LittleEndian(y), 8 * |y|, msg, a, more, b);
  }

  // ----- streams that carry too little -----

  /** A stream that carries fewer symbols than are asked for: the two bytes before it are read on, whatever they
      are, and it is accepted exactly when they hold the codes that are missing. */
  lemma {:induction false} CarriedThenBefore(
    t: seq<nat>, ws: seq<nat>, bits: nat, data: seq<byte>, off: nat, compressedSize: nat, msg: seq<nat>, missing: nat)
    requires IsHuffTable(t, ws, bits) && IsMessage(ws, msg) && bits <= 11
    requires 2 <= off && off + compressedSize <= |data| && data[off + compressedSize - 1] != 0
    requires Carries(data[off..off + compressedSize], ws, bits, msg)
    ensures var m := Reach(data, off, compressedSize);
      Decode(t, bits, m, HighBit(m), |msg| + missing) ==
      After(msg, Decode(t, bits, LittleEndian(data[off - 2..off]), 16, missing))
  {
    hide Decode, HighBit, Low, Shl, Pow2, FindsAll;
    var y, cs := LittleEndian(data[off - 2..off]), WordsOf(ws, bits, msg);
    var m, l, e := Reach(data, off, compressedSize), Length(cs), Packed(cs);
    ReachParts(data, off, compressedSize);
    TableFindsAll(t, ws, bits, msg);
    AllFound(t, bits, msg, cs);
    NothingBelow(e, l, m, y);
    ListThenTail(t, bits, msg, cs, m, y, 16, l + 16, missing);
  }

  lemma {:induction false} NothingBelow(e: nat, l: nat, m: nat, y: nat)
    requires e < Pow2(l) && y < Pow2(16) && m == y + Shl(Pow2(l) + e, 16)
    ensures m > 0 && HighBit(m) == l + 16 && Low(m, l + 16) == Shl(e, 16) + y
  {
    hide HighBit, Low, Shl, Pow2;
    NoShift(e);
    ShlFacts(0, 0, 16);
    StreamParts(m, y, l, 0, 16, e, 0);
  }

  lemma {:induction false} NoShift(e: nat)
    ensures Pow2(0) == 1 && Shl(e, 0) == e
  {
  }

  /** Every symbol takes at least one bit, and the last one needs a whole lookup. */
  lemma {:induction false} SymbolsTakeBits(t: seq<nat>, bits: nat, m: nat, left: int, n: nat)
    requires |t| == Pow2(bits) && (forall x :: 0 <= x < |t| ==> t[x] % 256 >= 1) && n > 0
    requires Decode(t, bits, m, left, n).Symbols?
    ensures n - 1 + bits <= left
    decreases n
  {
    if n > 1 {
      SymbolsTakeBits(t, bits, m, left - t[NextBits(m, left, bits)] % 256, n - 1);
    }
  }

  lemma {:induction false} OneBitTable()
    ensures IsHuffTable([1, 257], [1, 1], 1) && |[1, 257]| == Pow2(1)
  {
    Pow2Values();
    assert Total([1, 1], 0) == 0 && Total([1, 1], 1) == 1 && Total([1, 1], 2) == 2;
    assert RunStart([1, 1], 0) == 0 && RunStart([1, 1], 1) == 1;
  }

  lemma {:induction false} MarkerCarriesNothing()
    ensures Carries([1], [1, 1], 1, []) && LittleEndian([0, 0]) == 0
  {
    assert WordsOf([1, 1], 1, []) == [];
    assert [0 as byte, 0][1..] == [0] && LittleEndian([0]) == 0;
  }

  /** A table whose first entry is symbol 0 with one bit reads a 0 from every bit of 0. */
  lemma {:induction false} ZeroBits(t: seq<nat>, m: nat, left: nat, n: nat)
    requires |t| == Pow2(1) && t[0] == 1 && Low(m, left) == 0
    ensures Decode(t, 1, m, left, n) == if n <= left then Symbols(seq(n, _ => 0)) else OutOfBits
    decreases n
  {
    if n > 0 && left > 0 {
      LowCut(m, left - 1, 1);
      LowZero(left - 1);
      ShrZero(left - 1);
      ZeroBits(t, m, left - 1, n - 1);
      assert [0] + seq(n - 1, _ => 0) == seq(n, _ => 0);
    }
  }

  /** With one-bit codes a stream of nothing but its marker yields up to 16 symbols, out of two bytes of the
      section's header. */
  lemma {:induction false} MarkerYieldsSymbols(n: nat)
    ensures var t, data: seq<byte> := [1, 257], [0, 0, 1];
      && IsHuffTable(t, [1, 1], 1) && Carries(data[2..3], [1, 1], 1, [])
      && var m := Reach(data, 2, 1);
         Decode(t, 1, m, HighBit(m), n) == if n <= 16 then Symbols(seq(n, _ => 0)) else OutOfBits
  {
    hide Decode, HighBit, Low, Shl, LittleEndian, Carries, IsHuffTable, Reach, Pow2;
    var t, data: seq<byte> := [1, 257], [0, 0, 1];
    OneBitTable();
    assert data[2..3] == [1] && data[0..2] == [0, 0];
    MarkerCarriesNothing();
    CarriedThenBefore(t, [1, 1], 1, data, 2, 1, [], n);
    AfterNone(Decode(t, 1, 0, 16, n));
    LowZero(16);
    ZeroBits(t, 0, 16, n);
  }

  lemma {:induction false} ShrZero(b: nat)
    ensures Shr(0, b) == 0
  {
    if b > 0 {
      ShrZero(b - 1);
    }
  }

  lemma {:induction false} LowZero(b: nat)
    ensures Low(0, b) == 0
  {
    if b > 0 {
      LowZero(b - 1);
    }
  }

  lemma {:induction false} ReachParts(data: seq<byte>, off: nat, compressedSize: nat)
    requires 2 <= off && off + compressedSize <= |data| && data[off + compressedSize - 1] != 0
    ensures var s, y := data[off..off + compressedSize], data[off - 2..off];
      LittleEndian(y) < Pow2(8 * |y|) && Reach(data, off, compressedSize) ==
        LittleEndian(y) + Shl(LittleEndian(s), 8 * |y|)
  {
    var s, y := data[off..off + compressedSize], data[off - 2..off];
    assert data[off - 2..off + compressedSize - 1] + [data[off + compressedSize - 1]] == y + s;
    LittleEndianConcat(y, s);
    LittleEndianBound(y);
  }

  lemma {:induction false} NumberIsRead(
    t: seq<nat>, bits: nat, m: nat, s: nat, y: nat, w: nat, msg: seq<nat>,
    a: seq<Codeword>, more: seq<nat>, b: seq<Codeword>)
    requires |t| == Pow2(bits) && bits <= w && FindsAll(t, bits, msg, a) && FindsAll(t, bits, more, b)
    requires s == Pow2(Length(a + b)) + Packed(a + b) && y < Pow2(w) && m == y + Shl(s, w)
    ensures m > 0 && Decode(t, bits, m, HighBit(m), |msg|) == Symbols(msg)
  {
    hide FindsAll, Decode, HighBit, Low, Shl, Pow2;
    var l, k, e, f := Length(a), Length(b), Packed(a), Packed(b);
    assert f < Pow2(k) by { AllFound(t, bits, more, b); }
    assert e < Pow2(l) by { AllFound(t, bits, msg, a); }
    assert s == Pow2(l + k) + (Shl(e, k) + f) by { PackedConcat(a, b); }
    BelowTop(e, f, l, k);
    StreamParts(m, y, l, k, w, e, f);
    ListIsDecoded(t, bits, msg, a, m, Shl(f, w) + y, k + w, l + (k + w));
  }

  lemma {:induction false} AllFound(t: seq<nat>, bits: nat, msg: seq<nat>, cs: seq<Codeword>)
    requires FindsAll(t, bits, msg, cs)
    ensures Packed(cs) < Pow2(Length(cs))
  {
    forall k | 0 <= k < |cs| ensures cs[k].code < Pow2(cs[k].len) {
      assert Finds(t, bits, msg[k], cs[k]);
    }
    PackedBound(cs);
  }

  /** Marker, message, further message and the bytes below, as the parts of one number. */
  lemma {:induction false} StreamParts(m: nat, y: nat, l: nat, k: nat, w: nat, e: nat, f: nat)
    requires y < Pow2(w) && f < Pow2(k) && Shl(e, k) + f < Pow2(l + k)
    requires m == y + Shl(Pow2(l + k) + (Shl(e, k) + f), w)
    ensures m > 0 && HighBit(m) == l + (k + w)
    ensures Shl(f, w) + y < Pow2(k + w)
    ensures Low(m, l + (k + w)) == Shl(e, k + w) + (Shl(f, w) + y)
  {
    BelowTop(f, y, k, w);
    BelowTop(Shl(e, k) + f, y, l + k, w);
    MarkerUp(m, y, l + k, w, Shl(e, k) + f);
    ShlInParts(e, k, w, f);
  }

  lemma {:induction false} MarkerUp(m: nat, y: nat, h: nat, w: nat, x: nat)
    requires m == y + Shl(Pow2(h) + x, w) && Shl(x, w) + y < Pow2(h + w)
    ensures m > 0 && HighBit(m) == h + w && Low(m, h + w) == Shl(x, w) + y
  {
    ShlFacts(Pow2(h), x, w);
    ShlPow2(h, w);
    HighBitUnique(m, h + w);
    ShlPow2(0, h + w);
    Split(y + Shl(x, w), 1, h + w);
  }

  lemma {:induction false} DecodeEnds(t: seq<nat>, bits: nat, m: nat, left: int, n: nat)
    requires |t| == Pow2(bits) && n > 0 && left < bits
    ensures Decode(t, bits, m, left, n) == OutOfBits
  {
  }

  lemma {:induction false} DecodeNext(t: seq<nat>, bits: nat, m: nat, left: int, n: nat, out: seq<nat>, e: nat)
    requires |t| == Pow2(bits) && n > 0 && bits <= left && e == t[NextBits(m, left, bits)]
    ensures After(out, Decode(t, bits, m, left, n)) == After(out + [e / 256], Decode(t, bits, m, left - e % 256, n - 1))
  {
    AfterStep(out, e / 256, Decode(t, bits, m, left - e % 256, n - 1));
  }

  /** The entry the next `huffBits` bits select; nothing is consumed yet. */
  method LookupTop(rbr: ReverseBitReader, table: seq<nat>, huffBits: nat) returns (ok: bool, e: nat)
    requires rbr.Valid() && rbr.cnt <= 18 && 1 <= huffBits <= 11 && |table| == Pow2(huffBits)
    modifies rbr
    ensures rbr.Valid() && rbr.Left() == old(rbr.Left()) && (ok ==> huffBits <= rbr.cnt <= 18)
    ensures ok <==> huffBits <= rbr.Left()
    ensures ok ==> e == table[NextBits(rbr.Stream(), rbr.Left(), huffBits)]
  {
    ok := rbr.Fetch(huffBits);
    e := 0;
    if ok {
      e := table[rbr.Peek(huffBits)];
    }
  }

  ghost function After(out: seq<nat>, d: Decoded): Decoded {
    match d case OutOfBits => OutOfBits case Symbols(s) => Symbols(out + s)
  }

  lemma {:induction false} AfterStep(out: seq<nat>, s: nat, d: Decoded)
    ensures After(out + [s], d) == After(out, match d case OutOfBits => OutOfBits case Symbols(r) => Symbols([s] + r))
  {
    if d.Symbols? {
      assert out + [s] + d.s == out + ([s] + d.s);
    }
  }
}
