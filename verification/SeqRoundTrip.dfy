/** Every list of sequences can be written with the tables a reader holds, and `execSeqs` executes what was written. */
module SeqRoundTrip {
  import opened Options
  import opened Arith
  import opened Codewords
  import opened FseSpread
  import opened FseTable
  import opened FseHeader
  import opened SeqTables
  import opened SeqDefaults
  import opened Sequences
  import opened SeqOutput
  import opened SeqEncode
  import opened SeqReaders

  // ----- paths through the tables -----

  ghost predicate HasLink(t: seq<BaselineEntry>, e: BaselineEntry, next: nat) {
    exists j: nat :: j < |t| && t[j].baseline == e.baseline && t[j].basebits == e.basebits && Leads(t[j], next)
  }

  /** Whatever state comes next, every code of the table has a state that leads to it. */
  ghost predicate Linked(t: seq<BaselineEntry>) {
    forall i: nat, next: nat :: i < |t| && next < |t| ==> HasLink(t, t[i], next)
  }

  ghost predicate HasCode(kind: Kind, t: seq<BaselineEntry>, value: nat) {
    exists i: nat :: i < |t| && Takes(kind, t[i], value)
  }

  /** Every value of the commands has a code. */
  ghost predicate Codable(c: Coding, cmds: seq<Command>) {
    forall k :: 0 <= k < |cmds| ==>
      HasCode(Literal, c.lit, cmds[k].literal) && HasCode(Offset, c.ofs, cmds[k].value) &&
      HasCode(Match, c.mat, cmds[k].length)
  }

  /** A state for the value that leads to `next`. */
  lemma {:induction false} StateBefore(kind: Kind, t: seq<BaselineEntry>, value: nat, next: nat) returns (j: nat)
    requires Linked(t) && HasCode(kind, t, value) && next < |t|
    ensures j < |t| && Takes(kind, t[j], value) && Leads(t[j], next)
  {
    var i: nat :| i < |t| && Takes(kind, t[i], value);
    assert HasLink(t, t[i], next);
    j :| j < |t| && t[j].baseline == t[i].baseline && t[j].basebits == t[i].basebits && Leads(t[j], next);
  }

  lemma {:induction false} StatesBefore(c: Coding, s: Command, next: States) returns (st: States)
    requires Linked(c.lit) && Linked(c.ofs) && Linked(c.mat) && InTables(c, next)
    requires HasCode(Literal, c.lit, s.literal) && HasCode(Offset, c.ofs, s.value) && HasCode(Match, c.mat, s.length)
    ensures Fits(c, s, st) && Follows(c, st, next)
  {
    hide Linked, HasCode, Takes, Leads;
    var lit := StateBefore(Literal, c.lit, s.literal, next.lit);
    var ofs := StateBefore(Offset, c.ofs, s.value, next.ofs);
    var mat := StateBefore(Match, c.mat, s.length, next.mat);
    st := States(lit, ofs, mat);
  }

  /** The encoder works from the last sequence to the first. */
  lemma {:induction false} PathExists(c: Coding, cmds: seq<Command>) returns (sts: seq<States>)
    requires Linked(c.lit) && Linked(c.ofs) && Linked(c.mat) && Codable(c, cmds)
    requires c.lit != [] && c.ofs != [] && c.mat != []
    ensures Path(c, cmds, sts)
    decreases |cmds|
  {
    hide Linked, HasCode, Fits, Follows;
    if cmds == [] {
      sts := [];
    } else {
      var rest := PathExists(c, cmds[1..]);
      PathInTables(c, cmds[1..], rest);
      var st := StatesBefore(c, cmds[0], if |cmds| == 1 then States(0, 0, 0) else rest[0]);
      sts := [st] + rest;
      assert sts[1..] == rest;
    }
  }

  lemma {:induction false} PathInTables(c: Coding, cmds: seq<Command>, sts: seq<States>)
    requires Path(c, cmds, sts)
    ensures |sts| == |cmds| && (cmds != [] ==> InTables(c, sts[0]))
  {
  }

  /** Tables read from a distribution are linked: the states of a symbol tile the table. */
  lemma {:induction false} ConvertedIsLinked(
    kind: Kind, fse: seq<FseEntry>, norm: seq<Count>, bits: nat, t: seq<BaselineEntry>)
    requires IsTable(fse, norm, bits) && Sum(norm, |norm|) == Pow2(bits) && IsConversion(kind, fse, t)
    ensures Linked(t)
  {
    hide Sum, Pow2;
    forall i: nat, next: nat | i < |t| && next < |t| ensures HasLink(t, t[i], next) {
      SymbolOccurs(fse, norm, bits, i);
      var j := Tiling(fse, norm, bits, fse[i].sym, next);
      assert t[j] == Convert(kind, fse[j]) && t[i] == Convert(kind, fse[i]);
      assert Leads(t[j], next);
    }
  }

  lemma {:induction false} SymbolOccurs(fse: seq<FseEntry>, norm: seq<Count>, bits: nat, i: nat)
    requires IsTable(fse, norm, bits) && Sum(norm, |norm|) == Pow2(bits) && i < |fse|
    ensures fse[i].sym < |norm| && norm[fse[i].sym] != 0
  {
    assert CellOk(fse, norm, bits, i);
    CellNumberRange(fse, norm, bits, i);
  }

  lemma {:induction false} SingleIsLinked(kind: Kind, sym: nat)
    requires sym <= MaxSym(kind)
    ensures Linked([Convert(kind, FseEntry(sym, 0, 0))])
  {
    var t := [Convert(kind, FseEntry(sym, 0, 0))];
    forall i: nat, next: nat | i < |t| && next < |t| ensures HasLink(t, t[i], next) {
      assert Leads(t[0], next);
    }
  }

  /** Every table a block describes is linked. */
  lemma {:induction false} DescribedIsLinked(
    data: seq<byte>, off: nat, kind: Kind, mode: nat, before: seq<BaselineEntry>, t: seq<BaselineEntry>, bits: nat)
    requires mode == 1 || mode == 2
    requires Named(data, off, kind, mode, before, t, bits)
    ensures Linked(t)
  {
    hide Linked, Convert, IsTable;
    if mode == 1 {
      SingleIsLinked(kind, data[off]);
    } else {
      var fse, roff :| IsConversion(kind, fse, t) && Decodes(data, off, MaxSym(kind), bits, roff, fse);
      ConvertedIsLinked(kind, fse, Padded(HeaderAt(data, off, MaxSym(kind)).counts, MaxSym(kind)), bits, t);
    }
  }

  /** The code of a value: of the length codes the one whose range has it, of the offset codes its logarithm. */
  lemma {:induction false} CodeOf(kind: Kind, value: nat) returns (sym: nat)
    requires match kind case Literal => value < 131072 case Match => 3 <= value < 131075
             case Offset => 1 <= value < 536870912
    ensures sym <= MaxSym(kind) && sym < Symbols(kind) && Takes(kind, Convert(kind, FseEntry(sym, 0, 0)), value)
  {
    Pow2Middle();
    if kind == Offset {
      sym := HighBit(value);
      if sym > 28 {
        Pow2Mono(29, sym);
      }
    } else {
      sym := LengthHasOneCode(kind, value, MaxSym(kind));
    }
  }

  lemma {:induction false} CodeOccurs(
    kind: Kind, fse: seq<FseEntry>, norm: seq<Count>, bits: nat, t: seq<BaselineEntry>, sym: nat, value: nat)
    requires IsTable(fse, norm, bits) && Sum(norm, |norm|) == Pow2(bits) && IsConversion(kind, fse, t)
    requires sym < |norm| && norm[sym] != 0 && sym <= MaxSym(kind)
    requires Takes(kind, Convert(kind, FseEntry(sym, 0, 0)), value)
    ensures HasCode(kind, t, value)
  {
    hide Sum, Pow2;
    var j := Tiling(fse, norm, bits, sym, 0);
    assert t[j] == Convert(kind, fse[j]);
    assert Takes(kind, t[j], value);
  }

  /** The predefined tables are linked, and take every length of a block and every offset up to 2^29 - 4. */
  method PredefinedTakesAll(kind: Kind)
    ensures Linked(Predefined(kind).0)
    ensures forall value: nat | match kind case Literal => value < 131072 case Match => 3 <= value < 131075
              case Offset => 1 <= value < 536870912 :: HasCode(kind, Predefined(kind).0, value)
  {
    hide Predefined, Linked, HasCode, IsTable, Convert;
    var t;
    ghost var fse;
    t, fse := RebuildPredefined(kind);
    Sizes(kind);
    ConvertedIsLinked(kind, fse, DefaultNorm(kind), Bits(kind), t);
    forall value: nat | match kind case Literal => value < 131072 case Match => 3 <= value < 131075
      case Offset => 1 <= value < 536870912
      ensures HasCode(kind, t, value)
    {
      var sym := CodeOf(kind, value);
      DefaultOccurs(kind, sym);
      CodeOccurs(kind, fse, DefaultNorm(kind), Bits(kind), t, sym, value);
    }
  }

  lemma {:induction false} DefaultOccurs(kind: Kind, sym: nat)
    requires sym < Symbols(kind)
    ensures sym < |DefaultNorm(kind)| && DefaultNorm(kind)[sym] != 0
  {
  }

  // ----- the header of the section -----

  /** The number of sequences in one, two or three bytes, and the byte with the modes of literal lengths, offsets and
      match lengths. */
  function SectionStart(n: nat, literal: nat, offset: nat, length: nat): seq<byte>
    requires n < 0x17f00 && literal < 4 && offset < 4 && length < 4
  {
    var modes := [64 * literal + 16 * offset + 4 * length];
    if n < 128 then [n] + modes
    else if n < 0x7f00 then [128 + n / 256, n % 256] + modes
    else [255, (n - 0x7f00) % 256, (n - 0x7f00) / 256] + modes
  }

  /** Every count and every choice of modes is read back. */
  lemma {:induction false} StartIsRead(
    n: nat, literal: nat, offset: nat, length: nat, head: seq<byte>, rest: seq<byte>, data: seq<byte>)
    returns (at: nat)
    requires n < 0x17f00 && literal < 4 && offset < 4 && length < 4
    requires data == head + SectionStart(n, literal, offset, length) + rest
    ensures SeqCountAt(data, |head|) == Some((n, at)) && at == |data| - |rest| - 1 && data[at] % 4 == 0
    ensures ModeOf(data[at], Literal) == literal && ModeOf(data[at], Offset) == offset
    ensures ModeOf(data[at], Match) == length
  {
    var s := SectionStart(n, literal, offset, length);
    assert forall i :: 0 <= i < |s| ==> data[|head| + i] == s[i];
    at := |head| + |s| - 1;
    assert data[at] == 64 * literal + 16 * offset + 4 * length;
    ModesApart(literal, offset, length);
  }

  lemma {:induction false} ModesApart(literal: nat, offset: nat, length: nat)
    requires literal < 4 && offset < 4 && length < 4
    ensures ModeOf(64 * literal + 16 * offset + 4 * length, Literal) == literal
    ensures ModeOf(64 * literal + 16 * offset + 4 * length, Offset) == offset
    ensures ModeOf(64 * literal + 16 * offset + 4 * length, Match) == length
  {
    var b := 64 * literal + 16 * offset + 4 * length;
    assert b / 64 == literal;
    assert b / 16 == 4 * literal + offset;
    assert b / 4 == 4 * (4 * literal + offset) + length;
  }

  // ----- from the bytes -----

  /** What the encoder writes is executed, whatever bytes stand before it. */
  lemma {:induction false} WrittenIsExecuted(
    c: Coding, lb: nat, ob: nat, mb: nat, cmds: seq<Command>, sts: seq<States>, head: seq<byte>, data: seq<byte>,
    lits: seq<byte>, hist: seq<byte>, out: seq<byte>, h: History)
    requires CodingClosed(c) && |c.lit| == Pow2(lb) && |c.ofs| == Pow2(ob) && |c.mat| == Pow2(mb)
    requires Path(c, cmds, sts) && cmds != []
    requires data == head + MarkedBytes(EncodeStream(c, lb, ob, mb, cmds, sts))
    ensures data != [] && data[|data| - 1] != 0
    ensures Executed(RunAll(c, lb, ob, mb, StreamOf(data, |head|), |cmds|, lits, hist, out, Listed(h)),
                     hist, out, lits, h, cmds, 0)
  {
    hide CodingClosed, Path, RunAll, Executed, EncodeStream, MarkedBytes, Marked, AllFit, LittleEndian, Pow2;
    var cs := EncodeStream(c, lb, ob, mb, cmds, sts);
    StreamFits(c, lb, ob, mb, cmds, sts);
    BytesOfMarked(cs);
    assert data[|head|..] == MarkedBytes(cs);
    StreamIsExecuted(c, lb, ob, mb, cmds, sts, Marked(cs), lits, hist, out, h);
  }

  /** `execSeqs` on what was written: it succeeds exactly when the commands can be carried out, and then the output
      grows by each command's literals and match and by the literals left over. */
  method ExecWritten(
    r: SeqReader, head: seq<byte>, data: seq<byte>, lits: seq<byte>, ghost cmds: seq<Command>, ghost sts: seq<States>,
    n: nat)
    returns (ok: bool)
    requires r.Ready() && r.window.Valid() && |r.window.data| <= MAX_WINDOW
    requires Path(r.tables, cmds, sts) && cmds != [] && n == |cmds|
    requires data == head + MarkedBytes(EncodeStream(r.tables, r.litBits, r.ofsBits, r.matBits, cmds, sts))
    modifies r
    ensures var h := old(History(r.repeatedOffset1, r.repeatedOffset2, r.repeatedOffset3));
      && (ok <==> Performable(|r.window.data|, h, cmds, |old(r.buffer)|, |lits|))
      && (ok ==> old(r.buffer) <= r.buffer && r.Reps() == Listed(LastHistory(h, cmds)))
      && (ok ==> Emitted(r.window.Contents(), r.buffer, |old(r.buffer)|, Items(h, cmds), lits))
  {
    ghost var h := History(r.repeatedOffset1, r.repeatedOffset2, r.repeatedOffset3);
    UsableIsClosed(r.tables, r.litBits, r.ofsBits, r.matBits);
    WrittenIsExecuted(r.tables, r.litBits, r.ofsBits, r.matBits, cmds, sts, head, data, lits, r.window.Contents(),
                      r.buffer, h);
    ok := r.ExecSeqs(data, |head|, lits, n);
  }
}
