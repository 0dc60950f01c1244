/** The sequence part of the zstd `Reader` (pkg/lib/zstd/block.go:104-379). */
module SeqReaders {
  import opened Options
  import opened Arith
  import opened BitStreams
  import opened FseSpread
  import opened FseTable
  import opened FseHeader
  import opened Windows
  import opened SeqCopy
  import opened SeqTables
  import opened Sequences
  import opened SeqOutput

  class SeqReader {
    var buffer: seq<byte>
    var repeatedOffset1: nat
    var repeatedOffset2: nat
    var repeatedOffset3: nat
    const window: Window
    var tables: Coding
    var litBits: nat
    var ofsBits: nat
    var matBits: nat

    ghost function Reps(): (r: seq<nat>)
      reads this
      ensures |r| == 3
    {
      [repeatedOffset1, repeatedOffset2, repeatedOffset3]
    }

    constructor (window: Window)
      requires window.Valid()
      ensures this.window == window && Valid()
      ensures buffer == [] && Reps() == [1, 4, 8]
    {
      this.window := window;
      buffer := [];
      repeatedOffset1, repeatedOffset2, repeatedOffset3 := 1, 4, 8;
      tables := Coding([], [], []);
      litBits, ofsBits, matBits := 0, 0, 0;
    }

    /** A table is absent (no block has set it) or usable. */
    ghost predicate Valid()
      reads this
    {
      && (tables.lit == [] || TableOk(Literal, tables.lit, litBits))
      && (tables.ofs == [] || TableOk(Offset, tables.ofs, ofsBits))
      && (tables.mat == [] || TableOk(Match, tables.mat, matBits))
    }

    /** All three tables are set. */
    ghost predicate Ready()
      reads this
    {
      CodingOk(tables, litBits, ofsBits, matBits)
    }

    /** Repeat offsets (block.go:300-326): the history is the one of the reference. */
    method UpdateOffsets(offset0: nat, basebits: nat, literal: nat) returns (offset: nat)
      requires if basebits > 1 then offset0 >= 1 else 1 <= offset0 <= 3
      modifies this`repeatedOffset1, this`repeatedOffset2, this`repeatedOffset3
      ensures (offset, Reps()) == Resolve(old(Reps()), if basebits > 1 then offset0 + 3 else offset0, literal)
    {
      offset := offset0;
      ghost var want := Resolve(Reps(), if basebits > 1 then offset0 + 3 else offset0, literal);
      if basebits > 1 {
        repeatedOffset3 := repeatedOffset2;
        repeatedOffset2 := repeatedOffset1;
        repeatedOffset1 := offset;
      } else {
        if literal == 0 {
          offset := offset + 1;
        }
        if offset == 1 {
          offset := repeatedOffset1;
        } else if offset == 2 {
          offset := repeatedOffset2;
          repeatedOffset2 := repeatedOffset1;
          repeatedOffset1 := offset;
        } else if offset == 3 {
          offset := repeatedOffset3;
          repeatedOffset3 := repeatedOffset2;
          repeatedOffset2 := repeatedOffset1;
          repeatedOffset1 := offset;
        } else {
          offset := if repeatedOffset1 == 0 then 0xFFFF_FFFF else repeatedOffset1 - 1;
          repeatedOffset3 := repeatedOffset2;
          repeatedOffset2 := repeatedOffset1;
          repeatedOffset1 := offset;
        }
      }
      assert Reps() == want.1;
    }

    ghost function Table(kind: Kind): seq<BaselineEntry>
      reads this
    {
      TableIn(tables, kind)
    }

    ghost function TableBits(kind: Kind): nat
      reads this
    {
      match kind case Literal => litBits case Offset => ofsBits case Match => matBits
    }

    /** Only the table of `kind` may differ from before. */
    twostate predicate OnlyTable(kind: Kind)
      reads this
    {
      && buffer == old(buffer) && Reps() == old(Reps())
      && (kind == Literal || (tables.lit == old(tables.lit) && litBits == old(litBits)))
      && (kind == Offset || (tables.ofs == old(tables.ofs) && ofsBits == old(ofsBits)))
      && (kind == Match || (tables.mat == old(tables.mat) && matBits == old(matBits)))
    }

    method StoreTable(kind: Kind, t: seq<BaselineEntry>, bits: nat)
      requires Valid() && TableOk(kind, t, bits)
      modifies this`tables, this`litBits, this`ofsBits, this`matBits
      ensures Valid() && Table(kind) == t && TableBits(kind) == bits && OnlyTable(kind)
    {
      match kind
      case Literal => tables, litBits := tables.(lit := t), bits;
      case Offset => tables, ofsBits := tables.(ofs := t), bits;
      case Match => tables, matBits := tables.(mat := t), bits;
    }

    /** `setSeqTable`: when it succeeds and where the description ends; the table is then usable and the one the
        mode names, whether it was just set or is carried over from an earlier block. */
    method SetSeqTable(data: seq<byte>, off: nat, kind: Kind, mode: nat) returns (ok: bool, roff: nat)
      requires Valid() && off <= |data| && mode < 4
      modifies this
      ensures Valid() && OnlyTable(kind) && roff <= |data|
      ensures ok <==> TableEnd(data, off, kind, mode, old(Table(kind)) != []).Some?
      ensures ok ==> roff == TableEnd(data, off, kind, mode, old(Table(kind)) != []).value
      ensures ok ==> TableOk(kind, Table(kind), TableBits(kind))
      ensures ok ==> Named(data, off, kind, mode, old(Table(kind)), Table(kind), TableBits(kind))
      ensures !ok ==> Table(kind) == old(Table(kind)) && TableBits(kind) == old(TableBits(kind))
    {
      roff := off;
      if mode == 0 {
        PredefinedIsOk(kind);
        StoreTable(kind, Predefined(kind).0, Predefined(kind).1);
        ok := true;
      } else if mode == 1 {
        if off >= |data| {
          return false, off;
        }
        var rle := data[off];
        var entry := [FseEntry(rle, 0, 0)];
        var t;
        ok, t := MakeBaseline(kind, entry);
        assert entry[0].sym == rle;
        if ok {
          RleIsOk(kind, rle);
          assert t == [Convert(kind, FseEntry(rle, 0, 0))];
          StoreTable(kind, t, 0);
          roff := off + 1;
        }
      } else if mode == 2 {
        ok, roff := ReadTable(data, off, kind);
      } else {
        ok := match kind
          case Literal => tables.lit != []
          case Offset => tables.ofs != []
          case Match => tables.mat != [];
      }
    }

    /** `initSeqs`: when it succeeds, the number of sequences, where the header ends, and the three tables. */
    method InitSeqs(data: seq<byte>, off0: nat) returns (ok: bool, seqCount: nat, off: nat)
      requires Valid() && off0 <= |data|
      modifies this
      ensures Valid() && buffer == old(buffer) && Reps() == old(Reps()) && off <= |data|
      ensures ok <==> SectionHeader(data, off0, old(tables)).Some?
      ensures ok ==> SectionHeader(data, off0, old(tables)) == Some((seqCount, off)) && data != []
      ensures ok && data[off0] != 0 ==> Ready()
      ensures ok && data[off0] != 0 ==>
        AllNamed(data, SeqCountAt(data, off0).value.1, old(tables), tables, litBits, ofsBits, matBits)
    {
      var found;
      found, seqCount, off := ReadCount(data, off0);
      if !found {
        return false, 0, off;
      }
      if data[off0] == 0 {
        return true, 0, off;
      }
      if off >= |data| {
        return false, seqCount, off;
      }
      ok, off := SetTables(data, off);
    }

    /** The count of the header. */
    static method ReadCount(data: seq<byte>, off0: nat) returns (found: bool, seqCount: nat, off: nat)
      requires off0 <= |data|
      ensures off <= |data| && (found <==> SeqCountAt(data, off0).Some?)
      ensures found ==> SeqCountAt(data, off0) == Some((seqCount, off))
    {
      off, seqCount, found := off0, 0, false;
      if off >= |data| {
        return;
      }
      var seqHdr := data[off];
      off := off + 1;
      if seqHdr < 128 {
        seqCount := seqHdr;
      } else if seqHdr < 255 {
        if off >= |data| {
          return;
        }
        seqCount := (seqHdr as int - 128) * 256 + data[off] as int;
        off := off + 1;
      } else {
        if off + 1 >= |data| {
          return;
        }
        seqCount := data[off] as int + data[off + 1] as int * 256 + 0x7f00;
        off := off + 2;
      }
      found := true;
    }

    /** The modes byte and the three tables. */
    method SetTables(data: seq<byte>, at: nat) returns (ok: bool, off: nat)
      requires Valid() && at < |data|
      modifies this
      ensures Valid() && buffer == old(buffer) && Reps() == old(Reps()) && off <= |data|
      ensures ok <==> TableStop(data, at, Match, old(tables)).Some?
      ensures ok ==> TableStop(data, at, Match, old(tables)) == Some(off)
      ensures ok ==> Ready() && AllNamed(data, at, old(tables), tables, litBits, ofsBits, matBits)
    {
      off := at;
      if data[at] % 4 != 0 {
        return false, off;
      }
      off := off + 1;
      ghost var before := tables;
      ok, off := SetNext(data, at, Literal, off, before);
      if !ok {
        return;
      }
      ok, off := SetNext(data, at, Offset, off, before);
      if !ok {
        return;
      }
      ok, off := SetNext(data, at, Match, off, before);
    }

    /** One of the three, its mode taken from the modes byte. */
    method SetNext(data: seq<byte>, at: nat, kind: Kind, off: nat, ghost before: Coding) returns (ok: bool, roff: nat)
      requires Valid() && at < |data| && off <= |data|
      requires TableStart(data, at, kind, before) == Some(off) && Table(kind) == TableIn(before, kind)
      modifies this
      ensures Valid() && OnlyTable(kind) && roff <= |data|
      ensures TableStop(data, at, kind, before) == if ok then Some(roff) else None
      ensures ok ==> TableOk(kind, Table(kind), TableBits(kind))
      ensures ok ==> SetAsNamed(data, at, kind, before, Table(kind), TableBits(kind))
    {
      ok, roff := SetSeqTable(data, off, kind, ModeOf(data[at], kind));
    }

    /** What is left of the block from here on, by the reference. */
    ghost function Rest(m: nat, cur: Cursor, n: nat, lits: seq<byte>, hist: seq<byte>): Exec
      requires CodingClosed(tables) && InTables(tables, cur.st)
      reads this
    {
      Run(tables, m, cur, n, lits, hist, buffer, Reps())
    }

    /** What is left of the block when one sequence has been read and the states updated. */
    ghost function RestAfter(
      m: nat, cur: Cursor, n: nat, lits: seq<byte>, hist: seq<byte>, literal: nat, offset: nat, length: nat): Exec
      requires CodingClosed(tables) && InTables(tables, cur.st)
      reads this
    {
      Apply(tables, m, cur, n, lits, hist, buffer, Reps(), literal, offset, length)
    }

    /** The reading part of one pass of the loop of `execSeqs` (block.go:272-348). A code above 25,
        whose extra bits the accumulator may cut short, names an offset beyond the window either way. */
    method DecodeOne(rbr: ReverseBitReader, st: States, n: nat, ghost lits: seq<byte>, ghost hist: seq<byte>)
      returns (ok: bool, st': States, literal: nat, offset: nat, length: nat)
      requires Ready() && CodingClosed(tables) && InTables(tables, st) && n > 0
      requires |hist| <= MAX_WINDOW && |buffer| + |lits| <= MAX_BLOCK
      requires rbr.Valid() && rbr.cnt <= 7 && rbr.Left() >= 0
      modifies rbr, this`repeatedOffset1, this`repeatedOffset2, this`repeatedOffset3
      ensures rbr.Valid()
      ensures !ok ==> old(Rest(rbr.Stream(), Cursor(rbr.Left(), st), n, lits, hist)) == ExecErr
      ensures ok ==> rbr.cnt <= 7 && rbr.Left() >= 0 && InTables(tables, st')
      ensures ok ==>
        old(Rest(rbr.Stream(), Cursor(rbr.Left(), st), n, lits, hist)) ==
        if offset > MAX_WINDOW + MAX_BLOCK then ExecErr
        else RestAfter(rbr.Stream(), Cursor(rbr.Left(), st'), n - 1, lits, hist, literal, offset, length)
    {
      hide Pow2, Apply, NextBits, HighBit, LittleEndian;
      ghost var cur, m, reps := Cursor(rbr.Left(), st), rbr.Stream(), Reps();
      assert EntryOk(Offset, tables.ofs[st.ofs], |tables.ofs|);
      OffsetBaseline(tables.ofs[st.ofs], |tables.ofs|);
      st' := st;
      var basebits := tables.ofs[st.ofs].basebits;
      if basebits > 25 {
        WideOffsetFails(tables, litBits, ofsBits, matBits, m, cur, n, lits, hist, buffer, reps);
        WideOffset(basebits);
      }
      ok, offset, length, literal := ReadValues(rbr, tables, st, litBits, ofsBits, matBits);
      if !ok {
        return;
      }
      ghost var read := ReadSequence(tables, m, cur).value;
      OffsetRange(tables, m, cur, read.0, read.1);
      offset := UpdateOffsets(offset, basebits, literal);
      if n > 1 {
        ok, st' := ReadStates(rbr, tables, st, litBits, ofsBits, matBits);
        if !ok {
          return;
        }
      }
      if basebits <= 25 {
        ghost var cur' := Cursor(rbr.Left(), st');
        RunStep(tables, m, cur, n, lits, hist, buffer, reps, read.0, read.1, offset, Reps(), cur');
        if offset > MAX_WINDOW + MAX_BLOCK {
          FarOffsetFails(tables, m, cur', n - 1, lits, hist, buffer, Reps(), literal, offset, length);
        }
      }
    }

    /** Literals, then the match (block.go:357-369). */
    method ApplyOne(lits: seq<byte>, literal: nat, offset: nat, length: nat) returns (ok: bool, lits': seq<byte>)
      requires window.Valid()
      modifies this`buffer
      ensures ok <==> literal <= |lits| && 1 <= offset <= |window.data| + |old(buffer)| + literal
      ensures ok ==> lits' == lits[literal..]
      ensures ok ==> buffer == CopyBytes(window.Contents(), old(buffer) + lits[..literal], offset, length)
    {
      lits' := lits;
      if literal > |lits| {
        return false, lits';
      }
      buffer := buffer + lits[..literal];
      lits' := lits[literal..];
      var out;
      ok, out := CopyFromWindow(window, buffer, offset, length);
      if ok {
        buffer := out;
      }
    }

    /** One pass of the loop of `execSeqs` (block.go:272-369). */
    method ExecOne(rbr: ReverseBitReader, st: States, n: nat, lits: seq<byte>)
      returns (ok: bool, st': States, lits': seq<byte>)
      requires Ready() && CodingClosed(tables) && InTables(tables, st) && n > 0
      requires window.Valid() && |window.data| <= MAX_WINDOW
      requires rbr.Valid() && rbr.cnt <= 7 && rbr.Left() >= 0
      modifies rbr, this`buffer, this`repeatedOffset1, this`repeatedOffset2, this`repeatedOffset3
      ensures rbr.Valid()
      ensures !ok ==> old(Rest(rbr.Stream(), Cursor(rbr.Left(), st), n, lits, window.Contents())) == ExecErr
      ensures ok ==> rbr.cnt <= 7 && rbr.Left() >= 0 && InTables(tables, st')
      ensures ok ==>
        old(Rest(rbr.Stream(), Cursor(rbr.Left(), st), n, lits, window.Contents())) ==
        Rest(rbr.Stream(), Cursor(rbr.Left(), st'), n - 1, lits', window.Contents())
    {
      st', lits' := st, lits;
      if |buffer| + |lits| > MAX_BLOCK {
        return false, st', lits';
      }
      var literal, offset, length;
      ok, st', literal, offset, length := DecodeOne(rbr, st, n, lits, window.Contents());
      if ok {
        ok, lits' := ApplyOne(lits, literal, offset, length);
      }
    }

    /** The whole section by the reference, for the stream that ends at the last byte of `data`. */
    ghost function Expected(data: seq<byte>, off: nat, n: nat, lits: seq<byte>, hist: seq<byte>): Exec
      requires Ready() && data != [] && data[|data| - 1] != 0 && off <= |data|
      reads this
    {
      UsableIsClosed(tables, litBits, ofsBits, matBits);
      var s := StreamOf(data, off);
      RunAll(tables, litBits, ofsBits, matBits, s, n, lits, hist, buffer, Reps())
    }

    /** `execSeqs`. */
    method ExecSeqs(data: seq<byte>, off: nat, litbuf: seq<byte>, seqCount: nat) returns (ok: bool)
      requires Ready() && window.Valid() && |window.data| <= MAX_WINDOW
      requires data != [] && off <= |data|
      modifies this
      ensures tables == old(tables)
      ensures data[|data| - 1] == 0 ==> !ok
      ensures data[|data| - 1] != 0 ==> Outcome(ok, old(Expected(data, off, seqCount, litbuf, window.Contents())))
      ensures ok ==> Emits(window.Contents(), old(buffer), buffer, seqCount, litbuf)
    {
      if data[|data| - 1] == 0 {
        return false;
      }
      hide RunAll, Emits, CodingOk, CodingClosed, LittleEndian, HighBit, StreamOf;
      UsableIsClosed(tables, litBits, ofsBits, matBits);
      RunAllEmits(tables, litBits, ofsBits, matBits, StreamOf(data, off), seqCount, litbuf, window.Contents(), buffer,
                  Reps());
      var rbr := OpenStream(data, off);
      ok := ExecStream(rbr, seqCount, litbuf);
    }

    /** The block is accepted exactly when the reference accepts it and a whole number of bytes is left, and
        then output and repeat offsets are the reference's. */
    ghost predicate Outcome(ok: bool, e: Exec)
      reads this
    {
      (ok <==> e.ExecOk? && e.left % 8 == 0) && (ok ==> buffer == e.out && Reps() == e.reps)
    }

    method OpenStream(data: seq<byte>, off: nat) returns (rbr: ReverseBitReader)
      requires data != [] && data[|data| - 1] != 0 && off <= |data|
      ensures fresh(rbr) && rbr.Valid() && rbr.cnt <= 7
      ensures rbr.Stream() == StreamOf(data, off) && rbr.Left() == HighBit(rbr.Stream())
    {
      rbr := new ReverseBitReader(data, |data| - 1, off);
      assert data[rbr.low..rbr.end + 1] == data[rbr.low..];
    }

    /** The three first states, then the sequences (block.go:250-378). */
    method ExecStream(rbr: ReverseBitReader, seqCount: nat, litbuf: seq<byte>) returns (ok: bool)
      requires Ready() && CodingClosed(tables) && window.Valid() && |window.data| <= MAX_WINDOW
      requires rbr.Valid() && rbr.cnt <= 7 && rbr.Stream() > 0 && rbr.Left() == HighBit(rbr.Stream())
      modifies rbr, this`buffer, this`repeatedOffset1, this`repeatedOffset2, this`repeatedOffset3
      ensures Outcome(ok, old(RunAll(tables, litBits, ofsBits, matBits, rbr.Stream(), seqCount, litbuf,
                                     window.Contents(),
                                     buffer, Reps())))
    {
      hide CodingClosed, Pow2, HighBit, FirstStates, Run;
      ghost var m, left := rbr.Stream(), rbr.Left();
      var st;
      ok, st := ReadFirst(rbr, litBits, ofsBits, matBits);
      if ok {
        RunAllIs(tables, litBits, ofsBits, matBits, m, left, st, seqCount, litbuf, window.Contents(), buffer, Reps());
        ok := ExecAll(rbr, st, seqCount, litbuf);
      }
    }

    /** The loop of `execSeqs` and the checks after it (block.go:270-378). */
    method ExecAll(rbr: ReverseBitReader, st0: States, seqCount: nat, litbuf: seq<byte>) returns (ok: bool)
      requires Ready() && CodingClosed(tables) && InTables(tables, st0)
      requires window.Valid() && |window.data| <= MAX_WINDOW
      requires rbr.Valid() && rbr.cnt <= 7 && rbr.Left() >= 0
      modifies rbr, this`buffer, this`repeatedOffset1, this`repeatedOffset2, this`repeatedOffset3
      ensures Outcome(ok, old(Rest(rbr.Stream(), Cursor(rbr.Left(), st0), seqCount, litbuf, window.Contents())))
    {
      ghost var m, hist := rbr.Stream(), window.Contents();
      ghost var e := Rest(m, Cursor(rbr.Left(), st0), seqCount, litbuf, hist);
      var st, lits, seqNo := st0, litbuf, 0;
      while seqNo < seqCount
        invariant seqNo <= seqCount && InTables(tables, st)
        invariant rbr.Valid() && rbr.cnt <= 7 && rbr.Left() >= 0
        invariant e == Rest(m, Cursor(rbr.Left(), st), seqCount - seqNo, lits, hist)
      {
        ok, st, lits := ExecOne(rbr, st, seqCount - seqNo, lits);
        if !ok {
          return;
        }
        seqNo := seqNo + 1;
      }
      buffer := buffer + lits;
      WholeBytes(rbr.cnt, rbr.off - rbr.low);
      ok := rbr.cnt == 0;
    }

    /** FSE-compressed mode (block.go:208-232). */
    method ReadTable(data: seq<byte>, off: nat, kind: Kind) returns (ok: bool, roff: nat)
      requires Valid() && off <= |data|
      modifies this
      ensures Valid() && OnlyTable(kind) && roff <= |data|
      ensures ok ==> TableOk(kind, Table(kind), TableBits(kind))
      ensures !ok ==> Table(kind) == old(Table(kind)) && TableBits(kind) == old(TableBits(kind))
      ensures ok <==> FseOutcome(data, off, MaxSym(kind), MaxBits(kind)).FseOk?
      ensures ok ==> roff == FseOutcome(data, off, MaxSym(kind), MaxBits(kind)).roff
      ensures ok ==> FromHeader(kind, data, off, TableBits(kind), Table(kind))
    {
      hide Pow2;
      var scratch := new FseEntry[Pow2(MaxBits(kind))](_ => FseEntry(0, 0, 0));
      var r := ReadFse(data, off, MaxSym(kind), MaxBits(kind), scratch);
      if !r.FseOk? {
        return false, off;
      }
      var fse := scratch[..Pow2(r.tableBits)];
      var t := ConvertRead(kind, fse, data, off, r.tableBits, r.roff);
      StoreTable(kind, t, r.tableBits);
      ok, roff := true, r.roff;
    }

    /** The conversion of a table that was just read never fails. */
    method ConvertRead(
      kind: Kind, fse: seq<FseEntry>, ghost data: seq<byte>, ghost off: nat, ghost bits: nat, ghost roff: nat)
      returns (t: seq<BaselineEntry>)
      requires Decodes(data, off, MaxSym(kind), bits, roff, fse) && bits <= 9
      ensures IsConversion(kind, fse, t) && TableOk(kind, t, bits)
    {
      ghost var norm := Padded(HeaderAt(data, off, MaxSym(kind)).counts, MaxSym(kind));
      forall i: nat | i < |fse| ensures fse[i].sym <= MaxSym(kind) {
        assert CellOk(fse, norm, bits, i);
      }
      var ok;
      ok, t := MakeBaseline(kind, fse);
      ConvertedIsOk(kind, fse, norm, bits, t);
    }
  }

  /** The final check sees only the buffered bits: it accepts any whole number of unread bytes. */
  lemma {:induction false} WholeBytes(cnt: nat, bytes: nat)
    requires cnt <= 7
    ensures cnt == 0 <==> (cnt + 8 * bytes) % 8 == 0
  {
  }

  /** Bytes put in front of a stream are ignored, whatever they are: a block that is accepted is accepted with
      them too, with the same output, and they are counted as left over. */
  lemma {:induction false} StrayBytesAreIgnored(
    c: Coding, lb: nat, ob: nat, mb: nat, head: seq<byte>, stray: seq<byte>, stream: seq<byte>, n: nat,
    lits: seq<byte>, hist: seq<byte>, out: seq<byte>, reps: seq<nat>)
    requires CodingOk(c, lb, ob, mb) && CodingClosed(c) && |reps| == 3
    requires stream != [] && stream[|stream| - 1] != 0
    requires RunAll(c, lb, ob, mb, StreamOf(head + stream, |head|), n, lits, hist, out, reps).ExecOk?
    ensures RunAll(c, lb, ob, mb, StreamOf(head + stray + stream, |head|), n, lits, hist, out, reps) ==
      MoreLeft(RunAll(c, lb, ob, mb, StreamOf(head + stream, |head|), n, lits, hist, out, reps), 8 * |stray|)
  {
    hide LittleEndian, RunAll, CodingClosed, Pow2;
    assert (head + stream)[|head|..] == stream;
    assert (head + stray + stream)[|head|..] == stray + stream;
    LittleEndianConcat(stray, stream);
    LittleEndianBound(stray);
    RunAllAbove(c, lb, ob, mb, LittleEndian(stray), LittleEndian(stream), 8 * |stray|, n, lits, hist, out, reps);
  }

  /** Three one-state tables that take no bits: all literals, then three bytes from the last offset. */
  ghost predicate TakesNoBits(c: Coding, literals: nat) {
    && |c.lit| == |c.ofs| == |c.mat| == 1 && CodingClosed(c)
    && c.lit[0].basebits == c.ofs[0].basebits == c.mat[0].basebits == 0
    && c.lit[0].baseline == literals && c.mat[0].baseline == 3
  }

  lemma {:induction false} ReadsNoBits(c: Coding, m: nat, left: nat, literals: nat)
    requires TakesNoBits(c, literals)
    ensures ReadSequence(c, m, Cursor(left, States(0, 0, 0))) == Some((Sequence(literals, 3, 1), left))
  {
  }

  lemma {:induction false} FrontStays(reps: seq<nat>, literal: nat)
    requires |reps| == 3 && literal > 0
    ensures Resolve(reps, 1, literal) == (reps[0], reps)
  {
    assert [reps[0]] + reps[..0] + reps[1..] == reps;
  }

  lemma {:induction false} RunsWithoutBits(c: Coding, m: nat, n: nat, hist: seq<byte>, lits: seq<byte>, reps: seq<nat>)
    requires n == 1 && 0 < |lits| <= MAX_BLOCK && TakesNoBits(c, |lits|) && m > 0 && |reps| == 3 && reps[0] == 1
    ensures var b := lits[|lits| - 1];
      RunAll(c, 0, 0, 0, m, n, lits, hist, [], reps) == ExecOk(lits + [b, b, b], reps, HighBit(m))
  {
    var left := HighBit(m);
    var cur := Cursor(left, States(0, 0, 0));
    assert FirstStates(m, left, 0, 0, 0) == cur.st;
    ReadsNoBits(c, m, left, |lits|);
    FrontStays(reps, |lits|);
    RunStep(c, m, cur, n, lits, hist, [], reps, Sequence(|lits|, 3, 1), left, 1, reps, cur);
    ThreeOfTheLast(hist, lits);
    LastApply(c, m, cur, n - 1, lits, hist, reps);
  }

  /** A last sequence that takes all literals. */
  lemma {:induction false} LastApply(
    c: Coding, m: nat, cur: Cursor, n: nat, lits: seq<byte>, hist: seq<byte>, reps: seq<nat>)
    requires n == 0 && lits != [] && |reps| == 3 && CodingClosed(c) && InTables(c, cur.st)
    ensures Apply(c, m, cur, n, lits, hist, [], reps, |lits|, 1, 3) ==
      ExecOk(CopyBytes(hist, lits, 1, 3), reps, cur.left)
  {
    assert [] + lits[..|lits|] == lits && lits[|lits|..] == [];
    assert CopyBytes(hist, lits, 1, 3) + [] == CopyBytes(hist, lits, 1, 3);
  }

  lemma {:induction false} ThreeOfTheLast(hist: seq<byte>, out: seq<byte>)
    requires out != []
    ensures var b := out[|out| - 1]; CopyBytes(hist, out, 1, 3) == out + [b, b, b]
  {
    var b := out[|out| - 1];
    var all := CopyBytes(hist, out, 1, 3);
    assert (hist + out)[|hist| + |out| - 1] == b;
    assert (hist + (out + [b]))[|hist| + |out|] == b;
    assert (hist + (out + [b, b]))[|hist| + |out| + 1] == b;
    assert out + [b] + [b] == out + [b, b] && out + [b, b] + [b] == out + [b, b, b];
  }

  /** One sequence, three run-length tables, and a stream whose last byte holds only the marker. */
  predicate OneSequence(data: seq<byte>) {
    |data| == 7 && data[0] == 1 && data[1] == 0x54 && data[2] == 4 && data[3] == data[4] == 0 && data[6] == 1
  }

  lemma {:induction false} OneSequenceHeader(data: seq<byte>, before: Coding)
    requires OneSequence(data)
    ensures SectionHeader(data, 0, before) == Some((1, 5)) && SeqCountAt(data, 0) == Some((1, 1))
    ensures TableStart(data, 1, Literal, before) == Some(2) && TableStart(data, 1, Offset, before) == Some(3)
    ensures TableStart(data, 1, Match, before) == Some(4)
    ensures ModeOf(data[1], Literal) == ModeOf(data[1], Offset) == ModeOf(data[1], Match) == 1
  {
    assert TableStop(data, 1, Literal, before) == Some(3);
    assert TableStop(data, 1, Offset, before) == Some(4);
    assert TableStop(data, 1, Match, before) == Some(5);
  }

  lemma {:induction false} OneSequenceTables(data: seq<byte>, before: Coding, c: Coding, lb: nat, ob: nat, mb: nat)
    requires OneSequence(data) && CodingOk(c, lb, ob, mb)
    requires AllNamed(data, 1, before, c, lb, ob, mb)
    ensures lb == ob == mb == 0 && TakesNoBits(c, 4)
  {
    OneSequenceHeader(data, before);
    assert CodeValue(Offset, 0) == (1, 0);
    UsableIsClosed(c, lb, ob, mb);
  }

  /** A block with a byte left unread is accepted, whatever that byte, data[5], is. */
  method StrayByteIsAccepted(window: Window, data: seq<byte>, lits: seq<byte>) returns (r: SeqReader, ok: bool)
    requires window.Valid() && |window.data| <= MAX_WINDOW && |lits| == 4 && OneSequence(data)
    ensures fresh(r) && ok && r.buffer == lits + [lits[3], lits[3], lits[3]]
  {
    r := new SeqReader(window);
    ghost var before := r.tables;
    OneSequenceHeader(data, before);
    var seqCount, off;
    ok, seqCount, off := r.InitSeqs(data, 0);
    OneSequenceTables(data, before, r.tables, r.litBits, r.ofsBits, r.matBits);
    StrayStream(data);
    RunsWithoutBits(r.tables, StreamOf(data, 5), 1, window.Contents(), lits, r.Reps());
    ok := r.ExecSeqs(data, off, lits, seqCount);
  }

  lemma {:induction false} StrayStream(data: seq<byte>)
    requires OneSequence(data)
    ensures HighBit(StreamOf(data, 5)) == 8
  {
    assert data[5..] == [data[5]] + [1];
    TopByte([data[5]], 1, 8);
    HighBitUnique(1, 0);
  }

  lemma {:induction false} WideOffset(basebits: nat)
    requires basebits > 25
    ensures Pow2(basebits) - 3 > MAX_WINDOW + MAX_BLOCK
  {
    Pow2Mono(26, basebits);
    Pow2Middle();
  }

  /** Offset values are at least 1, and at most 3 exactly for the codes 0 and 1. */
  lemma {:induction false} OffsetRange(c: Coding, m: nat, cur: Cursor, s: Sequence, left: nat)
    requires InTables(c, cur.st) && ReadSequence(c, m, cur) == Some((s, left))
    ensures s.offsetValue >= 1
    ensures if c.ofs[cur.st.ofs].basebits > 1 then s.offsetValue >= 4 else s.offsetValue <= 3
  {
    OffsetFits(c.ofs[cur.st.ofs].basebits);
    Pow2Values();
  }

  /** The bytes the reverse reader of `execSeqs` covers, as a number. */
  ghost function StreamOf(data: seq<byte>, off: nat): (m: nat)
    requires data != [] && data[|data| - 1] != 0 && off <= |data|
    ensures m > 0
  {
    var low := if off < |data| - 1 then off else |data| - 1;
    var s := data[low..];
    assert s == s[..|s| - 1] + [data[|data| - 1]];
    TopByte(s[..|s| - 1], data[|data| - 1], 8);
    LittleEndian(s)
  }

  ghost predicate IsConversion(kind: Kind, fse: seq<FseEntry>, t: seq<BaselineEntry>) {
    && |t| == |fse|
    && (forall i :: 0 <= i < |fse| ==> fse[i].sym <= MaxSym(kind) && t[i] == Convert(kind, fse[i]))
  }

  /** `t` is the converted decoding table of the distribution that stands at `off`. */
  ghost predicate FromHeader(kind: Kind, data: seq<byte>, off: nat, bits: nat, t: seq<BaselineEntry>) {
    exists fse, roff :: IsConversion(kind, fse, t) && Decodes(data, off, MaxSym(kind), bits, roff, fse)
  }

  function TableIn(c: Coding, kind: Kind): seq<BaselineEntry> {
    match kind case Literal => c.lit case Offset => c.ofs case Match => c.mat
  }

  /** Where the description of a table ends, if the mode succeeds; `have`: an earlier block has set the table. */
  function TableEnd(data: seq<byte>, off: nat, kind: Kind, mode: nat, have: bool): Option<nat> {
    if mode == 0 then Some(off)
    else if mode == 1 then if off < |data| && data[off] <= MaxSym(kind) then Some(off + 1) else None
    else if mode == 2 then
      var r := FseOutcome(data, off, MaxSym(kind), MaxBits(kind));
      if r.FseOk? then Some(r.roff) else None
    else if have then Some(off) else None
  }

  /** The table a mode names (section 3.1.1.3.2.1 of RFC 8878). */
  ghost predicate Named(
    data: seq<byte>, off: nat, kind: Kind, mode: nat, before: seq<BaselineEntry>, t: seq<BaselineEntry>, bits: nat) {
    if mode == 0 then (t, bits) == Predefined(kind)
    else if mode == 1 then
      bits == 0 && off < |data| && data[off] <= MaxSym(kind) && t == [Convert(kind, FseEntry(data[off], 0, 0))]
    else if mode == 2 then FromHeader(kind, data, off, bits, t)
    else t == before
  }

  /** The number of sequences at `off`, and the offset of the byte after it (section 3.1.1.3.2.1 of RFC 8878). */
  function SeqCountAt(data: seq<byte>, off: nat): Option<(nat, nat)> {
    if off >= |data| then None
    else if data[off] < 128 then Some((data[off], off + 1))
    else if data[off] < 255 then
      if off + 1 < |data| then Some(((data[off] as int - 128) * 256 + data[off + 1] as int, off + 2)) else None
    else if off + 2 < |data| then Some((data[off + 1] as int + 256 * data[off + 2] as int + 0x7f00, off + 3))
    else None
  }

  /** The mode of a table in the byte after the count. */
  function ModeOf(b: byte, kind: Kind): (m: nat)
    ensures m < 4
  {
    match kind case Literal => b / 64 % 4 case Offset => b / 16 % 4 case Match => b / 4 % 4
  }

  /** Where the description of a kind's table starts, when those before it are well. */
  function TableStart(data: seq<byte>, off: nat, kind: Kind, before: Coding): Option<nat>
    decreases if kind == Literal then 0 else if kind == Offset then 1 else 2, 0
  {
    if off >= |data| || data[off] % 4 != 0 then None
    else
      match kind
      case Literal => Some(off + 1)
      case Offset => TableStop(data, off, Literal, before)
      case Match => TableStop(data, off, Offset, before)
  }

  /** Where it ends. */
  function TableStop(data: seq<byte>, off: nat, kind: Kind, before: Coding): Option<nat>
    decreases if kind == Literal then 0 else if kind == Offset then 1 else 2, 1
  {
    match TableStart(data, off, kind, before)
    case None => None
    case Some(start) =>
      if off < |data| then TableEnd(data, start, kind, ModeOf(data[off], kind), TableIn(before, kind) != []) else None
  }

  /** The table of a kind is the one its mode names, its description starting where the ones before it end. */
  ghost predicate SetAsNamed(data: seq<byte>, at: nat, kind: Kind, before: Coding, t: seq<BaselineEntry>, bits: nat) {
    && at < |data| && TableStart(data, at, kind, before).Some?
    && Named(data, TableStart(data, at, kind, before).value, kind, ModeOf(data[at], kind),
      TableIn(before, kind), t, bits)
  }

  ghost predicate AllNamed(data: seq<byte>, at: nat, before: Coding, c: Coding, lb: nat, ob: nat, mb: nat) {
    && SetAsNamed(data, at, Literal, before, c.lit, lb) && SetAsNamed(data, at, Offset, before, c.ofs, ob)
    && SetAsNamed(data, at, Match, before, c.mat, mb)
  }

  /** The number of sequences and the offset after the header of the section, when all of it is well. */
  function SectionHeader(data: seq<byte>, off: nat, before: Coding): Option<(nat, nat)> {
    match SeqCountAt(data, off)
    case None => None
    case Some((count, at)) =>
      if data[off] == 0 then Some((0, at))
      else if at >= |data| then None
      else
        match TableStop(data, at, Match, before)
        case None => None
        case Some(end) => Some((count, end))
  }
}
