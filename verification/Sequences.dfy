/** Sequence execution (`execSeqs`, pkg/lib/zstd/block.go:244-379, sections 3.1.1.4 and 3.1.1.5 of
    RFC 8878). */
module Sequences {
  import opened Options
  import opened Arith
  import opened BitStreams
  import opened SeqCopy
  import opened SeqTables

  // ----- the reference: exact arithmetic, one byte at a time -----

  datatype Coding = Coding(lit: seq<BaselineEntry>, ofs: seq<BaselineEntry>, mat: seq<BaselineEntry>)
  datatype States = States(lit: nat, ofs: nat, mat: nat)
  datatype Cursor = Cursor(left: nat, st: States)
  datatype Sequence = Sequence(literal: nat, length: nat, offsetValue: nat)
  ghost predicate CodingOk(c: Coding, lb: nat, ob: nat, mb: nat) {
    TableOk(Literal, c.lit, lb) && TableOk(Offset, c.ofs, ob) && TableOk(Match, c.mat, mb)
  }

  ghost predicate Closed(t: seq<BaselineEntry>) {
    forall i: nat :: i < |t| ==> t[i].base + Pow2(t[i].bits) <= |t|
  }

  /** Every state that follows a state is a state. */
  ghost predicate CodingClosed(c: Coding) {
    Closed(c.lit) && Closed(c.ofs) && Closed(c.mat)
  }

  ghost predicate InTables(c: Coding, st: States) {
    st.lit < |c.lit| && st.ofs < |c.ofs| && st.mat < |c.mat|
  }

  /** The next sequence and the number of bits left after it. An offset code n stands for the
      offset value 2^n plus n extra bits. */
  function ReadSequence(c: Coding, m: nat, cur: Cursor): Option<(Sequence, nat)>
    requires InTables(c, cur.st)
  {
    SequenceFrom(c.ofs[cur.st.ofs], c.mat[cur.st.mat], c.lit[cur.st.lit], m, cur.left)
  }

  function SequenceFrom(
    eo: BaselineEntry, em: BaselineEntry, el: BaselineEntry, m: nat, left: nat): Option<(Sequence, nat)> {
    if left < eo.basebits + em.basebits + el.basebits then None
    else
      var l1 := left - eo.basebits;
      var l2 := l1 - em.basebits;
      Some((Sequence(
              el.baseline + NextBits(m, l2, el.basebits),
              em.baseline + NextBits(m, l1, em.basebits),
              Pow2(eo.basebits) + NextBits(m, left, eo.basebits)),
            l2 - el.basebits))
  }

  /** The states of the next sequence. */
  function NextCursor(c: Coding, m: nat, st: States, left: nat): (r: Option<Cursor>)
    requires InTables(c, st)
    ensures CodingClosed(c) && r.Some? ==> InTables(c, r.value.st)
  {
    CursorFrom(c.ofs[st.ofs], c.mat[st.mat], c.lit[st.lit], m, left)
  }

  function CursorFrom(eo: BaselineEntry, em: BaselineEntry, el: BaselineEntry, m: nat, left: nat): Option<Cursor> {
    if left < el.bits + em.bits + eo.bits then None
    else
      var l1 := left - el.bits;
      var l2 := l1 - em.bits;
      Some(Cursor(l2 - eo.bits, States(el.base + NextBits(m, left, el.bits),
                                       eo.base + NextBits(m, l2, eo.bits),
                                       em.base + NextBits(m, l1, em.bits))))
  }

  /** The offset a value stands for, and the new history of the last three offsets: a repeat code
      moves the offset it names to the front. */
  function Resolve(reps: seq<nat>, offsetValue: nat, literal: nat): (r: (nat, seq<nat>))
    requires |reps| == 3 && offsetValue >= 1
    ensures |r.1| == 3
  {
    if offsetValue > 3 then (offsetValue - 3, [offsetValue - 3] + reps[..2])
    else
      var i := if literal == 0 then offsetValue else offsetValue - 1;
      if i == 3 then
        var o := if reps[0] == 0 then 0xFFFF_FFFF else reps[0] - 1;
        (o, [o] + reps[..2])
      else
        (reps[i], [reps[i]] + reps[..i] + reps[i + 1..])
  }

  datatype Exec = ExecErr | ExecOk(out: seq<byte>, reps: seq<nat>, left: nat)

  const MAX_BLOCK := 131072
  const MAX_WINDOW := 8388608

  /** Decode and execute `n` sequences, then emit the literals left over. Every match is at least 3
      bytes long. */
  function Run(
    c: Coding, m: nat, cur: Cursor, n: nat, lits: seq<byte>, hist: seq<byte>, out: seq<byte>, reps: seq<nat>)
    : Exec
    requires |reps| == 3 && CodingClosed(c) && InTables(c, cur.st)
    decreases n, 0
  {
    if n == 0 then ExecOk(out + lits, reps, cur.left)
    else if |out| + |lits| > MAX_BLOCK then ExecErr
    else
      match ReadSequence(c, m, cur)
      case None => ExecErr
      case Some((s, left)) =>
        var (o, reps') := Resolve(reps, s.offsetValue, s.literal);
        match (if n > 1 then NextCursor(c, m, cur.st, left) else Some(cur.(left := left)))
        case None => ExecErr
        case Some(cur') => Apply(c, m, cur', n - 1, lits, hist, out, reps', s.literal, o, s.length)
  }

  /** Emit the literals of one sequence, copy its match, and go on with the other `n`. */
  function Apply(
    c: Coding, m: nat, cur: Cursor, n: nat, lits: seq<byte>, hist: seq<byte>, out: seq<byte>, reps: seq<nat>,
    literal: nat, offset: nat, length: nat): Exec
    requires |reps| == 3 && CodingClosed(c) && InTables(c, cur.st)
    decreases n, 1
  {
    if literal > |lits| || offset == 0 || offset > |hist| + |out| + literal then ExecErr
    else
      Run(c, m, cur, n, lits[literal..], hist, CopyBytes(hist, out + lits[..literal], offset, length), reps)
  }

  /** One step of Run, once the sequence, its offset and the next states are known. */
  lemma {:induction false} RunStep(
    c: Coding, m: nat, cur: Cursor, n: nat, lits: seq<byte>, hist: seq<byte>, out: seq<byte>, reps: seq<nat>,
    s: Sequence, left: nat, o: nat, reps': seq<nat>, cur': Cursor)
    requires |reps| == 3 && CodingClosed(c) && InTables(c, cur.st) && n > 0 && |out| + |lits| <= MAX_BLOCK
    requires ReadSequence(c, m, cur) == Some((s, left)) && |reps'| == 3
    requires s.offsetValue >= 1 && (o, reps') == Resolve(reps, s.offsetValue, s.literal)
    requires if n > 1 then NextCursor(c, m, cur.st, left) == Some(cur') else cur' == Cursor(left, cur.st)
    ensures InTables(c, cur'.st)
    ensures Run(c, m, cur, n, lits, hist, out, reps) ==
      Apply(c, m, cur', n - 1, lits, hist, out, reps', s.literal, o, s.length)
  {
  }

  lemma {:induction false} FarOffsetFails(
    c: Coding, m: nat, cur: Cursor, n: nat, lits: seq<byte>, hist: seq<byte>, out: seq<byte>, reps: seq<nat>,
    literal: nat, offset: nat, length: nat)
    requires |reps| == 3 && CodingClosed(c) && InTables(c, cur.st)
    requires |hist| <= MAX_WINDOW && |out| + |lits| <= MAX_BLOCK && offset > MAX_WINDOW + MAX_BLOCK
    ensures Apply(c, m, cur, n, lits, hist, out, reps, literal, offset, length) == ExecErr
  {
  }

  /** The whole section: three initial states, then the sequences. */
  function RunAll(
    c: Coding, lb: nat, ob: nat, mb: nat, m: nat, n: nat, lits: seq<byte>, hist: seq<byte>, out: seq<byte>,
    reps: seq<nat>): Exec
    requires |reps| == 3 && CodingClosed(c) && m > 0
    requires |c.lit| == Pow2(lb) && |c.ofs| == Pow2(ob) && |c.mat| == Pow2(mb)
  {
    var left := HighBit(m);
    if left < lb + ob + mb then ExecErr
    else
      FirstStatesFit(c, m, left, lb, ob, mb);
      Run(c, m, Cursor(left - lb - ob - mb, FirstStates(m, left, lb, ob, mb)), n, lits, hist, out, reps)
  }

  /** The states a stream begins with: literal lengths, offsets, match lengths. */
  function FirstStates(m: nat, left: nat, lb: nat, ob: nat, mb: nat): States
    requires lb + ob + mb <= left
  {
    States(NextBits(m, left, lb), NextBits(m, left - lb, ob), NextBits(m, left - lb - ob, mb))
  }

  lemma {:induction false} FirstStatesFit(c: Coding, m: nat, left: nat, lb: nat, ob: nat, mb: nat)
    requires |c.lit| == Pow2(lb) && |c.ofs| == Pow2(ob) && |c.mat| == Pow2(mb) && lb + ob + mb <= left
    ensures InTables(c, FirstStates(m, left, lb, ob, mb))
  {
  }

  lemma {:induction false} UsableIsClosed(c: Coding, lb: nat, ob: nat, mb: nat)
    requires CodingOk(c, lb, ob, mb)
    ensures CodingClosed(c)
  {
  }

  /** An offset code above 25 names an offset beyond any window, whatever bits follow. */
  lemma {:induction false} WideOffsetFails(
    c: Coding, lb: nat, ob: nat, mb: nat,
    m: nat, cur: Cursor, n: nat, lits: seq<byte>, hist: seq<byte>, out: seq<byte>, reps: seq<nat>)
    requires CodingOk(c, lb, ob, mb) && |reps| == 3 && InTables(c, cur.st) && CodingClosed(c)
    requires n > 0 && c.ofs[cur.st.ofs].basebits > 25 && |hist| <= MAX_WINDOW
    ensures Run(c, m, cur, n, lits, hist, out, reps) == ExecErr
  {
    Pow2Mono(26, c.ofs[cur.st.ofs].basebits);
    Pow2Middle();
  }

  // ----- bytes below the stream -----

  /** The bits of a stream are the same when `d` more bits lie below it. */
  lemma {:induction false} BitsAbove(y: nat, m: nat, d: nat, left: nat, b: nat)
    requires y < Pow2(d) && b <= left
    ensures NextBits(y + Shl(m, d), left + d, b) == NextBits(m, left, b)
  {
    Split(y, m, d);
    ShrShr(y + Shl(m, d), d, left - b);
  }

  lemma {:induction false} SequenceAbove(
    eo: BaselineEntry, em: BaselineEntry, el: BaselineEntry, y: nat, m: nat, d: nat, left: nat)
    requires y < Pow2(d) && SequenceFrom(eo, em, el, m, left).Some?
    ensures var r := SequenceFrom(eo, em, el, m, left).value;
      SequenceFrom(eo, em, el, y + Shl(m, d), left + d) == Some((r.0, r.1 + d))
  {
    BitsAbove(y, m, d, left, eo.basebits);
    BitsAbove(y, m, d, left - eo.basebits, em.basebits);
    BitsAbove(y, m, d, left - eo.basebits - em.basebits, el.basebits);
  }

  lemma {:induction false} CursorAbove(
    eo: BaselineEntry, em: BaselineEntry, el: BaselineEntry, y: nat, m: nat, d: nat, left: nat)
    requires y < Pow2(d) && CursorFrom(eo, em, el, m, left).Some?
    ensures var r := CursorFrom(eo, em, el, m, left).value;
      CursorFrom(eo, em, el, y + Shl(m, d), left + d) == Some(r.(left := r.left + d))
  {
    BitsAbove(y, m, d, left, el.bits);
    BitsAbove(y, m, d, left - el.bits, em.bits);
    BitsAbove(y, m, d, left - el.bits - em.bits, eo.bits);
  }

  /** `e` with `d` more bits left. */
  function MoreLeft(e: Exec, d: nat): Exec {
    if e.ExecOk? then e.(left := e.left + d) else e
  }

  lemma {:induction false} NextAbove(c: Coding, y: nat, m: nat, d: nat, st: States, left: nat)
    requires InTables(c, st) && y < Pow2(d) && NextCursor(c, m, st, left).Some?
    ensures var r := NextCursor(c, m, st, left).value;
      NextCursor(c, y + Shl(m, d), st, left + d) == Some(r.(left := r.left + d))
  {
    CursorAbove(c.ofs[st.ofs], c.mat[st.mat], c.lit[st.lit], y, m, d, left);
  }

  lemma {:induction false} ReadAbove(c: Coding, y: nat, m: nat, d: nat, cur: Cursor)
    requires InTables(c, cur.st) && y < Pow2(d) && ReadSequence(c, m, cur).Some?
    ensures var r := ReadSequence(c, m, cur).value;
      ReadSequence(c, y + Shl(m, d), cur.(left := cur.left + d)) == Some((r.0, r.1 + d))
  {
    SequenceAbove(c.ofs[cur.st.ofs], c.mat[cur.st.mat], c.lit[cur.st.lit], y, m, d, cur.left);
  }

  /** The first step of a run that succeeds. */
  lemma {:induction false} Peel(
    c: Coding, m: nat, cur: Cursor, n: nat, lits: seq<byte>, hist: seq<byte>, out: seq<byte>, reps: seq<nat>)
    returns (s: Sequence, left: nat, o: nat, reps': seq<nat>, next: Cursor)
    requires |reps| == 3 && CodingClosed(c) && InTables(c, cur.st) && n > 0
    requires Run(c, m, cur, n, lits, hist, out, reps).ExecOk?
    ensures |out| + |lits| <= MAX_BLOCK && ReadSequence(c, m, cur) == Some((s, left)) && s.offsetValue >= 1
    ensures (o, reps') == Resolve(reps, s.offsetValue, s.literal) && |reps'| == 3
    ensures if n > 1 then NextCursor(c, m, cur.st, left) == Some(next) else next == Cursor(left, cur.st)
    ensures InTables(c, next.st)
    ensures Run(c, m, cur, n, lits, hist, out, reps) ==
      Apply(c, m, next, n - 1, lits, hist, out, reps', s.literal, o, s.length)
  {
    var r := ReadSequence(c, m, cur).value;
    s, left := r.0, r.1;
    var q := Resolve(reps, s.offsetValue, s.literal);
    o, reps' := q.0, q.1;
    next := if n > 1 then NextCursor(c, m, cur.st, left).value else Cursor(left, cur.st);
  }

  /** What is executed does not depend on what lies below the stream: bits there are left over. */
  lemma {:induction false} RunAbove(
    c: Coding, y: nat, m: nat, d: nat, cur: Cursor, n: nat, lits: seq<byte>,
    hist: seq<byte>, out: seq<byte>, reps: seq<nat>)
    requires |reps| == 3 && CodingClosed(c) && InTables(c, cur.st) && y < Pow2(d)
    requires Run(c, m, cur, n, lits, hist, out, reps).ExecOk?
    ensures Run(c, y + Shl(m, d), cur.(left := cur.left + d), n, lits, hist, out, reps) ==
      MoreLeft(Run(c, m, cur, n, lits, hist, out, reps), d)
    decreases n, 1
  {
    if n > 0 {
      StepAbove(c, y, m, d, cur, n, lits, hist, out, reps);
    }
  }

  lemma {:induction false} StepAbove(
    c: Coding, y: nat, m: nat, d: nat, cur: Cursor, n: nat, lits: seq<byte>,
    hist: seq<byte>, out: seq<byte>, reps: seq<nat>)
    requires |reps| == 3 && CodingClosed(c) && InTables(c, cur.st) && y < Pow2(d) && n > 0
    requires Run(c, m, cur, n, lits, hist, out, reps).ExecOk?
    ensures Run(c, y + Shl(m, d), cur.(left := cur.left + d), n, lits, hist, out, reps) ==
      MoreLeft(Run(c, m, cur, n, lits, hist, out, reps), d)
    decreases n, 0
  {
    hide *;
    var s, left, o, reps', next := Peel(c, m, cur, n, lits, hist, out, reps);
    var m', cur', next' := y + Shl(m, d), cur.(left := cur.left + d), next.(left := next.left + d);
    assert ReadSequence(c, m', cur') == Some((s, left + d)) by { ReadAbove(c, y, m, d, cur); }
    if n > 1 {
      assert NextCursor(c, m', cur'.st, left + d) == Some(next') by { NextAbove(c, y, m, d, cur.st, left); }
    }
    RunStep(c, m', cur', n, lits, hist, out, reps, s, left + d, o, reps', next');
    ApplyAbove(c, y, m, d, next, n - 1, lits, hist, out, reps', s.literal, o, s.length);
  }

  lemma {:induction false} ApplyAbove(
    c: Coding, y: nat, m: nat, d: nat, cur: Cursor, n: nat, lits: seq<byte>,
    hist: seq<byte>, out: seq<byte>, reps: seq<nat>,
    literal: nat, offset: nat, length: nat)
    requires |reps| == 3 && CodingClosed(c) && InTables(c, cur.st) && y < Pow2(d)
    requires Apply(c, m, cur, n, lits, hist, out, reps, literal, offset, length).ExecOk?
    ensures Apply(c, y + Shl(m, d), cur.(left := cur.left + d), n, lits, hist, out, reps, literal, offset, length) ==
      MoreLeft(Apply(c, m, cur, n, lits, hist, out, reps, literal, offset, length), d)
    decreases n, 2
  {
    RunAbove(c, y, m, d, cur, n, lits[literal..], hist, CopyBytes(hist, out + lits[..literal], offset, length), reps);
  }

  lemma {:induction false} FirstAbove(y: nat, m: nat, d: nat, left: nat, lb: nat, ob: nat, mb: nat)
    requires y < Pow2(d) && lb + ob + mb <= left
    ensures FirstStates(y + Shl(m, d), left + d, lb, ob, mb) == FirstStates(m, left, lb, ob, mb)
  {
    BitsAbove(y, m, d, left, lb);
    BitsAbove(y, m, d, left - lb, ob);
    BitsAbove(y, m, d, left - lb - ob, mb);
  }

  lemma {:induction false} TopAbove(y: nat, m: nat, d: nat)
    requires m > 0 && y < Pow2(d)
    ensures y + Shl(m, d) > 0 && HighBit(y + Shl(m, d)) == HighBit(m) + d
  {
    TopShift(m, HighBit(m), d, y);
    HighBitUnique(y + Shl(m, d), HighBit(m) + d);
  }

  lemma {:induction false} RunAllIs(
    c: Coding, lb: nat, ob: nat, mb: nat, m: nat, left: nat, st: States, n: nat, lits: seq<byte>, hist: seq<byte>,
    out: seq<byte>, reps: seq<nat>)
    requires |reps| == 3 && CodingClosed(c) && m > 0 && left == HighBit(m) && lb + ob + mb <= left
    requires |c.lit| == Pow2(lb) && |c.ofs| == Pow2(ob) && |c.mat| == Pow2(mb)
    requires st == FirstStates(m, left, lb, ob, mb)
    ensures InTables(c, st)
    ensures RunAll(c, lb, ob, mb, m, n, lits, hist, out, reps) ==
      Run(c, m, Cursor(left - lb - ob - mb, st), n, lits, hist, out, reps)
  {
    FirstStatesFit(c, m, left, lb, ob, mb);
  }

  lemma {:induction false} RunAllAbove(
    c: Coding, lb: nat, ob: nat, mb: nat, y: nat, m: nat, d: nat, n: nat,
    lits: seq<byte>, hist: seq<byte>, out: seq<byte>,
    reps: seq<nat>)
    requires |reps| == 3 && CodingClosed(c) && m > 0 && y < Pow2(d)
    requires |c.lit| == Pow2(lb) && |c.ofs| == Pow2(ob) && |c.mat| == Pow2(mb)
    requires RunAll(c, lb, ob, mb, m, n, lits, hist, out, reps).ExecOk?
    ensures y + Shl(m, d) > 0
    ensures RunAll(c, lb, ob, mb, y + Shl(m, d), n, lits, hist, out, reps) ==
      MoreLeft(RunAll(c, lb, ob, mb, m, n, lits, hist, out, reps), d)
  {
    hide CodingClosed, Shl, HighBit, FirstStates, Run;
    var left, m' := HighBit(m), y + Shl(m, d);
    var st := FirstStates(m, left, lb, ob, mb);
    TopAbove(y, m, d);
    FirstAbove(y, m, d, left, lb, ob, mb);
    RunAllIs(c, lb, ob, mb, m, left, st, n, lits, hist, out, reps);
    RunAllIs(c, lb, ob, mb, m', left + d, st, n, lits, hist, out, reps);
    RunAbove(c, y, m, d, Cursor(left - lb - ob - mb, st), n, lits, hist, out, reps);
  }

  // ----- the code -----

  /** Three `val` calls in a row; the first failing one ends the attempt. */
  method ReadThree(rbr: ReverseBitReader, b1: nat, b2: nat, b3: nat) returns (ok: bool, v1: nat, v2: nat, v3: nat)
    requires rbr.Valid() && rbr.cnt <= 7 && rbr.Left() >= 0 && b1 <= 31 && b2 <= 25 && b3 <= 25
    modifies rbr
    ensures rbr.Valid()
    ensures ok <==> b1 + b2 + b3 <= old(rbr.Left())
    ensures ok ==> rbr.cnt <= 7 && rbr.Left() == old(rbr.Left()) - b1 - b2 - b3
    ensures ok && b1 <= 25 ==> v1 == NextBits(rbr.Stream(), old(rbr.Left()), b1)
    ensures ok ==> v2 == NextBits(rbr.Stream(), old(rbr.Left()) - b1, b2)
    ensures ok ==> v3 == NextBits(rbr.Stream(), old(rbr.Left()) - b1 - b2, b3)
  {
    hide NextBits, Low, CountAfter, LittleEndian, Slice, Pow2;
    v2, v3 := 0, 0;
    ok, v1 := rbr.Val(b1);
    if ok {
      ok, v2 := rbr.Val(b2);
      if ok {
        ok, v3 := rbr.Val(b3);
      }
    }
  }

  method ReadFirst(rbr: ReverseBitReader, lb: nat, ob: nat, mb: nat) returns (ok: bool, st: States)
    requires rbr.Valid() && rbr.cnt <= 7 && rbr.Left() >= 0 && lb <= 9 && ob <= 9 && mb <= 9
    modifies rbr
    ensures rbr.Valid()
    ensures ok <==> lb + ob + mb <= old(rbr.Left())
    ensures ok ==> rbr.cnt <= 7 && rbr.Left() == old(rbr.Left()) - lb - ob - mb
    ensures ok ==> st == FirstStates(rbr.Stream(), old(rbr.Left()), lb, ob, mb)
  {
    var lit, ofs, mat;
    ok, lit, ofs, mat := ReadThree(rbr, lb, ob, mb);
    st := States(lit, ofs, mat);
  }

  lemma {:induction false} OffsetBaseline(e: BaselineEntry, size: nat)
    requires EntryOk(Offset, e, size)
    ensures e.baseline == if e.basebits > 1 then Pow2(e.basebits) - 3 else Pow2(e.basebits)
  {
  }

  /** The extra bits of one sequence: offset, match length, literal length (block.go:280-296). */
  method ReadValues(rbr: ReverseBitReader, c: Coding, st: States, ghost lb: nat, ghost ob: nat, ghost mb: nat)
    returns (ok: bool, offset: nat, length: nat, literal: nat)
    requires rbr.Valid() && rbr.cnt <= 7 && rbr.Left() >= 0
    requires CodingOk(c, lb, ob, mb) && InTables(c, st)
    modifies rbr
    ensures rbr.Valid()
    ensures ok <==> ReadSequence(c, rbr.Stream(), Cursor(old(rbr.Left()), st)).Some?
    ensures ok ==> rbr.cnt <= 7 && var r := ReadSequence(c, rbr.Stream(), Cursor(old(rbr.Left()), st)).value;
      && rbr.Left() == r.1 && length == r.0.length && literal == r.0.literal
      && offset >= c.ofs[st.ofs].baseline
      && (c.ofs[st.ofs].basebits <= 25 ==>
            offset == if c.ofs[st.ofs].basebits > 1 then r.0.offsetValue - 3 else r.0.offsetValue)
  {
    var (eo, em, el) := (c.ofs[st.ofs], c.mat[st.mat], c.lit[st.lit]);
    assert EntryOk(Offset, eo, |c.ofs|) && EntryOk(Match, em, |c.mat|) && EntryOk(Literal, el, |c.lit|);
    OffsetBaseline(eo, |c.ofs|);
    ok, offset, length, literal := ValuesFrom(rbr, eo, em, el);
  }

  lemma {:induction false} ValuesAre(
    eo: BaselineEntry, em: BaselineEntry, el: BaselineEntry, m: nat, left: nat, length: nat, literal: nat)
    requires eo.basebits + em.basebits + el.basebits <= left
    requires length == NextBits(m, left - eo.basebits, em.basebits)
    requires literal == NextBits(m, left - eo.basebits - em.basebits, el.basebits)
    ensures SequenceFrom(eo, em, el, m, left) ==
      Some((Sequence(el.baseline + literal, em.baseline + length, Pow2(eo.basebits) + NextBits(m, left, eo.basebits)),
            left - eo.basebits - em.basebits - el.basebits))
  {
  }

  method ValuesFrom(rbr: ReverseBitReader, eo: BaselineEntry, em: BaselineEntry, el: BaselineEntry)
    returns (ok: bool, offset: nat, length: nat, literal: nat)
    requires rbr.Valid() && rbr.cnt <= 7 && rbr.Left() >= 0
    requires eo.basebits <= 31 && em.basebits <= 16 && el.basebits <= 16
    requires eo.baseline == if eo.basebits > 1 then Pow2(eo.basebits) - 3 else Pow2(eo.basebits)
    modifies rbr
    ensures rbr.Valid()
    ensures ok <==> SequenceFrom(eo, em, el, rbr.Stream(), old(rbr.Left())).Some?
    ensures ok ==> rbr.cnt <= 7 && var r := SequenceFrom(eo, em, el, rbr.Stream(), old(rbr.Left())).value;
      && rbr.Left() == r.1 && length == r.0.length && literal == r.0.literal && offset >= eo.baseline
      && (eo.basebits <= 25 ==> offset == if eo.basebits > 1 then r.0.offsetValue - 3 else r.0.offsetValue)
  {
    ghost var left, m := rbr.Left(), rbr.Stream();
    ok, offset, length, literal := ReadThree(rbr, eo.basebits, em.basebits, el.basebits);
    if ok {
      ValuesAre(eo, em, el, m, left, length, literal);
    }
    offset, length, literal := eo.baseline + offset, em.baseline + length, el.baseline + literal;
  }

  /** The state updates: literal, match, offset (block.go:331-347). */
  method ReadStates(rbr: ReverseBitReader, c: Coding, st: States, ghost lb: nat, ghost ob: nat, ghost mb: nat)
    returns (ok: bool, st': States)
    requires rbr.Valid() && rbr.cnt <= 7 && rbr.Left() >= 0
    requires CodingOk(c, lb, ob, mb) && InTables(c, st)
    modifies rbr
    ensures rbr.Valid()
    ensures ok <==> NextCursor(c, rbr.Stream(), st, old(rbr.Left())).Some?
    ensures ok ==> rbr.cnt <= 7 && rbr.Left() >= 0
    ensures ok ==> NextCursor(c, rbr.Stream(), st, old(rbr.Left())).value == Cursor(rbr.Left(), st')
  {
    var (eo, em, el) := (c.ofs[st.ofs], c.mat[st.mat], c.lit[st.lit]);
    assert EntryOk(Offset, eo, |c.ofs|) && EntryOk(Match, em, |c.mat|) && EntryOk(Literal, el, |c.lit|);
    ok, st' := StatesFrom(rbr, eo, em, el);
  }

  lemma {:induction false} StatesAre(
    eo: BaselineEntry, em: BaselineEntry, el: BaselineEntry, m: nat, left: nat, lit: nat, mat: nat, ofs: nat)
    requires el.bits + em.bits + eo.bits <= left
    requires lit == NextBits(m, left, el.bits) && mat == NextBits(m, left - el.bits, em.bits)
    requires ofs == NextBits(m, left - el.bits - em.bits, eo.bits)
    ensures CursorFrom(eo, em, el, m, left) ==
      Some(Cursor(left - el.bits - em.bits - eo.bits, States(el.base + lit, eo.base + ofs, em.base + mat)))
  {
  }

  method StatesFrom(rbr: ReverseBitReader, eo: BaselineEntry, em: BaselineEntry, el: BaselineEntry)
    returns (ok: bool, st': States)
    requires rbr.Valid() && rbr.cnt <= 7 && rbr.Left() >= 0 && eo.bits <= 9 && em.bits <= 9 && el.bits <= 9
    modifies rbr
    ensures rbr.Valid()
    ensures ok <==> CursorFrom(eo, em, el, rbr.Stream(), old(rbr.Left())).Some?
    ensures ok ==> rbr.cnt <= 7 && rbr.Left() >= 0
    ensures ok ==> CursorFrom(eo, em, el, rbr.Stream(), old(rbr.Left())).value == Cursor(rbr.Left(), st')
  {
    var lit, ofs, mat;
    ghost var left, m := rbr.Left(), rbr.Stream();
    ok, lit, mat, ofs := ReadThree(rbr, el.bits, em.bits, eo.bits);
    if ok {
      StatesAre(eo, em, el, m, left, lit, mat, ofs);
    }
    st' := States(el.base + lit, eo.base + ofs, em.base + mat);
  }
}
