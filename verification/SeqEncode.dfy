/** Writing the bit stream of a sequences section as sections 3.1.1.3.2.1 and 3.1.1.5 of RFC 8878 describe it, and
    executing what was written. */
module SeqEncode {
  import opened Options
  import opened Arith
  import opened BitStreams
  import opened Codewords
  import opened SeqCopy
  import opened SeqTables
  import opened Sequences
  import opened SeqOutput

  // ----- repeat offsets -----

  /** The last three offsets, the latest one first. */
  datatype History = History(first: nat, second: nat, third: nat)

  /** A sequence as it is written: literals, match length, offset value. */
  datatype Command = Command(literal: nat, length: nat, value: nat)

  function Listed(h: History): (r: seq<nat>)
    ensures |r| == 3
  {
    [h.first, h.second, h.third]
  }

  /** The offset a value stands for: values above 3 are offsets plus 3, the others name one of the last three, shifted
      by one when no literals come first. The latest offset less one is a 32-bit difference. */
  function Meant(h: History, s: Command): nat {
    if s.value > 3 then s.value - 3
    else if s.literal > 0 then
      if s.value == 3 then h.third else if s.value == 2 then h.second else h.first
    else if s.value == 1 then h.second
    else if s.value == 2 then h.third
    else if h.first == 0 then 0xFFFF_FFFF else h.first - 1
  }

  /** The offset that was used moves to the front. */
  function Later(h: History, s: Command): History {
    if s.value == 1 && s.literal > 0 then h
    else if (s.value == 2 && s.literal > 0) || (s.value == 1 && s.literal == 0) then History(h.second, h.first, h.third)
    else History(Meant(h, s), h.first, h.second)
  }

  lemma {:induction false} ResolveIsMeant(h: History, s: Command)
    requires s.value >= 1
    ensures Resolve(Listed(h), s.value, s.literal) == (Meant(h, s), Listed(Later(h, s)))
  {
    var r := Resolve(Listed(h), s.value, s.literal);
    assert r.1[0] == Later(h, s).first && r.1[1] == Later(h, s).second && r.1[2] == Later(h, s).third;
    assert r.1 == Listed(Later(h, s));
  }

  /** Every offset can be written as a value, whatever the history. */
  lemma {:induction false} EveryOffsetHasValue(h: History, literal: nat, length: nat, offset: nat)
    requires offset >= 1
    ensures Meant(h, Command(literal, length, offset + 3)) == offset
  {
  }

  function Items(h: History, cmds: seq<Command>): seq<Item>
    decreases |cmds|
  {
    if cmds == [] then []
    else [Item(cmds[0].literal, cmds[0].length, Meant(h, cmds[0]))] + Items(Later(h, cmds[0]), cmds[1..])
  }

  function LastHistory(h: History, cmds: seq<Command>): History
    decreases |cmds|
  {
    if cmds == [] then h else LastHistory(Later(h, cmds[0]), cmds[1..])
  }

  /** The commands can be carried out with `window` bytes of history, `at` bytes of output and `lits` literals: the
      literals suffice, no offset is zero or too far, and the block does not grow too large. */
  predicate Performable(window: nat, h: History, cmds: seq<Command>, at: nat, lits: nat)
    decreases |cmds|
  {
    cmds == [] ||
    (&& at + lits <= MAX_BLOCK && cmds[0].literal <= lits
     && 1 <= Meant(h, cmds[0]) <= window + at + cmds[0].literal
     && Performable(window, Later(h, cmds[0]), cmds[1..], at + cmds[0].literal + cmds[0].length,
                    lits - cmds[0].literal))
  }

  // ----- the encoder -----

  /** The code of an entry has the value in its range: an offset code n the values 2^n to 2^(n+1) - 1. */
  ghost predicate Takes(kind: Kind, e: BaselineEntry, value: nat) {
    if kind == Offset then Pow2(e.basebits) <= value < 2 * Pow2(e.basebits)
    else e.baseline <= value < e.baseline + Pow2(e.basebits)
  }

  ghost predicate Fits(c: Coding, s: Command, st: States) {
    && InTables(c, st) && Takes(Literal, c.lit[st.lit], s.literal) && Takes(Match, c.mat[st.mat], s.length)
    && Takes(Offset, c.ofs[st.ofs], s.value)
  }

  /** A state leads to the states from its base on, as many as its bits can tell apart. */
  ghost predicate Leads(e: BaselineEntry, next: nat) {
    e.base <= next < e.base + Pow2(e.bits)
  }

  ghost predicate Follows(c: Coding, st: States, next: States) {
    && InTables(c, st) && InTables(c, next)
    && Leads(c.lit[st.lit], next.lit) && Leads(c.ofs[st.ofs], next.ofs) && Leads(c.mat[st.mat], next.mat)
  }

  /** One state after the other, each fit for its command. */
  ghost predicate Path(c: Coding, cmds: seq<Command>, sts: seq<States>)
    decreases |cmds|
  {
    && |sts| == |cmds|
    && (cmds != [] ==>
          && Fits(c, cmds[0], sts[0]) && (|cmds| > 1 ==> Follows(c, sts[0], sts[1]))
          && Path(c, cmds[1..], sts[1..]))
  }

  /** The extra bits of one sequence: offset, match length, literal length. */
  ghost function Extra(c: Coding, s: Command, st: States): seq<Codeword>
    requires Fits(c, s, st)
  {
    var (eo, em, el) := (c.ofs[st.ofs], c.mat[st.mat], c.lit[st.lit]);
    [Codeword(s.value - Pow2(eo.basebits), eo.basebits),
     Codeword(s.length - em.baseline, em.basebits),
     Codeword(s.literal - el.baseline, el.basebits)]
  }

  /** The bits that lead to the next states: literal length, match length, offset. */
  ghost function Moves(c: Coding, st: States, next: States): seq<Codeword>
    requires Follows(c, st, next)
  {
    var (eo, em, el) := (c.ofs[st.ofs], c.mat[st.mat], c.lit[st.lit]);
    [Codeword(next.lit - el.base, el.bits),
     Codeword(next.mat - em.base, em.bits),
     Codeword(next.ofs - eo.base, eo.bits)]
  }

  /** The sequences in order; the last one is not followed by moves. */
  ghost function Encoded(c: Coding, cmds: seq<Command>, sts: seq<States>): seq<Codeword>
    requires Path(c, cmds, sts)
    decreases |cmds|
  {
    if cmds == [] then []
    else if |cmds| == 1 then Extra(c, cmds[0], sts[0])
    else Extra(c, cmds[0], sts[0]) + (Moves(c, sts[0], sts[1]) + Encoded(c, cmds[1..], sts[1..]))
  }

  /** The whole stream: the first states of literal lengths, offsets and match lengths, then the sequences. */
  ghost function EncodeStream(c: Coding, lb: nat, ob: nat, mb: nat, cmds: seq<Command>, sts: seq<States>): seq<Codeword>
    requires Path(c, cmds, sts) && cmds != []
  {
    [Codeword(sts[0].lit, lb), Codeword(sts[0].ofs, ob), Codeword(sts[0].mat, mb)] + Encoded(c, cmds, sts)
  }

  // ----- reading -----

  lemma {:induction false} ThreeAhead(m: nat, left: nat, a: Codeword, b: Codeword, d: Codeword)
    requires Ahead(m, left, [a, b, d])
    ensures a.len + b.len + d.len <= left && Length([a, b, d]) == a.len + b.len + d.len
    ensures NextBits(m, left, a.len) == a.code && NextBits(m, left - a.len, b.len) == b.code
    ensures NextBits(m, left - a.len - b.len, d.len) == d.code
  {
    hide NextBits;
    assert [a, b, d][1..] == [b, d] && [b, d][1..] == [d] && [d][1..] == [];
    assert Ahead(m, left - a.len, [b, d]) && Ahead(m, left - a.len - b.len, [d]);
    assert Length([b, d]) == b.len + Length([d]) && Length([d]) == d.len + Length([]);
  }

  lemma {:induction false} ExtraIsRead(c: Coding, s: Command, st: States, m: nat, left: nat)
    requires Fits(c, s, st) && Ahead(m, left, Extra(c, s, st))
    ensures Length(Extra(c, s, st)) <= left
    ensures ReadSequence(c, m, Cursor(left, st)) ==
      Some((Sequence(s.literal, s.length, s.value), left - Length(Extra(c, s, st))))
  {
    hide Ahead, NextBits, Length;
    var (eo, em, el) := (c.ofs[st.ofs], c.mat[st.mat], c.lit[st.lit]);
    ThreeAhead(m, left, Codeword(s.value - Pow2(eo.basebits), eo.basebits),
               Codeword(s.length - em.baseline, em.basebits), Codeword(s.literal - el.baseline, el.basebits));
  }

  lemma {:induction false} MovesAreRead(c: Coding, st: States, next: States, m: nat, left: nat)
    requires Follows(c, st, next) && Ahead(m, left, Moves(c, st, next))
    ensures Length(Moves(c, st, next)) <= left
    ensures NextCursor(c, m, st, left) == Some(Cursor(left - Length(Moves(c, st, next)), next))
  {
    hide Ahead, NextBits, Length, CodingClosed;
    var (eo, em, el) := (c.ofs[st.ofs], c.mat[st.mat], c.lit[st.lit]);
    ThreeAhead(m, left, Codeword(next.lit - el.base, el.bits), Codeword(next.mat - em.base, em.bits),
               Codeword(next.ofs - eo.base, eo.bits));
  }

  /** What a run that executes the commands amounts to; `left` bits stay behind. */
  ghost predicate Executed(
    e: Exec, hist: seq<byte>, out: seq<byte>, lits: seq<byte>, h: History, cmds: seq<Command>, left: int) {
    if Performable(|hist|, h, cmds, |out|, |lits|) then
      && e.ExecOk? && e.left == left && e.reps == Listed(LastHistory(h, cmds))
      && out <= e.out && Emitted(hist, e.out, |out|, Items(h, cmds), lits)
    else e == ExecErr
  }

  lemma {:induction false} PartsAhead(m: nat, left: nat, a: seq<Codeword>, b: seq<Codeword>, d: seq<Codeword>)
    requires Ahead(m, left, a + (b + d))
    ensures Length(a) + Length(b) <= left && Length(a + (b + d)) == Length(a) + Length(b) + Length(d)
    ensures Ahead(m, left, a) && Ahead(m, left - Length(a), b) && Ahead(m, left - Length(a) - Length(b), d)
  {
    AheadConcat(m, left, a, b + d);
    AheadConcat(m, left - Length(a), b, d);
    PackedConcat(a, b + d);
    PackedConcat(b, d);
  }

  lemma {:induction false} NothingAhead(m: nat, left: int, cs: seq<Codeword>)
    requires cs == []
    ensures Length(cs) == 0 && (left >= 0 ==> Ahead(m, left, cs))
  {
  }

  lemma {:induction false} ValueIsPositive(c: Coding, s: Command, st: States)
    requires Fits(c, s, st)
    ensures s.value >= 1
  {
  }

  lemma {:induction false} Unfolded(c: Coding, cmds: seq<Command>, sts: seq<States>)
    requires Path(c, cmds, sts) && cmds != []
    ensures |sts| == |cmds| && Fits(c, cmds[0], sts[0]) && InTables(c, sts[0]) && Path(c, cmds[1..], sts[1..])
    ensures |cmds| == 1 ==> Encoded(c, cmds, sts) == Extra(c, cmds[0], sts[0]) && Encoded(c, cmds[1..], sts[1..]) == []
    ensures |cmds| > 1 ==> Follows(c, sts[0], sts[1]) && InTables(c, sts[1])
    ensures |cmds| > 1 ==>
      Encoded(c, cmds, sts) ==
      Extra(c, cmds[0], sts[0]) + (Moves(c, sts[0], sts[1]) + Encoded(c, cmds[1..], sts[1..]))
  {
    hide Extra, Moves;
  }

  lemma {:induction false} FirstIsRead(c: Coding, cmds: seq<Command>, sts: seq<States>, m: nat, left: nat)
    returns (left1: nat, next: Cursor)
    requires Path(c, cmds, sts) && cmds != [] && Ahead(m, left, Encoded(c, cmds, sts))
    ensures |sts| == |cmds| && cmds[0].value >= 1 && Path(c, cmds[1..], sts[1..])
    ensures ReadSequence(c, m, Cursor(left, sts[0])) ==
      Some((Sequence(cmds[0].literal, cmds[0].length, cmds[0].value), left1))
    ensures if |cmds| > 1 then NextCursor(c, m, sts[0], left1) == Some(next) && next.st == sts[1]
            else next == Cursor(left1, sts[0])
    ensures Ahead(m, next.left, Encoded(c, cmds[1..], sts[1..]))
    ensures left - Length(Encoded(c, cmds, sts)) == next.left - Length(Encoded(c, cmds[1..], sts[1..]))
  {
    hide *;
    Unfolded(c, cmds, sts);
    ValueIsPositive(c, cmds[0], sts[0]);
    var extra, rest := Extra(c, cmds[0], sts[0]), Encoded(c, cmds[1..], sts[1..]);
    if |cmds| == 1 {
      ExtraIsRead(c, cmds[0], sts[0], m, left);
      NothingAhead(m, left - Length(extra), rest);
      left1 := left - Length(extra);
      next := Cursor(left1, sts[0]);
    } else {
      var moves := Moves(c, sts[0], sts[1]);
      PartsAhead(m, left, extra, moves, rest);
      ExtraIsRead(c, cmds[0], sts[0], m, left);
      left1 := left - Length(extra);
      MovesAreRead(c, sts[0], sts[1], m, left1);
      next := Cursor(left1 - Length(moves), sts[1]);
    }
  }

  lemma {:induction false} NoCommand(
    c: Coding, cmds: seq<Command>, sts: seq<States>, m: nat, cur: Cursor, lits: seq<byte>, hist: seq<byte>,
    out: seq<byte>, h: History)
    requires CodingClosed(c) && InTables(c, cur.st) && Path(c, cmds, sts) && cmds == []
    ensures Executed(Run(c, m, cur, |cmds|, lits, hist, out, Listed(h)), hist, out, lits, h, cmds,
                     cur.left - Length(Encoded(c, cmds, sts)))
  {
    assert (out + lits)[|out|..] == lits;
  }

  /** Bits that encode commands execute them, and fail exactly when the commands cannot be carried out. */
  lemma {:induction false} CommandsRun(
    c: Coding, cmds: seq<Command>, sts: seq<States>, st: States, m: nat, left: nat, lits: seq<byte>,
    hist: seq<byte>, out: seq<byte>, h: History)
    requires CodingClosed(c) && InTables(c, st) && Path(c, cmds, sts) && (cmds != [] ==> st == sts[0])
    requires Ahead(m, left, Encoded(c, cmds, sts))
    ensures Executed(Run(c, m, Cursor(left, st), |cmds|, lits, hist, out, Listed(h)), hist, out, lits, h, cmds,
                     left - Length(Encoded(c, cmds, sts)))
    decreases |cmds|, 1
  {
    hide *;
    if cmds == [] {
      NoCommand(c, cmds, sts, m, Cursor(left, st), lits, hist, out, h);
    } else if |out| + |lits| > MAX_BLOCK {
      TooLarge(c, m, Cursor(left, st), lits, hist, out, h, cmds, left - Length(Encoded(c, cmds, sts)));
    } else {
      var s := cmds[0];
      var left1, next := FirstIsRead(c, cmds, sts, m, left);
      ResolveIsMeant(h, s);
      RunStep(c, m, Cursor(left, st), |cmds|, lits, hist, out, Listed(h), Sequence(s.literal, s.length, s.value),
              left1, Meant(h, s), Listed(Later(h, s)), next);
      ApplyRuns(c, cmds, sts, next, m, lits, hist, out, h);
    }
  }

  lemma {:induction false} TooLarge(
    c: Coding, m: nat, cur: Cursor, lits: seq<byte>, hist: seq<byte>, out: seq<byte>, h: History,
    cmds: seq<Command>, left: int)
    requires CodingClosed(c) && InTables(c, cur.st) && cmds != [] && |out| + |lits| > MAX_BLOCK
    ensures Executed(Run(c, m, cur, |cmds|, lits, hist, out, Listed(h)), hist, out, lits, h, cmds, left)
  {
  }

  lemma {:induction false} ApplyRuns(
    c: Coding, cmds: seq<Command>, sts: seq<States>, next: Cursor, m: nat, lits: seq<byte>,
    hist: seq<byte>, out: seq<byte>, h: History)
    requires CodingClosed(c) && InTables(c, next.st) && Path(c, cmds, sts) && cmds != []
    requires |out| + |lits| <= MAX_BLOCK && |sts| == |cmds| && (|cmds| > 1 ==> next.st == sts[1])
    requires Path(c, cmds[1..], sts[1..]) && Ahead(m, next.left, Encoded(c, cmds[1..], sts[1..]))
    ensures Executed(
      Apply(c, m, next, |cmds| - 1, lits, hist, out, Listed(Later(h, cmds[0])), cmds[0].literal, Meant(h, cmds[0]),
            cmds[0].length),
      hist, out, lits, h, cmds, next.left - Length(Encoded(c, cmds[1..], sts[1..])))
    decreases |cmds|, 0
  {
    hide CodingClosed, InTables, Path, Run, Encoded, Ahead, Later, Meant, Executed, Length;
    var s, o := cmds[0], Meant(h, cmds[0]);
    var left' := next.left - Length(Encoded(c, cmds[1..], sts[1..]));
    if s.literal > |lits| || o == 0 || o > |hist| + |out| + s.literal {
      CannotApply(hist, out, lits, h, cmds, left');
    } else {
      var r := CopyBytes(hist, out + lits[..s.literal], o, s.length);
      CommandsRun(c, cmds[1..], sts[1..], next.st, m, next.left, lits[s.literal..], hist, r, Later(h, s));
      assert next == Cursor(next.left, next.st);
      ExecutedStep(Run(c, m, next, |cmds| - 1, lits[s.literal..], hist, r, Listed(Later(h, s))),
                   hist, out, lits, h, cmds, left', r);
    }
  }

  lemma {:induction false} CannotApply(
    hist: seq<byte>, out: seq<byte>, lits: seq<byte>, h: History, cmds: seq<Command>, left: int)
    requires cmds != []
    requires cmds[0].literal > |lits| || Meant(h, cmds[0]) == 0 || Meant(h, cmds[0]) > |hist| + |out| + cmds[0].literal
    ensures Executed(ExecErr, hist, out, lits, h, cmds, left)
  {
  }

  /** What the other commands do, after the first one has. */
  lemma {:induction false} ExecutedStep(
    e: Exec, hist: seq<byte>, out: seq<byte>, lits: seq<byte>, h: History, cmds: seq<Command>, left: int, r: seq<byte>)
    requires cmds != [] && |out| + |lits| <= MAX_BLOCK && cmds[0].literal <= |lits|
    requires 1 <= Meant(h, cmds[0]) <= |hist| + |out| + cmds[0].literal
    requires r == CopyBytes(hist, out + lits[..cmds[0].literal], Meant(h, cmds[0]), cmds[0].length)
    requires Executed(e, hist, r, lits[cmds[0].literal..], Later(h, cmds[0]), cmds[1..], left)
    ensures Executed(e, hist, out, lits, h, cmds, left)
  {
    hide Meant, Later, CopyBytes, Emitted, Listed;
    var s := cmds[0];
    if e.ExecOk? {
      OneMore(hist, out, e.out, Item(s.literal, s.length, Meant(h, s)), Items(Later(h, s), cmds[1..]), lits, r);
    }
  }

  // ----- the whole section -----

  lemma {:induction false} PathFits(c: Coding, cmds: seq<Command>, sts: seq<States>)
    requires Path(c, cmds, sts)
    ensures AllFit(Encoded(c, cmds, sts))
    decreases |cmds|
  {
    if cmds != [] {
      PathFits(c, cmds[1..], sts[1..]);
    }
  }

  lemma {:induction false} StreamFits(
    c: Coding, lb: nat, ob: nat, mb: nat, cmds: seq<Command>, sts: seq<States>)
    requires |c.lit| == Pow2(lb) && |c.ofs| == Pow2(ob) && |c.mat| == Pow2(mb)
    requires Path(c, cmds, sts) && cmds != []
    ensures |sts| == |cmds| && AllFit(EncodeStream(c, lb, ob, mb, cmds, sts)) && InTables(c, sts[0])
  {
    PathFits(c, cmds, sts);
  }

  /** The encoder's stream, under its marker bit: the reader ends at its last bit, having carried out the commands,
      and fails exactly when they cannot be carried out. */
  lemma {:induction false} StreamIsExecuted(
    c: Coding, lb: nat, ob: nat, mb: nat, cmds: seq<Command>, sts: seq<States>, m: nat, lits: seq<byte>,
    hist: seq<byte>, out: seq<byte>, h: History)
    requires CodingClosed(c) && |c.lit| == Pow2(lb) && |c.ofs| == Pow2(ob) && |c.mat| == Pow2(mb)
    requires Path(c, cmds, sts) && cmds != [] && m == Marked(EncodeStream(c, lb, ob, mb, cmds, sts))
    ensures m > 0
    ensures Executed(RunAll(c, lb, ob, mb, m, |cmds|, lits, hist, out, Listed(h)), hist, out, lits, h, cmds, 0)
  {
    hide CodingClosed, InTables, Path, RunAll, Run, Encoded, Ahead, Length, Executed, Marked, NextBits, Pow2;
    StreamFits(c, lb, ob, mb, cmds, sts);
    var first := [Codeword(sts[0].lit, lb), Codeword(sts[0].ofs, ob), Codeword(sts[0].mat, mb)];
    var cs, rest := EncodeStream(c, lb, ob, mb, cmds, sts), Encoded(c, cmds, sts);
    var left := Length(cs);
    MarkedIsAhead(cs);
    AheadConcat(m, left, first, rest);
    PackedConcat(first, rest);
    ThreeAhead(m, left, first[0], first[1], first[2]);
    RunAllIs(c, lb, ob, mb, m, left, sts[0], |cmds|, lits, hist, out, Listed(h));
    CommandsRun(c, cmds, sts, sts[0], m, left - lb - ob - mb, lits, hist, out, h);
  }
}
