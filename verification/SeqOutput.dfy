/** What a list of sequences puts out (section 3.1.1.4 of RFC 8878), said about the output alone. */
module SeqOutput {
  import opened Options
  import opened Arith
  import opened SeqCopy
  import opened SeqTables
  import opened Sequences

  /** Some literals, then a match of `length` bytes from `offset` bytes back. */
  datatype Item = Item(literal: nat, length: nat, offset: nat)

  /** The bytes from `from` to `to` each repeat the one `offset` places before, in the window or in the output. */
  ghost predicate Repeats(hist: seq<byte>, x: seq<byte>, from: nat, to: nat, offset: nat) {
    && from <= to <= |x| && 1 <= offset <= |hist| + from
    && (forall j :: from <= j < to ==> x[j] == (hist + x)[|hist| + j - offset])
  }

  /** From position `at` on the output consists of the items, each taking its literals from the front of `lits`,
      and then of the literals left over. */
  ghost predicate Emitted(hist: seq<byte>, x: seq<byte>, at: nat, items: seq<Item>, lits: seq<byte>)
    decreases |items|
  {
    if items == [] then at <= |x| && x[at..] == lits
    else
      var from := at + items[0].literal;
      && items[0].literal <= |lits| && from <= |x| && x[at..from] == lits[..items[0].literal]
      && Repeats(hist, x, from, from + items[0].length, items[0].offset)
      && Emitted(hist, x, from + items[0].length, items[1..], lits[items[0].literal..])
  }

  /** The bytes of all matches. */
  function Matched(items: seq<Item>): nat {
    if items == [] then 0 else items[0].length + Matched(items[1..])
  }

  /** The parts of the output that are literals, in order. */
  function Literals(x: seq<byte>, at: nat, items: seq<Item>): seq<byte>
    decreases |items|
  {
    if at > |x| then []
    else if items == [] || at + items[0].literal > |x| then x[at..]
    else x[at..at + items[0].literal] + Literals(x, at + items[0].literal + items[0].length, items[1..])
  }

  lemma {:induction false} RepeatsInside(hist: seq<byte>, x: seq<byte>, from: nat, n: nat, offset: nat)
    requires Repeats(hist, x, from, from + n, offset)
    ensures from + n <= |x|
  {
  }

  /** Every literal is put out once and in order, and literals and matches are all there is. */
  lemma {:induction false} LiteralsInOrder(
    hist: seq<byte>, x: seq<byte>, at: nat, items: seq<Item>, lits: seq<byte>)
    requires Emitted(hist, x, at, items, lits)
    ensures Literals(x, at, items) == lits && |x| == at + |lits| + Matched(items)
    decreases |items|
  {
    hide Repeats;
    if items != [] {
      var l := items[0].literal;
      assert at + l + items[0].length <= |x| by { RepeatsInside(hist, x, at + l, items[0].length, items[0].offset); }
      LiteralsInOrder(hist, x, at + l + items[0].length, items[1..], lits[l..]);
      assert lits == lits[..l] + lits[l..];
    }
  }

  /** Items and literals leave no choice: equal beginnings grow into equal outputs. */
  lemma {:induction false} OutputIsUnique(
    hist: seq<byte>, x: seq<byte>, y: seq<byte>, at: nat, items: seq<Item>, lits: seq<byte>)
    requires Emitted(hist, x, at, items, lits) && Emitted(hist, y, at, items, lits) && x[..at] == y[..at]
    ensures x == y
    decreases |items|
  {
    if items == [] {
      assert x == x[..at] + x[at..] && y == y[..at] + y[at..];
    } else {
      var from := at + items[0].literal;
      assert x[..from] == x[..at] + x[at..from] && y[..from] == y[..at] + y[at..from];
      SameRepeats(hist, x, y, from, from + items[0].length, items[0].offset);
      OutputIsUnique(hist, x, y, from + items[0].length, items[1..], lits[items[0].literal..]);
    }
  }

  lemma {:induction false} EarlierByte(hist: seq<byte>, x: seq<byte>, from: nat, k: nat)
    requires from <= |x| && k < |hist| + from
    ensures (hist + x)[k] == (hist + x[..from])[k]
  {
  }

  lemma {:induction false} SameRepeats(hist: seq<byte>, x: seq<byte>, y: seq<byte>, from: nat, to: nat, offset: nat)
    requires from <= to && Repeats(hist, x, from, to, offset) && Repeats(hist, y, from, to, offset)
    requires x[..from] == y[..from]
    ensures x[..to] == y[..to]
    decreases |x| - from
  {
    if from < to {
      EarlierByte(hist, x, from, |hist| + from - offset);
      EarlierByte(hist, y, from, |hist| + from - offset);
      assert x[from] == y[from];
      assert x[..from + 1] == x[..from] + [x[from]];
      assert y[..from + 1] == y[..from] + [y[from]];
      SameRepeats(hist, x, y, from + 1, to, offset);
    }
  }

  // ----- the execution puts out items -----

  lemma {:induction false} CopyRepeats(hist: seq<byte>, out: seq<byte>, offset: nat, n: nat)
    requires 1 <= offset <= |hist| + |out|
    ensures Repeats(hist, CopyBytes(hist, out, offset, n), |out|, |out| + n, offset)
    decreases n
  {
    if n > 0 {
      var b, r := Back(hist, out, offset), CopyBytes(hist, out, offset, n);
      CopyRepeats(hist, out + [b], offset, n - 1);
      assert r[|out|] == (out + [b])[|out|] == b;
      assert (hist + r)[..|hist| + |out|] == hist + r[..|out|] == hist + out;
      assert (hist + r)[|hist| + |out| - offset] == (hist + out)[|hist| + |out| - offset];
    }
  }

  /** A longer output repeats what the shorter one does. */
  lemma {:induction false} RepeatsKept(hist: seq<byte>, r: seq<byte>, x: seq<byte>, from: nat, to: nat, offset: nat)
    requires Repeats(hist, r, from, to, offset) && r <= x
    ensures Repeats(hist, x, from, to, offset)
  {
    forall j | from <= j < to ensures x[j] == (hist + x)[|hist| + j - offset] {
      assert x[j] == r[j];
    }
  }

  /** One item in front of the others. */
  lemma {:induction false} OneMore(
    hist: seq<byte>, out: seq<byte>, x: seq<byte>, item: Item, items: seq<Item>, lits: seq<byte>, r: seq<byte>)
    requires item.literal <= |lits| && 1 <= item.offset <= |hist| + |out| + item.literal
    requires r == CopyBytes(hist, out + lits[..item.literal], item.offset, item.length)
    requires r <= x && Emitted(hist, x, |r|, items, lits[item.literal..])
    ensures out <= x && Emitted(hist, x, |out|, [item] + items, lits)
  {
    hide Repeats, CopyBytes;
    var l := item.literal;
    var y := out + lits[..l];
    CopyRepeats(hist, y, item.offset, item.length);
    RepeatsKept(hist, r, x, |y|, |r|, item.offset);
    assert y <= r;
    assert x[..|y|] == y;
    assert x[|out|..|out| + l] == y[|out|..] == lits[..l];
    assert ([item] + items)[1..] == items;
  }

  ghost predicate LongMatches(items: seq<Item>) {
    forall i :: 0 <= i < |items| ==> items[i].length >= 3
  }

  /** Whatever the bits say: a block that is accepted puts out one item for each sequence, and all its literals. */
  lemma {:induction false} RunEmits(
    c: Coding, lb: nat, ob: nat, mb: nat, m: nat, cur: Cursor, n: nat, lits: seq<byte>, hist: seq<byte>,
    out: seq<byte>, reps: seq<nat>) returns (items: seq<Item>)
    requires CodingOk(c, lb, ob, mb) && |reps| == 3 && CodingClosed(c) && InTables(c, cur.st)
    requires Run(c, m, cur, n, lits, hist, out, reps).ExecOk?
    ensures var x := Run(c, m, cur, n, lits, hist, out, reps).out;
      |items| == n && LongMatches(items) && out <= x && Emitted(hist, x, |out|, items, lits)
    decreases n, 1
  {
    if n == 0 {
      items := [];
    } else {
      hide *;
      var s, left, o, reps', next := Peel(c, m, cur, n, lits, hist, out, reps);
      LongMatch(c, lb, ob, mb, m, cur, s, left);
      items := ApplyEmits(c, lb, ob, mb, m, next, n - 1, lits, hist, out, reps', s.literal, o, s.length);
    }
  }

  lemma {:induction false} LongMatch(
    c: Coding, lb: nat, ob: nat, mb: nat, m: nat, cur: Cursor, s: Sequence, left: nat)
    requires CodingOk(c, lb, ob, mb) && InTables(c, cur.st) && ReadSequence(c, m, cur) == Some((s, left))
    ensures s.length >= 3
  {
    assert EntryOk(Match, c.mat[cur.st.mat], |c.mat|);
  }

  lemma {:induction false} ApplyEmits(
    c: Coding, lb: nat, ob: nat, mb: nat, m: nat, cur: Cursor, n: nat, lits: seq<byte>, hist: seq<byte>,
    out: seq<byte>, reps: seq<nat>, literal: nat, offset: nat, length: nat) returns (items: seq<Item>)
    requires CodingOk(c, lb, ob, mb) && |reps| == 3 && CodingClosed(c) && InTables(c, cur.st) && length >= 3
    requires Apply(c, m, cur, n, lits, hist, out, reps, literal, offset, length).ExecOk?
    ensures var x := Apply(c, m, cur, n, lits, hist, out, reps, literal, offset, length).out;
      |items| == n + 1 && LongMatches(items) && out <= x && Emitted(hist, x, |out|, items, lits)
    decreases n, 2
  {
    hide CodingOk, CodingClosed, Run, Emitted;
    var r := CopyBytes(hist, out + lits[..literal], offset, length);
    var rest := RunEmits(c, lb, ob, mb, m, cur, n, lits[literal..], hist, r, reps);
    items := [Item(literal, length, offset)] + rest;
    OneMore(hist, out, Run(c, m, cur, n, lits[literal..], hist, r, reps).out, items[0], rest, lits, r);
  }

  /** `x` is `out` and then `n` sequences with all the literals. */
  ghost predicate Emits(hist: seq<byte>, out: seq<byte>, x: seq<byte>, n: nat, lits: seq<byte>) {
    out <= x && exists items :: |items| == n && LongMatches(items) && Emitted(hist, x, |out|, items, lits)
  }

  /** The same for the whole section. */
  lemma {:induction false} RunAllEmits(
    c: Coding, lb: nat, ob: nat, mb: nat, m: nat, n: nat, lits: seq<byte>, hist: seq<byte>, out: seq<byte>,
    reps: seq<nat>)
    requires CodingOk(c, lb, ob, mb) && |reps| == 3 && CodingClosed(c) && m > 0
    ensures var e := RunAll(c, lb, ob, mb, m, n, lits, hist, out, reps);
      e.ExecOk? ==> Emits(hist, out, e.out, n, lits)
  {
    hide Run, CodingClosed, FirstStates, Emitted, HighBit;
    var left := HighBit(m);
    if lb + ob + mb <= left {
      FirstStatesFit(c, m, left, lb, ob, mb);
      var cur := Cursor(left - lb - ob - mb, FirstStates(m, left, lb, ob, mb));
      if Run(c, m, cur, n, lits, hist, out, reps).ExecOk? {
        var items := RunEmits(c, lb, ob, mb, m, cur, n, lits, hist, out, reps);
      }
    }
  }
}
