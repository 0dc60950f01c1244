/** The lease loop keeps its times (pkg/lib/dhcp/lease_loop.go): on a script without cancellation every event comes
    when it is due, up to the delays of the script. Said of the log, the replies and the script alone. */
module LeaseTimely {
  import opened LeaseLoop

  /** All the time that passes unasked for. */
  function Delays(ticks: seq<Tick>): nat {
    if ticks == [] then 0 else ticks[0].delay + Delays(ticks[1..])
  }

  predicate NoCancel(ticks: seq<Tick>) {
    forall i :: 0 <= i < |ticks| ==> !ticks[i].cancelled
  }

  /** Renews and Rebinds in a log: each has a reply. */
  function Tries(log: seq<Event>): nat {
    if log == [] then 0
    else
      var last := log[|log| - 1];
      Tries(log[..|log| - 1]) + if last.Renew? || last.Rebind? then 1 else 0
  }

  /** The lease after the first `k` replies: the last one granted, or the initial one. */
  function LeaseAfter(initial: LeaseTimes, replies: seq<Reply>, k: nat): LeaseTimes
    requires k <= |replies|
  {
    if k == 0 then DefaultsFor(initial)
    else if replies[k - 1].Granted? then DefaultsFor(replies[k - 1].times)
    else LeaseAfter(initial, replies, k - 1)
  }

  /** The three deadlines of a lease, counted from three moments in order between `from` and `to`. */
  predicate BoundFrom(e: Event, lease: LeaseTimes, from: int, to: int) {
    e.Bound? && from <= e.t1 - lease.t1 <= e.t2 - lease.t2 <= e.valid - lease.valid <= to
  }

  /** When an event comes after a binding: by T1 and the delays; and when these leave room before T2 it is a Renew. */
  predicate AfterBinding(b: Event, e: Event, d: nat)
    requires b.Bound?
  {
    && (e.Renew? || e.Rebind? || e.Expired?) && e.at <= b.t1 + d
    && (b.t1 + d < b.t2 ==> e.Renew? && b.t1 <= e.at)
  }

  /** When an event comes after an attempt. Granted: a binding with the granted times, made at once. Failed: by the
      pause and the delays; and when these leave room before the deadline it is another attempt of the phase, not
      before the pause is over. */
  predicate AfterAttempt(a: Event, b: Event, reply: Reply, lease: LeaseTimes, e: Event, d: nat)
    requires b.Bound? && (a.Renew? || a.Rebind?)
  {
    match reply
    case Granted(times) => BoundFrom(e, DefaultsFor(times), a.at, a.at + d)
    case Failed =>
      var next := a.at + RetryBackoff(lease.t1, lease.t2);
      && (e.Renew? || e.Rebind? || e.Expired?) && e.at <= next + d
      && (next + d < (if a.Renew? then b.t2 else b.valid) ==> e == Attempt(a.Renew?, e.at))
      && (e == Attempt(a.Renew?, e.at) ==> next <= e.at)
  }

  /** The lease times given at `start`, and the delays of the whole script. */
  datatype Start = Start(initial: LeaseTimes, start: int, d: nat)

  /** Whether `e` comes in time after a log. */
  predicate InTime(s: Start, log: seq<Event>, replies: seq<Reply>, e: Event) {
    if log == [] then BoundFrom(e, DefaultsFor(s.initial), s.start, s.start + s.d)
    else
      var last, k := log[|log| - 1], Tries(log);
      && log[0].Bound? && !last.Released?
      && (!e.Released? ==>
            if last.Bound? then AfterBinding(last, e, s.d)
            else
              && !last.Expired? && 0 < k <= |replies|
              && AfterAttempt(last, InForce(log), replies[k - 1], LeaseAfter(s.initial, replies, k), e, s.d))
  }

  predicate Comes(s: Start, log: seq<Event>, replies: seq<Reply>, i: nat)
    requires i < |log|
  {
    InTime(s, log[..i], replies, log[i])
  }

  predicate AllInTime(s: Start, log: seq<Event>, replies: seq<Reply>) {
    forall i :: 0 <= i < |log| ==> Comes(s, log, replies, i)
  }

  // ----- one event more -----

  lemma {:induction false} LeaseKept(initial: LeaseTimes, replies: seq<Reply>, r: Reply, k: nat)
    requires k <= |replies|
    ensures LeaseAfter(initial, replies + [r], k) == LeaseAfter(initial, replies, k)
    decreases k
  {
    if k > 0 {
      LeaseKept(initial, replies, r, k - 1);
    }
  }

  lemma {:induction false} TriesGrow(log: seq<Event>, i: nat)
    requires i <= |log|
    ensures Tries(log[..i]) <= Tries(log)
    decreases |log|
  {
    if i < |log| {
      TriesGrow(log[..|log| - 1], i);
      assert log[..|log| - 1][..i] == log[..i];
    } else {
      assert log[..i] == log;
    }
  }

  lemma {:induction false} InTimeKept(s: Start, log: seq<Event>, replies: seq<Reply>, r: Reply, e: Event)
    requires InTime(s, log, replies, e) && Tries(log) <= |replies|
    ensures InTime(s, log, replies + [r], e)
  {
    hide AfterAttempt, AfterBinding, BoundFrom;
    var k := Tries(log);
    LeaseKept(s.initial, replies, r, k);
    assert k > 0 ==> (replies + [r])[k - 1] == replies[k - 1];
  }

  /** A reply more changes nothing for the events so far. */
  lemma {:induction false} RepliesKept(s: Start, log: seq<Event>, replies: seq<Reply>, r: Reply)
    requires AllInTime(s, log, replies) && Tries(log) <= |replies|
    ensures AllInTime(s, log, replies + [r])
  {
    hide InTime;
    forall i | 0 <= i < |log| ensures Comes(s, log, replies + [r], i) {
      assert Comes(s, log, replies, i);
      TriesGrow(log, i);
      InTimeKept(s, log[..i], replies, r, log[i]);
    }
  }

  lemma {:induction false} EventKept(s: Start, log: seq<Event>, replies: seq<Reply>, e: Event)
    requires AllInTime(s, log, replies) && InTime(s, log, replies, e)
    ensures AllInTime(s, log + [e], replies)
    ensures Tries(log + [e]) == Tries(log) + if e.Renew? || e.Rebind? then 1 else 0
    ensures log != [] ==> InForce(log + [e]) == if e.Bound? then e else InForce(log)
  {
    hide InTime;
    var more := log + [e];
    assert more[..|log|] == log;
    forall i | 0 <= i < |more| ensures Comes(s, more, replies, i) {
      if i < |log| {
        assert Comes(s, log, replies, i);
        assert more[..i] == log[..i];
      }
    }
  }

  // ----- the state of the loop between events -----

  /** When the clock would stand if nothing more were waited for. */
  function Horizon(w: World): int {
    w.now + Delays(w.ticks)
  }

  /** No event takes more than five ticks. */
  predicate Budget(total: int, w: World, spare: int) {
    total + spare <= 5 * |w.log| + |w.ticks|
  }

  /** So far everything came in time. */
  predicate Running(s: Start, w: World, b: Event, lease: LeaseTimes) {
    && w.log != [] && w.log[0].Bound? && AllInTime(s, w.log, w.replies) && |w.replies| == Tries(w.log)
    && Delays(w.ticks) <= s.d && NoCancel(w.ticks)
    && InForce(w.log) == b && lease == LeaseAfter(s.initial, w.replies, |w.replies|)
  }

  function Last(w: World): Event
    requires w.log != []
  {
    w.log[|w.log| - 1]
  }

  /** The last event is a binding, or an attempt that failed, and the next event can still come in time. */
  predicate Open(s: Start, w: World, lease: LeaseTimes)
    requires w.log != []
  {
    var last := Last(w);
    if last.Bound? then Horizon(w) <= last.t1 + s.d
    else
      && (last.Renew? || last.Rebind?) && w.replies != [] && w.replies[|w.replies| - 1].Failed?
      && Horizon(w) <= last.at + RetryBackoff(lease.t1, lease.t2) + s.d
  }

  /** A Renew, or a Rebind, is not too early. */
  predicate Poised(w: World, renew: bool, lease: LeaseTimes)
    requires w.log != []
  {
    var last, b := Last(w), if w.log[0].Bound? then InForce(w.log) else w.log[0];
    && b.Bound?
    && (last.Bound? ==> w.now >= if renew then b.t1 else b.t2)
    && (last.Renew? ==> if renew then last.at + RetryBackoff(lease.t1, lease.t2) <= w.now else w.now >= b.t2)
    && (last.Rebind? ==> !renew && last.at + RetryBackoff(lease.t1, lease.t2) <= w.now)
  }

  lemma {:induction false} ToldKeeps(s: Start, w: World, b: Event, lease: LeaseTimes)
    requires Running(s, w, b, lease)
    ensures Running(s, Told(w), b, lease) && Horizon(Told(w)) == Horizon(w) && Told(w).now <= Horizon(Told(w))
    ensures |Told(w).ticks| >= |w.ticks| - 1
  {
  }

  lemma {:induction false} SleptKeeps(s: Start, w: World, b: Event, lease: LeaseTimes, d: int)
    requires Running(s, w, b, lease) && d > 0
    ensures var (r, cancelled) := Slept(w, d);
      && Running(s, r, b, lease) && |r.ticks| >= |w.ticks| - 1 && (cancelled ==> r.ticks == [])
      && (!cancelled ==> Horizon(r) == Horizon(w) + d && r.now >= w.now + d)
  {
  }

  lemma {:induction false} StaysPoised(s: Start, w: World, v: World, renew: bool, b: Event, lease: LeaseTimes)
    requires Running(s, w, b, lease) && Running(s, v, b, lease) && Open(s, w, lease) && Poised(w, renew, lease)
    requires v.log == w.log && v.replies == w.replies && v.now >= w.now && Horizon(v) == Horizon(w)
    ensures Open(s, v, lease) && Poised(v, renew, lease)
  {
  }

  /** An attempt that is made in time. */
  lemma {:induction false} AttemptInTime(s: Start, w: World, renew: bool, b: Event, lease: LeaseTimes)
    requires Running(s, w, b, lease) && Open(s, w, lease) && Poised(w, renew, lease)
    ensures InTime(s, w.log, w.replies, Attempt(renew, w.now))
  {
  }

  /** The end of the lease, seen in time. */
  lemma {:induction false} ExpiryInTime(s: Start, w: World, b: Event, lease: LeaseTimes)
    requires Running(s, w, b, lease) && Open(s, w, lease) && w.now >= b.valid
    requires Last(w).Rebind? || w.now >= b.t2
    ensures InTime(s, w.log, w.replies, Expired(w.now))
  {
  }

  /** An attempt has just been answered. */
  predicate Replied(s: Start, w: World, reply: Reply) {
    && w.log != [] && w.log[0].Bound? && AllInTime(s, w.log, w.replies) && |w.replies| == Tries(w.log)
    && Delays(w.ticks) <= s.d && NoCancel(w.ticks)
    && (Last(w).Renew? || Last(w).Rebind?) && Last(w).at <= w.now && Horizon(w) <= Last(w).at + s.d
    && w.replies != [] && w.replies[|w.replies| - 1] == reply
  }

  /** The script has ended. */
  predicate Ended(s: Start, total: int, w: World) {
    && w.log != [] && w.log[0].Bound? && AllInTime(s, w.log, w.replies) && |w.replies| == Tries(w.log)
    && w.ticks == [] && Budget(total, w, 0) && !Last(w).Released?
  }

  /** One attempt and its reply. */
  lemma {:induction false} AskedInTime(s: Start, w: World, renew: bool, b: Event, lease: LeaseTimes, total: int)
    requires Running(s, w, b, lease) && Open(s, w, lease) && Poised(w, renew, lease) && Budget(total, w, 0)
    requires w.now <= Horizon(w)
    ensures var a := Transacted(Recorded(w, Attempt(renew, w.now)));
      && Replied(s, a.w, a.reply) && Last(a.w) == Attempt(renew, w.now) && InForce(a.w.log) == b
      && (a.cancelled ==> a.w.ticks == [] && Budget(total, a.w, 5)) && (!a.cancelled ==> Budget(total, a.w, 4))
  {
    hide InTime, AllInTime, Open, Poised, LeaseAfter, InForce, Tries;
    var e := Attempt(renew, w.now);
    var a := Transacted(Recorded(w, e));
    AttemptInTime(s, w, renew, b, lease);
    InTimeKept(s, w.log, w.replies, a.reply, e);
    RepliesKept(s, w.log, w.replies, a.reply);
    EventKept(s, w.log, w.replies + [a.reply], e);
    assert a.w.log == w.log + [e] && a.w.replies == w.replies + [a.reply];
  }

  lemma {:induction false} EndsHere(s: Start, total: int, w: World, reply: Reply)
    requires Replied(s, w, reply) && w.ticks == [] && Budget(total, w, 5)
    ensures Ended(s, total, w)
  {
  }

  lemma {:induction false} FailedRuns(s: Start, w: World, b: Event, lease: LeaseTimes, before: seq<Reply>)
    requires Replied(s, w, Failed) && InForce(w.log) == b && w.replies == before + [Failed]
    requires lease == LeaseAfter(s.initial, before, |before|)
    ensures Running(s, w, b, lease)
  {
    LeaseKept(s.initial, before, Failed, |before|);
  }

  /** After a failed attempt, once the pause is over or the deadline has come, the loop may go on. */
  lemma {:induction false} FailedGoesOn(s: Start, w: World, v: World, renew: bool, b: Event, lease: LeaseTimes)
    requires Replied(s, w, Failed) && v.log == w.log && v.replies == w.replies && InForce(w.log) == b && b.Bound?
    requires Horizon(v) <= Last(w).at + RetryBackoff(lease.t1, lease.t2) + s.d
    requires Last(w) == Attempt(renew, Last(w).at)
    ensures Open(s, v, lease)
    ensures v.now >= Last(w).at + RetryBackoff(lease.t1, lease.t2) ==> Poised(v, renew, lease)
    ensures renew && v.now >= b.t2 ==> Poised(v, false, lease)
    ensures !renew ==> Last(v).Rebind?
  {
    hide AllInTime, InForce, RetryBackoff;
  }

  /** The phase is over before an attempt. */
  lemma {:induction false} PhaseOver(s: Start, w: World, renew: bool, b: Event, lease: LeaseTimes)
    requires Running(s, w, b, lease) && Open(s, w, lease) && b.Bound? && Poised(w, renew, lease)
    requires w.now >= if renew then b.t2 else b.valid
    ensures if renew then Poised(w, false, lease) else Last(w).Rebind? || w.now >= b.t2
  {
  }

  /** How a phase ends: with the script, with a new lease, or at its deadline. */
  predicate PhaseDone(s: Start, a: Answer, renew: bool, b: Event, lease: LeaseTimes, total: int)
    requires b.Bound?
  {
    if a.cancelled then Ended(s, total, a.w)
    else if a.reply.Granted? then Replied(s, a.w, a.reply) && Budget(total, a.w, 4)
    else
      && Running(s, a.w, b, lease) && Open(s, a.w, lease) && Budget(total, a.w, if renew then 1 else 0)
      && (if renew then Poised(a.w, false, lease) else a.w.now >= b.valid && (Last(a.w).Rebind? || a.w.now >= b.t2))
  }

  /** A phase: every attempt comes in time, and so can the event after the phase. */
  lemma {:induction false} PhaseInTime(s: Start, w: World, renew: bool, b: Event, lease: LeaseTimes, total: int)
    requires Running(s, w, b, lease) && Open(s, w, lease) && Poised(w, renew, lease) && b.Bound?
    requires Budget(total, w, if renew then 2 else 1)
    ensures PhaseDone(s, Phase(w, renew, if renew then b.t2 else b.valid, lease), renew, b, lease, total)
    decreases |w.ticks|, 0
  {
    hide AllInTime, LeaseAfter, InForce, Tries, Running, Replied, Open, Poised, RetryBackoff, Ended, Horizon;
    var deadline := if renew then b.t2 else b.valid;
    var asked := Told(w);
    ToldKeeps(s, w, b, lease);
    Starts(s, asked, b, lease);
    StaysPoised(s, w, asked, renew, b, lease);
    if asked.now < deadline {
      AskedInTime(s, asked, renew, b, lease, total);
      var a := Transacted(Recorded(asked, Attempt(renew, asked.now)));
      if a.cancelled {
        EndsHere(s, total, a.w, a.reply);
      } else if a.reply.Failed? {
        AttemptFailed(s, asked, a.w, renew, b, lease, total);
      }
    } else {
      PhaseOver(s, asked, renew, b, lease);
    }
  }

  lemma {:induction false} Starts(s: Start, w: World, b: Event, lease: LeaseTimes)
    requires Running(s, w, b, lease)
    ensures w.log != [] && w.log[0].Bound? && InForce(w.log) == b
    ensures lease == LeaseAfter(s.initial, w.replies, |w.replies|)
  {
  }

  /** What remains of a phase after a failed attempt. */
  function PhaseRest(w: World, renew: bool, deadline: int, times: LeaseTimes): (a: Answer)
  {
    var failed := Told(w);
    if failed.now >= deadline then Answer(failed, Failed, false)
    else
      var (slept, cancelled) := Slept(failed, RetryBackoff(times.t1, times.t2));
      if cancelled then Answer(slept, Failed, true) else Phase(slept, renew, deadline, times)
  }

  lemma {:induction false} AttemptFailed(
    s: Start, asked: World, w: World, renew: bool, b: Event, lease: LeaseTimes, total: int)
    requires Replied(s, w, Failed) && InForce(w.log) == b && b.Bound? && Budget(total, w, 4)
    requires w.replies == asked.replies + [Failed]
    requires lease == LeaseAfter(s.initial, asked.replies, |asked.replies|)
    requires Last(w) == Attempt(renew, asked.now) && w.now >= asked.now
    ensures PhaseDone(s, PhaseRest(w, renew, if renew then b.t2 else b.valid, lease), renew, b, lease, total)
    decreases |w.ticks|, 1
  {
    hide AllInTime, LeaseAfter, InForce, Tries, Running, Replied, Open, Poised, RetryBackoff, Ended;
    var deadline, pause := if renew then b.t2 else b.valid, RetryBackoff(lease.t1, lease.t2);
    FailedRuns(s, w, b, lease, asked.replies);
    ToldKeeps(s, w, b, lease);
    var failed := Told(w);
    assert Horizon(w) <= Last(w).at + s.d by { RepliedSoon(s, w, Failed); }
    FailedGoesOn(s, w, failed, renew, b, lease);
    if failed.now < deadline {
      SleptKeeps(s, failed, b, lease, pause);
      var (slept, cancelled) := Slept(failed, pause);
      if cancelled {
        SleptEnds(s, slept, b, lease, total);
      } else {
        FailedGoesOn(s, w, slept, renew, b, lease);
        PhaseInTime(s, slept, renew, b, lease, total);
      }
    }
  }

  lemma {:induction false} RepliedSoon(s: Start, w: World, reply: Reply)
    requires Replied(s, w, reply)
    ensures Horizon(w) <= Last(w).at + s.d
  {
  }

  lemma {:induction false} SleptEnds(s: Start, w: World, b: Event, lease: LeaseTimes, total: int)
    requires Running(s, w, b, lease) && w.ticks == [] && Budget(total, w, 0) && !Last(w).Released?
    ensures Ended(s, total, w)
  {
  }

  // ----- the whole run -----

  /** A fresh binding: the loop waits for T1 next. */
  predicate JustBound(s: Start, w: World, b: Event, lease: LeaseTimes) {
    Running(s, w, b, lease) && b.Bound? && Last(w) == b && Horizon(w) <= b.t1 + s.d
  }

  lemma {:induction false} BindInTime(s: Start, w: World, times: LeaseTimes, total: int)
    requires Replied(s, w, Granted(times)) && Budget(total, w, 4)
    ensures var lease := DefaultsFor(times);
      var v := WithDeadlines(w, lease);
      JustBound(s, v, DeadlinesOf(w, lease), lease) && Budget(total, v, 5)
  {
    hide AllInTime, Tries, InForce;
    var lease := DefaultsFor(times);
    BindIsPrompt(w, lease);
    EventKept(s, w.log, w.replies, DeadlinesOf(w, lease));
  }

  lemma {:induction false} FirstBindInTime(s: Start, w: World, total: int)
    requires w.log == [] && w.replies == [] && NoCancel(w.ticks) && s.start == w.now && s.d == Delays(w.ticks)
    requires total == |w.ticks| - 3
    ensures var lease := DefaultsFor(s.initial);
      var v := WithDeadlines(w, lease);
      JustBound(s, v, DeadlinesOf(w, lease), lease) && Budget(total, v, 5)
  {
    var lease := DefaultsFor(s.initial);
    BindIsPrompt(w, lease);
    assert WithDeadlines(w, lease).log == [DeadlinesOf(w, lease)];
    assert Comes(s, [DeadlinesOf(w, lease)], [], 0);
  }

  /** The three clock readings of a binding. */
  lemma {:induction false} BindIsPrompt(w: World, lease: LeaseTimes)
    requires NoCancel(w.ticks)
    ensures var v := WithDeadlines(w, lease);
      && BoundFrom(DeadlinesOf(w, lease), lease, w.now, Horizon(w)) && Horizon(v) == Horizon(w)
      && |v.ticks| >= |w.ticks| - 3 && NoCancel(v.ticks) && Delays(v.ticks) <= Delays(w.ticks)
      && v.log == w.log + [DeadlinesOf(w, lease)] && v.replies == w.replies
  {
    ReadingKeeps(w);
    ReadingKeeps(Told(w));
    ReadingKeeps(Told(Told(w)));
  }

  lemma {:induction false} ReadingKeeps(w: World)
    requires NoCancel(w.ticks)
    ensures var v := Told(w);
      && w.now <= v.now <= Horizon(v) == Horizon(w) && |v.ticks| >= |w.ticks| - 1 && NoCancel(v.ticks)
      && Delays(v.ticks) <= Delays(w.ticks) && v.log == w.log && v.replies == w.replies
  {
  }

  lemma {:induction false} WaitIsPrompt(s: Start, w: World, b: Event, lease: LeaseTimes)
    requires JustBound(s, w, b, lease)
    ensures var (r, cancelled) := Waited(w, b.t1);
      && Running(s, r, b, lease) && Last(r).Bound? && |r.ticks| >= |w.ticks| - 2 && r.log == w.log
      && (cancelled ==> r.ticks == []) && (!cancelled ==> Open(s, r, lease) && Poised(r, true, lease))
  {
    hide AllInTime, Tries, InForce, LeaseAfter;
    ToldKeeps(s, w, b, lease);
    if b.t1 - Told(w).now > 0 {
      SleptKeeps(s, Told(w), b, lease, b.t1 - Told(w).now);
    }
  }

  /** How the loop ends: with the script, or because the lease has expired. */
  predicate Finished(s: Start, w: World, total: int) {
    && w.log != [] && w.log[0].Bound? && AllInTime(s, w.log, w.replies) && |w.replies| == Tries(w.log)
    && Budget(total, w, 0) && !Last(w).Released? && (w.ticks == [] || Last(w).Expired?)
  }

  lemma {:induction false} ExpiresInTime(s: Start, a: Answer, b: Event, lease: LeaseTimes, total: int)
    requires b.Bound? && PhaseDone(s, a, false, b, lease, total) && !a.cancelled && a.reply.Failed?
    ensures Finished(s, Recorded(a.w, Expired(a.w.now)), total)
  {
    hide AllInTime, Tries, InForce, LeaseAfter, InTime, Open;
    ExpiryInTime(s, a.w, b, lease);
    EventKept(s, a.w.log, a.w.replies, Expired(a.w.now));
  }

  lemma {:induction false} EndFinishes(s: Start, w: World, total: int)
    requires Ended(s, total, w)
    ensures Finished(s, w, total)
  {
  }

  lemma {:induction false} WaitCancelled(s: Start, w: World, b: Event, lease: LeaseTimes, total: int)
    requires Running(s, w, b, lease) && w.ticks == [] && Budget(total, w, 0) && Last(w).Bound?
    ensures Finished(s, w, total)
  {
  }

  lemma {:induction false} RoundsInTime(s: Start, w: World, b: Event, lease: LeaseTimes, total: int)
    requires b.Bound? && JustBound(s, w, b, lease) && Budget(total, w, 5)
    ensures Finished(s, Rounds(w, b, lease).0, total)
    decreases |w.ticks|, 1
  {
    hide JustBound, Finished, PhaseDone, Phase, Waited, Running, Open, Poised, Replied, Ended, DefaultsFor;
    WaitIsPrompt(s, w, b, lease);
    var (woken, cancelled) := Waited(w, b.t1);
    if cancelled {
      WaitCancelled(s, woken, b, lease, total);
    } else {
      PhaseInTime(s, woken, true, b, lease, total);
      var renewed := Phase(woken, true, b.t2, lease);
      if !renewed.cancelled && renewed.reply.Failed? {
        RenewIsOver(s, renewed, b, lease, total);
        PhaseInTime(s, renewed.w, false, b, lease, total);
        var a := Phase(renewed.w, false, b.valid, lease);
        if !a.cancelled && a.reply.Failed? {
          ExpiresInTime(s, a, b, lease, total);
        } else {
          NextRound(s, w, a, false, b, lease, total);
        }
      } else {
        NextRound(s, w, renewed, true, b, lease, total);
      }
    }
  }

  lemma {:induction false} RenewIsOver(s: Start, a: Answer, b: Event, lease: LeaseTimes, total: int)
    requires b.Bound? && PhaseDone(s, a, true, b, lease, total) && !a.cancelled && a.reply.Failed?
    ensures Running(s, a.w, b, lease) && Open(s, a.w, lease) && Poised(a.w, false, lease) && Budget(total, a.w, 1)
  {
  }

  /** The rest of the run after a phase that was cancelled or got a new lease. */
  function RoundsRest(a: Answer): World {
    if a.cancelled || a.reply.Failed? then a.w
    else
      var next := DefaultsFor(a.reply.times);
      Rounds(WithDeadlines(a.w, next), DeadlinesOf(a.w, next), next).0
  }

  lemma {:induction false} NextRound(
    s: Start, w: World, a: Answer, renew: bool, b: Event, lease: LeaseTimes, total: int)
    requires b.Bound? && PhaseDone(s, a, renew, b, lease, total) && (a.cancelled || a.reply.Granted?)
    requires !a.cancelled ==> |a.w.ticks| < |w.ticks|
    ensures Finished(s, RoundsRest(a), total)
    decreases |w.ticks|, 0
  {
    hide JustBound, Finished, Running, Open, Poised, Replied, Ended, DefaultsFor, Rounds, WithDeadlines;
    if a.cancelled {
      EndFinishes(s, a.w, total);
    } else {
      BindInTime(s, a.w, a.reply.times, total);
      var next := DefaultsFor(a.reply.times);
      RoundsInTime(s, WithDeadlines(a.w, next), DeadlinesOf(a.w, next), next, total);
    }
  }

  /** On every script without cancellation the whole run keeps its times. It ends because the lease has expired or
      because the script is over, and each event takes at most five ticks of the script. */
  lemma {:induction false} RunInTime(now: int, ticks: seq<Tick>, initial: LeaseTimes)
    requires NoCancel(ticks)
    ensures var w := RunOf(FreshWorld(now, ticks), initial);
      && AllInTime(Start(initial, now, Delays(ticks)), w.log, w.replies)
      && |w.log| >= 2 && Last(w).Released? && |w.replies| == Tries(w.log)
      && (w.ticks == [] || w.log[|w.log| - 2].Expired?) && |ticks| <= 5 * |w.log| + |w.ticks|
  {
    hide AllInTime, Rounds, WithDeadlines, DeadlinesOf, JustBound;
    var s, v, lease := Start(initial, now, Delays(ticks)), FreshWorld(now, ticks), DefaultsFor(initial);
    FirstBindInTime(s, v, |ticks| - 3);
    RoundsInTime(s, WithDeadlines(v, lease), DeadlinesOf(v, lease), lease, |ticks| - 3);
    var r := Rounds(WithDeadlines(v, lease), DeadlinesOf(v, lease), lease).0;
    EventKept(s, r.log, r.replies, Released);
  }

  // ----- what that means -----

  lemma {:induction false} ComesNext(s: Start, log: seq<Event>, replies: seq<Reply>, i: nat)
    requires AllInTime(s, log, replies) && 0 < i < |log|
    ensures log[0].Bound? && InTime(s, log[..i], replies, log[i]) && log[..i][|log[..i]| - 1] == log[i - 1]
    ensures !log[i - 1].Released?
  {
    assert Comes(s, log, replies, i);
  }

  /** While the script goes on, so does the log. */
  lemma {:induction false} LogGoesOn(now: int, ticks: seq<Tick>, initial: LeaseTimes, i: nat)
    requires NoCancel(ticks) && |ticks| > 5 * (i + 2)
    requires i < |RunOf(FreshWorld(now, ticks), initial).log|
    requires var e := RunOf(FreshWorld(now, ticks), initial).log[i]; !e.Released? && !e.Expired?
    ensures var w := RunOf(FreshWorld(now, ticks), initial);
      && i + 1 < |w.log| && !w.log[i + 1].Released?
      && InTime(Start(initial, now, Delays(ticks)), w.log[..i + 1], w.replies, w.log[i + 1])
      && w.log[..i + 1][i] == w.log[i]
  {
    hide RunOf, AllInTime, InTime, Delays;
    RunInTime(now, ticks, initial);
    var w, s := RunOf(FreshWorld(now, ticks), initial), Start(initial, now, Delays(ticks));
    ComesNext(s, w.log, w.replies, i + 1);
    if w.log[i + 1].Released? && i + 2 < |w.log| {
      ComesNext(s, w.log, w.replies, i + 2);
    }
  }

  /** Every binding that leaves room is renewed between T1 and T1 plus the delays. */
  lemma {:induction false} BindingIsRenewed(now: int, ticks: seq<Tick>, initial: LeaseTimes, i: nat)
    requires NoCancel(ticks) && |ticks| > 5 * (i + 2)
    requires i < |RunOf(FreshWorld(now, ticks), initial).log|
    requires var b := RunOf(FreshWorld(now, ticks), initial).log[i]; b.Bound? && b.t1 + Delays(ticks) < b.t2
    ensures var log := RunOf(FreshWorld(now, ticks), initial).log;
      i + 1 < |log| && log[i + 1].Renew? && log[i].t1 <= log[i + 1].at <= log[i].t1 + Delays(ticks)
  {
    hide RunOf, Delays;
    LogGoesOn(now, ticks, initial, i);
  }

  /** The lease leaves room for a Renew. */
  predicate Roomy(times: LeaseTimes, d: nat) {
    DefaultsFor(times).t1 + d < DefaultsFor(times).t2
  }

  /** All the first `k` replies grant a lease that leaves room. */
  predicate AllGranted(replies: seq<Reply>, k: nat, d: nat) {
    forall j :: 0 <= j < k && j < |replies| ==> replies[j].Granted? && Roomy(replies[j].times, d)
  }

  lemma {:induction false} BindingLeavesRoom(s: Start, log: seq<Event>, replies: seq<Reply>, i: nat)
    requires AllInTime(s, log, replies) && i < |log| && log[i].Bound?
    requires Roomy(s.initial, s.d) && AllGranted(replies, Tries(log[..i]), s.d)
    ensures log[i].t1 + s.d < log[i].t2
  {
    hide DefaultsFor, Tries, InForce, LeaseAfter;
    if i == 0 {
      assert Comes(s, log, replies, 0);
    } else {
      ComesNext(s, log, replies, i);
    }
  }

  lemma {:induction false} GrantedGoesOn(s: Start, log: seq<Event>, replies: seq<Reply>, i: nat)
    requires AllInTime(s, log, replies) && i < |log|
    requires Roomy(s.initial, s.d) && AllGranted(replies, Tries(log[..i]), s.d)
    ensures !log[i].Rebind? && !log[i].Expired?
  {
    hide DefaultsFor, Tries, InForce, LeaseAfter, Roomy, AllInTime;
    if i == 0 {
      FirstIsBound(s, log, replies);
    } else {
      ComesNext(s, log, replies, i);
      if log[i - 1].Bound? {
        TriesGrow(log[..i], i - 1);
        assert log[..i][..i - 1] == log[..i - 1];
        BindingLeavesRoom(s, log, replies, i - 1);
      }
    }
  }

  lemma {:induction false} FirstIsBound(s: Start, log: seq<Event>, replies: seq<Reply>)
    requires AllInTime(s, log, replies) && log != []
    ensures log[0].Bound?
  {
    assert Comes(s, log, replies, 0);
  }

  /** While the server grants what is asked for, nothing is rebound and nothing expires. */
  lemma {:induction false} GrantedNeverExpires(now: int, ticks: seq<Tick>, initial: LeaseTimes, i: nat)
    requires NoCancel(ticks) && Roomy(initial, Delays(ticks)) && i < |RunOf(FreshWorld(now, ticks), initial).log|
    requires var w := RunOf(FreshWorld(now, ticks), initial); AllGranted(w.replies, Tries(w.log[..i]), Delays(ticks))
    ensures var e := RunOf(FreshWorld(now, ticks), initial).log[i]; !e.Rebind? && !e.Expired?
  {
    hide RunOf, AllInTime, InTime, Delays, Roomy, Tries;
    RunInTime(now, ticks, initial);
    var w := RunOf(FreshWorld(now, ticks), initial);
    GrantedGoesOn(Start(initial, now, Delays(ticks)), w.log, w.replies, i);
  }
}
