/** The DHCPv6 lease loop (pkg/lib/dhcp/lease_loop.go): a timed state machine that renews, rebinds and
    finally releases one binding. Times are nanoseconds. */
module LeaseLoop {

  const MILLISECOND: int := 1_000_000
  const SECOND: int := 1000 * MILLISECOND
  const HOUR: int := 3600 * SECOND
  const MIN_BACKOFF: int := 100 * MILLISECOND
  const MAX_BACKOFF: int := 10 * SECOND
  const TOP63: int := 0x8000_0000_0000_0000

  datatype LeaseTimes = LeaseTimes(t1: int, t2: int, valid: int)

  predicate IsDuration(d: int) {
    -TOP63 <= d < TOP63
  }

  /** int64 arithmetic wraps around. */
  function Wrap(n: int): (r: int)
    ensures IsDuration(r) && (IsDuration(n) ==> r == n)
  {
    (n + TOP63) % (2 * TOP63) - TOP63
  }

  /** Go's division truncates toward zero. */
  function Quot(n: int, d: int): int
    requires d > 0
  {
    if n >= 0 then n / d else -((-n) / d)
  }

  function DefaultsFor(times: LeaseTimes): (d: LeaseTimes)
    ensures d.valid > 0 && d.t1 >= 0
  {
    var valid := if times.valid <= 0 then 24 * HOUR else times.valid;
    var t1 := if times.t1 <= 0 then Quot(valid, 2) else times.t1;
    var t2 := if times.t2 <= 0 then Quot(Wrap(valid * 4), 5) else times.t2;
    LeaseTimes(t1, t2, valid)
  }

  /** What the server gives is kept; an absent lifetime is a day, an absent T1 comes at half and an absent T2
      at four fifths of the lifetime, rounded down. */
  predicate IntendedDefaults(times: LeaseTimes) {
    var d := DefaultsFor(times);
    && d.valid == (if times.valid > 0 then times.valid else 24 * HOUR)
    && (times.t1 > 0 ==> d.t1 == times.t1) && (times.t2 > 0 ==> d.t2 == times.t2)
    && (times.t1 <= 0 ==> 2 * d.t1 <= d.valid < 2 * d.t1 + 2)
    && (times.t2 <= 0 ==> 5 * d.t2 <= 4 * d.valid < 5 * d.t2 + 5)
  }

  /** The intended times come out exactly when T2 is given or four lifetimes fit an int64. */
  lemma {:induction false} DefaultsAreIntended(times: LeaseTimes)
    requires IsDuration(times.valid)
    ensures IntendedDefaults(times) <==> times.t2 > 0 || 4 * times.valid < TOP63
  {
    var valid := if times.valid <= 0 then 24 * HOUR else times.valid;
    if times.t2 <= 0 && 4 * times.valid >= TOP63 {
      assert Wrap(valid * 4) < 4 * valid - TOP63;
      assert 5 * Quot(Wrap(valid * 4), 5) < 4 * valid - 5;
    }
  }

  /** An infinite lifetime (0xFFFFFFFF seconds) without T2 puts T2 in the past. */
  lemma {:induction false} InfiniteLifetimeLosesT2()
    ensures DefaultsFor(LeaseTimes(0, 0, 0xFFFF_FFFF * SECOND)).t2 < 0
  {
  }

  /** A quarter of the time from T1 to T2, but at least 100 ms and at most 10 s. */
  function RetryBackoff(t1: int, t2: int): (d: int)
    ensures MIN_BACKOFF <= d <= MAX_BACKOFF
    ensures IsDuration(t2 - t1) && d > MIN_BACKOFF ==> 4 * d <= t2 - t1
    ensures IsDuration(t2 - t1) && d < MAX_BACKOFF ==> t2 - t1 < 4 * d + 4
  {
    var d := Quot(Wrap(t2 - t1), 4);
    if d < MIN_BACKOFF then MIN_BACKOFF else if d > MAX_BACKOFF then MAX_BACKOFF else d
  }

  // ----- what a run leaves behind -----

  datatype Event =
    | Bound(t1: int, t2: int, valid: int)   // the three deadlines are set
    | Renew(at: int)
    | Rebind(at: int)
    | Expired(at: int)
    | Released

  /** The deadlines in force: those of the last Bound. */
  function InForce(log: seq<Event>): (b: Event)
    requires log != [] && log[0].Bound?
    ensures b.Bound?
  {
    if log[|log| - 1].Bound? then log[|log| - 1] else InForce(log[..|log| - 1])
  }

  /** Which event may follow a log. */
  predicate MayFollow(log: seq<Event>, e: Event) {
    if log == [] then e.Bound?
    else
      var last := log[|log| - 1];
      log[0].Bound? && !last.Released? &&
      var b := InForce(log);
      match e
      case Renew(at) => b.t1 <= at < b.t2 && (last.Bound? || (last.Renew? && last.at + MIN_BACKOFF <= at))
      case Rebind(at) =>
        b.t2 <= at < b.valid && (last.Bound? || last.Renew? || (last.Rebind? && last.at + MIN_BACKOFF <= at))
      case Bound(_, _, _) => last.Renew? || last.Rebind?
      case Expired(at) => at >= b.valid && !last.Expired?
      case Released => true
  }

  predicate Follows(log: seq<Event>, i: nat)
    requires i < |log|
  {
    MayFollow(log[..i], log[i])
  }

  /** Renew only from T1 on and before T2, Rebind only from T2 on and before the end of the lifetime, both
      at least 100 ms apart; nothing after Release. */
  predicate Proper(log: seq<Event>) {
    (log != [] ==> log[0].Bound?) && forall i :: 0 <= i < |log| ==> Follows(log, i)
  }

  lemma {:induction false} ProperExtends(log: seq<Event>, e: Event)
    requires Proper(log) && MayFollow(log, e)
    ensures Proper(log + [e])
  {
    var more := log + [e];
    forall i | 0 <= i < |more| ensures Follows(more, i) {
      if i < |log| {
        assert Follows(log, i);
        assert more[..i] == log[..i];
      } else {
        assert more[..i] == log;
      }
    }
  }

  lemma {:induction false} ProperPrefix(log: seq<Event>, n: nat)
    requires Proper(log) && n <= |log|
    ensures Proper(log[..n])
  {
    forall i | 0 <= i < n ensures Follows(log[..n], i) {
      assert Follows(log, i);
      assert log[..n][..i] == log[..i];
    }
  }

  /** In a proper log Release comes last, so once at most. */
  lemma {:induction false} NothingAfterRelease(log: seq<Event>, i: nat)
    requires Proper(log) && i + 1 < |log|
    ensures !log[i].Released?
  {
    assert Follows(log, i + 1);
    assert log[..i + 1][i] == log[i];
  }

  // ----- Renew and the end of the lifetime -----

  /** In every proper log: a Renew whose T2 lies within the lifetime is issued within the lifetime. */
  lemma {:induction false} RenewWithinLifetime(log: seq<Event>, i: nat)
    requires Proper(log) && i < |log| && log[i].Renew?
    ensures i > 0 && log[..i][0].Bound?
    ensures InForce(log[..i]).t2 <= InForce(log[..i]).valid ==> log[i].at < InForce(log[..i]).valid
  {
    assert Follows(log, i);
  }

  // ----- attempts per phase -----

  /** Renews (or Rebinds) since the deadlines were last set. */
  function Attempts(log: seq<Event>, renew: bool): nat {
    if log == [] || log[|log| - 1].Bound? then 0
    else
      var last := log[|log| - 1];
      Attempts(log[..|log| - 1], renew) + if (if renew then last.Renew? else last.Rebind?) then 1 else 0
  }

  /** No Rebind before the last Renew of a binding. */
  lemma {:induction false} RenewsComeFirst(log: seq<Event>)
    requires Proper(log) && log != [] && (log[|log| - 1].Renew? || log[|log| - 1].Bound?)
    ensures Attempts(log, false) == 0
    decreases |log|
  {
    var n := |log| - 1;
    if log[n].Renew? {
      assert Follows(log, n);
      ProperPrefix(log, n);
      RenewsComeFirst(log[..n]);
    }
  }

  /** The k-th attempt of a phase comes at least (k - 1) * 100 ms after the phase began. */
  lemma {:induction false} AttemptsTakeTime(log: seq<Event>)
    requires Proper(log) && log != [] && (log[|log| - 1].Renew? || log[|log| - 1].Rebind?)
    ensures var last := log[|log| - 1];
      var b := InForce(log);
      (if last.Renew? then b.t1 else b.t2) + (Attempts(log, last.Renew?) - 1) * MIN_BACKOFF <= last.at
    decreases |log|
  {
    var n := |log| - 1;
    assert Follows(log, n);
    ProperPrefix(log, n);
    var init := log[..n];
    if init[n - 1].Bound? {
      assert Attempts(init, log[n].Renew?) == 0;
    } else if init[n - 1].Renew? == log[n].Renew? {
      AttemptsTakeTime(init);
    } else {
      RenewsComeFirst(init);
    }
  }

  /** The number of attempts in a phase is bounded by its length. */
  lemma {:induction false} AttemptsAreBounded(log: seq<Event>)
    requires Proper(log) && log != [] && (log[|log| - 1].Renew? || log[|log| - 1].Rebind?)
    ensures var last := log[|log| - 1];
      var b := InForce(log);
      (Attempts(log, last.Renew?) - 1) * MIN_BACKOFF < if last.Renew? then b.t2 - b.t1 else b.valid - b.t2
  {
    AttemptsTakeTime(log);
    assert Follows(log, |log| - 1);
  }

  // ----- the loop -----

  datatype Reply = Failed | Granted(times: LeaseTimes)

  /** What the world does next: time passes, the caller may cancel, the server may answer. */
  datatype Tick = Tick(delay: nat, cancelled: bool, reply: Reply)

  /** The world: the clock, what is still to happen, what the loop has done, and what the server has replied to each
      Renew and Rebind. */
  datatype World = World(now: int, ticks: seq<Tick>, log: seq<Event>, replies: seq<Reply>)

  function FreshWorld(now: int, ticks: seq<Tick>): World {
    World(now, ticks, [], [])
  }

  /** Reading the clock. */
  function Told(w: World): (r: World)
    ensures r.now >= w.now && |r.ticks| <= |w.ticks| && r.log == w.log && r.replies == w.replies
  {
    if w.ticks == [] then w else w.(now := w.now + w.ticks[0].delay, ticks := w.ticks[1..])
  }

  /** Waiting for a timer of `d`, and whether the caller cancelled. */
  function Slept(w: World, d: int): (r: (World, bool))
    requires d > 0
    ensures r.0.now >= w.now && |r.0.ticks| <= |w.ticks| && r.0.log == w.log && r.0.replies == w.replies
  {
    if w.ticks == [] then (w, true)
    else
      var t := w.ticks[0];
      (w.(now := w.now + t.delay + if t.cancelled then 0 else d, ticks := w.ticks[1..]), t.cancelled)
  }

  datatype Answer = Answer(w: World, reply: Reply, cancelled: bool)

  /** One transaction with the server. */
  function Transacted(w: World): (a: Answer)
    ensures a.w.now >= w.now && a.w.log == w.log && (a.cancelled || |a.w.ticks| < |w.ticks|)
  {
    if w.ticks == [] then Answer(w.(replies := w.replies + [Failed]), Failed, true)
    else
      var t := w.ticks[0];
      Answer(World(w.now + t.delay, w.ticks[1..], w.log, w.replies + [t.reply]), t.reply, t.cancelled)
  }

  function Recorded(w: World, e: Event): World {
    w.(log := w.log + [e])
  }

  function Attempt(renew: bool, at: int): Event {
    if renew then Renew(at) else Rebind(at)
  }

  /** A phase of the loop: transactions until one succeeds or the deadline comes. */
  function Phase(w: World, renew: bool, deadline: int, times: LeaseTimes): (a: Answer)
    ensures a.w.now >= w.now && |a.w.ticks| <= |w.ticks|
    ensures !a.cancelled && a.reply.Granted? ==> |a.w.ticks| < |w.ticks|
    decreases |w.ticks|
  {
    var asked := Told(w);
    if asked.now >= deadline then Answer(asked, Failed, false)
    else
      var a := Transacted(Recorded(asked, Attempt(renew, asked.now)));
      if a.cancelled || a.reply.Granted? then a
      else
        var failed := Told(a.w);
        if failed.now >= deadline then Answer(failed, Failed, false)
        else
          var (slept, cancelled) := Slept(failed, RetryBackoff(times.t1, times.t2));
          if cancelled then Answer(slept, Failed, true) else Phase(slept, renew, deadline, times)
  }

  /** The deadlines of a lease, each from a clock reading of its own. */
  function DeadlinesOf(w: World, lease: LeaseTimes): Event {
    Bound(Told(w).now + lease.t1, Told(Told(w)).now + lease.t2, Told(Told(Told(w))).now + lease.valid)
  }

  function WithDeadlines(w: World, lease: LeaseTimes): (r: World)
    ensures r.now >= w.now && |r.ticks| <= |w.ticks| && r.log == w.log + [DeadlinesOf(w, lease)]
  {
    Recorded(Told(Told(Told(w))), DeadlinesOf(w, lease))
  }

  /** Waiting for T1. */
  function Waited(w: World, t1: int): (r: (World, bool))
    ensures r.0.now >= w.now && |r.0.ticks| <= |w.ticks| && r.0.log == w.log
  {
    if t1 - Told(w).now > 0 then Slept(Told(w), t1 - Told(w).now) else (Told(w), false)
  }

  /** Rounds of the loop, from the deadlines `b` of `lease` on; the lease it ended with was not renewed. */
  function Rounds(w: World, b: Event, lease: LeaseTimes): (r: (World, bool))
    requires b.Bound?
    decreases |w.ticks|
  {
    var (woken, cancelled) := Waited(w, b.t1);
    if cancelled then (woken, true)
    else
      var renewed := Phase(woken, true, b.t2, lease);
      if renewed.cancelled then (renewed.w, true)
      else
        var a := if renewed.reply.Granted? then renewed else Phase(renewed.w, false, b.valid, lease);
        if a.cancelled then (a.w, true)
        else
          match a.reply
          case Failed => (Recorded(a.w, Expired(a.w.now)), false)
          case Granted(times) =>
            var next := DefaultsFor(times);
            Rounds(WithDeadlines(a.w, next), DeadlinesOf(a.w, next), next)
  }

  /** A whole run, from the lease times the caller gives. */
  function RunOf(w: World, initial: LeaseTimes): World {
    var lease := DefaultsFor(initial);
    Recorded(Rounds(WithDeadlines(w, lease), DeadlinesOf(w, lease), lease).0, Released)
  }

  // ----- runs that keep to the lifetime -----

  /** T2 lies within the lifetime. */
  predicate Sound(times: LeaseTimes) {
    DefaultsFor(times).t2 <= DefaultsFor(times).valid
  }

  predicate GrantsSound(ticks: seq<Tick>) {
    forall i :: 0 <= i < |ticks| ==> ticks[i].reply.Granted? ==> Sound(ticks[i].reply.times)
  }

  /** Every Renew comes before the end of the lifetime in force. */
  predicate InLifetime(log: seq<Event>) {
    && (log != [] ==> log[0].Bound?)
    && forall i :: 0 < i < |log| && log[i].Renew? ==> log[i].at < InForce(log[..i]).valid
  }

  lemma {:induction false} InLifetimeExtends(log: seq<Event>, e: Event)
    requires InLifetime(log) && (if log == [] then e.Bound? else e.Renew? ==> e.at < InForce(log).valid)
    ensures InLifetime(log + [e]) && InForce(log + [e]) == if e.Bound? then e else InForce(log)
  {
    var more := log + [e];
    assert more[..|more| - 1] == log;
    forall i | 0 < i < |more| && more[i].Renew? ensures more[i].at < InForce(more[..i]).valid {
      if i < |log| {
        assert more[..i] == log[..i];
      }
    }
  }

  /** The loop has kept to the lifetime, `b` is in force, and what the server will grant is sound. */
  predicate Keeping(w: World, b: Event) {
    && InLifetime(w.log) && w.log != [] && InForce(w.log) == b && GrantsSound(w.ticks)
    && b.Bound? && b.t2 <= b.valid
  }

  lemma {:induction false} PhaseKeeps(w: World, renew: bool, b: Event, times: LeaseTimes)
    requires Keeping(w, b)
    ensures var a := Phase(w, renew, if renew then b.t2 else b.valid, times);
      Keeping(a.w, b) && (a.reply.Granted? ==> Sound(a.reply.times))
    decreases |w.ticks|
  {
    hide InLifetime, InForce, RetryBackoff, Sound;
    var deadline := if renew then b.t2 else b.valid;
    var asked := Told(w);
    if asked.now < deadline {
      InLifetimeExtends(asked.log, Attempt(renew, asked.now));
      var a := Transacted(Recorded(asked, Attempt(renew, asked.now)));
      if !a.cancelled && a.reply.Failed? {
        var failed := Told(a.w);
        if failed.now < deadline {
          var (slept, cancelled) := Slept(failed, RetryBackoff(times.t1, times.t2));
          if !cancelled {
            PhaseKeeps(slept, renew, b, times);
          }
        }
      }
    }
  }

  lemma {:induction false} DeadlinesKeep(w: World, times: LeaseTimes)
    requires InLifetime(w.log) && GrantsSound(w.ticks) && Sound(times)
    ensures Keeping(WithDeadlines(w, DefaultsFor(times)), DeadlinesOf(w, DefaultsFor(times)))
  {
    InLifetimeExtends(w.log, DeadlinesOf(w, DefaultsFor(times)));
  }

  lemma {:induction false} RoundsKeep(w: World, b: Event, lease: LeaseTimes)
    requires Keeping(w, b)
    ensures InLifetime(Rounds(w, b, lease).0.log) && Rounds(w, b, lease).0.log != []
    decreases |w.ticks|
  {
    var (woken, cancelled) := Waited(w, b.t1);
    if !cancelled {
      PhaseKeeps(woken, true, b, lease);
      var renewed := Phase(woken, true, b.t2, lease);
      if !renewed.cancelled {
        PhaseKeeps(renewed.w, false, b, lease);
        var a := if renewed.reply.Granted? then renewed else Phase(renewed.w, false, b.valid, lease);
        if !a.cancelled {
          match a.reply
          case Failed => InLifetimeExtends(a.w.log, Expired(a.w.now));
          case Granted(times) =>
            DeadlinesKeep(a.w, times);
            var next := DefaultsFor(times);
            RoundsKeep(WithDeadlines(a.w, next), DeadlinesOf(a.w, next), next);
        }
      }
    }
  }

  lemma {:induction false} SoundRun(w: World, initial: LeaseTimes)
    requires w.log == [] && GrantsSound(w.ticks) && Sound(initial)
    ensures InLifetime(RunOf(w, initial).log)
  {
    var lease := DefaultsFor(initial);
    DeadlinesKeep(w, initial);
    RoundsKeep(WithDeadlines(w, lease), DeadlinesOf(w, lease), lease);
    InLifetimeExtends(Rounds(WithDeadlines(w, lease), DeadlinesOf(w, lease), lease).0.log, Released);
  }

  /** A world in which the loop wakes up only when the lifetime is over: time passes between two clock readings of
      the binding if T1 does not come before T2, and again before the loop looks at T1. */
  function LateWorld(lease: LeaseTimes): World
    requires lease.t2 > lease.valid > 0 && lease.t1 >= 0
  {
    var gap, none := Gap(lease), Tick(0, false, Failed);
    World(0, [none, Tick(gap, false, Failed), none, Tick(LateAt(lease) - gap, false, Failed)], [], [])
  }

  function Gap(lease: LeaseTimes): nat {
    if lease.t1 < lease.t2 then 0 else lease.t1 - lease.t2 + 1
  }

  /** When the loop wakes up: both T1 and the lifetime have come, T2 has not. */
  function LateAt(lease: LeaseTimes): (at: int)
    requires lease.t2 > lease.valid > 0 && lease.t1 >= 0
    ensures lease.t1 <= at && Gap(lease) + lease.valid <= at < Gap(lease) + lease.t2
  {
    if lease.t1 < Gap(lease) + lease.valid then Gap(lease) + lease.valid else lease.t1
  }

  /** With a T2 beyond the lifetime, whatever the other times, the loop renews a lease that has ended. */
  lemma {:induction false} RenewsEndedLease(initial: LeaseTimes)
    requires !Sound(initial)
    ensures var lease := DefaultsFor(initial);
      var b := Bound(lease.t1, Gap(lease) + lease.t2, Gap(lease) + lease.valid);
      LateAt(lease) >= b.valid && RunOf(LateWorld(lease), initial).log == [b, Renew(LateAt(lease)), Released]
  {
    var lease := DefaultsFor(initial);
    var w, at := LateWorld(lease), LateAt(lease);
    var b := Bound(lease.t1, Gap(lease) + lease.t2, Gap(lease) + lease.valid);
    assert DeadlinesOf(w, lease) == b;
    assert WithDeadlines(w, lease) == World(Gap(lease), [w.ticks[3]], [b], []);
    assert Waited(WithDeadlines(w, lease), b.t1) == (World(at, [], [b], []), false);
    assert Phase(World(at, [], [b], []), true, b.t2, lease) ==
      Answer(World(at, [], [b, Renew(at)], [Failed]), Failed, true);
  }

  /** A T2 of 10 s with a lifetime of 2 s, in a world that sleeps through the lifetime. */
  lemma {:induction false} RenewOfEndedLease()
    ensures var none := Tick(0, false, Failed);
      var w := World(0, [none, none, none, Tick(2 * SECOND, false, Failed)], [], []);
      RunOf(w, LeaseTimes(1 * SECOND, 10 * SECOND, 2 * SECOND)).log
        == [Bound(1 * SECOND, 10 * SECOND, 2 * SECOND), Renew(2 * SECOND), Released]
  {
    RenewsEndedLease(LeaseTimes(1 * SECOND, 10 * SECOND, 2 * SECOND));
  }

  /** Every run on sound grants keeps its Renews inside the lifetime exactly when the first T2 is inside it. */
  lemma {:induction false} RenewsInLifetimeIff(initial: LeaseTimes)
    ensures (forall now, ticks :: GrantsSound(ticks) ==> InLifetime(RunOf(FreshWorld(now, ticks), initial).log)) <==>
            Sound(initial)
  {
    if Sound(initial) {
      forall now, ticks | GrantsSound(ticks) ensures InLifetime(RunOf(FreshWorld(now, ticks), initial).log) {
        SoundRun(FreshWorld(now, ticks), initial);
      }
    } else {
      RenewsEndedLease(initial);
      var lease := DefaultsFor(initial);
      var w := LateWorld(lease);
      var log := RunOf(FreshWorld(0, w.ticks), initial).log;
      assert log[..1] == [log[0]] && InForce(log[..1]) == log[0];
      assert GrantsSound(w.ticks) && !InLifetime(log);
    }
  }

  /** The loop in a world that plays a script; when the script ends, the caller cancels. */
  class Loop {
    var now: int
    var ticks: seq<Tick>
    var log: seq<Event>
    ghost var replies: seq<Reply>

    constructor (now: int, ticks: seq<Tick>)
      ensures this.now == now && this.ticks == ticks && log == [] && replies == []
    {
      this.now, this.ticks, log, replies := now, ticks, [], [];
    }

    ghost function W(): World
      reads this
    {
      World(now, ticks, log, replies)
    }

    /** `time.Now()`: never earlier than before. */
    method Clock() returns (t: int)
      modifies this`now, this`ticks
      ensures t == now && W() == Told(old(W()))
    {
      if ticks != [] {
        now := now + ticks[0].delay;
        ticks := ticks[1..];
      }
      t := now;
    }

    /** Wait for a timer or for cancellation. */
    method Sleep(d: int) returns (cancelled: bool)
      requires d > 0
      modifies this`now, this`ticks
      ensures (W(), cancelled) == Slept(old(W()), d) && (!cancelled ==> now >= old(now) + d)
    {
      if ticks == [] {
        return true;
      }
      cancelled := ticks[0].cancelled;
      now := now + ticks[0].delay + if cancelled then 0 else d;
      ticks := ticks[1..];
    }

    /** One transaction with the server, and whether the caller has cancelled by its end. */
    method Transact() returns (reply: Reply, cancelled: bool)
      modifies this`now, this`ticks, this`replies
      ensures Answer(W(), reply, cancelled) == Transacted(old(W()))
    {
      if ticks == [] {
        replies := replies + [Failed];
        return Failed, true;
      }
      reply, cancelled := ticks[0].reply, ticks[0].cancelled;
      now := now + ticks[0].delay;
      ticks := ticks[1..];
      replies := replies + [reply];
    }

    ghost predicate InPhase(b: Event)
      reads this
    {
      && Proper(log) && log != [] && log[0].Bound? && InForce(log) == b
      && !log[|log| - 1].Released? && !log[|log| - 1].Expired?
    }

    method Record(e: Event)
      requires Proper(log) && MayFollow(log, e)
      modifies this`log
      ensures Proper(log) && log == old(log) + [e]
      ensures log[0].Bound? && InForce(log) == (if e.Bound? then e else InForce(old(log)))
    {
      ProperExtends(log, e);
      log := log + [e];
      assert log[..|log| - 1] == old(log);
    }

    /** Deadlines from a lease, each from a clock reading of its own. */
    method Bind(times: LeaseTimes) returns (lease: LeaseTimes, b: Event)
      requires Proper(log) && (log == [] || (log[0].Bound? && (log[|log| - 1].Renew? || log[|log| - 1].Rebind?)))
      modifies this
      ensures lease == DefaultsFor(times) && b == DeadlinesOf(old(W()), lease) && W() == WithDeadlines(old(W()), lease)
      ensures b.Bound? && InPhase(b) && log == old(log) + [b]
      ensures old(now) <= b.t1 - lease.t1 <= b.t2 - lease.t2 <= b.valid - lease.valid <= now && |ticks| <= old(|ticks|)
    {
      lease := DefaultsFor(times);
      var n1 := Clock();
      var n2 := Clock();
      var n3 := Clock();
      b := Bound(n1 + lease.t1, n2 + lease.t2, n3 + lease.valid);
      Record(b);
    }

    /** Phase 2: Renew until it succeeds or T2 comes. */
    method RenewPhase(b: Event, times: LeaseTimes) returns (granted: Reply, cancelled: bool)
      requires b.Bound? && InPhase(b) && log[|log| - 1].Bound? && now >= b.t1
      modifies this
      ensures Answer(W(), granted, cancelled) == Phase(old(W()), true, b.t2, times)
      ensures cancelled || InPhase(b)
      ensures Proper(log) && log != [] && log[0].Bound? && !log[|log| - 1].Released?
      ensures !cancelled && granted.Granted? ==> log[|log| - 1].Renew?
      ensures !cancelled && granted.Failed? ==> now >= b.t2 && (log[|log| - 1].Bound? || log[|log| - 1].Renew?)
    {
      hide Proper, InForce, RetryBackoff, Told, Slept, Transacted;
      while true
        invariant InPhase(b) && now >= b.t1
        invariant Phase(W(), true, b.t2, times) == Phase(old(W()), true, b.t2, times)
        invariant log[|log| - 1].Bound? || (log[|log| - 1].Renew? && log[|log| - 1].at + MIN_BACKOFF <= now)
        decreases |ticks|
      {
        var t := Clock();
        if t >= b.t2 {
          return Failed, false;
        }
        Record(Renew(t));
        granted, cancelled := Transact();
        if cancelled || granted.Granted? {
          return;
        }
        var u := Clock();
        if u >= b.t2 {
          return Failed, false;
        }
        cancelled := Sleep(RetryBackoff(times.t1, times.t2));
        if cancelled {
          return;
        }
      }
    }

    /** Phase 3: Rebind until it succeeds or the lifetime ends. */
    method RebindPhase(b: Event, times: LeaseTimes) returns (granted: Reply, cancelled: bool)
      requires b.Bound? && InPhase(b) && (log[|log| - 1].Bound? || log[|log| - 1].Renew?) && now >= b.t2
      modifies this
      ensures Answer(W(), granted, cancelled) == Phase(old(W()), false, b.valid, times)
      ensures cancelled || InPhase(b)
      ensures Proper(log) && log != [] && log[0].Bound? && !log[|log| - 1].Released?
      ensures !cancelled && granted.Granted? ==> log[|log| - 1].Rebind?
      ensures !cancelled && granted.Failed? ==> now >= b.valid
    {
      hide Proper, InForce, RetryBackoff, Told, Slept, Transacted;
      while true
        invariant InPhase(b) && now >= b.t2
        invariant Phase(W(), false, b.valid, times) == Phase(old(W()), false, b.valid, times)
        invariant log[|log| - 1].Bound? || log[|log| - 1].Renew?
                  || (log[|log| - 1].Rebind? && log[|log| - 1].at + MIN_BACKOFF <= now)
        decreases |ticks|
      {
        var t := Clock();
        if t >= b.valid {
          return Failed, false;
        }
        Record(Rebind(t));
        granted, cancelled := Transact();
        if cancelled || granted.Granted? {
          return;
        }
        var u := Clock();
        if u >= b.valid {
          return Failed, false;
        }
        cancelled := Sleep(RetryBackoff(times.t1, times.t2));
        if cancelled {
          return;
        }
      }
    }

    /** The body of `Run`, up to its deferred calls. */
    method Drive(initial: LeaseTimes) returns (cancelled: bool)
      requires log == []
      modifies this
      ensures var lease := DefaultsFor(initial);
        (W(), cancelled) == Rounds(WithDeadlines(old(W()), lease), DeadlinesOf(old(W()), lease), lease)
      ensures Proper(log) && log != [] && log[0].Bound? && !log[|log| - 1].Released?
      ensures !cancelled ==> log[|log| - 1].Expired? && log[|log| - 1].at >= InForce(log).valid
    {
      hide Phase, Proper, DefaultsFor, WithDeadlines, DeadlinesOf, Told, Slept, InForce;
      var times, b := Bind(initial);
      ghost var all := Rounds(W(), b, times);
      while true
        invariant b.Bound? && InPhase(b) && log[|log| - 1].Bound? && Rounds(W(), b, times) == all
        decreases |ticks|
      {
        ghost var w := W();
        var t := Clock();
        if b.t1 - t > 0 {
          cancelled := Sleep(b.t1 - t);
          if cancelled {
            return;
          }
        }
        assert Waited(w, b.t1) == (W(), false);
        var reply;
        reply, cancelled := RenewPhase(b, times);
        if cancelled {
          return;
        }
        if reply.Failed? {
          reply, cancelled := RebindPhase(b, times);
          if cancelled {
            return;
          }
          if reply.Failed? {
            Record(Expired(now));
            return;
          }
        }
        times, b := Bind(reply.times);
      }
    }

    /** `Run`: in every world the run is that of the reference, the log is proper, Release comes exactly once and
        last, and without cancellation only once the lifetime in force has passed. */
    method Run(initial: LeaseTimes) returns (cancelled: bool)
      requires log == []
      modifies this
      ensures W() == RunOf(old(W()), initial)
      ensures Proper(log) && |log| >= 2 && log[|log| - 1].Released?
      ensures !cancelled ==> log[|log| - 2].Expired? && log[|log| - 2].at >= InForce(log).valid
      ensures forall i :: 0 <= i < |log| ==> (log[i].Released? <==> i == |log| - 1)
    {
      cancelled := Drive(initial);
      Record(Released);
      forall i | 0 <= i < |log| - 1 ensures !log[i].Released? {
        NothingAfterRelease(log, i);
      }
    }
  }
}
