/** The generation protocol of one container's state (pkg/controller/set.go, pkg/daemon/disk-events.go):
    the daemon's memory, the state file, writers in other processes, and file reads that may be applied
    long after they were taken. */
module GenProtocol {
  import opened Options

  /** A container's config: what the protocol looks at, and the rest. */
  datatype Record = Record(name: string, gen: nat, body: string)

  const LIMIT: nat := 0x1_0000_0000_0000_0000

  /** uint64 generations: one above the largest wraps to 0. */
  function Bump(g: nat): nat {
    if g + 1 < LIMIT then g + 1 else 0
  }

  function Max(a: nat, b: nat): nat {
    if a >= b then a else b
  }

  function GenOf(r: Option<Record>): nat {
    if r.Some? then r.value.gen else 0
  }

  /** `pending` holds every read of the file that is still to be applied; any of them may be, at any time
      and any number of times. */
  datatype State = State(mem: Option<Record>, disk: Option<Record>, pending: set<Record>)

  datatype Step =
    | DaemonSet(c: Record)   // setContainerByMemory
    | DiskSet(c: Record)     // setContainerByDisk, in any process
    | Read                   // LoadFile
    | Load(r: Record)        // LoadFromDisk
    | Remove                 // the state file is deleted
    | Drop                   // DeleteContainer
    | Restart                // a new daemon loads the state directory (containersInit)

  predicate IsSet(step: Step) {
    step.DaemonSet? || step.DiskSet?
  }

  /** The generation a set is based on: the caller's copy, the file, and memory where there is one. */
  function Base(s: State, step: Step): nat
    requires IsSet(step)
  {
    if step.DaemonSet? then Max(Max(step.c.gen, GenOf(s.mem)), GenOf(s.disk)) else Max(step.c.gen, GenOf(s.disk))
  }

  function Fresh(s: State, step: Step): Record
    requires IsSet(step)
  {
    step.c.(gen := Bump(Base(s, step)))
  }

  /** When `LoadFromDisk` puts a read into memory. */
  predicate Takes(mem: Option<Record>, fileExists: bool, r: Record) {
    if mem.None? then fileExists
    else r.gen > mem.value.gen || (r.gen == 0 && mem.value.gen == 0 && r != mem.value)
  }

  predicate Enabled(s: State, step: Step) {
    match step
    case Load(r) => r in s.pending
    case Read => s.disk.Some?
    case _ => true
  }

  function Apply(s: State, step: Step): State
    requires Enabled(s, step)
  {
    match step
    case DaemonSet(c) => s.(mem := Some(Fresh(s, step)), disk := Some(Fresh(s, step)))
    case DiskSet(c) => s.(disk := Some(Fresh(s, step)))
    case Read => s.(pending := s.pending + {s.disk.value})
    case Load(r) => if Takes(s.mem, s.disk.Some?, r) then s.(mem := Some(r)) else s
    case Remove => s.(disk := None)
    case Drop => s.(mem := None)
    case Restart => s.(mem := s.disk)
  }

  // ----- runs -----

  predicate IsRun(s: State, steps: seq<Step>)
    decreases |steps|, 0
  {
    steps == [] || (IsRun(s, steps[..|steps| - 1]) && Enabled(After(s, steps[..|steps| - 1]), steps[|steps| - 1]))
  }

  /** The state after a run. */
  function After(s: State, steps: seq<Step>): State
    requires IsRun(s, steps)
    decreases |steps|, 1
  {
    if steps == [] then s else Apply(After(s, steps[..|steps| - 1]), steps[|steps| - 1])
  }

  /** Within one lifetime of the file, and below the top generation. */
  predicate Lifetime(s: State, steps: seq<Step>)
    requires IsRun(s, steps)
    decreases |steps|
  {
    steps == [] ||
    var init := steps[..|steps| - 1];
    Lifetime(s, init) && Keeps(After(s, init), steps[|steps| - 1])
  }

  predicate Keeps(s: State, step: Step) {
    !step.Remove? && !step.Drop? && (IsSet(step) ==> Base(s, step) + 1 < LIMIT)
  }

  /** A set is newer than everything before it exactly when its base is below the top. */
  lemma {:induction false} SetRises(s: State, step: Step)
    requires IsSet(step) && Base(s, step) < LIMIT
    ensures Fresh(s, step).gen > GenOf(s.disk) && (step.DaemonSet? ==> Fresh(s, step).gen > GenOf(s.mem)) <==>
            Base(s, step) + 1 < LIMIT
  {
    if Base(s, step) + 1 == LIMIT {
      assert Fresh(s, step).gen == 0;
    }
  }

  /** With memory at the top the counter starts over: every set makes memory's generation fall to 0. */
  lemma {:induction false} TopGenerationWraps(s: State, c: Record)
    requires GenOf(s.mem) == LIMIT - 1
    ensures GenOf(Apply(s, DaemonSet(c)).mem) == 0 < GenOf(s.mem)
  {
  }

  // ----- what every step of a lifetime keeps -----

  /** Nothing in memory or in a read is newer than the file, and what has the file's generation is the
      file's record. */
  predicate Inv(s: State) {
    && (s.disk.None? ==> s.mem.None? && s.pending == {}) && GenOf(s.disk) < LIMIT
    && (s.mem.Some? ==> Older(s.mem.value, s.disk))
    && (forall r :: r in s.pending ==> Older(r, s.disk))
    && (s.mem.Some? ==> forall r :: r in s.pending ==> Agrees(r, s.mem.value))
    && (forall q, r :: q in s.pending && r in s.pending ==> Agrees(q, r))
  }

  predicate Older(r: Record, disk: Option<Record>) {
    disk.Some? && r.gen <= disk.value.gen && Agrees(r, disk.value)
  }

  /** Equal generations above 0 mean equal records. */
  predicate Agrees(a: Record, b: Record) {
    a.gen == b.gen > 0 ==> a == b
  }

  /** A daemon that has not loaded anything yet, whatever file it finds. */
  function Start(disk: Option<Record>): (s: State)
    ensures GenOf(disk) < LIMIT ==> Inv(s)
  {
    State(None, disk, {})
  }

  lemma {:induction false} InvKept(s: State, step: Step)
    requires Inv(s) && Enabled(s, step) && Keeps(s, step)
    ensures Inv(Apply(s, step)) && GenOf(s.mem) <= GenOf(Apply(s, step).mem) &&
      GenOf(s.disk) <= GenOf(Apply(s, step).disk)
    ensures s.mem.Some? ==> Apply(s, step).mem.Some?
    ensures s.pending <= Apply(s, step).pending
  {
    var t := Apply(s, step);
    if step.DaemonSet? || step.DiskSet? {
      forall r | r in t.pending ensures Older(r, t.disk) && (t.mem.Some? ==> Agrees(r, t.mem.value)) {
        assert Older(r, s.disk);
      }
    }
  }

  lemma {:induction false} RunKeepsInv(s: State, steps: seq<Step>)
    requires Inv(s) && IsRun(s, steps) && Lifetime(s, steps)
    ensures Inv(After(s, steps))
    decreases |steps|
  {
    if steps != [] {
      RunKeepsInv(s, steps[..|steps| - 1]);
      InvKept(After(s, steps[..|steps| - 1]), steps[|steps| - 1]);
    }
  }

  lemma {:induction false} PrefixRuns(s: State, steps: seq<Step>, k: nat)
    requires IsRun(s, steps) && k <= |steps|
    ensures IsRun(s, steps[..k]) && (Lifetime(s, steps) ==> Lifetime(s, steps[..k]))
    decreases |steps|
  {
    if k < |steps| {
      PrefixRuns(s, steps[..|steps| - 1], k);
      assert steps[..|steps| - 1][..k] == steps[..k];
    } else {
      assert steps[..k] == steps;
    }
  }

  /** Memory's generation never decreases, and neither does the file's. */
  lemma {:induction false} GenerationsRise(s: State, steps: seq<Step>, k: nat)
    requires Inv(s) && IsRun(s, steps) && Lifetime(s, steps) && k <= |steps|
    ensures IsRun(s, steps[..k])
    ensures var (a, b) := (After(s, steps[..k]), After(s, steps));
      GenOf(a.mem) <= GenOf(b.mem) && GenOf(a.disk) <= GenOf(b.disk) &&
        (a.mem.Some? ==> b.mem.Some?) && a.pending <= b.pending
    decreases |steps|
  {
    PrefixRuns(s, steps, k);
    if k < |steps| {
      var init := steps[..|steps| - 1];
      GenerationsRise(s, init, k);
      assert init[..k] == steps[..k];
      RunKeepsInv(s, init);
      InvKept(After(s, init), steps[|steps| - 1]);
    } else {
      assert steps[..k] == steps;
    }
  }

  /** Equal generations above 0 in memory and on disk mean equal records, in every reachable state. */
  lemma {:induction false} EqualGenerationsAgree(s: State, steps: seq<Step>)
    requires Inv(s) && IsRun(s, steps) && Lifetime(s, steps)
    ensures var t := After(s, steps);
      t.mem.Some? && t.disk.Some? && t.mem.value.gen == t.disk.value.gen > 0 ==> t.mem == t.disk
  {
    RunKeepsInv(s, steps);
  }

  /** A read taken before a set of the daemon never replaces what that set, or a later one, put there. */
  lemma {:induction false} StaleReadNeverWins(s: State, steps: seq<Step>, k: nat, r: Record)
    requires Inv(s) && IsRun(s, steps) && Lifetime(s, steps) && k < |steps| && steps[k].DaemonSet?
    requires IsRun(s, steps[..k]) && r in After(s, steps[..k]).pending
    ensures Enabled(After(s, steps), Load(r)) && Apply(After(s, steps), Load(r)) == After(s, steps)
  {
    var a := After(s, steps[..k]);
    PrefixRuns(s, steps, k);
    PrefixRuns(s, steps, k + 1);
    RunKeepsInv(s, steps[..k]);
    assert steps[..k + 1][..k] == steps[..k];
    assert Older(r, a.disk);
    GenerationsRise(s, steps, k);
    GenerationsRise(s, steps, k + 1);
    assert After(s, steps[..k + 1]) == Apply(a, steps[k]);
    assert Keeps(a, steps[k]) by { LifetimeAt(s, steps, k); }
  }

  lemma {:induction false} LifetimeAt(s: State, steps: seq<Step>, k: nat)
    requires IsRun(s, steps) && Lifetime(s, steps) && k < |steps| && IsRun(s, steps[..k])
    ensures Keeps(After(s, steps[..k]), steps[k])
  {
    PrefixRuns(s, steps, k + 1);
    assert steps[..k + 1][..k] == steps[..k];
  }

  // ----- convergence -----

  predicate Quiet(steps: seq<Step>, from: nat) {
    forall i :: from <= i < |steps| ==> !IsSet(steps[i])
  }

  lemma {:induction false} QuietKeepsDisk(s: State, steps: seq<Step>, k: nat)
    requires IsRun(s, steps) && Lifetime(s, steps) && k <= |steps| && Quiet(steps, k)
    ensures IsRun(s, steps[..k]) && After(s, steps).disk == After(s, steps[..k]).disk
    decreases |steps|
  {
    PrefixRuns(s, steps, k);
    if k < |steps| {
      var init := steps[..|steps| - 1];
      QuietKeepsDisk(s, init, k);
      assert init[..k] == steps[..k];
    } else {
      assert steps[..k] == steps;
    }
  }

  /** Once the writing stops, applying one read taken after the last write makes memory and file agree,
      whatever older reads are applied before and after it. */
  lemma {:induction false} OneLoadConverges(s: State, steps: seq<Step>, k: nat)
    requires Inv(s) && IsRun(s, steps) && Lifetime(s, steps) && k <= |steps| && Quiet(steps, k)
    requires IsRun(s, steps[..k]) && After(s, steps[..k]).disk.Some? && steps != []
    requires steps[|steps| - 1] == Load(After(s, steps[..k]).disk.value)
    ensures After(s, steps).mem == After(s, steps).disk
  {
    var init, r := steps[..|steps| - 1], After(s, steps[..k]).disk.value;
    QuietKeepsDisk(s, steps, k);
    RunKeepsInv(s, init);
    RunKeepsInv(s, steps);
    var a := After(s, init);
    assert After(s, steps) == Apply(a, Load(r)) && a.disk == Some(r);
  }

  // ----- deletion -----

  /** After a delete, reads taken before it cannot bring the container back. */
  lemma {:induction false} NoResurrection(s: State, steps: seq<Step>)
    requires IsRun(s, steps) && Quiet(steps, 0) && s.disk.None? && s.mem.None?
    ensures After(s, steps).disk.None? && After(s, steps).mem.None?
    decreases |steps|
  {
    if steps != [] {
      NoResurrection(s, steps[..|steps| - 1]);
    }
  }
}
