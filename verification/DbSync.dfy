/** camel-db.c: an fsync asked for by SQLite is put off and then done by a thread of a pool. */
module DbSync {
  // Calls, timer, pool threads and the closing of the file interleave; each section under a mutex is
  // one step, and so is the timer callback.

  /** A bit of the flags of xSync. */
  type Bits = set<nat>

  /** Where a request is: taken from the flags but not yet in the pool; in the pool; with a thread of
      the pool, before and after the sync of the file; and counted off. */
  datatype Stage = Captured | Queued | Running | Synced | Finished | Reported

  datatype Request = Request(bits: Bits, stage: Stage)

  /** Where xClose is; `Waiting` is for its own request to be reported. */
  datatype Closing = No | Cancelled | Pushing(id: nat) | Waiting(id: nat) | Draining | Closed

  /** What happens to the file below, and what was asked for. */
  datatype Event = Ask(bits: Bits) | Sync(bits: Bits) | Close

  datatype File = File(flags: Bits, timeout: bool, pending: int, closing: Closing, requests: seq<Request>, log: seq<Event>)

  const START: File := File({}, false, 0, No, [], [])

  datatype Step =
    | XSync(bits: Bits)
    | Timer
    | Take(id: nat)
    | RunSync(id: nat)
    | CountOff(id: nat)
    | Report(id: nat)
    | Cancel
    | Capture
    | Push
    | Reap
    | CloseFile

  predicate At(f: File, id: nat, stage: Stage) {
    id < |f.requests| && f.requests[id].stage == stage
  }

  /** SQLite calls neither xSync nor xClose once it has called xClose. */
  predicate Enabled(f: File, s: Step) {
    match s
    case XSync(_) => f.closing == No
    case Timer => f.timeout
    case Take(id) => At(f, id, Queued)
    case RunSync(id) => At(f, id, Running)
    case CountOff(id) => At(f, id, Synced)
    case Report(id) => At(f, id, Finished)
    case Cancel => f.closing == No
    case Capture => f.closing == Cancelled
    case Push => f.closing.Pushing? && At(f, f.closing.id, Captured)
    case Reap => f.closing.Waiting? && At(f, f.closing.id, Reported)
    case CloseFile => f.closing == Draining && f.pending <= 0
  }

  /** The request goes to its next stage. */
  function Moved(f: File, id: nat, stage: Stage): File
    requires id < |f.requests|
  {
    f.(requests := f.requests[id := f.requests[id].(stage := stage)])
  }

  /** The flags become a request. */
  function Grab(f: File, stage: Stage): File {
    f.(flags := {}, pending := f.pending + 1, requests := f.requests + [Request(f.flags, stage)])
  }

  function Apply(f: File, s: Step): File
    requires Enabled(f, s)
  {
    match s
    case XSync(bits) => f.(flags := f.flags + bits, timeout := true, log := f.log + [Ask(bits)])
    case Timer => (if f.flags == {} then f else Grab(f, Queued)).(timeout := false)
    case Take(id) => Moved(f, id, Running)
    case RunSync(id) => Moved(f, id, Synced).(log := f.log + [Sync(f.requests[id].bits)])
    case CountOff(id) => Moved(f, id, Finished).(pending := f.pending - 1)
    case Report(id) => Moved(f, id, Reported)
    case Cancel => f.(timeout := false, closing := Cancelled)
    case Capture =>
      if f.flags == {} then f.(closing := Draining)
      else Grab(f, Captured).(closing := Pushing(|f.requests|))
    case Push => Moved(f, f.closing.id, Queued).(closing := Waiting(f.closing.id))
    case Reap => f.(closing := Draining)
    case CloseFile => f.(closing := Closed, log := f.log + [Close])
  }

  // ---------------------------------------------------------------- the invariant

  predicate Counted(stage: Stage) {
    stage in {Captured, Queued, Running, Synced}
  }

  /** How many requests are counted. */
  function Count(requests: seq<Request>): nat {
    if requests == [] then 0
    else Count(requests[..|requests| - 1]) + if Counted(requests[|requests| - 1].stage) then 1 else 0
  }

  predicate Before(stage: Stage) {
    stage in {Captured, Queued, Running}
  }

  /** The bit is still to reach the file: it is in the flags, or in a request. */
  ghost predicate OnItsWay(f: File, bit: nat) {
    bit in f.flags || exists id :: 0 <= id < |f.requests| && Before(f.requests[id].stage) && bit in f.requests[id].bits
  }

  predicate SyncsBit(e: Event, bit: nat) {
    e.Sync? && bit in e.bits
  }

  /** The bit reached the file at or after place `k` of the log. */
  ghost predicate Reached(log: seq<Event>, k: nat, bit: nat) {
    exists j :: k <= j < |log| && SyncsBit(log[j], bit)
  }

  ghost predicate NothingLost(f: File) {
    forall k, bit {:trigger bit in f.log[k].bits} ::
      0 <= k < |f.log| && f.log[k].Ask? && bit in f.log[k].bits ==> Reached(f.log, k, bit) || OnItsWay(f, bit)
  }

  ghost predicate Inv(f: File) {
    && f.pending == Count(f.requests)
    && NothingLost(f)
    && (f.closing == No && f.flags != {} ==> f.timeout)
    && (f.closing != No ==> !f.timeout)
    && (f.closing in {Draining, Closed} || f.closing.Waiting? || f.closing.Pushing? ==> f.flags == {})
    && (forall id {:trigger f.requests[id]} :: 0 <= id < |f.requests| && f.requests[id].stage == Captured ==> f.closing == Pushing(id))
    && (f.closing.Pushing? ==> At(f, f.closing.id, Captured))
    && (f.closing.Waiting? ==> f.closing.id < |f.requests|)
    && (f.closing == Closed ==> f.pending == 0)
    && (forall k :: 0 <= k < |f.log| && f.log[k] == Close ==> f.closing == Closed && k == |f.log| - 1)
    && (f.closing == Closed ==> f.log != [] && f.log[|f.log| - 1] == Close)
  }

  lemma {:induction false} CountMoved(requests: seq<Request>, id: nat, r: Request)
    requires id < |requests|
    ensures Count(requests[id := r]) ==
      Count(requests) - (if Counted(requests[id].stage) then 1 else 0) + if Counted(r.stage) then 1 else 0
  {
    var n := |requests| - 1;
    if id < n {
      assert requests[id := r][..n] == requests[..n][id := r];
      CountMoved(requests[..n], id, r);
    } else {
      assert requests[id := r][..n] == requests[..n];
    }
  }

  lemma CountGrab(requests: seq<Request>, r: Request)
    ensures Count(requests + [r]) == Count(requests) + if Counted(r.stage) then 1 else 0
  {
    assert (requests + [r])[..|requests|] == requests;
  }

  lemma {:induction false} CountPositive(requests: seq<Request>, id: nat)
    requires id < |requests| && Counted(requests[id].stage)
    ensures Count(requests) > 0
  {
    if id < |requests| - 1 { CountPositive(requests[..|requests| - 1], id); }
  }

  lemma ReachedLater(log: seq<Event>, e: Event, k: nat, bit: nat)
    requires Reached(log, k, bit) || (k <= |log| && SyncsBit(e, bit))
    ensures Reached(log + [e], k, bit)
  {
    if Reached(log, k, bit) {
      var j :| k <= j < |log| && SyncsBit(log[j], bit);
      assert (log + [e])[j] == log[j];
    } else {
      assert (log + [e])[|log|] == e;
    }
  }

  /** A bit on its way stays on its way, until the sync that carries it. */
  lemma WayKept(f: File, s: Step, bit: nat)
    requires Enabled(f, s) && OnItsWay(f, bit)
    ensures OnItsWay(Apply(f, s), bit) || (s.RunSync? && bit in f.requests[s.id].bits)
  {
    var g := Apply(f, s);
    if bit in f.flags {
      if g.flags == {} && f.flags != {} {
        assert g.requests[|f.requests|].bits == f.flags;
      }
    } else {
      var id :| 0 <= id < |f.requests| && Before(f.requests[id].stage) && bit in f.requests[id].bits;
      assert g.requests[id].bits == f.requests[id].bits;
    }
  }

  lemma AskedOnItsWay(f: File, bit: nat)
    requires bit in f.flags
    ensures OnItsWay(f, bit)
  {
  }

  lemma StepNothingLost(f: File, s: Step)
    requires Enabled(f, s) && NothingLost(f)
    ensures NothingLost(Apply(f, s))
  {
    hide OnItsWay, Reached;
    var g := Apply(f, s);
    forall k, bit | 0 <= k < |g.log| && g.log[k].Ask? && bit in g.log[k].bits
      ensures Reached(g.log, k, bit) || OnItsWay(g, bit)
    {
      if k == |f.log| {
        AskedOnItsWay(g, bit);
      } else {
        assert g.log[k] == f.log[k];
        if OnItsWay(f, bit) { WayKept(f, s, bit); }
        if (s.RunSync? && bit in f.requests[s.id].bits) || (g.log != f.log && Reached(f.log, k, bit)) {
          ReachedLater(f.log, g.log[|f.log|], k, bit);
        }
      }
    }
  }

  lemma StepCounts(f: File, s: Step)
    requires Enabled(f, s) && f.pending == Count(f.requests)
    ensures Apply(f, s).pending == Count(Apply(f, s).requests)
    ensures s.CountOff? ==> f.pending > 0
  {
    hide Count;
    match s
    case Take(id) => CountMoved(f.requests, id, f.requests[id].(stage := Running));
    case RunSync(id) => CountMoved(f.requests, id, f.requests[id].(stage := Synced));
    case CountOff(id) =>
      CountMoved(f.requests, id, f.requests[id].(stage := Finished));
      CountPositive(f.requests, id);
    case Report(id) => CountMoved(f.requests, id, f.requests[id].(stage := Reported));
    case Push => CountMoved(f.requests, f.closing.id, f.requests[f.closing.id].(stage := Queued));
    case Timer => CountGrab(f.requests, Request(f.flags, Queued));
    case Capture => CountGrab(f.requests, Request(f.flags, Captured));
    case _ =>
  }

  /** Every step keeps the invariant, and the counter that is counted down is positive. */
  lemma StepKeeps(f: File, s: Step)
    requires Inv(f) && Enabled(f, s)
    ensures Inv(Apply(f, s)) && (s.CountOff? ==> f.pending > 0)
  {
    hide NothingLost, Count;
    StepNothingLost(f, s);
    StepCounts(f, s);
    var g := Apply(f, s);
    if f.closing == Closed && f.pending == 0 {
      forall id | 0 <= id < |f.requests| ensures !Counted(f.requests[id].stage) {
        if Counted(f.requests[id].stage) { CountPositive(f.requests, id); }
      }
    }
    forall k | 0 <= k < |g.log| && g.log[k] == Close ensures g.closing == Closed && k == |g.log| - 1 {
      assert k < |f.log| ==> g.log[k] == f.log[k];
    }
  }

  // ---------------------------------------------------------------- runs

  predicate Possible(f: File, run: seq<Step>)
    decreases |run|
  {
    run != [] ==> Enabled(f, run[0]) && Possible(Apply(f, run[0]), run[1..])
  }

  function End(f: File, run: seq<Step>): File
    requires Possible(f, run)
    decreases |run|
  {
    if run == [] then f else End(Apply(f, run[0]), run[1..])
  }

  lemma {:induction false} RunKeeps(f: File, run: seq<Step>)
    requires Inv(f) && Possible(f, run)
    ensures Inv(End(f, run))
    decreases |run|
  {
    if run != [] {
      StepKeeps(f, run[0]);
      RunKeeps(Apply(f, run[0]), run[1..]);
    }
  }

  /** In every run, the count is that of the requests captured, in the pool or running; and once
      the file below has been closed, nothing happens to it any more, and every bit asked for was
      synced after it was asked for and before the file was closed. */
  lemma EveryRun(run: seq<Step>, k: nat, bit: nat)
    requires Possible(START, run)
    ensures var f := End(START, run);
      f.pending == Count(f.requests)
    ensures var f := End(START, run);
      forall j :: 0 <= j < |f.log| && f.log[j] == Close ==> j == |f.log| - 1
    ensures var f := End(START, run);
      f.closing == Closed && k < |f.log| && f.log[k].Ask? && bit in f.log[k].bits ==>
        f.log[|f.log| - 1] == Close && Reached(f.log[..|f.log| - 1], k, bit)
    ensures var f := End(START, run);
      f.closing == No && bit in f.flags ==> f.timeout
  {
    RunKeeps(START, run);
    var f := End(START, run);
    if f.closing == Closed && k < |f.log| && f.log[k].Ask? && bit in f.log[k].bits {
      forall id | 0 <= id < |f.requests| ensures !Counted(f.requests[id].stage) {
        if Counted(f.requests[id].stage) { CountPositive(f.requests, id); }
      }
      var j :| k <= j < |f.log| && SyncsBit(f.log[j], bit);
      assert f.log[..|f.log| - 1][j] == f.log[j];
    }
  }

  // ---------------------------------------------------------------- what the timer is for

  /** When the timer fires, all bits that waited are in one new request in the pool, and nothing waits any
      more. */
  lemma TimerHandsOver(f: File)
    requires f.timeout
    ensures Enabled(f, Timer)
    ensures var g := Apply(f, Timer);
      && g.flags == {} && !g.timeout && g.log == f.log && g.closing == f.closing
      && f.requests <= g.requests
      && (if f.flags == {} then g.requests == f.requests && g.pending == f.pending
          else |g.requests| == |f.requests| + 1 && g.requests[|f.requests|] == Request(f.flags, Queued) &&
               g.pending == f.pending + 1)
  {
  }

  lemma RunCons(f: File, s: Step, run: seq<Step>)
    requires Enabled(f, s) && Possible(Apply(f, s), run)
    ensures Possible(f, [s] + run) && End(f, [s] + run) == End(Apply(f, s), run)
  {
    assert ([s] + run)[1..] == run;
  }

  /** What a thread of the pool does for one request. */
  lemma PoolSyncs(f: File, id: nat)
    requires At(f, id, Queued)
    ensures Possible(f, [Take(id), RunSync(id)])
    ensures var g := End(f, [Take(id), RunSync(id)]);
      g.log == f.log + [Sync(f.requests[id].bits)] && g.flags == f.flags && g.closing == f.closing
  {
    hide Possible, End;
    var g := Apply(f, Take(id));
    assert [Take(id)] + [RunSync(id)] == [Take(id), RunSync(id)] && [RunSync(id)] + [] == [RunSync(id)];
    NoStep(Apply(g, RunSync(id)));
    RunCons(g, RunSync(id), []);
    RunCons(f, Take(id), [RunSync(id)]);
  }

  lemma NoStep(f: File)
    ensures Possible(f, []) && End(f, []) == f
  {
  }

  /** While the file is open, the timer and one thread of the pool are enough to sync all bits that wait:
      no call has to come for that. */
  lemma TimerSyncs(run: seq<Step>)
    requires Possible(START, run) && End(START, run).closing == No && End(START, run).flags != {}
    ensures var f := End(START, run);
      var more := [Timer, Take(|f.requests|), RunSync(|f.requests|)];
      && Possible(f, more) && End(f, more).log == f.log + [Sync(f.flags)]
      && End(f, more).flags == {} && End(f, more).closing == No
  {
    RunKeeps(START, run);
    var f := End(START, run);
    hide Possible, End, NothingLost, Count;
    var id := |f.requests|;
    TimerHandsOver(f);
    var g := Apply(f, Timer);
    PoolSyncs(g, id);
    RunCons(f, Timer, [Take(id), RunSync(id)]);
    assert [Timer] + [Take(id), RunSync(id)] == [Timer, Take(id), RunSync(id)];
  }

  /** xClose: a request of its own for what waits, at once; the file is closed only when every request has
      been counted off. */
  lemma CloseHandsOver(f: File)
    requires Inv(f)
    ensures Enabled(f, Cancel) ==> !Apply(f, Cancel).timeout && Apply(f, Cancel).flags == f.flags
    ensures Enabled(f, Capture) && f.flags != {} ==>
      var g := Apply(f, Capture);
      && g.flags == {} && g.closing == Pushing(|f.requests|) && At(g, |f.requests|, Captured)
      && g.requests[|f.requests|].bits == f.flags
      && At(Apply(g, Push), |f.requests|, Queued) && Apply(g, Push).closing == Waiting(|f.requests|)
      && !Enabled(Apply(g, Push), Reap) && !Enabled(Apply(g, Push), CloseFile)
    ensures Enabled(f, CloseFile) ==> forall id :: 0 <= id < |f.requests| ==> f.requests[id].stage in {Finished, Reported}
  {
    hide NothingLost, Count;
    if Enabled(f, CloseFile) {
      forall id | 0 <= id < |f.requests| ensures f.requests[id].stage in {Finished, Reported} {
        if Counted(f.requests[id].stage) { CountPositive(f.requests, id); }
      }
    }
  }

  // ---------------------------------------------------------------- xClose comes to its end

  function StageRank(stage: Stage): nat {
    match stage
    case Captured => 5
    case Queued => 4
    case Running => 3
    case Synced => 2
    case Finished => 1
    case Reported => 0
  }

  function Work(requests: seq<Request>): nat {
    if requests == [] then 0 else Work(requests[..|requests| - 1]) + StageRank(requests[|requests| - 1].stage)
  }

  function Left(f: File): nat {
    Work(f.requests) +
    match f.closing
    case No => 30
    case Cancelled => 20
    case Pushing(_) => 10
    case Waiting(_) => 9
    case Draining => 8
    case Closed => 0
  }

  lemma {:induction false} WorkMoved(requests: seq<Request>, id: nat, r: Request)
    requires id < |requests|
    ensures Work(requests[id := r]) == Work(requests) - StageRank(requests[id].stage) + StageRank(r.stage)
  {
    var n := |requests| - 1;
    if id < n {
      assert requests[id := r][..n] == requests[..n][id := r];
      WorkMoved(requests[..n], id, r);
    } else {
      assert requests[id := r][..n] == requests[..n];
    }
  }

  lemma WorkGrab(requests: seq<Request>, r: Request)
    ensures Work(requests + [r]) == Work(requests) + StageRank(r.stage)
  {
    assert (requests + [r])[..|requests|] == requests;
  }

  /** Once xClose has begun, every step brings the file nearer to being closed, and until it is
      closed there is a step to take. */
  lemma CloseEnds(f: File, s: Step) returns (next: Step)
    requires Inv(f) && f.closing != No
    ensures Enabled(f, s) ==> Left(Apply(f, s)) < Left(f)
    ensures f.closing != Closed ==> Enabled(f, next)
  {
    hide Work, Count, NothingLost;
    if Enabled(f, s) { StepNearer(f, s); }
    match f.closing
    case Cancelled => next := Capture;
    case Pushing(id) => next := Push;
    case Waiting(id) => next := NextOf(f, id);
    case Draining =>
      if f.pending <= 0 { next := CloseFile; } else { next := Counting(f); }
    case _ => next := Cancel;
  }

  lemma StepNearer(f: File, s: Step)
    requires !f.timeout && f.closing != No && Enabled(f, s)
    ensures Left(Apply(f, s)) < Left(f)
  {
    hide Work;
    match s
    case Take(id) => WorkMoved(f.requests, id, f.requests[id].(stage := Running));
    case RunSync(id) => WorkMoved(f.requests, id, f.requests[id].(stage := Synced));
    case CountOff(id) => WorkMoved(f.requests, id, f.requests[id].(stage := Finished));
    case Report(id) => WorkMoved(f.requests, id, f.requests[id].(stage := Reported));
    case Push => WorkMoved(f.requests, f.closing.id, f.requests[f.closing.id].(stage := Queued));
    case Capture =>
      WorkGrab(f.requests, Request(f.flags, Captured));
    case _ =>
  }

  /** The next step for one request, which is no longer captured. */
  lemma NextOf(f: File, id: nat) returns (s: Step)
    requires id < |f.requests| && f.requests[id].stage != Captured
    requires f.requests[id].stage == Reported ==> f.closing == Waiting(id)
    ensures Enabled(f, s)
  {
    match f.requests[id].stage
    case Queued => s := Take(id);
    case Running => s := RunSync(id);
    case Synced => s := CountOff(id);
    case Finished => s := Report(id);
    case _ => s := Reap;
  }

  lemma Counting(f: File) returns (s: Step)
    requires Inv(f) && !f.closing.Pushing? && f.pending > 0
    ensures Enabled(f, s)
  {
    hide NothingLost;
    var id := SomeCounted(f.requests);
    s := NextOf(f, id);
  }

  lemma {:induction false} SomeCounted(requests: seq<Request>) returns (id: nat)
    requires Count(requests) > 0
    ensures id < |requests| && Counted(requests[id].stage)
  {
    if Counted(requests[|requests| - 1].stage) {
      id := |requests| - 1;
    } else {
      id := SomeCounted(requests[..|requests| - 1]);
    }
  }
}
