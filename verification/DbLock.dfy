/** camel-db.c: a writer lock that its owner can take again, over a read-write lock that cannot be. */
module DbLock {
  import opened Wrappers

  // Each section under the mutex is one step, and so is each operation of the read-write lock; the
  // steps of any number of threads interleave.

  /** Where a thread is: in its own code, or inside one of the four calls. */
  datatype Pc = Free | WantWrite | HasWrite | DropWrite | WantRead | DropRead

  /** How many writer and reader locks the thread has taken and not given back. */
  datatype Thread = Thread(writing: nat, reading: nat, pc: Pc)

  type Id = nat

  /** transaction_thread and transaction_level; who holds the read-write lock for writing, and who how
      often for reading. */
  datatype Db = Db(owner: Option<Id>, level: int, writer: Option<Id>, readers: multiset<Id>, threads: map<Id, Thread>)
  {
    function At(t: Id): Thread {
      if t in threads then threads[t] else Thread(0, 0, Free)
    }

    function With(t: Id, th: Thread): (s: Db)
      ensures forall u: Id :: s.At(u) == if u == t then th else At(u)
      ensures s.owner == owner && s.level == level && s.writer == writer && s.readers == readers
    {
      this.(threads := threads[t := th])
    }
  }

  const START: Db := Db(None, 0, None, multiset{}, map[])

  // ---------------------------------------------------------------- the steps

  datatype Action =
    | LockWrite | AcquireWrite | RecordWrite
    | UnlockWrite | ReleaseWrite
    | LockRead | AcquireRead
    | UnlockRead | ReleaseRead

  /** The thread has got to this step, and the read-write lock lets it through. */
  predicate Enabled(s: Db, t: Id, a: Action) {
    var pc := s.At(t).pc;
    match a
    case LockWrite => pc == Free
    case AcquireWrite => pc == WantWrite && s.writer == None && s.readers == multiset{}
    case RecordWrite => pc == HasWrite
    case UnlockWrite => pc == Free
    case ReleaseWrite => pc == DropWrite
    case LockRead => pc == Free
    case AcquireRead => pc == WantRead && s.writer == None
    case UnlockRead => pc == Free
    case ReleaseRead => pc == DropRead
  }

  function Less(n: nat): nat {
    if n == 0 then 0 else n - 1
  }

  function Apply(s: Db, t: Id, a: Action): Db {
    var th := s.At(t);
    match a
    case LockWrite =>
      if s.owner == Some(t) then s.With(t, Thread(th.writing + 1, th.reading, Free)).(level := s.level + 1)
      else s.With(t, th.(pc := WantWrite))
    case AcquireWrite =>
      s.With(t, th.(pc := HasWrite)).(writer := Some(t))
    case RecordWrite =>
      s.With(t, Thread(th.writing + 1, th.reading, Free)).(owner := Some(t), level := s.level + 1)
    case UnlockWrite =>
      if s.level - 1 == 0 then s.With(t, Thread(Less(th.writing), th.reading, DropWrite)).(owner := None, level := 0)
      else s.With(t, th.(writing := Less(th.writing))).(level := s.level - 1)
    case ReleaseWrite =>
      s.With(t, th.(pc := Free)).(writer := None)
    case LockRead =>
      if s.owner == Some(t) then s.With(t, th.(reading := th.reading + 1)) else s.With(t, th.(pc := WantRead))
    case AcquireRead =>
      s.With(t, Thread(th.writing, th.reading + 1, Free)).(readers := s.readers + multiset{t})
    case UnlockRead =>
      s.With(t, Thread(th.writing, Less(th.reading), if s.owner == Some(t) then Free else DropRead))
    case ReleaseRead =>
      s.With(t, th.(pc := Free)).(readers := s.readers - multiset{t})
  }

  /** The thread gives back only what it has taken, its reader locks before its last writer lock, and
      asks to write only if it holds nothing or a writer lock. */
  predicate Proper(s: Db, t: Id, a: Action) {
    var th := s.At(t);
    match a
    case LockWrite => th.writing > 0 || th.reading == 0
    case UnlockWrite => th.writing > 0 && (th.writing == 1 ==> th.reading == 0)
    case UnlockRead => th.reading > 0
    case _ => true
  }

  /** The conditions the code warns about when they fail. */
  predicate Quiet(s: Db, t: Id, a: Action) {
    match a
    case RecordWrite => s.owner == None && s.level == 0
    case UnlockWrite => s.owner == Some(t) && s.level > 0
    case _ => true
  }

  // ---------------------------------------------------------------- the invariant

  /** How often the thread holds the read-write lock for reading. */
  function Held(th: Thread): nat {
    (if th.writing > 0 then 0 else th.reading) + if th.pc == DropRead then 1 else 0
  }

  predicate Fits(s: Db, t: Id) {
    var th := s.At(t);
    && (th.pc in {WantWrite, HasWrite, DropWrite} ==> th.writing == th.reading == 0)
    && (th.pc in {WantRead, DropRead} ==> th.writing == 0)
    && s.readers[t] == Held(th)
    && (s.owner == Some(t) <==> th.writing > 0)
    && (s.writer == Some(t) <==> th.writing > 0 || th.pc in {HasWrite, DropWrite})
    && (s.owner == Some(t) ==> s.level == th.writing)
  }

  ghost predicate Inv(s: Db) {
    && (forall t: Id {:trigger s.At(t)} :: Fits(s, t))
    && (s.owner == None ==> s.level == 0)
    && (s.writer != None ==> s.readers == multiset{})
  }

  /** No warning fires. */
  lemma StepQuiet(s: Db, t: Id, a: Action)
    requires Inv(s) && Enabled(s, t, a) && Proper(s, t, a)
    ensures Quiet(s, t, a)
  {
    assert Fits(s, t);
    if a == RecordWrite {
      assert s.owner.Some? ==> Fits(s, s.owner.value);
    }
  }

  /** The thread that makes the step still fits. */
  lemma OwnFits(s: Db, t: Id, a: Action)
    requires Inv(s) && Enabled(s, t, a) && Proper(s, t, a)
    ensures Fits(Apply(s, t, a), t)
  {
    assert Fits(s, t);
    StepQuiet(s, t, a);
  }

  /** The other threads still fit. */
  lemma OtherFits(s: Db, t: Id, a: Action, u: Id)
    requires Inv(s) && Enabled(s, t, a) && Proper(s, t, a) && Quiet(s, t, a) && u != t
    ensures Fits(Apply(s, t, a), u)
  {
    hide Held;
    assert Fits(s, t) && Fits(s, u);
  }

  /** Every proper step keeps the invariant, and no warning fires. */
  lemma StepKeeps(s: Db, t: Id, a: Action)
    requires Inv(s) && Enabled(s, t, a) && Proper(s, t, a)
    ensures Quiet(s, t, a) && Inv(Apply(s, t, a))
  {
    StepQuiet(s, t, a);
    forall u: Id ensures Fits(Apply(s, t, a), u) {
      hide Fits;
      if u != t {
        OtherFits(s, t, a, u);
      } else {
        OwnFits(s, t, a);
      }
    }
    RestKeeps(s, t, a);
  }

  lemma RestKeeps(s: Db, t: Id, a: Action)
    requires Inv(s) && Enabled(s, t, a) && Proper(s, t, a) && Quiet(s, t, a)
    ensures var s' := Apply(s, t, a); (s'.owner == None ==> s'.level == 0) && (s'.writer != None ==> s'.readers == multiset{})
  {
    assert Fits(s, t);
  }

  // ---------------------------------------------------------------- runs

  datatype Event = Event(t: Id, a: Action)

  function End(s: Db, run: seq<Event>): Db
    decreases |run|
  {
    if run == [] then s else End(Apply(s, run[0].t, run[0].a), run[1..])
  }

  predicate Possible(s: Db, run: seq<Event>)
    decreases |run|
  {
    run != [] ==> Enabled(s, run[0].t, run[0].a) && Possible(Apply(s, run[0].t, run[0].a), run[1..])
  }

  /** In each state of the run the thread keeps to the rules. */
  predicate Disciplined(s: Db, run: seq<Event>)
    decreases |run|
  {
    run != [] ==> Proper(s, run[0].t, run[0].a) && Disciplined(Apply(s, run[0].t, run[0].a), run[1..])
  }

  predicate Silent(s: Db, run: seq<Event>)
    decreases |run|
  {
    run != [] ==> Quiet(s, run[0].t, run[0].a) && Silent(Apply(s, run[0].t, run[0].a), run[1..])
  }

  lemma StartInv()
    ensures Inv(START)
  {
    forall t: Id ensures Fits(START, t) {
    }
  }

  lemma {:induction false} RunKeeps(s: Db, run: seq<Event>)
    requires Inv(s) && Possible(s, run) && Disciplined(s, run)
    ensures Inv(End(s, run)) && Silent(s, run)
    decreases |run|
  {
    if run != [] {
      StepKeeps(s, run[0].t, run[0].a);
      RunKeeps(Apply(s, run[0].t, run[0].a), run[1..]);
    }
  }

  /** In every disciplined run no warning fires, the level counts the writer locks of the one thread
      that holds the read-write lock for writing, and nobody else holds any lock meanwhile. A thread
      about to release the read-write lock holds it, for reading or for writing. */
  lemma EveryRun(run: seq<Event>, u: Id)
    requires Possible(START, run) && Disciplined(START, run)
    ensures Silent(START, run)
    ensures var s := End(START, run);
      s.level > 0 ==> (
        && s.owner.Some? && s.writer == s.owner && s.readers == multiset{}
        && s.level == s.At(s.owner.value).writing
        && (u != s.owner.value ==> s.At(u).writing == s.At(u).reading == 0))
    ensures var s := End(START, run);
      (s.At(u).writing > 0 ==> s.owner == Some(u)) && (s.level <= 0 ==> s.level == 0 && s.At(u).writing == 0)
    ensures var s := End(START, run);
      (s.At(u).pc == DropRead ==> s.readers[u] > 0) && (s.At(u).pc == DropWrite ==> s.writer == Some(u))
  {
    StartInv();
    RunKeeps(START, run);
    var s := End(START, run);
    assert Fits(s, u);
    assert s.owner.Some? ==> Fits(s, s.owner.value);
  }

  /** When no thread holds a lock or is inside a call, everything has been given back. */
  lemma Balanced(run: seq<Event>)
    requires Possible(START, run) && Disciplined(START, run)
    requires forall t: Id :: End(START, run).At(t) == Thread(0, 0, Free)
    ensures var s := End(START, run);
      s.owner == None && s.level == 0 && s.writer == None && s.readers == multiset{}
  {
    StartInv();
    RunKeeps(START, run);
    var s := End(START, run);
    Holders(s);
    forall t: Id ensures s.readers[t] == 0 { assert Fits(s, t); }
  }

  /** Who owns the lock, or holds it for writing, has taken it and not given it back. */
  lemma Holders(s: Db)
    requires Inv(s)
    ensures s.owner == None || exists t: Id :: s.At(t).writing > 0
    ensures s.writer == None || exists t: Id :: s.At(t) != Thread(0, 0, Free)
  {
    assert s.owner.Some? ==> Fits(s, s.owner.value);
    assert s.writer.Some? ==> Fits(s, s.writer.value);
  }

  // ---------------------------------------------------------------- counted from the calls

  /** How a step changes the reader locks that `t` has been given and has not given back: a call of
      camel_db_reader_lock is over at once for the owner, and else with the read-write lock. */
  function ReadGiven(s: Db, e: Event, t: Id): int {
    if e.t != t then 0
    else if e.a == AcquireRead || (e.a == LockRead && s.owner == Some(t)) then 1
    else if e.a == UnlockRead then -1
    else 0
  }

  function WriteGiven(s: Db, e: Event, t: Id): int {
    if e.t != t then 0
    else if e.a == RecordWrite || (e.a == LockWrite && s.owner == Some(t)) then 1
    else if e.a == UnlockWrite then -1
    else 0
  }

  /** The reader locks that `t` is given in the run, less those it gives back. */
  function ReadTally(s: Db, run: seq<Event>, t: Id): int
    decreases |run|
  {
    if run == [] then 0 else ReadGiven(s, run[0], t) + ReadTally(Apply(s, run[0].t, run[0].a), run[1..], t)
  }

  function WriteTally(s: Db, run: seq<Event>, t: Id): int
    decreases |run|
  {
    if run == [] then 0 else WriteGiven(s, run[0], t) + WriteTally(Apply(s, run[0].t, run[0].a), run[1..], t)
  }

  lemma StepTally(s: Db, e: Event, t: Id)
    requires Proper(s, e.t, e.a)
    ensures var s' := Apply(s, e.t, e.a);
      && s'.At(t).reading == s.At(t).reading + ReadGiven(s, e, t)
      && s'.At(t).writing == s.At(t).writing + WriteGiven(s, e, t)
  {
    if e.t == t {
      OwnReads(s, t, e.a);
      OwnWrites(s, t, e.a);
    }
  }

  lemma OwnReads(s: Db, t: Id, a: Action)
    requires Proper(s, t, a)
    ensures Apply(s, t, a).At(t).reading == s.At(t).reading + ReadGiven(s, Event(t, a), t)
  {
    match a
    case LockRead =>
    case AcquireRead =>
    case UnlockRead =>
    case _ =>
  }

  lemma OwnWrites(s: Db, t: Id, a: Action)
    requires Proper(s, t, a)
    ensures Apply(s, t, a).At(t).writing == s.At(t).writing + WriteGiven(s, Event(t, a), t)
  {
    match a
    case LockWrite =>
    case RecordWrite =>
    case UnlockWrite =>
    case _ =>
  }

  lemma {:induction false} RunTally(s: Db, run: seq<Event>, t: Id)
    requires Disciplined(s, run)
    ensures End(s, run).At(t).reading == s.At(t).reading + ReadTally(s, run, t)
    ensures End(s, run).At(t).writing == s.At(t).writing + WriteTally(s, run, t)
    decreases |run|
  {
    hide Apply, Proper;
    if run != [] {
      StepTally(s, run[0], t);
      RunTally(Apply(s, run[0].t, run[0].a), run[1..], t);
    }
  }

  /** The locks that threads have been given exclude each other: with a writer lock `t` is the owner and no
      other thread has any lock; with a reader lock and no writer lock it holds the read-write lock as often,
      and nobody gets it for writing. */
  lemma Exclusion(run: seq<Event>, t: Id, u: Id)
    requires Possible(START, run) && Disciplined(START, run)
    ensures ReadTally(START, run, t) >= 0 && WriteTally(START, run, t) >= 0
    ensures var s := End(START, run);
      WriteTally(START, run, t) > 0 ==>
        && s.owner == Some(t) && s.writer == Some(t) && s.level == WriteTally(START, run, t)
        && (u != t ==> ReadTally(START, run, u) == WriteTally(START, run, u) == 0)
        && !Enabled(s, u, AcquireRead) && !Enabled(s, u, AcquireWrite)
    ensures var s := End(START, run);
      ReadTally(START, run, t) > 0 && WriteTally(START, run, t) == 0 ==>
        && s.readers[t] == ReadTally(START, run, t) + (if s.At(t).pc == DropRead then 1 else 0)
        && s.writer == None && WriteTally(START, run, u) == 0 && !Enabled(s, u, AcquireWrite)
  {
    StartInv();
    RunKeeps(START, run);
    RunTally(START, run, t);
    RunTally(START, run, u);
    var s := End(START, run);
    assert Fits(s, t) && Fits(s, u);
    assert s.readers[t] > 0 ==> t in s.readers;
  }

  /** A reader and a writer: the writer waits while the reader has its lock, and gets it afterwards. */
  lemma WriterWaits(t: Id, u: Id)
    requires t != u
    ensures var s := Apply(Apply(Apply(START, t, LockRead), t, AcquireRead), u, LockWrite);
      var r := Apply(Apply(s, t, UnlockRead), t, ReleaseRead);
      !Enabled(s, u, AcquireWrite) && Enabled(r, u, AcquireWrite)
  {
    var s := Apply(Apply(Apply(START, t, LockRead), t, AcquireRead), u, LockWrite);
    assert s.readers == multiset{t} && t in s.readers;
  }

  // ---------------------------------------------------------------- why the rules are needed

  /** When a thread gives back a writer lock it has taken, it holds every reader lock it is still to
      give back, or is still the owner, exactly if it keeps to the rule. */
  lemma UnlockExact(s: Db, t: Id)
    requires Inv(s) && Enabled(s, t, UnlockWrite) && s.At(t).writing > 0
    ensures var s' := Apply(s, t, UnlockWrite);
      (s'.owner == Some(t) || s'.readers[t] == s'.At(t).reading) <==> Proper(s, t, UnlockWrite)
  {
    assert Fits(s, t);
  }

  /** A step of another thread does not change what thread `t` has read-locked, or where it is. */
  lemma OthersStep(s: Db, u: Id, a: Action, t: Id)
    requires u != t
    ensures Apply(s, u, a).At(t) == s.At(t) && Apply(s, u, a).readers[t] == s.readers[t]
    ensures s.owner != Some(t) ==> Apply(s, u, a).owner != Some(t)
  {
  }

  lemma {:induction false} OthersRun(s: Db, others: seq<Event>, t: Id)
    requires forall e :: e in others ==> e.t != t
    ensures var s' := End(s, others);
      s'.At(t) == s.At(t) && s'.readers[t] == s.readers[t] && (s.owner != Some(t) ==> s'.owner != Some(t))
    decreases |others|
  {
    hide Apply;
    if others != [] {
      var e := others[0];
      assert e in others && forall f :: f in others[1..] ==> f in others;
      OthersStep(s, e.t, e.a, t);
      OthersRun(Apply(s, e.t, e.a), others[1..], t);
    }
  }


  /** A thread that gives back its last writer lock while it has a reader lock left: whatever the
      others do meanwhile, it then gives the reader lock back although it does not hold it. */
  lemma TooEarly(run: seq<Event>, t: Id, others: seq<Event>, more: seq<Event>)
    requires Possible(START, run) && Disciplined(START, run)
    requires End(START, run).At(t).pc == Free && End(START, run).At(t).writing == 1 && End(START, run).At(t).reading > 0
    requires Possible(Apply(End(START, run), t, UnlockWrite), others)
    requires Possible(Apply(End(Apply(End(START, run), t, UnlockWrite), others), t, ReleaseWrite), more)
    requires forall e :: e in others || e in more ==> e.t != t
    ensures var s := End(START, run);
      var s1 := End(Apply(s, t, UnlockWrite), others);
      var s2 := End(Apply(s1, t, ReleaseWrite), more);
      var s3 := Apply(s2, t, UnlockRead);
      && Enabled(s, t, UnlockWrite) && !Proper(s, t, UnlockWrite)
      && Enabled(s1, t, ReleaseWrite) && Enabled(s2, t, UnlockRead)
      && s3.At(t).pc == DropRead && s3.readers[t] == 0
  {
    StartInv();
    RunKeeps(START, run);
    var s := End(START, run);
    assert Fits(s, t);
    OthersRun(Apply(s, t, UnlockWrite), others, t);
    OthersRun(Apply(End(Apply(s, t, UnlockWrite), others), t, ReleaseWrite), more, t);
  }

  lemma UnnestedSteps(t: Id)
    ensures var s1 := Apply(START, t, LockWrite);
      var s2 := Apply(s1, t, AcquireWrite);
      var s3 := Apply(s2, t, RecordWrite);
      var s4 := Apply(s3, t, LockRead);
      var s5 := Apply(s4, t, UnlockWrite);
      var s6 := Apply(s5, t, ReleaseWrite);
      var s7 := Apply(s6, t, UnlockRead);
      && Enabled(START, t, LockWrite) && Enabled(s1, t, AcquireWrite) && Enabled(s2, t, RecordWrite)
      && Enabled(s3, t, LockRead) && Enabled(s4, t, UnlockWrite) && Enabled(s5, t, ReleaseWrite)
      && Enabled(s6, t, UnlockRead)
      && Proper(START, t, LockWrite) && Proper(s1, t, AcquireWrite) && Proper(s2, t, RecordWrite)
      && Proper(s3, t, LockRead) && !Proper(s4, t, UnlockWrite)
      && s7.At(t).pc == DropRead && s7.readers == multiset{}
  {
  }

  /** The shortest such run. */
  lemma Unnested(t: Id)
    ensures var run := [Event(t, LockWrite), Event(t, AcquireWrite), Event(t, RecordWrite), Event(t, LockRead),
                        Event(t, UnlockWrite), Event(t, ReleaseWrite), Event(t, UnlockRead)];
      && Possible(START, run) && Disciplined(START, run[..4]) && !Disciplined(START, run)
      && End(START, run).At(t).pc == DropRead && End(START, run).readers == multiset{}
  {
    hide Possible, Disciplined, End, Apply, Enabled, Proper;
    UnnestedSteps(t);
    var a := [Event(t, UnlockRead)];
    var b := [Event(t, ReleaseWrite)] + a;
    var c := [Event(t, UnlockWrite)] + b;
    var d, d' := [Event(t, LockRead)] + c, [Event(t, LockRead)];
    var e, e' := [Event(t, RecordWrite)] + d, [Event(t, RecordWrite)] + d';
    var f, f' := [Event(t, AcquireWrite)] + e, [Event(t, AcquireWrite)] + e';
    var g, g' := [Event(t, LockWrite)] + f, [Event(t, LockWrite)] + f';
    var s1 := Apply(START, t, LockWrite);
    var s2 := Apply(s1, t, AcquireWrite);
    var s3 := Apply(s2, t, RecordWrite);
    var s4 := Apply(s3, t, LockRead);
    var s5 := Apply(s4, t, UnlockWrite);
    var s6 := Apply(s5, t, ReleaseWrite);
    var s7 := Apply(s6, t, UnlockRead);
    RunNil(s4);
    RunNil(s7);
    RunCons(s6, t, UnlockRead, []);
    assert a == [Event(t, UnlockRead)] + [] && d' == [Event(t, LockRead)] + [];
    RunCons(s5, t, ReleaseWrite, a);
    RunCons(s4, t, UnlockWrite, b);
    RunCons(s3, t, LockRead, c);
    RunCons(s3, t, LockRead, []);
    RunCons(s2, t, RecordWrite, d);
    RunCons(s2, t, RecordWrite, d');
    RunCons(s1, t, AcquireWrite, e);
    RunCons(s1, t, AcquireWrite, e');
    RunCons(START, t, LockWrite, f);
    RunCons(START, t, LockWrite, f');
    assert g == [Event(t, LockWrite), Event(t, AcquireWrite), Event(t, RecordWrite), Event(t, LockRead),
                 Event(t, UnlockWrite), Event(t, ReleaseWrite), Event(t, UnlockRead)];
    assert g[..4] == g';
  }

  lemma RunNil(s: Db)
    ensures Possible(s, []) && Disciplined(s, []) && End(s, []) == s
  {
  }

  lemma RunCons(s: Db, t: Id, a: Action, run: seq<Event>)
    ensures var r, s' := [Event(t, a)] + run, Apply(s, t, a);
      && (Possible(s, r) <==> Enabled(s, t, a) && Possible(s', run))
      && (Disciplined(s, r) <==> Proper(s, t, a) && Disciplined(s', run))
      && End(s, r) == End(s', run)
  {
    assert ([Event(t, a)] + run)[1..] == run;
  }

  /** A thread that asks to write while it reads waits forever, whatever the others do. */
  lemma Upgrade(s: Db, t: Id, others: seq<Event>)
    requires s.At(t).pc == WantWrite && s.readers[t] > 0
    requires forall e :: e in others ==> e.t != t
    ensures End(s, others).At(t).pc == WantWrite && !Enabled(End(s, others), t, AcquireWrite)
  {
    OthersRun(s, others, t);
    assert t in End(s, others).readers;
  }
}
