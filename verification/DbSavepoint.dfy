/** camel-db.c: nested transactions. Each is a savepoint named by how deep the writer lock is nested,
    and the writer lock may be taken for other reasons in between. */
module DbSavepoint {
  // ---------------------------------------------------------------- names

  function Digit(d: nat): char
    requires d < 10
  {
    "0123456789"[d]
  }

  function Decimal(n: nat): (s: string)
    ensures s != ""
  {
    if n < 10 then [Digit(n)] else Decimal(n / 10) + [Digit(n % 10)]
  }

  /** cdb_construct_transaction_stmt, without the statement itself. */
  function Name(level: nat): string {
    "TN" + Decimal(level)
  }

  lemma DigitInjective(d: nat, e: nat)
    requires d < 10 && e < 10 && Digit(d) == Digit(e)
    ensures d == e
  {
    var s := "0123456789";
    assert forall i, j :: 0 <= i < j < 10 ==> s[i] != s[j];
  }

  lemma {:induction false} DecimalInjective(m: nat, n: nat)
    requires Decimal(m) == Decimal(n)
    ensures m == n
    decreases m + n
  {
    var s, t := Decimal(m), Decimal(n);
    assert s[|s| - 1] == Digit(m % 10) && t[|t| - 1] == Digit(n % 10);
    DigitInjective(m % 10, n % 10);
    if m >= 10 && n >= 10 {
      assert s[..|s| - 1] == Decimal(m / 10) && t[..|t| - 1] == Decimal(n / 10);
      DecimalInjective(m / 10, n / 10);
    } else {
      assert m >= 10 ==> |s| > 1;
      assert n >= 10 ==> |t| > 1;
    }
  }

  lemma NameInjective(m: nat, n: nat)
    requires Name(m) == Name(n)
    ensures m == n
  {
    assert Name(m)[2..] == Decimal(m) && Name(n)[2..] == Decimal(n);
    DecimalInjective(m, n);
  }

  // ---------------------------------------------------------------- the database

  datatype Save<S> = Save(name: string, db: S)

  /** The open savepoint of that name that was made last, or -1. */
  function Find<S>(saves: seq<Save<S>>, name: string): (i: int)
    ensures -1 <= i < |saves|
    ensures i >= 0 ==> saves[i].name == name
    ensures forall j :: i < j < |saves| ==> saves[j].name != name
  {
    if saves == [] then -1
    else if saves[|saves| - 1].name == name then |saves| - 1
    else Find(saves[..|saves| - 1], name)
  }

  datatype Db<S> = Db(level: nat, saves: seq<Save<S>>, db: S)

  /** RELEASE SAVEPOINT: the savepoint and those made after it are gone. */
  function Release<S>(d: Db<S>, name: string): Db<S> {
    var i := Find(d.saves, name);
    if i < 0 then d else d.(saves := d.saves[..i])
  }

  /** ROLLBACK TO SAVEPOINT: the database is as it was then, and later savepoints are gone. */
  function RollbackTo<S>(d: Db<S>, name: string): Db<S> {
    var i := Find(d.saves, name);
    if i < 0 then d else d.(saves := d.saves[..i + 1], db := d.saves[i].db)
  }

  // ---------------------------------------------------------------- the calls

  datatype Call<!S> = Lock | Unlock | Begin | End | Abort | Exec(change: S -> S)

  predicate Callable<S>(d: Db<S>, c: Call<S>) {
    c.Unlock? || c.End? || c.Abort? ==> d.level > 0
  }

  function Step<S>(d: Db<S>, c: Call<S>): Db<S>
    requires Callable(d, c)
  {
    match c
    case Lock => d.(level := d.level + 1)
    case Unlock => d.(level := d.level - 1)
    case Begin => d.(level := d.level + 1, saves := d.saves + [Save(Name(d.level + 1), d.db)])
    case End => Release(d, Name(d.level)).(level := d.level - 1)
    case Abort => Release(RollbackTo(d, Name(d.level)), Name(d.level)).(level := d.level - 1)
    case Exec(change) => d.(db := change(d.db))
  }

  /** The statement of this call names the savepoint made last. */
  predicate Innermost<S>(d: Db<S>, c: Call<S>) {
    c.End? || c.Abort? ==> d.saves != [] && d.saves[|d.saves| - 1].name == Name(d.level)
  }

  predicate NamesDistinct<S>(d: Db<S>) {
    forall i, j :: 0 <= i < j < |d.saves| ==> d.saves[i].name != d.saves[j].name
  }

  /** The run goes through, and is sound at each step. */
  predicate Sound<S>(d: Db<S>, calls: seq<Call<S>>)
    decreases |calls|
  {
    NamesDistinct(d) && (calls != [] ==>
      Callable(d, calls[0]) && Innermost(d, calls[0]) && Sound(Step(d, calls[0]), calls[1..]))
  }

  function After<S>(d: Db<S>, calls: seq<Call<S>>): Db<S>
    requires Sound(d, calls)
    decreases |calls|
  {
    if calls == [] then d else After(Step(d, calls[0]), calls[1..])
  }

  // ---------------------------------------------------------------- balanced runs

  /** A balanced run: changes, writer locks, and transactions that end or are aborted, nested in any
      way. */
  datatype Run<!S> =
    | Nothing
    | Change(change: S -> S)
    | Locked(body: Run)
    | Transaction(body: Run, commit: bool)
    | Then(first: Run, second: Run)

  function Calls<S>(r: Run<S>): seq<Call<S>> {
    match r
    case Nothing => []
    case Change(change) => [Exec(change)]
    case Locked(body) => [Lock] + Calls(body) + [Unlock]
    case Transaction(body, commit) => [Begin] + Calls(body) + [if commit then End else Abort]
    case Then(first, second) => Calls(first) + Calls(second)
  }

  /** What the run means: an aborted transaction has not happened, whatever was committed in it. */
  function Meaning<S>(r: Run<S>, db: S): S {
    match r
    case Nothing => db
    case Change(change) => change(db)
    case Locked(body) => Meaning(body, db)
    case Transaction(body, commit) => if commit then Meaning(body, db) else db
    case Then(first, second) => Meaning(second, Meaning(first, db))
  }

  /** The open savepoints have the names of different levels, not above the present one. */
  predicate Fresh<S>(d: Db<S>, levels: seq<nat>) {
    && |levels| == |d.saves|
    && (forall i :: 0 <= i < |levels| ==> d.saves[i].name == Name(levels[i]) && levels[i] <= d.level)
    && (forall i, j :: 0 <= i < j < |levels| ==> levels[i] < levels[j])
  }

  lemma FreshDistinct<S>(d: Db<S>, levels: seq<nat>)
    requires Fresh(d, levels)
    ensures NamesDistinct(d)
  {
    forall i, j | 0 <= i < j < |d.saves| ensures d.saves[i].name != d.saves[j].name {
      if d.saves[i].name == d.saves[j].name { NameInjective(levels[i], levels[j]); }
    }
  }

  lemma {:induction false} SoundAppend<S>(d: Db<S>, a: seq<Call<S>>, b: seq<Call<S>>)
    requires Sound(d, a) && Sound(After(d, a), b)
    ensures Sound(d, a + b) && After(d, a + b) == After(After(d, a), b)
    decreases |a|
  {
    if a == [] {
      assert a + b == b;
    } else {
      assert (a + b)[0] == a[0] && (a + b)[1..] == a[1..] + b;
      SoundAppend(Step(d, a[0]), a[1..], b);
    }
  }

  /** The savepoint made last is found, released, and rolled back to. */
  lemma Top<S>(d: Db<S>)
    requires d.level > 0 && d.saves != [] && d.saves[|d.saves| - 1].name == Name(d.level)
    ensures var n := |d.saves| - 1;
      && Step(d, End) == Db(d.level - 1, d.saves[..n], d.db)
      && Step(d, Abort) == Db(d.level - 1, d.saves[..n], d.saves[n].db)
  {
    var n := |d.saves| - 1;
    assert Find(d.saves, Name(d.level)) == n;
    assert d.saves[..n + 1] == d.saves;
  }

  lemma FreshBegin<S>(d: Db<S>, levels: seq<nat>)
    requires Fresh(d, levels)
    ensures Fresh(Step(d, Begin), levels + [d.level + 1])
  {
  }

  /** A run between an opening and a closing call. */
  lemma Bracket<S>(d: Db<S>, open: Call<S>, body: Run<S>, close: Call<S>, levels: seq<nat>, inner: seq<nat>)
    requires Fresh(d, levels) && Callable(d, open) && Innermost(d, open)
    requires var e := Step(d, open); Sound(e, Calls(body))
    requires var f := After(Step(d, open), Calls(body));
      Fresh(f, inner) && Callable(f, close) && Innermost(f, close) && Fresh(Step(f, close), levels)
    ensures var all := [open] + Calls(body) + [close];
      Sound(d, all) && After(d, all) == Step(After(Step(d, open), Calls(body)), close)
  {
    var e := Step(d, open);
    var f := After(e, Calls(body));
    FreshDistinct(d, levels);
    FreshDistinct(f, inner);
    FreshDistinct(Step(f, close), levels);
    assert Sound(Step(f, close), []);
    assert [close][1..] == [];
    assert Sound(f, [close]);
    SoundAppend(e, Calls(body), [close]);
    var all := [open] + Calls(body) + [close];
    assert all[0] == open && all[1..] == Calls(body) + [close];
  }

  lemma LockedMeans<S>(body: Run<S>, d: Db<S>, levels: seq<nat>)
    requires Fresh(d, levels)
    requires var e := Step(d, Lock); Sound(e, Calls(body)) && After(e, Calls(body)) == e.(db := Meaning(body, e.db))
    ensures var r := Locked(body); Sound(d, Calls(r)) && After(d, Calls(r)) == d.(db := Meaning(r, d.db))
  {
    Bracket(d, Lock, body, Unlock, levels, levels);
  }

  lemma TransactionIs<S>(body: Run<S>, commit: bool, db: S)
    ensures Meaning(Transaction(body, commit), db) == if commit then Meaning(body, db) else db
    ensures Calls(Transaction(body, commit)) == [Begin] + Calls(body) + [if commit then End else Abort]
  {
  }

  lemma TransactionMeans<S>(body: Run<S>, commit: bool, d: Db<S>, levels: seq<nat>)
    requires Fresh(d, levels)
    requires var e := Step(d, Begin); Sound(e, Calls(body)) && After(e, Calls(body)) == e.(db := Meaning(body, e.db))
    ensures var r := Transaction(body, commit); Sound(d, Calls(r)) && After(d, Calls(r)) == d.(db := Meaning(r, d.db))
  {
    hide Name, Sound, After, Meaning, Release, RollbackTo, Find, Calls;
    var e := Step(d, Begin);
    var f := e.(db := Meaning(body, d.db));
    FreshBegin(d, levels);
    assert f.saves[..|d.saves|] == d.saves;
    Top(f);
    Bracket(d, Begin, body, if commit then End else Abort, levels, levels + [d.level + 1]);
    TransactionIs(body, commit, d.db);
  }

  /** A balanced run goes through, each RELEASE and ROLLBACK names the savepoint made last, open
      savepoints have different names, and in the end there are the same savepoints as before and
      the database is what the run means. */
  lemma {:induction false} RunMeans<S>(r: Run<S>, d: Db<S>, levels: seq<nat>)
    requires Fresh(d, levels)
    ensures Sound(d, Calls(r))
    ensures After(d, Calls(r)) == d.(db := Meaning(r, d.db))
  {
    FreshDistinct(d, levels);
    match r
    case Nothing =>
    case Change(change) =>
      var e := Step(d, Exec(change));
      FreshDistinct(e, levels);
      assert Sound(e, []);
    case Then(first, second) =>
      RunMeans(first, d, levels);
      var e := d.(db := Meaning(first, d.db));
      RunMeans(second, e, levels);
      SoundAppend(d, Calls(first), Calls(second));
    case Locked(body) =>
      RunMeans(body, Step(d, Lock), levels);
      LockedMeans(body, d, levels);
    case Transaction(body, commit) =>
      FreshBegin(d, levels);
      RunMeans(body, Step(d, Begin), levels + [d.level + 1]);
      TransactionMeans(body, commit, d, levels);
  }

  // ---------------------------------------------------------------- the functions of the library

  /** The part of a connection that transactions use, called by the thread that has the writer lock.
      A statement fails when its savepoint is not found; a new savepoint may fail too. */
  class Connection<S> {
    var level: nat
    var saves: seq<Save<S>>
    var db: S

    ghost function Value(): Db<S>
      reads this
    {
      Db(level, saves, db)
    }

    constructor (db: S)
      ensures Value() == Db(0, [], db)
    {
      level, saves, this.db := 0, [], db;
    }

    /** camel_db_begin_transaction. */
    method BeginTransaction(works: bool) returns (success: bool)
      modifies this
      ensures success == works
      ensures Value() == if works then Step(old(Value()), Begin) else old(Value())
    {
      level := level + 1;
      var name := Name(level);
      success := works;
      if success {
        saves := saves + [Save(name, db)];
      } else {
        level := level - 1;
      }
    }

    /** camel_db_end_transaction. */
    method EndTransaction() returns (success: bool)
      requires level > 0
      modifies this
      ensures Value() == Step(old(Value()), End)
      ensures old(Innermost(Value(), End)) ==> success && db == old(db) && saves == old(saves[..|saves| - 1])
    {
      if Innermost(Value(), End) { Top(Value()); }
      success := ReleaseSavepoint(Name(level));
      level := level - 1;
    }

    /** camel_db_abort_transaction. */
    method AbortTransaction() returns (success: bool)
      requires level > 0
      modifies this
      ensures Value() == Step(old(Value()), Abort)
      ensures old(Innermost(Value(), Abort)) ==>
        success && db == old(saves[|saves| - 1].db) && saves == old(saves[..|saves| - 1])
    {
      if Innermost(Value(), Abort) { Top(Value()); }
      var name := Name(level);
      var i := Find(saves, name);
      success := i >= 0;
      if success {
        db := saves[i].db;
        saves := saves[..i + 1];
        success := ReleaseSavepoint(name);
      }
      level := level - 1;
    }

    method ReleaseSavepoint(name: string) returns (success: bool)
      modifies this`saves
      ensures success == (exists i :: 0 <= i < |old(saves)| && old(saves)[i].name == name)
      ensures Value() == Release(old(Value()), name)
    {
      var i := Find(saves, name);
      success := i >= 0;
      if success {
        saves := saves[..i];
      }
    }
  }
}
