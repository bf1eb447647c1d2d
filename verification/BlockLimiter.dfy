/** camel-block-file.c: how many block files have an open descriptor. The files not in use wait in a
    list for the whole process, and opening a file closes others when there are too many. */
module BlockLimiter {
  class File {
    /** The file has a descriptor. */
    var online: bool
    var deleted: bool

    constructor ()
      ensures !online && !deleted
    {
      online, deleted := false, false;
    }
  }

  predicate Distinct(q: seq<File>) {
    forall i, j :: 0 <= i < j < |q| ==> q[i] != q[j]
  }

  /** The list without a file. */
  function Without(q: seq<File>, f: File): (r: seq<File>)
    ensures forall g :: g in r ==> g in q && g != f
    ensures forall g :: g in q && g != f ==> g in r
    ensures Distinct(q) ==> Distinct(r)
    ensures f !in q ==> r == q
  {
    if q == [] then [] else if q[0] == f then Without(q[1..], f) else
      var rest := Without(q[1..], f);
      assert Distinct(q) ==> Distinct(q[1..]) && q[0] !in rest;
      [q[0]] + rest
  }

  /** The others stay in their order. */
  lemma {:induction false} WithoutSplit(x: seq<File>, f: File, y: seq<File>)
    requires f !in x && f !in y
    ensures Without(x + [f] + y, f) == x + y
  {
    var q := x + [f] + y;
    if x == [] {
      assert q[1..] == y;
    } else {
      WithoutSplit(x[1..], f, y);
      assert q[1..] == x[1..] + [f] + y;
    }
  }

  class Limiter {
    /** block_file_list and block_file_active_list. */
    var idle: seq<File>
    var active: seq<File>
    var count: int
    const threshold: int

    constructor ()
      ensures Valid() && idle == [] && active == [] && threshold == 10
    {
      idle, active, count, threshold := [], [], 0, 10;
    }

    ghost function Live(): set<File>
      reads this`idle, this`active
    {
      (set f | f in idle) + (set f | f in active)
    }

    ghost function Online(): set<File>
      reads this`idle, this`active, Live()`online
    {
      set f | f in Live() && f.online
    }

    /** Each live file is on exactly one of the lists, once, and the count is that of the open
        descriptors. */
    ghost predicate Valid()
      reads this, Live()`online
    {
      && Distinct(idle) && Distinct(active) && (forall f :: f in idle ==> f !in active)
      && count == |Online()|
    }

    /** camel_block_file_init. */
    method Add(f: File)
      requires Valid() && f !in Live() && !f.online
      modifies this
      ensures Valid() && Live() == old(Live()) + {f} && idle == [f] + old(idle) && active == old(active)
      ensures Online() == old(Online()) && count == old(count)
    {
      idle := [f] + idle;
      assert Live() == old(Live()) + {f};
      assert Online() == old(Online());
    }

    /** One file on the list loses its descriptor. */
    method Close(f: File)
      requires Valid() && f in Live() && f.online
      modifies this`count, f`online
      ensures Valid() && !f.online && count == old(count) - 1
    {
      f.online := false;
      count := count - 1;
      assert Online() == old(Online()) - {f};
    }

    /** The loop of block_file_use: from the head of the list on, close the open files whose locks
        are free, until there are few enough. It stops at `reached`. */
    method CloseOld(free: File -> bool) returns (ghost reached: nat)
      requires Valid()
      modifies this`count, Live()`online
      ensures Valid()
      ensures reached <= |idle| && (reached == |idle| || count <= threshold)
      ensures forall i :: 0 <= i < reached ==> idle[i].online == (old(idle[i].online) && !free(idle[i]))
      ensures forall i :: reached <= i < |idle| ==> idle[i].online == old(idle[i].online)
      ensures forall f: File :: f in active ==> f.online == old(f.online)
      ensures old(count) <= threshold ==> reached == 0
      ensures old(count) >= threshold ==> count >= threshold
    {
      var k := 0;
      while k < |idle| && count > threshold
        invariant 0 <= k <= |idle| && Valid()
        invariant forall i :: 0 <= i < k ==> idle[i].online == (old(idle[i].online) && !free(idle[i]))
        invariant forall i :: k <= i < |idle| ==> idle[i].online == old(idle[i].online)
        invariant forall f: File :: f in active ==> f.online == old(f.online)
        invariant old(count) <= threshold ==> k == 0
        invariant old(count) >= threshold ==> count >= threshold
      {
        var f := idle[k];
        if f.online && free(f) {
          Close(f);
        }
        k := k + 1;
      }
      reached := k;
    }

    /** block_file_use. A file that is open already stays where it is in the list, so files are
        closed in the order in which they were opened, not used. In a process where one file is used
        at a time, there are never more open files than the threshold. */
    method Use(f: File, opens: bool, free: File -> bool) returns (ok: bool)
      requires Valid() && f in Live() && threshold > 0
      modifies this, f`online, Live()`online
      ensures Valid() && Live() == old(Live()) && f.deleted == old(f.deleted)
      ensures ok == (old(f.online) || (!f.deleted && opens)) && f.online == ok
      ensures old(f.online) || !ok ==> idle == old(idle) && active == old(active) && count == old(count)
      ensures !old(f.online) && ok ==>
        idle == Without(old(idle), f) && active == (if f in old(active) then old(active) else old(active) + [f])
      ensures ok && old(active) == [] && old(count) <= threshold && (forall g: File :: free(g)) ==> count <= threshold
      ensures forall g: File :: g in old(idle) && g != f && g.online != old(g.online) ==> !g.online && free(g)
    {
      if f.online { return true; }
      if f.deleted || !opens { return false; }
      hide Without, Distinct, Live, Online, Valid;
      GoOnline(f, free);
      ok := true;
    }

    /** The file goes to the list of those in use, and others lose their descriptors. */
    method GoOnline(f: File, free: File -> bool)
      requires Valid() && f in Live() && !f.online && threshold > 0
      modifies this, f`online, Live()`online
      ensures Valid() && Live() == old(Live()) && f.online
      ensures idle == Without(old(idle), f) && active == if f in old(active) then old(active) else old(active) + [f]
      ensures old(active) == [] && (forall g: File :: free(g)) ==> count <= threshold
      ensures forall g: File :: g in old(idle) && g != f && g.online != old(g.online) ==> !g.online && free(g)
    {
      hide Without, Distinct, Live, Online, Valid;
      Enter(f);
      ghost var queue := idle;
      assert f !in queue && forall g :: g in queue ==> g in old(idle);
      ghost var reached := CloseOld(free);
      forall g: File | g in old(idle) && g != f && g.online != old(g.online) ensures !g.online && free(g) {
        if g in queue { var i :| 0 <= i < |queue| && queue[i] == g; }
      }
      if count > threshold && old(active) == [] && forall g: File :: free(g) {
        OnlyOne(f);
      }
    }

    /** With every file of the list closed, only the one in use is open. */
    lemma OnlyOne(f: File)
      requires Valid() && active == [f] && forall i :: 0 <= i < |idle| ==> !idle[i].online
      ensures count <= 1
    {
      assert Online() <= {f};
      assert Online() == {f} || Online() == {};
    }

    /** The file has a descriptor, and goes to the list of those in use. */
    method Enter(f: File)
      requires Valid() && f in Live() && !f.online
      modifies this, f`online
      ensures Valid() && Live() == old(Live()) && f.online && f in active && count == old(count) + 1
      ensures idle == Without(old(idle), f) && active == if f in old(active) then old(active) else old(active) + [f]
    {
      f.online := true;
      if f in idle {
        idle := Without(idle, f);
        active := active + [f];
      }
      count := count + 1;
      assert Live() == old(Live());
      assert Online() == old(Online()) + {f};
    }

    /** block_file_unuse. */
    method Unuse(f: File)
      requires Valid() && f in Live()
      modifies this
      ensures Valid() && Live() == old(Live()) && count == old(count)
      ensures active == Without(old(active), f) && idle == if f in old(active) then old(idle) + [f] else old(idle)
    {
      if f in active {
        active := Without(active, f);
        idle := idle + [f];
      }
      assert Live() == old(Live());
      assert Online() == old(Online());
    }

    /** camel_block_file_delete. */
    method Delete(f: File)
      requires Valid() && f in Live()
      modifies this`count, f
      ensures Valid() && !f.online && f.deleted && Online() == old(Online()) - {f}
    {
      if f.online {
        Close(f);
      }
      f.deleted := true;
      assert Online() == old(Online()) - {f};
    }

    /** block_file_finalize: the file leaves whichever list it is on. */
    method Finalize(f: File)
      requires Valid() && f in Live()
      modifies this
      ensures Valid() && Live() == old(Live()) - {f} && Online() == old(Online()) - {f}
    {
      if f.online {
        count := count - 1;
      }
      idle := Without(idle, f);
      active := Without(active, f);
      assert Live() == old(Live()) - {f};
      assert Online() == old(Online()) - {f};
    }
  }
}
