/** The rounds of group_root_set on the heap: gather the root subjects, then merge the roots of each.

    Each method is one arm of the merging loop. Its contract names the move on the forest that it
    makes, and says that the lists in memory draw the forest after that move; that the moves keep
    the invariant of the loop is proved on the forest alone. */
module ThreadSubjects {
  import opened Wrappers
  import opened ThreadForest
  import opened ThreadTops
  import opened ThreadMoves
  import opened ThreadRegroup
  import opened ThreadKeep
  import opened ThreadGroup

  /** The heap holds the root set `s` at `list`: the forest, the keys of its nodes, and the
      parents remove_node relies on. */
  ghost predicate Roots(list: Node?, s: Groups)
    requires Tables(s)
    reads Nodes(s.w), s.key.Keys, s.table.Values
  {
    && Seg(list, Is(null), s.w, null, true)
    && (forall x :: x in s.key ==> x.rootSubject == s.key[x].subject && x.re == s.key[x].re)
    && (forall t :: t in s.table && s.table[t] !in Tops(s.w) ==>
          assert Placed(s.w, s.table[t]); s.table[t].parent == Holder(s.w, s.table[t]))
  }

  /** The container of a subject is where the tables say, and remove_node will find it. */
  lemma ContainerOk(list: Node?, s: Groups, c: Node, e: Node)
    requires Tables(s) && Roots(list, s) && Match(s, c, e)
    ensures Placed(s.w, e) && TreeOk(s.w, e) && (TreeMsg(s.w, e).None? <==> e.item == None)
    ensures e.parent == if e in Tops(s.w) then null else Holder(s.w, e)
    ensures TreeOk(s.w, c) && (MsgAt(s.w, c).None? <==> c.item == None) && c.parent == null
  {
    hide Seg, Distinct, KidsAt, Nodes, Before, After, Tops, Adopted;
    MatchProps(s, c, e);
    var t := s.key[c].subject.value;
    assert s.table[t] == e;
    SegSplit(list, Is(null), s.w, c, null, true);
    if e in Tops(s.w) {
      SegSplit(list, Is(null), s.w, e, null, true);
    } else {
      HolderProps(s.w, e);
      var h := Holder(s.w, e);
      SegSplit(list, Is(null), s.w, h, null, true);
      SegSplit(h.child, Any, KidsAt(s.w, h), e, null, true);
    }
  }

  // ---------------------------------------------------------------- one round of the merging loop

  /** `c` is empty and so is its container: hand over the children and drop `c`. */
  method MergeEmpty(list: Node?, clast: Node?, c: Node, container: Node, ghost s: Groups) returns (list': Node?)
    requires Tables(s) && Roots(list, s) && Match(s, c, container)
    requires c.item == None && container.item == None && clast == Tail(Before(s.w, c))
    modifies Nodes(s.w)`next, Nodes(s.w)`child
    ensures MayMerge(s, c, container) && Tables(Merge(s, c, container)) && Roots(list', Merge(s, c, container))
  {
    hide Seg, Distinct, KidsAt, Nodes, Before, After, Tops, Adopted, Tail;
    ghost var e := container;
    MatchProps(s, c, e);
    ContainerOk(list, s, c, e);
    assert Lodged(s, e);
    TopsNodes(s.w);
    SplitDistinct(s.w, c);
    UnlinkFrame(s.w, c, clast);
    NodesAllocated(s.w);
    DetachNodes(s.w, c);
    DetachAt(s.w, c, e);
    list' := Unlink(list, clast, c, Is(null), s.w, true);
    ghost var w := CutTop(s.w, c);
    SplitDistinct(w, e);
    StealChildren(container, c.child, list', w, KidsAt(s.w, c));
    MergeTables(s, c, e);
    MergeRoots(list', s, c, e);
  }

  lemma MergeRoots(list: Node?, s: Groups, c: Node, e: Node)
    requires Tables(s) && Match(s, c, e) && MayMerge(s, c, e) && Tables(Merge(s, c, e))
    requires Seg(list, Is(null), Merge(s, c, e).w, null, true)
    requires forall x :: x in s.key ==> x.rootSubject == s.key[x].subject && x.re == s.key[x].re
    requires forall t :: t in s.table && s.table[t] !in Tops(s.w) ==>
      assert Placed(s.w, s.table[t]); s.table[t].parent == Holder(s.w, s.table[t])
    ensures Roots(list, Merge(s, c, e))
  {
    var s' := Merge(s, c, e);
    forall t | t in s'.table && s'.table[t] !in Tops(s'.w)
      ensures Placed(s'.w, s'.table[t]) && s'.table[t].parent == Holder(s'.w, s'.table[t])
    {
      MergeOther(s, c, e, t);
    }
  }

  /** `c` goes under its container: an empty one, or a message that is no reply while `c` is. */
  method PutUnder(list: Node?, clast: Node?, c: Node, container: Node, ghost s: Groups) returns (list': Node?)
    requires Tables(s) && Roots(list, s) && Match(s, c, container)
    requires c.item != None && (container.item == None || (c.re && !container.re))
    requires clast == Tail(Before(s.w, c))
    modifies Nodes(s.w)`next, Nodes(s.w)`child, c`parent
    ensures MayMerge(s, c, container) && Tables(Merge(s, c, container)) && Roots(list', Merge(s, c, container))
  {
    hide Seg, Distinct, KidsAt, Nodes, Before, After, Tops, Adopted, Tail;
    ghost var e := container;
    MatchProps(s, c, e);
    ContainerOk(list, s, c, e);
    TopsNodes(s.w);
    PlacedIn(s.w, e);
    SplitDistinct(s.w, c);
    UnlinkFrame(s.w, c, clast);
    NodesAllocated(s.w);
    DetachNodes(s.w, c);
    DetachPlaced(s.w, c, e);
    list' := Unlink(list, clast, c, Is(null), s.w, true);
    AddChild(container, c, list', CutTop(s.w, c), MsgAt(s.w, c), KidsAt(s.w, c));
    MergeTables(s, c, e);
    MergeRoots(list', s, c, e);
  }

  /** The empty `c` takes its container, a message, as a child. */
  method AdoptContainer(list: Node?, clast: Node?, c: Node, container: Node, ghost s: Groups) returns (list': Node?)
    requires Tables(s) && Roots(list, s) && Match(s, c, container)
    requires c.item == None && container.item != None
    modifies Nodes(s.w)`next, Nodes(s.w)`child, container`parent
    ensures Placed(s.w, container) && MsgAt(s.w, c).None? && TreeMsg(s.w, container).Some?
    ensures Tables(Adopt(s, c, container)) && Roots(list', Adopt(s, c, container))
  {
    hide Seg, Distinct, KidsAt, Nodes, Before, After, Tops, Adopted, Tail;
    ghost var e := container;
    MatchProps(s, c, e);
    ContainerOk(list, s, c, e);
    TopsNodes(s.w);
    PlacedIn(s.w, e);
    NodesAllocated(s.w);
    DetachNodes(s.w, e);
    DetachAt(s.w, e, c);
    var clast': Node?;
    list', clast' := RemoveNode(list, container, clast, s.w);
    AddChild(c, container, list', Detach(s.w, e), TreeMsg(s.w, e), TreeKids(s.w, e));
    AdoptTables(s, c, e);
    AdoptRoots(list', s, c, e);
  }

  lemma AdoptRoots(list: Node?, s: Groups, c: Node, e: Node)
    requires Tables(s) && Match(s, c, e) && MsgAt(s.w, c).None? && Placed(s.w, e) && TreeMsg(s.w, e).Some?
    requires Tables(Adopt(s, c, e)) && e.parent == c
    requires Seg(list, Is(null), Adopt(s, c, e).w, null, true)
    requires forall x :: x in s.key ==> x.rootSubject == s.key[x].subject && x.re == s.key[x].re
    requires forall t :: t in s.table && s.table[t] != e && s.table[t] !in Tops(s.w) ==>
      assert Placed(s.w, s.table[t]); s.table[t].parent == Holder(s.w, s.table[t])
    ensures Roots(list, Adopt(s, c, e))
  {
    var s' := Adopt(s, c, e);
    AdoptForest(s, c, e);
    forall t | t in s'.table && s'.table[t] !in Tops(s'.w)
      ensures Placed(s'.w, s'.table[t]) && s'.table[t].parent == Holder(s'.w, s'.table[t])
    {
      if s.table[t] != e { AdoptOther(s, c, e, t); }
    }
  }

  /** The phantom takes the place of `c`, and first `c`, then the container become its children. */
  method BuildPhantom(list: Node?, clast: Node?, c: Node, container: Node, ghost w: Forest,
                      ghost m: Option<Msg>, ghost k: Forest)
    returns (list': Node?, scan: Node)
    requires Distinct(w) && c in Tops(w) && clast == Tail(Before(w, c)) && MsgAt(w, c).Some? && m.Some?
    requires Seg(list, Is(null), CutTop(w, c), null, true) && c.next == First(After(w, c), null)
    requires Carries(c, MsgAt(w, c)) && Seg(c.child, Is(c), KidsAt(w, c), null, true)
    requires container !in Nodes(w) && container !in Nodes(k) && Nodes(k) !! Nodes(w) && Distinct(k)
    requires Carries(container, m) && Seg(container.child, Is(container), k, null, true)
    modifies Nodes(CutTop(w, c))`next, c`next, c`parent, container`next, container`parent
    ensures fresh(scan) && scan.parent == null && container.parent == scan
    ensures scan.rootSubject == c.rootSubject && scan.re == (c.re && container.re)
    ensures Seg(list', Is(null),
                Replace(w, c, scan, None, Cons(container, m, k, Cons(c, MsgAt(w, c), KidsAt(w, c), Nil))), null, true)
  {
    hide Seg, Distinct, KidsAt, MsgAt, Nodes, Before, After, Tops, Adopted, Tail, CutTop;
    ghost var mc, kc := MsgAt(w, c), KidsAt(w, c);
    CutProps(w, c);
    SplitDistinct(w, c);
    UnlinkFrame(w, c, clast);
    NodesAllocated(w);
    NodesAllocated(k);
    NodesAllocated(kc);
    NodesAllocated(CutTop(w, c));
    scan := new Node();
    scan.rootSubject := c.rootSubject;
    scan.re := c.re && container.re;
    list' := InsertAt(list, clast, c, scan, w);
    PhantomChildren(list', c, container, scan, w, m, k);
  }

  method PhantomChildren(list: Node?, c: Node, container: Node, scan: Node, ghost w: Forest,
                         ghost m: Option<Msg>, ghost k: Forest)
    requires Distinct(w) && c in Tops(w) && MsgAt(w, c).Some? && m.Some?
    requires Seg(list, Is(null), Replace(w, c, scan, None, Nil), null, true)
    requires Carries(c, MsgAt(w, c)) && Seg(c.child, Is(c), KidsAt(w, c), null, true)
    requires container !in Nodes(w) && container !in Nodes(k) && Nodes(k) !! Nodes(w) && Distinct(k)
    requires Carries(container, m) && Seg(container.child, Is(container), k, null, true)
    requires scan !in Nodes(w) && scan != container && scan !in Nodes(k)
    modifies scan`child, c`next, c`parent, container`next, container`parent
    ensures container.parent == scan
    ensures Seg(list, Is(null),
                Replace(w, c, scan, None, Cons(container, m, k, Cons(c, MsgAt(w, c), KidsAt(w, c), Nil))), null, true)
  {
    hide Seg, Distinct, KidsAt, MsgAt, Nodes, Tops, Adopted, CutTop, Replace, SetKids, TreeKids;
    ghost var mc, kc := MsgAt(w, c), KidsAt(w, c);
    TopsNodes(w);
    SplitDistinct(w, c);
    NodesAllocated(k);
    PhantomKids(w, c, scan, container, mc, kc, m, k);
    AddChild(scan, c, list, Replace(w, c, scan, None, Nil), mc, kc);
    AddChild(scan, container, list, Replace(w, c, scan, None, Cons(c, mc, kc, Nil)), m, k);
  }

  /** The three stages of the phantom: no child, `c`, then `e` in front of `c`. */
  lemma PhantomKids(w: Forest, c: Node, scan: Node, e: Node, mc: Option<Msg>, kc: Forest, m: Option<Msg>, k: Forest)
    requires Distinct(w) && c in Tops(w) && scan !in Nodes(w) && scan != e && scan !in Nodes(k)
    requires mc == MsgAt(w, c) && kc == KidsAt(w, c)
    requires e !in Nodes(w) && e !in Nodes(k) && Nodes(k) !! Nodes(w)
    ensures var w0 := Replace(w, c, scan, None, Nil);
      && Distinct(w0) && scan in Tops(w0) && c !in Nodes(w0) && Nodes(kc) !! Nodes(w0) && c !in Nodes(kc)
      && SetKids(w0, scan, Cons(c, mc, kc, TreeKids(w0, scan))) == Replace(w, c, scan, None, Cons(c, mc, kc, Nil))
    ensures var w1 := Replace(w, c, scan, None, Cons(c, mc, kc, Nil));
      && Distinct(w1) && scan in Tops(w1) && e !in Nodes(w1) && Nodes(k) !! Nodes(w1)
      && SetKids(w1, scan, Cons(e, m, k, TreeKids(w1, scan))) ==
         Replace(w, c, scan, None, Cons(e, m, k, Cons(c, mc, kc, Nil)))
  {
    hide Nodes, Tops, Distinct, MsgAt, KidsAt, CutTop, Before, After;
    var one := Cons(c, mc, kc, Nil);
    CutProps(w, c);
    SplitDistinct(w, c);
    NilParts();
    ConsNodes(c, mc, kc, Nil);
    ReplaceNodes(w, c, scan, None, Nil);
    ReplaceNodes(w, c, scan, None, one);
    ReplaceKids(w, c, scan, None, Nil, one);
    ReplaceKids(w, c, scan, None, one, Cons(e, m, k, one));
  }

  /** Both removals: the container from where it is, then `c` from the root list. */
  method TakeBoth(list: Node?, clast: Node?, c: Node, container: Node, ghost s: Groups)
    returns (list': Node?, clast': Node?)
    requires Tables(s) && Roots(list, s) && Match(s, c, container) && MsgAt(s.w, c).Some?
    requires clast == Tail(Before(s.w, c))
    modifies Nodes(s.w)`next, Nodes(s.w)`child
    ensures Placed(s.w, container) && TreeOk(s.w, container)
    ensures var w := Detach(s.w, container);
      && Distinct(w) && c in Tops(w) && MsgAt(w, c) == MsgAt(s.w, c) && KidsAt(w, c) == KidsAt(s.w, c)
      && Seg(list', Is(null), CutTop(w, c), null, true)
      && clast' == Tail(Before(w, c)) && c.next == First(After(w, c), null)
      && Carries(c, MsgAt(w, c)) && Seg(c.child, Is(c), KidsAt(w, c), null, true)
  {
    hide Seg, Distinct, KidsAt, MsgAt, Nodes, Before, After, Tops, Adopted, Tail, CutTop, Detach;
    ghost var e := container;
    MatchProps(s, c, e);
    ContainerOk(list, s, c, e);
    TopsNodes(s.w);
    PlacedIn(s.w, e);
    NodesAllocated(s.w);
    DetachNodes(s.w, e);
    DetachAt(s.w, e, c);
    BeforeDetach(s.w, c, e);
    ghost var w := Detach(s.w, e);
    DetachTop(w, c);
    PairBase(s, c, e);
    NodesAllocated(w);
    list', clast' := RemoveNode(list, container, clast, s.w);
    FirstAfter(list', w, c);
    NodesAllocated(TreeKids(s.w, e));
    var before := clast';
    list', clast' := RemoveNode(list', c, before, w);
    ClastStays(w, c, before);
  }

  lemma DetachTop(w: Forest, n: Node)
    requires n in Tops(w) && Distinct(w)
    ensures Detach(w, n) == CutTop(w, n) && TreeMsg(w, n) == MsgAt(w, n) && TreeKids(w, n) == KidsAt(w, n)
  {
  }

  lemma ClastStays(w: Forest, c: Node, p: Node?)
    requires Distinct(w) && c in Tops(w) && p == Tail(Before(w, c))
    ensures p != c
  {
    UnlinkFrame(w, c, p);
  }

  /** Build a phantom for `c` and its container. */
  method PairUp(list: Node?, clast: Node?, c: Node, container: Node, ghost s: Groups)
    returns (list': Node?, scan: Node, ghost s': Groups)
    requires Tables(s) && Roots(list, s) && Match(s, c, container)
    requires c.item != None && container.item != None && clast == Tail(Before(s.w, c))
    modifies Nodes(s.w)`next, Nodes(s.w)`child, container`parent, c`parent
    ensures fresh(scan) && MayPair(s, c, container, scan) && s' == Pair(s, c, container, scan)
    ensures Tables(s') && Roots(list', s')
  {
    hide Seg, Distinct, KidsAt, MsgAt, Nodes, Before, After, Tops, Adopted, Tail, CutTop, Detach, Replace,
      Pruned, Entry, Carries, ParentOk, TreeMsg, TreeKids;
    ghost var e := container;
    MatchProps(s, c, e);
    ContainerOk(list, s, c, e);
    var clast': Node?;
    list', clast' := TakeBoth(list, clast, c, container, s);
    PairBase(s, c, e);
    DetachNodes(s.w, e);
    ghost var w := Detach(s.w, e);
    NodesAllocated(s.w);
    NodesAllocated(w);
    SplitDistinct(w, c);
    assert forall x :: x in s.key ==> allocated(x);
    list', scan := BuildPhantom(list', clast', c, container, w, TreeMsg(s.w, e), TreeKids(s.w, e));
    s' := Pair(s, c, e, scan);
    PairTables(s, c, e, scan);
    PairRoots(list', s, c, e, scan);
  }

  lemma PairRoots(list: Node?, s: Groups, c: Node, e: Node, scan: Node)
    requires Tables(s) && Match(s, c, e) && MayPair(s, c, e, scan) && Tables(Pair(s, c, e, scan))
    requires Seg(list, Is(null), Pair(s, c, e, scan).w, null, true)
    requires forall x :: x in s.key ==> x.rootSubject == s.key[x].subject && x.re == s.key[x].re
    requires scan.rootSubject == s.key[c].subject && scan.re == (s.key[c].re && s.key[e].re)
    requires forall t :: t in s.table && s.table[t] != e && s.table[t] !in Tops(s.w) ==>
      assert Placed(s.w, s.table[t]); s.table[t].parent == Holder(s.w, s.table[t])
    ensures Roots(list, Pair(s, c, e, scan))
  {
    var s' := Pair(s, c, e, scan);
    PairForest(s, c, e, scan);
    forall t | t in s'.table && s'.table[t] !in Tops(s'.w)
      ensures Placed(s'.w, s'.table[t]) && s'.table[t].parent == Holder(s'.w, s'.table[t])
    {
      if s'.table[t] != scan { PairOther(s, c, e, scan, t); }
    }
  }

  lemma FirstAfter(list: Node?, w: Forest, c: Node)
    requires Distinct(w) && c in Tops(w) && Seg(list, Is(null), w, null, true)
    ensures c.next == First(After(w, c), null)
    ensures c.parent == null
  {
    SegSplit(list, Is(null), w, c, null, true);
    SegFirst(c.next, Is(null), After(w, c), null, true);
  }

  // ---------------------------------------------------------------- gathering the subjects

  /** get_root_subject. */
  method GetRootSubject(c: Node, ghost par: Parent, ghost m: Option<Msg>, ghost kids: Forest) returns (s: Option<string>)
    requires Carries(c, m) && Seg(c.child, par, kids, null, true)
    modifies c`re
    ensures Key(s, c.re) == RootKey(m, kids)
  {
    c.re := false;
    var item := c.item;
    if item == None {
      // an empty root speaks through its first child with a message
      var scan := c.child;
      ghost var todo := kids;
      while scan != null && scan.item == None
        invariant Seg(scan, par, todo, null, true) && FirstKey(todo) == FirstKey(kids)
        invariant !c.re
        decreases todo
      {
        scan := scan.next;
        todo := todo.rest;
      }
      if scan != null { item := scan.item; }
    }
    match item
    case None => s := None;
    case Some(x) =>
      c.re := x.re;
      s := x.subject;
  }

  /** What the table holds once the roots in `seen` have been filed. */
  ghost predicate Filed(f: Forest, seen: set<Node>, table: map<string, Node>, key: map<Node, Key>) {
    && seen <= Tops(f) && key.Keys == seen
    && (forall x :: x in seen ==> key[x] == KeyAt(f, x))
    && (forall t :: t in table ==> table[t] in seen && key[table[t]].subject == Some(t))
    && (forall x :: x in seen && key[x].subject.Some? ==> key[x].subject.value in table)
    && (forall x :: x in seen && key[x].subject.Some? && !key[x].re && MsgAt(f, x).Some? ==>
          var e := table[key[x].subject.value]; MsgAt(f, e).Some? && !key[e].re)
  }

  /** Filing one more root: a message before an empty node, a non-reply before a reply. */
  lemma FileNext(f: Forest, seen: set<Node>, table: map<string, Node>, key: map<Node, Key>, c: Node, table': map<string, Node>)
    requires Distinct(f) && Filed(f, seen, table, key) && c in Tops(f) && c !in seen
    requires forall t :: t in table ==> table[t] in Tops(f)
    requires table' == Filing(f, table, c)
    ensures Filed(f, seen + {c}, table', key[c := KeyAt(f, c)])
  {
    hide MsgAt, KeyAt, Tops, Distinct;
  }

  /** The state in which the merging loop starts. */
  lemma StartInv(f: Forest, table: map<string, Node>, key: map<Node, Key>)
    requires Distinct(f) && Pruned(f) && Filed(f, Tops(f), table, key)
    ensures Inv(f, Groups(f, {}, table, key))
  {
    var s := Groups(f, {}, table, key);
    assert Tables(s) by {
      forall t | t in s.table ensures Placed(s.w, s.table[t]) && Lodged(s, s.table[t]) {
        assert s.table[t] in Tops(f);
      }
    }
    forall x, d | x in Tops(s.w) && d in TreeMsgs(s.w, x) ensures From(f, d, s.key[x].subject) {
      assert InTree(f, x, d, s.key[x].subject);
    }
  }

  lemma ItemAt(list: Node?, f: Forest, x: Node)
    requires Seg(list, Is(null), f, null, true) && x in Tops(f)
    ensures MsgAt(f, x).None? <==> x.item == None
    ensures Carries(x, MsgAt(f, x)) && Seg(x.child, KidsParent(x, MsgAt(f, x), true), KidsAt(f, x), null, true)
  {
    SegSplit(list, Is(null), f, x, null, true);
  }

  /** One round of the gathering loop. */
  method FileRoot(c: Node, table: map<string, Node>, ghost list: Node?, ghost f: Forest, ghost key: map<Node, Key>)
    returns (table': map<string, Node>)
    requires c in Tops(f) && Seg(list, Is(null), f, null, true)
    requires forall t :: t in table ==> table[t] in Tops(f) && table[t] in key && table[t] != c
    requires forall x :: x in key ==> x in Tops(f) && key[x] == KeyAt(f, x) && x.rootSubject == key[x].subject && x.re == key[x].re
    modifies c`re, c`rootSubject
    ensures Key(c.rootSubject, c.re) == KeyAt(f, c)
    ensures table' == Filing(f, table, c)
  {
    hide Seg, Distinct, KidsAt, MsgAt, Nodes, Tops, RootKey;
    NodesAllocated(f);
    ItemAt(list, f, c);
    var subject := GetRootSubject(c, KidsParent(c, MsgAt(f, c), true), MsgAt(f, c), KidsAt(f, c));
    c.rootSubject := subject;
    table' := table;
    match subject {
      case None =>
      case Some(t) =>
        if t in table { ItemAt(list, f, table[t]); }
        if t !in table || (table[t].item == None && c.item != None) || (table[t].re && !c.re) {
          table' := table[t := c];
        }
    }
  }

  /** The first loop of group_root_set. */
  method Gather(list: Node?, ghost f: Forest) returns (table: map<string, Node>, ghost key: map<Node, Key>)
    requires Distinct(f) && Pruned(f) && Seg(list, Is(null), f, null, true)
    modifies Nodes(f)`re, Nodes(f)`rootSubject
    ensures Inv(f, Groups(f, {}, table, key)) && Roots(list, Groups(f, {}, table, key))
    ensures table == Chosen(f) && key.Keys == Tops(f) && forall x :: x in key ==> key[x] == KeyAt(f, x)
  {
    hide Seg, Distinct, KidsAt, MsgAt, Nodes, Tops, Filed, RootKey, Inv, Filing, FileAll, KeyAt, Chosen;
    table, key := map[], map[];
    var c := list;
    ghost var i := 0;
    ghost var o := Order(f);
    OrderTops(f);
    TopsNodes(f);
    NodesAllocated(f);
    FiledNone(f);
    FileAllNone(f);
    assert SetOf(o[..0]) == {} && o[..0] == [];
    if |o| > 0 { SegOrder(list, Is(null), f, null, true, 0); } else { SegEmpty(list, f); }
    while c != null
      invariant 0 <= i <= |o| && c == if i < |o| then o[i] else null
      invariant Seg(list, Is(null), f, null, true)
      invariant Filed(f, SetOf(o[..i]), table, key) && key.Keys == SetOf(o[..i])
      invariant table == FileAll(f, o[..i])
      invariant forall x :: x in key ==> x.rootSubject == key[x].subject && x.re == key[x].re
      decreases |o| - i
    {
      ghost var seen := SetOf(o[..i]);
      OrderAt(f, i);
      SegOrder(list, Is(null), f, null, true, i);
      FiledTable(f, seen, table, key);
      ghost var was := table;
      table := FileRoot(c, table, list, f, key);
      FileNext(f, seen, was, key, c, table);
      FileAllNext(f, o, i);
      SetOfNext(o, i);
      key := key[c := KeyAt(f, c)];
      c := c.next;
      i := i + 1;
    }
    assert o[..i] == o;
    ChosenIs(f);
    StartInv(f, table, key);
    FiledTable(f, Tops(f), table, key);
    InvTables(f, Groups(f, {}, table, key));
  }

  lemma InvTables(f: Forest, s: Groups)
    requires Inv(f, s)
    ensures Tables(s)
  {
  }

  lemma FiledNone(f: Forest)
    ensures Filed(f, {}, map[], map[])
  {
  }

  lemma SegEmpty(list: Node?, f: Forest)
    requires Order(f) == [] && Seg(list, Is(null), f, null, true)
    ensures list == null
  {
  }

  lemma FiledTable(f: Forest, seen: set<Node>, table: map<string, Node>, key: map<Node, Key>)
    requires Filed(f, seen, table, key)
    ensures forall t :: t in table ==> table[t] in Tops(f) && table[t] in key
    ensures forall x :: x in key ==> x in Tops(f) && key[x] == KeyAt(f, x)
  {
  }
}
