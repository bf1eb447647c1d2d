/** sort_thread in place: children first, then an array of the siblings, sorted and relinked. */
module ThreadSorting {
  import opened Wrappers
  import opened ThreadForest
  import opened ThreadTops
  import opened ThreadSort

  // ---------------------------------------------------------------- sorted lists of nodes

  ghost predicate LeadLess(f: Forest, x: Node, y: Node) {
    x in Tops(f) && y in Tops(f) && LeadAt(f, x).Some? && LeadAt(f, y).Some? &&
    Less(LeadAt(f, x).value, LeadAt(f, y).value)
  }

  ghost predicate SortedNodes(f: Forest, s: seq<Node>) {
    forall i, j :: 0 <= i < j < |s| ==> LeadLess(f, s[i], s[j])
  }

  /** A set of siblings can be sorted in one way only. */
  lemma SortedUnique(f: Forest, s: seq<Node>, t: seq<Node>)
    requires SortedNodes(f, s) && SortedNodes(f, t) && SetOf(s) == SetOf(t)
    ensures s == t
  {
    assert s != [] ==> s[0] in SetOf(s);
    assert t != [] ==> t[0] in SetOf(t);
    if s != [] {
      assert s[0] == t[0];
      SortedTail(f, s);
      SortedTail(f, t);
      SortedUnique(f, s[1..], t[1..]);
    }
  }

  lemma SortedTail(f: Forest, s: seq<Node>)
    requires SortedNodes(f, s) && s != []
    ensures SortedNodes(f, s[1..]) && SetOf(s[1..]) == SetOf(s) - {s[0]}
  {
    forall x | x in s[1..] ensures x != s[0] {
      var i :| 1 <= i < |s| && s[i] == x;
      assert LeadLess(f, s[0], s[i]);
    }
  }

  /** The roots of an increasing forest, in order, are sorted. */
  lemma IncreasingSorted(f: Forest)
    requires Distinct(f) && Increasing(f) && Comparable(f)
    ensures SortedNodes(f, Order(f))
  {
    hide Distinct, Beside;
    if f.Cons? {
      IncreasingTail(f);
      IncreasingSorted(f.rest);
      OrderTops(f);
      OrderTops(f.rest);
      TopsNodes(f.rest);
      var o, r := Order(f), Order(f.rest);
      assert forall x :: x in Tops(f.rest) ==> LeadAt(f, x) == LeadAt(f.rest, x);
      forall i, j | 0 <= i < j < |o| ensures LeadLess(f, o[i], o[j]) {
        assert o[j] == r[j - 1] && o[j] in Tops(f.rest);
        if i == 0 {
          assert r[0] == f.rest.node && LeadAt(f.rest, r[0]) == Lead(f.rest.msg, f.rest.kids);
          if j > 1 { assert LeadLess(f.rest, r[0], r[j - 1]); }
        } else {
          assert LeadLess(f.rest, r[i - 1], r[j - 1]);
        }
      }
    }
  }

  lemma IncreasingTail(f: Forest)
    requires Distinct(f) && f.Cons?
    ensures Distinct(f.rest) && f.node !in Nodes(f.rest)
  {
  }

  lemma SortListSorted(f: Forest)
    requires Distinct(f) && Comparable(f)
    ensures Distinct(SortList(f)) && SortedNodes(f, Order(SortList(f))) && SetOf(Order(SortList(f))) == Tops(f)
  {
    SortListDistinct(f);
    SortListKeeps(f);
    SortListIncreasing(f);
    SortListComparable(f);
    IncreasingSorted(SortList(f));
    OrderTops(SortList(f));
    var o := Order(SortList(f));
    forall i, j | 0 <= i < j < |o| ensures LeadLess(f, o[i], o[j]) {
      assert LeadLess(SortList(f), o[i], o[j]);
      SortListAt(f, o[i]);
      SortListAt(f, o[j]);
    }
  }

  lemma SortListComparable(f: Forest)
    requires Comparable(f)
    ensures Comparable(SortList(f))
  {
    if f.Cons? {
      SortListComparable(f.rest);
      SortListBeside(Lead(f.msg, f.kids).value, f.rest);
      InsertComparable(f.node, f.msg, f.kids, SortList(f.rest));
    }
  }

  lemma InsertComparable(n: Node, m: Option<Msg>, k: Forest, f: Forest)
    requires Comparable(Cons(n, m, k, f))
    ensures Comparable(Insert(n, m, k, f))
  {
    if f.Cons? { InsertBeside(Lead(f.msg, f.kids).value, n, m, k, f.rest); }
  }

  // ---------------------------------------------------------------- a forest from its roots

  ghost function Build(s: seq<Node>, f: Forest): Forest
    requires forall x :: x in s ==> x in Tops(f)
  {
    if s == [] then Nil else Cons(s[0], MsgAt(f, s[0]), KidsAt(f, s[0]), Build(s[1..], f))
  }

  /** A forest is determined by the order of its roots and their trees. */
  lemma BuildIs(g: Forest, f: Forest)
    requires Distinct(g)
    requires forall x :: x in Tops(g) ==> x in Tops(f) && MsgAt(f, x) == MsgAt(g, x) && KidsAt(f, x) == KidsAt(g, x)
    ensures (forall x :: x in Order(g) ==> x in Tops(f)) && Build(Order(g), f) == g
  {
    OrderTops(g);
    if g.Cons? {
      TopsNodes(g.rest);
      assert Order(g)[1..] == Order(g.rest);
      BuildIs(g.rest, f);
    }
  }

  lemma BuildSortList(f: Forest)
    requires Distinct(f)
    ensures (forall x :: x in Order(SortList(f)) ==> x in Tops(f)) && Build(Order(SortList(f)), f) == SortList(f)
  {
    SortListDistinct(f);
    SortListKeeps(f);
    forall x | x in Tops(SortList(f)) ensures MsgAt(f, x) == MsgAt(SortList(f), x) && KidsAt(f, x) == KidsAt(SortList(f), x) {
      SortListAt(f, x);
    }
    BuildIs(SortList(f), f);
  }

  // ---------------------------------------------------------------- the trees of a list in the heap

  /** Every tree of `f` is in place, however the roots are linked. */
  ghost predicate TreesOk(par: Parent, f: Forest)
    reads Nodes(f)`next, Nodes(f)`parent, Nodes(f)`child, Nodes(f)`item, Nodes(f)`order
  {
    match f
    case Nil => true
    case Cons(n, m, k, rest) =>
      ParentOk(n, par) && Carries(n, m) && Seg(n.child, KidsParent(n, m, true), k, null, true) && TreesOk(par, rest)
  }

  lemma TreesAt(par: Parent, f: Forest, x: Node)
    requires TreesOk(par, f) && x in Tops(f)
    ensures ParentOk(x, par) && Carries(x, MsgAt(f, x))
    ensures Seg(x.child, KidsParent(x, MsgAt(f, x), true), KidsAt(f, x), null, true)
  {
  }

  lemma SegTrees(p: Node?, par: Parent, f: Forest, q: Node?)
    requires Seg(p, par, f, q, true)
    ensures TreesOk(par, f)
  {
    if f.Cons? { SegTrees(f.node.next, par, f.rest, q); }
  }

  /** sort_node_cb.  The cache of dates saves calls only and is left out. */
  function SortNodeCb(a: Node, b: Node): int
    requires a.item == None ==> a.child != null
    requires b.item == None ==> b.child != null
    reads a, b, a.child, b.child
  {
    var a1: Node := if a.item == None then a.child else a;
    var b1: Node := if b.item == None then b.child else b;
    if a1.item != None && b1.item != None && SortTime(a1.item.value) != SortTime(b1.item.value) then
      if SortTime(a1.item.value) < SortTime(b1.item.value) then -1 else 1
    else if a1.order == b1.order then 0
    else if a1.order < b1.order then -1
    else 1
  }

  lemma SortNodeCbOk(par: Parent, f: Forest, x: Node, y: Node)
    requires TreesOk(par, f) && x in Tops(f) && y in Tops(f) && LeadAt(f, x).Some? && LeadAt(f, y).Some?
    ensures x.item == None ==> x.child != null
    ensures y.item == None ==> y.child != null
    ensures SortNodeCb(x, y) < 0 <==> Less(LeadAt(f, x).value, LeadAt(f, y).value)
    ensures SortNodeCb(x, y) == 0 ==> LeadAt(f, x).value.order == LeadAt(f, y).value.order
    ensures SortNodeCb(x, y) > 0 ==> Less(LeadAt(f, y).value, LeadAt(f, x).value)
    ensures SortNodeCb(x, y) < 0 <==> Earlier(LeadAt(f, x).value, LeadAt(f, y).value)
  {
    LeadHeap(par, f, x);
    LeadHeap(par, f, y);
    LessEarlier(LeadAt(f, x).value, LeadAt(f, y).value);
  }

  lemma LeadHeap(par: Parent, f: Forest, x: Node)
    requires TreesOk(par, f) && x in Tops(f) && LeadAt(f, x).Some?
    ensures x.item == None ==> x.child != null
    ensures var x1: Node := if x.item == None then x.child else x;
      x1.item == Some(LeadAt(f, x).value.item) && x1.order == LeadAt(f, x).value.order
  {
    TreesAt(par, f, x);
    if MsgAt(f, x).None? { SegCons(x.child, Any, KidsAt(f, x), null, true); }
  }

  lemma ComparableAt(f: Forest, x: Node, y: Node)
    requires Comparable(f) && x in Tops(f) && y in Tops(f) && x != y
    ensures LeadAt(f, x).Some? && LeadAt(f, y).Some? && LeadAt(f, x).value.order != LeadAt(f, y).value.order
  {
    if x == f.node {
      BesideAt(LeadAt(f, x).value, f.rest, y);
    } else if y == f.node {
      BesideAt(LeadAt(f, y).value, f.rest, x);
    } else {
      ComparableAt(f.rest, x, y);
    }
  }

  lemma BesideAt(a: Msg, f: Forest, y: Node)
    requires Beside(a, f) && y in Tops(f)
    ensures LeadAt(f, y).Some? && LeadAt(f, y).value.order != a.order
  {
  }

  lemma ComparableSome(f: Forest, x: Node)
    requires Comparable(f) && x in Tops(f)
    ensures LeadAt(f, x).Some?
  {
  }

  // ---------------------------------------------------------------- the code

  /** Put `x` into the sorted list `r`. */
  method InsertNode(r: seq<Node>, x: Node, ghost par: Parent, ghost f: Forest) returns (r': seq<Node>)
    requires TreesOk(par, f) && Comparable(f) && SortedNodes(f, r)
    requires x in Tops(f) && x !in r && forall y :: y in r ==> y in Tops(f)
    ensures SortedNodes(f, r') && SetOf(r') == SetOf(r) + {x} && |r'| == |r| + 1
  {
    hide TreesOk, Comparable, Tops, MsgAt, KidsAt, Less;
    var k := 0;
    NodesAllocated(f);
    ComparableSome(f, x);
    while k < |r|
      invariant 0 <= k <= |r| && TreesOk(par, f)
      invariant forall j :: 0 <= j < k ==> LeadLess(f, r[j], x)
    {
      ComparableAt(f, r[k], x);
      SortNodeCbOk(par, f, r[k], x);
      if SortNodeCb(r[k], x) > 0 { break; }
      k := k + 1;
    }
    if k < |r| {
      ComparableAt(f, r[k], x);
      SortNodeCbOk(par, f, r[k], x);
    }
    r' := r[..k] + [x] + r[k..];
    InsertedSorted(f, r, x, k);
  }

  lemma InsertedSorted(f: Forest, r: seq<Node>, x: Node, k: nat)
    requires SortedNodes(f, r) && k <= |r|
    requires forall j :: 0 <= j < k ==> LeadLess(f, r[j], x)
    requires k < |r| ==> LeadLess(f, x, r[k])
    ensures var r' := r[..k] + [x] + r[k..]; SortedNodes(f, r') && SetOf(r') == SetOf(r) + {x}
  {
    hide Tops, MsgAt, KidsAt;
    var r' := r[..k] + [x] + r[k..];
    forall j | k <= j < |r| ensures LeadLess(f, x, r[j]) {
      if j > k { assert LeadLess(f, r[k], r[j]); }
    }
    assert r == r[..k] + r[k..];
  }

  /** g_qsort_with_data, a sort of the C library: any sort gives the one sorted order. */
  method QSort(carray: array<Node>, ghost par: Parent, ghost f: Forest)
    requires TreesOk(par, f) && Comparable(f)
    requires forall i :: 0 <= i < carray.Length ==> carray[i] in Tops(f)
    requires forall i, j :: 0 <= i < j < carray.Length ==> carray[i] != carray[j]
    modifies carray
    ensures SortedNodes(f, carray[..]) && SetOf(carray[..]) == old(SetOf(carray[..]))
  {
    hide TreesOk, Comparable, Tops, SortedNodes, MsgAt, KidsAt;
    NodesAllocated(f);
    var r: seq<Node> := [];
    ghost var a := carray[..];
    assert SortedNodes(f, r) by { NoNodes(f); }
    for i := 0 to carray.Length
      invariant TreesOk(par, f) && carray[..] == a && |r| == i
      invariant SortedNodes(f, r) && SetOf(r) == SetOf(a[..i]) && forall y :: y in r ==> y in Tops(f)
    {
      assert carray[i] !in SetOf(r);
      r := InsertNode(r, carray[i], par, f);
      SetOfNext(a, i);
      assert forall y :: y in r ==> y in SetOf(r);
    }
    assert a[..carray.Length] == a;
    for i := 0 to carray.Length
      invariant carray[..i] == r[..i]
    {
      carray[i] := r[i];
    }
    assert carray[..] == r;
  }

  lemma NoNodes(f: Forest)
    ensures SortedNodes(f, [])
  {
  }

  /** The siblings of a list, in an array. */
  method Siblings(cp: Node?, size: nat, ghost par: Parent, ghost f: Forest) returns (carray: array<Node>)
    requires Seg(cp, par, f, null, true) && Distinct(f) && size == Length(f) && size > 0
    ensures fresh(carray) && carray[..] == Order(f)
  {
    hide Seg, Distinct;
    NodesAllocated(f);
    OrderLength(f);
    SegOrder(cp, par, f, null, true, 0);
    carray := new Node[size](_ => cp);
    var c: Node? := cp;
    var i := 0;
    while c != null
      invariant 0 <= i <= size && Seg(cp, par, f, null, true)
      invariant c == (if i < size then Order(f)[i] else null)
      invariant carray[..i] == Order(f)[..i]
      decreases size - i
    {
      SegOrder(cp, par, f, null, true, i);
      carray[i] := c;
      c := c.next;
      i := i + 1;
    }
    assert carray[..] == carray[..i];
  }

  lemma OrderLength(f: Forest)
    ensures |Order(f)| == Length(f)
  {
  }

  lemma TopsApart(f: Forest, x: Node, y: Node)
    requires Distinct(f) && x in Tops(f) && y in Tops(f)
    ensures x !in Nodes(KidsAt(f, y))
  {
    SplitDistinct(f, y);
    SplitTops(f, y);
    TopsNodes(Before(f, y));
    TopsNodes(After(f, y));
  }

  ghost predicate TreeHere(par: Parent, f: Forest, x: Node)
    requires x in Tops(f)
    reads x`parent, x`child, x`item, x`order
    reads Nodes(KidsAt(f, x))`next, Nodes(KidsAt(f, x))`parent, Nodes(KidsAt(f, x))`child
    reads Nodes(KidsAt(f, x))`item, Nodes(KidsAt(f, x))`order
  {
    ParentOk(x, par) && Carries(x, MsgAt(f, x)) &&
    Seg(x.child, KidsParent(x, MsgAt(f, x), true), KidsAt(f, x), null, true)
  }

  lemma TreesFold(par: Parent, f: Forest)
    requires Distinct(f) && forall x :: x in Tops(f) ==> TreeHere(par, f, x)
    ensures TreesOk(par, f)
  {
    if f.Cons? {
      TopsNodes(f.rest);
      assert TreeHere(par, f, f.node);
      forall x | x in Tops(f.rest) ensures TreeHere(par, f.rest, x) {
        assert TreeHere(par, f, x);
      }
      TreesFold(par, f.rest);
    }
  }

  /** Relinking a root leaves the trees as they are. */
  method LinkNode(c: Node, x: Node?, ghost par: Parent, ghost f: Forest)
    requires TreesOk(par, f) && Distinct(f) && c in Tops(f)
    modifies c`next
    ensures TreesOk(par, f) && c.next == x
  {
    hide Seg, TreesOk, Tops, KidsAt, MsgAt, Nodes;
    forall y | y in Tops(f) ensures TreeHere(par, f, y) && c !in Nodes(KidsAt(f, y)) {
      TreesAt(par, f, y);
      TopsApart(f, c, y);
    }
    TopsNodes(f);
    NodesAllocated(f);
    label before:
    c.next := x;
    forall y | y in Tops(f) ensures TreeHere(par, f, y) {
      assert old@before(TreeHere(par, f, y));
    }
    TreesFold(par, f);
  }

  lemma BuildNodes(s: seq<Node>, f: Forest, c: Node)
    requires Distinct(f) && c in Tops(f) && c !in s && forall x :: x in s ==> x in Tops(f)
    ensures c !in Nodes(Build(s, f))
  {
    if s != [] {
      TopsApart(f, c, s[0]);
      BuildNodes(s[1..], f, c);
    }
  }

  /** The last part of sort_thread: link the nodes of the array, from the last to the first. */
  method Relink(carray: array<Node>, ghost par: Parent, ghost f: Forest) returns (head: Node)
    requires carray.Length > 0 && TreesOk(par, f) && Distinct(f)
    requires forall i :: 0 <= i < carray.Length ==> carray[i] in Tops(f)
    requires forall i, j :: 0 <= i < j < carray.Length ==> carray[i] != carray[j]
    modifies Tops(f)`next
    ensures carray[..] == old(carray[..])
    ensures (forall x :: x in carray[..] ==> x in Tops(f)) && Seg(head, par, Build(carray[..], f), null, true)
  {
    hide Seg, TreesOk, Tops, KidsAt, MsgAt, Nodes, Distinct;
    NodesAllocated(f);
    var size := carray.Length - 1;
    head := carray[size];
    LinkNode(head, null, par, f);
    ghost var s := carray[..];
    TreesAt(par, f, head);
    SegNil(null, par, null, true);
    assert s[size..] == [head] && s[size..][1..] == [];
    SegCons(head, par, Build(s[size..], f), null, true);
    size := size - 1;
    while size >= 0
      invariant -1 <= size < carray.Length - 1 && carray[..] == s
      invariant TreesOk(par, f) && head == s[size + 1]
      invariant Seg(head, par, Build(s[size + 1..], f), null, true)
    {
      var c := carray[size];
      BuildNodes(s[size + 1..], f, c);
      NodesAllocated(Build(s[size + 1..], f));
      LinkNode(c, head, par, f);
      TreesAt(par, f, c);
      assert s[size..][1..] == s[size + 1..];
      SegCons(c, par, Build(s[size..], f), null, true);
      head := c;
      size := size - 1;
    }
    assert s[0..] == s;
  }

  /** The array of siblings after the sort: the roots of the sorted list, in order. */
  method SortedArray(cp: Node?, size: nat, ghost par: Parent, ghost g: Forest) returns (carray: array<Node>)
    requires Seg(cp, par, g, null, true) && Distinct(g) && Comparable(g) && size == Length(g) && size > 0
    ensures fresh(carray) && carray[..] == Order(SortList(g)) && TreesOk(par, g)
  {
    hide *;
    NodesAllocated(g);
    SegTrees(cp, par, g, null);
    carray := Siblings(cp, size, par, g);
    OrderTops(g);
    QSort(carray, par, g);
    SortListSorted(g);
    SortedUnique(g, carray[..], Order(SortList(g)));
  }

  /** The rest of sort_thread, for siblings whose children are sorted. */
  method SortSiblings(cp: Node?, size: nat, ghost par: Parent, ghost g: Forest) returns (head: Node?)
    requires Seg(cp, par, g, null, true) && Distinct(g) && Comparable(g) && size == Length(g)
    modifies Nodes(g)
    ensures Seg(head, par, SortList(g), null, true)
  {
    hide *;
    if size < 2 {
      SortListShort(g);
      return cp;
    }
    NodesAllocated(g);
    TopsNodes(g);
    var carray := SortedArray(cp, size, par, g);
    SortListDistinct(g);
    SortListKeeps(g);
    SortListLength(g);
    OrderLength(SortList(g));
    OrderTops(SortList(g));
    BuildSortList(g);
    assert forall i :: 0 <= i < carray.Length ==> carray[i] in carray[..];
    head := Relink(carray, par, g);
  }

  /** sort_thread. */
  method SortThread(cp: Node?, ghost par: Parent, ghost f: Forest) returns (head: Node?)
    requires Seg(cp, par, f, null, true) && Distinct(f) && Pruned(f) && Orderly(Msgs(f))
    modifies Nodes(f)
    ensures Seg(head, par, SortForest(f), null, true) && AllByDate(SortForest(f))
    decreases Size(f), 1
  {
    hide Seg, Tops, KidsAt, MsgAt, Orderly, SortForest, TreesOk, Comparable, SortedNodes, AllByDate;
    SortByDate(f);
    var c := cp;
    var size := 0;
    ghost var done, todo := Nil, f;
    SegFirst(cp, par, f, null, true);
    SegNil(cp, par, cp, true);
    while c != null
      invariant c == First(todo, null)
      invariant Distinct(done) && Distinct(todo) && Nodes(done) !! Nodes(todo)
      invariant Nodes(done) <= Nodes(f) && Nodes(todo) <= Nodes(f) && Size(todo) <= Size(f)
      invariant Pruned(todo) && Msgs(todo) <= Msgs(f)
      invariant size == Length(done)
      invariant Seg(cp, par, done, c, true) && Seg(c, par, todo, null, true)
      invariant Append(done, SortKids(todo)) == SortKids(f)
      decreases todo
    {
      ghost var cell := Cons(c, todo.msg, SortForest(todo.kids), Nil);
      SortNext(c, cp, par, done, todo, f);
      done, todo := Append(done, cell), todo.rest;
      size := size + 1;
      c := c.next;
    }
    AppendNil(done);
    SortKidsReady(f);
    head := SortSiblings(cp, size, par, SortKids(f));
    SortForestIs(f);
  }

  lemma SortForestIs(f: Forest)
    ensures SortForest(f) == SortList(SortKids(f))
  {
  }

  lemma SortKidsReady(f: Forest)
    requires Distinct(f) && Pruned(f) && Orderly(Msgs(f))
    ensures var g := SortKids(f); Distinct(g) && Comparable(g) && Nodes(g) == Nodes(f)
  {
    SortKidsDistinct(f);
    SortKidsKeeps(f);
    SortKidsShape(f);
    OrderlyComparable(SortKids(f));
  }

  /** One round of the first loop: sort the children of `c` and step over it. */
  method SortNext(c: Node, cp: Node?, ghost par: Parent, ghost done: Forest, ghost todo: Forest, ghost f: Forest)
    requires todo.Cons? && c == todo.node && Orderly(Msgs(f)) && Size(todo) <= Size(f)
    requires Distinct(done) && Distinct(todo) && Nodes(done) !! Nodes(todo)
    requires Pruned(todo) && Msgs(todo) <= Msgs(f)
    requires Seg(cp, par, done, c, true) && Seg(c, par, todo, null, true)
    modifies c`child, Nodes(todo.kids)
    ensures var done' := Append(done, Cons(c, todo.msg, SortForest(todo.kids), Nil));
      && Distinct(done') && Nodes(done') == Nodes(done) + {c} + Nodes(todo.kids) && Length(done') == Length(done) + 1
      && Seg(cp, par, done', c.next, true)
      && Append(done', SortKids(todo.rest)) == Append(done, SortKids(todo))
    ensures c.next == First(todo.rest, null) && Seg(c.next, par, todo.rest, null, true)
    decreases Size(f), 0
  {
    hide *;
    TodoParts(done, todo);
    SortKidsCons(todo);
    NodesAllocated(done);
    NodesAllocated(todo.rest);
    ghost var Cons(_, m, k, rest) := todo;
    SegCons(c, par, todo, null, true);
    SegFirst(c.next, par, rest, null, true);
    SortChildren(c, KidsParent(c, m, true), k, Msgs(f));
    Advance(cp, par, done, c, m, SortForest(k), SortKids(rest), true);
    AppendLength(done, Cons(c, m, SortForest(k), Nil));
    OneLength(c, m, SortForest(k));
  }

  lemma OneLength(n: Node, m: Option<Msg>, k: Forest)
    ensures Length(Cons(n, m, k, Nil)) == 1
  {
  }

  lemma SortKidsCons(f: Forest)
    requires f.Cons?
    ensures SortKids(f) == Cons(f.node, f.msg, SortForest(f.kids), SortKids(f.rest))
  {
  }

  lemma TodoParts(done: Forest, todo: Forest)
    requires todo.Cons? && Distinct(todo) && Nodes(done) !! Nodes(todo) && Pruned(todo)
    ensures var c, k, r := todo.node, todo.kids, todo.rest;
      && c !in Nodes(done) && c !in Nodes(k) && c !in Nodes(r) && Distinct(k) && Distinct(r)
      && Nodes(k) !! Nodes(done) && Nodes(r) !! Nodes(done) && Nodes(k) !! Nodes(r)
      && Full(k) && Msgs(k) <= Msgs(todo) && Size(k) < Size(todo)
  {
  }

  method SortChildren(c: Node, ghost par: Parent, ghost k: Forest, ghost ms: multiset<Msg>)
    requires Seg(c.child, par, k, null, true) && Distinct(k) && Full(k) && Msgs(k) <= ms && Orderly(ms) && c !in Nodes(k)
    modifies c`child, Nodes(k)
    ensures Seg(c.child, par, SortForest(k), null, true)
    ensures Distinct(SortForest(k)) && Nodes(SortForest(k)) == Nodes(k)
    decreases Size(k), 2
  {
    SortKeeps(k);
    SortDistinct(k);
    FullPruned(k);
    OrderlyPart(ms, Msgs(k));
    SegFirst(c.child, par, k, null, true);
    SortNil();
    hide Seg, Distinct, SortForest, Orderly, Msgs, Full, Pruned, Nodes;
    if c.child != null {
      var first := SortThread(c.child, par, k);
      c.child := first;
    }
  }

  lemma SortNil()
    ensures SortForest(Nil) == Nil
  {
  }

  lemma SortListShort(f: Forest)
    requires Length(f) < 2
    ensures SortList(f) == f
  {
    if f.Cons? { assert f.rest == Nil; }
  }
}
