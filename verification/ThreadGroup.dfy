/** group_root_set: merge roots that share a subject.

    The surgery of one round on the lists in memory. */
module ThreadGroup {
  import opened Wrappers
  import opened ThreadForest
  import opened ThreadTops
  import opened ThreadMoves

  // ---------------------------------------------------------------- lists in place

  /** The node before `node` in the list at `head`; null when it is the first. */
  method FindBefore(head: Node?, node: Node, ghost par: Parent, ghost f: Forest, ghost loose: bool)
    returns (p: Node?)
    requires Seg(head, par, f, null, loose) && Distinct(f) && node in Tops(f)
    ensures p == Tail(Before(f, node))
  {
    hide Seg, Distinct, Before, Tail;
    p := null;
    var c := head;
    ghost var i := 0;
    ghost var o := Order(f);
    OrderTops(f);
    SegOrder(head, par, f, null, loose, 0);
    NodesAllocated(f);
    while c != node
      invariant Seg(head, par, f, null, loose)
      invariant 0 <= i < |o| && c == o[i] && node in o[i..]
      invariant p == if i == 0 then null else o[i - 1]
      decreases |o| - i
    {
      SegOrder(head, par, f, null, loose, i);
      p := c;
      c := c.next;
      i := i + 1;
    }
    OrderAt(f, i);
  }

  /** Take `node`, which follows `p`, out of the list at `head`. */
  method Unlink(head: Node?, p: Node?, node: Node, ghost par: Parent, ghost f: Forest, ghost loose: bool)
    returns (head': Node?)
    requires Seg(head, par, f, null, loose) && Distinct(f) && node in Tops(f) && p == Tail(Before(f, node))
    modifies (if p == null then {} else {p})`next
    ensures Seg(head', par, CutTop(f, node), null, loose)
    ensures p == null ==> head' == node.next
    ensures p != null ==> p in Tops(f) && p != node && head' == head
    ensures Carries(node, MsgAt(f, node)) && ParentOk(node, par)
    ensures Seg(node.child, KidsParent(node, MsgAt(f, node), loose), KidsAt(f, node), null, loose)
  {
    hide Seg, Distinct, MsgAt, KidsAt, Nodes;
    SegSplit(head, par, f, node, null, loose);
    SplitDistinct(f, node);
    SplitTops(f, node);
    NodesAllocated(KidsAt(f, node));
    NodesAllocated(After(f, node));
    if Before(f, node).Cons? { LastProps(Before(f, node)); LastTop(Before(f, node)); }
    SegFirst(node.next, par, After(f, node), null, loose);
    head' := Link(head, p, node.next, par, Before(f, node), node, loose);
    SegAppend(head', par, Before(f, node), After(f, node), null, loose);
  }

  lemma LastTop(f: Forest)
    requires f.Cons?
    ensures Last(f) in Tops(f) && Last(f) in Nodes(f)
  {
  }

  // ---------------------------------------------------------------- the forest in place

  /** `node` and its children as `w` has them. */
  ghost predicate TreeOk(w: Forest, n: Node)
    requires Distinct(w) && Placed(w, n)
    reads n, Nodes(TreeKids(w, n))
  {
    Carries(n, TreeMsg(w, n)) &&
    Seg(n.child, KidsParent(n, TreeMsg(w, n), true), TreeKids(w, n), null, true)
  }

  /** remove_node: take `node` out of the root list or out of its parent's children. */
  method RemoveNode(list: Node?, node: Node, clast: Node?, ghost w: Forest) returns (list': Node?, clast': Node?)
    requires Distinct(w) && Seg(list, Is(null), w, null, true) && Placed(w, node)
    requires node.parent == if node in Tops(w) then null else Holder(w, node)
    modifies Nodes(w)`next, Nodes(w)`child
    ensures Seg(list', Is(null), Detach(w, node), null, true) && TreeOk(w, node)
    ensures node.next == old(node.next)
    ensures clast' == if clast == node && node in Tops(w) then Tail(Before(w, node)) else clast
  {
    hide Seg, Distinct, MsgAt, KidsAt, Nodes, Before, Tops, Adopted, Tail;
    list', clast' := list, clast;
    var h := node.parent;
    TopsNodes(w);
    if h != null {
      HolderProps(w, node);
      RemoveFromParent(list, node, h, w);
    } else {
      if Adopted(w, node) { HolderIn(w, node); }
      NodesAllocated(w);
      var p := FindBefore(list, node, Is(null), w, true);
      if clast == node {
        clast' := p;
      }
      UnlinkFrame(w, node, p);
      list' := Unlink(list, p, node, Is(null), w, true);
    }
  }

  lemma UnlinkFrame(w: Forest, node: Node, p: Node?)
    requires Distinct(w) && node in Tops(w) && p == Tail(Before(w, node))
    ensures p != null ==> p in Nodes(w) && p != node && p in Nodes(CutTop(w, node))
  {
    SplitDistinct(w, node);
    AppendNodes(Before(w, node), After(w, node));
    if p != null { LastTop(Before(w, node)); }
  }

  method RemoveFromParent(list: Node?, node: Node, h: Node, ghost w: Forest)
    requires Distinct(w) && Seg(list, Is(null), w, null, true)
    requires Adopted(w, node) && node !in Tops(w) && h == Holder(w, node)
    modifies Nodes(w)`next, Nodes(w)`child
    ensures Seg(list, Is(null), Detach(w, node), null, true) && TreeOk(w, node)
    ensures node.next == old(node.next)
  {
    hide Seg, Distinct, MsgAt, KidsAt, Nodes, Before, After, Tops, Adopted, Tail;
    HolderProps(w, node);
    ghost var kids := KidsAt(w, h);
    SplitDistinct(w, h);
    SegSplit(list, Is(null), w, h, null, true);
    SplitDistinct(kids, node);
    NodesAllocated(kids);
    NodesAllocated(Before(w, h));
    NodesAllocated(After(w, h));
    NodesAllocated(KidsAt(kids, node));
    var p := FindBefore(h.child, node, Any, kids, true);
    UnlinkFrame(kids, node, p);
    var first := Unlink(h.child, p, node, Any, kids, true);
    h.child := first;
    CutProps(kids, node);
    WithKidsParts(w, h, CutTop(kids, node));
    SegSplit(list, Is(null), WithKids(w, h, CutTop(kids, node)), h, null, true);
  }

  /** container_add_child: `child` becomes the first child of `node`. */
  method AddChild(node: Node, child: Node, ghost list: Node?, ghost w: Forest, ghost m: Option<Msg>, ghost k: Forest)
    requires Distinct(w) && Seg(list, Is(null), w, null, true) && Placed(w, node)
    requires child !in Nodes(w) && child !in Nodes(k) && Nodes(k) !! Nodes(w)
    requires Carries(child, m) && Seg(child.child, KidsParent(child, m, true), k, null, true)
    modifies node`child, child`next, child`parent
    ensures Seg(list, Is(null), SetKids(w, node, Cons(child, m, k, TreeKids(w, node))), null, true)
    ensures child.parent == node
  {
    hide Seg, Distinct, MsgAt, KidsAt, Nodes, Before, After, Tops, Adopted, Tail;
    PlacedIn(w, node);
    ghost var kids := TreeKids(w, node);
    ghost var k' := Cons(child, m, k, kids);
    ghost var h := if node in Tops(w) then node else Holder(w, node);
    if node !in Tops(w) { HolderProps(w, node); }
    SplitDistinct(w, h);
    SegSplit(list, Is(null), w, h, null, true);
    ghost var hk := KidsAt(w, h);
    ghost var hp := KidsParent(h, MsgAt(w, h), true);
    if node !in Tops(w) {
      SplitDistinct(hk, node);
      SegSplit(h.child, hp, hk, node, null, true);
    }
    SegFirst(node.child, KidsParent(node, TreeMsg(w, node), true), kids, null, true);
    child.next := node.child;
    node.child := child;
    child.parent := node;
    SegCons(child, KidsParent(node, TreeMsg(w, node), true), k', null, true);
    if node !in Tops(w) {
      WithKidsParts(hk, node, k');
      SegSplit(h.child, hp, WithKids(hk, node, k'), node, null, true);
      WithKidsParts(w, h, WithKids(hk, node, k'));
      SegSplit(list, Is(null), WithKids(w, h, WithKids(hk, node, k')), h, null, true);
    } else {
      WithKidsParts(w, h, k');
      SegSplit(list, Is(null), WithKids(w, h, k'), h, null, true);
    }
  }

  /** The last node of a list; null when it is empty. */
  method FindLast(head: Node?, ghost par: Parent, ghost f: Forest, ghost loose: bool) returns (p: Node?)
    requires Seg(head, par, f, null, loose)
    ensures p == Tail(f)
  {
    p := null;
    var c := head;
    ghost var todo := f;
    NodesAllocated(f);
    while c != null
      invariant Seg(head, par, f, null, loose) && Seg(c, par, todo, null, loose)
      invariant if todo.Nil? then p == Tail(f) else Tail(todo) == Tail(f)
      decreases todo
    {
      NodesAllocated(todo);
      p := c;
      c := c.next;
      todo := todo.rest;
    }
  }

  /** The children of an emptied `c`, the list `k` at `first`, go to the end of those of `e`. */
  method StealChildren(e: Node, first: Node?, ghost list: Node?, ghost w: Forest, ghost k: Forest)
    requires Distinct(w) && Seg(list, Is(null), w, null, true) && e in Tops(w) && MsgAt(w, e).None?
    requires Nodes(k) !! Nodes(w) && Seg(first, Any, k, null, true)
    modifies e`child, Nodes(KidsAt(w, e))`next
    ensures Seg(list, Is(null), SetKids(w, e, Append(KidsAt(w, e), k)), null, true)
  {
    hide Seg, Distinct, MsgAt, KidsAt, Nodes, Before, After, Tops, Adopted;
    ghost var kids := KidsAt(w, e);
    SplitDistinct(w, e);
    SegSplit(list, Is(null), w, e, null, true);
    NodesAllocated(kids);
    NodesAllocated(Before(w, e));
    NodesAllocated(After(w, e));
    NodesAllocated(k);
    var last := FindLast(e.child, Any, kids, true);
    if last != null { LastProps(kids); }
    SegFirst(first, Any, k, null, true);
    var head := Link(e.child, last, first, Any, kids, null, true);
    e.child := head;
    SegAppend(head, Any, kids, k, null, true);
    WithKidsParts(w, e, Append(kids, k));
    SegSplit(list, Is(null), WithKids(w, e, Append(kids, k)), e, null, true);
  }

  /** Put `scan` into the list at `head`, after `p` and in the place `c` had. */
  method InsertAt(head: Node?, p: Node?, c: Node, scan: Node, ghost w: Forest) returns (head': Node?)
    requires Distinct(w) && c in Tops(w) && p == Tail(Before(w, c)) && scan !in Nodes(w)
    requires Seg(head, Is(null), CutTop(w, c), null, true)
    requires c.next == First(After(w, c), null) && scan.parent == null && scan.item == None && scan.child == null
    modifies scan`next, (if p == null then {} else {p})`next
    ensures Seg(head', Is(null), Replace(w, c, scan, None, Nil), null, true)
  {
    hide Seg, Distinct, MsgAt, KidsAt, Nodes, Before, After, Tops, Tail;
    ghost var b, a := Before(w, c), After(w, c);
    SplitDistinct(w, c);
    TailIn(b);
    NodesAllocated(b);
    NodesAllocated(a);
    SegAppend(head, Is(null), b, a, null, true);
    scan.next := c.next;
    head' := Link(head, p, scan, Is(null), b, First(a, null), true);
    SegNil(null, KidsParent(scan, None, true), null, true);
    SegCons(scan, Is(null), Cons(scan, None, Nil, a), null, true);
    SegAppend(head', Is(null), b, Cons(scan, None, Nil, a), null, true);
  }

  lemma TailIn(f: Forest)
    ensures Tail(f) != null ==> Tail(f) in Nodes(f) && Tail(f) in Tops(f)
  {
    if f.Cons? { LastTop(f); }
  }
}
