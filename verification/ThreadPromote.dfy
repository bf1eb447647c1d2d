/** The last pass of thread_items on the heap: an empty root gives way to its first child.

    The child takes the later children of the root as its own, before that swaps its item with theirs
    until it holds the oldest, and takes the root's place in the list. The pass also repairs the
    parents of the children, which the regrouping may have left stale: until then the lists are
    drawn by `Seg` with `loose` set. */
module ThreadPromote {
  import opened Wrappers
  import opened ThreadForest
  import opened ThreadPhantom
  import opened ThreadGroup

  lemma SegStrict(p: Node?, par: Parent, f: Forest, q: Node?)
    requires Seg(p, par, f, q, true) && Full(f)
    ensures Seg(p, par, f, q, false)
    decreases f
  {
    if f.Cons? {
      SegStrict(f.node.child, Is(f.node), f.kids, null);
      SegStrict(f.node.next, par, f.rest, q);
    }
  }

  /** Exchange the contents of two nodes. */
  method SwapContents(newtop: Node, node: Node)
    modifies newtop`item, newtop`order, newtop`re, newtop`rootSubject
    modifies node`item, node`order, node`re, node`rootSubject
    ensures newtop.item == old(node.item) && newtop.order == old(node.order)
    ensures node.item == old(newtop.item) && node.order == old(newtop.order)
    ensures newtop.rootSubject == old(node.rootSubject) && newtop.re == old(node.re)
    ensures node.rootSubject == old(newtop.rootSubject) && node.re == old(newtop.re)
  {
    newtop.item, node.item := node.item, newtop.item;
    newtop.rootSubject, node.rootSubject := node.rootSubject, newtop.rootSubject;
    newtop.order, node.order := node.order, newtop.order;
    newtop.re, node.re := node.re, newtop.re;
  }

  /** One round of the election: `node` gives its message to `newtop` if it is older. */
  method SwapStep(newtop: Node, node: Node, curr: int, ghost now: Option<Msg>, ghost p: Node?, ghost done: Forest,
                  ghost todo: Forest, ghost tail: Forest)
    returns (curr': int)
    requires todo.Cons? && node == todo.node && Carries(newtop, now) && newtop != node
    requires Distinct(done) && Distinct(todo) && Nodes(done) !! Nodes(todo)
    requires newtop !in Nodes(done) && newtop !in Nodes(todo)
    requires Seg(p, Any, done, node, true) && Seg(node, Any, todo, null, true)
    modifies newtop`item, newtop`order, newtop`re, newtop`rootSubject
    modifies node`item, node`order, node`re, node`rootSubject
    ensures var e := Elected(todo.msg, curr);
      && curr' == (if e then SwapTime(todo.msg.value.item) else curr)
      && Carries(newtop, if e then todo.msg else now)
    ensures node.next == First(todo.rest, null) && Seg(node.next, Any, todo.rest, null, true)
    ensures var mark := if Elected(todo.msg, curr) then now else todo.msg;
      var done' := Append(done, Cons(node, mark, todo.kids, Nil));
      && Seg(p, Any, done', node.next, true) && Distinct(done')
      && Nodes(done') == Nodes(done) + {node} + Nodes(todo.kids)
      && Append(done', tail) == Append(done, Cons(node, mark, todo.kids, tail))
  {
    hide Seg;
    ghost var Cons(_, x, k, rest) := todo;
    SegCons(node, Any, todo, null, true);
    SegFirst(node.next, Any, rest, null, true);
    NodesAllocated(done);
    NodesAllocated(todo);
    ghost var mark := if Elected(x, curr) then now else x;
    curr' := curr;
    if node.item != None {
      var sentReceived := SwapTime(node.item.value);
      if Older(sentReceived, curr) {
        curr' := sentReceived;
        SwapContents(newtop, node);
      }
    }
    MarkAdvance(p, done, node, x, mark, k, tail);
  }

  /** Pick the oldest message of `newtop` and its siblings `s` as the new top one. */
  method SwapOldest(newtop: Node, ghost m: Option<Msg>, ghost s: Forest)
    requires Carries(newtop, m) && Seg(newtop.next, Any, s, null, true) && Distinct(s) && newtop !in Nodes(s)
    modifies newtop`item, newtop`order, newtop`re, newtop`rootSubject
    modifies Nodes(s)`item, Nodes(s)`order, Nodes(s)`re, Nodes(s)`rootSubject
    ensures Carries(newtop, Top(m, StartTime(m), s))
    ensures Seg(newtop.next, Any, Swapped(m, StartTime(m), s), null, true)
  {
    hide Seg, Distinct, Nodes, Append, Older, SwapTime;
    NilParts();
    AppendToNil(Swapped(m, StartTime(m), s));
    var curr := 0;
    if newtop.item != None {
      curr := SwapTime(newtop.item.value);
    }
    var node := newtop.next;
    ghost var done, todo, now := Nil, s, m;
    SegFirst(node, Any, s, null, true);
    SegNil(node, Any, node, true);
    while node != null
      invariant node == First(todo, null) && Carries(newtop, now)
      invariant Distinct(done) && Distinct(todo) && Nodes(done) !! Nodes(todo)
      invariant Nodes(done) <= Nodes(s) && Nodes(todo) <= Nodes(s)
      invariant Seg(newtop.next, Any, done, node, true) && Seg(node, Any, todo, null, true)
      invariant Top(now, curr, todo) == Top(m, StartTime(m), s)
      invariant Append(done, Swapped(now, curr, todo)) == Swapped(m, StartTime(m), s)
      decreases todo
    {
      ghost var was, x := curr, todo.msg;
      ConsParts(todo);
      ghost var tail := if Elected(x, was) then Swapped(x, SwapTime(x.value.item), todo.rest)
                        else Swapped(now, was, todo.rest);
      curr := SwapStep(newtop, node, curr, now, newtop.next, done, todo, tail);
      done := Append(done, Cons(node, if Elected(x, was) then now else x, todo.kids, Nil));
      now, todo := if Elected(x, was) then x else now, todo.rest;
      node := node.next;
    }
    AppendNil(done);
  }

  lemma AppendToNil(g: Forest)
    ensures Append(Nil, g) == g
  {
  }

  lemma ConsParts(f: Forest)
    requires f.Cons? && Distinct(f)
    ensures Nodes(f) == {f.node} + Nodes(f.kids) + Nodes(f.rest)
    ensures f.node !in Nodes(f.kids) && f.node !in Nodes(f.rest) && Nodes(f.kids) !! Nodes(f.rest)
    ensures Distinct(f.kids) && Distinct(f.rest)
  {
  }

  /** Step over a node whose message may have been exchanged. */
  lemma MarkAdvance(p: Node?, f: Forest, c: Node, x: Option<Msg>, m: Option<Msg>, kids: Forest,
                    tail: Forest)
    requires Distinct(f) && Distinct(kids) && c !in Nodes(f) && c !in Nodes(kids) && Nodes(f) !! Nodes(kids)
    requires Seg(p, Any, f, c, true) && Carries(c, m) && (x.None? ==> m.None?)
    requires Seg(c.child, KidsParent(c, x, true), kids, null, true)
    ensures var g := Append(f, Cons(c, m, kids, Nil));
      && Seg(p, Any, g, c.next, true) && Distinct(g) && Nodes(g) == Nodes(f) + {c} + Nodes(kids)
      && Append(g, tail) == Append(f, Cons(c, m, kids, tail))
  {
    SegAny(c.child, KidsParent(c, x, true), kids, null);
    Advance(p, Any, f, c, m, kids, tail, true);
  }

  lemma SegAny(p: Node?, par: Parent, f: Forest, q: Node?)
    requires Seg(p, par, f, q, true)
    ensures Seg(p, Any, f, q, true)
  {
    if f.Cons? { SegAny(f.node.next, par, f.rest, q); }
  }

  /** Make `parent` the parent of every sibling in the list at `first`. */
  method FixParents(first: Node?, parent: Node, ghost s: Forest)
    requires Seg(first, Any, s, null, false) && Distinct(s)
    modifies Nodes(s)`parent
    ensures Seg(first, Is(parent), s, null, false)
  {
    hide Seg, Distinct, Nodes, Append;
    var scan := first;
    ghost var done, todo := Nil, s;
    NilParts();
    AppendToNil(s);
    SegFirst(first, Any, s, null, false);
    SegNil(first, Is(parent), first, false);
    while scan != null
      invariant scan == First(todo, null)
      invariant Distinct(done) && Distinct(todo) && Nodes(done) !! Nodes(todo)
      invariant Nodes(done) <= Nodes(s) && Nodes(todo) <= Nodes(s)
      invariant Seg(first, Is(parent), done, scan, false) && Seg(scan, Any, todo, null, false)
      invariant Append(done, todo) == s
      decreases todo
    {
      ghost var Cons(_, m, k, rest) := todo;
      ConsParts(todo);
      SegCons(scan, Any, todo, null, false);
      SegFirst(scan.next, Any, rest, null, false);
      scan.parent := parent;
      Advance(first, Is(parent), done, scan, m, k, rest, false);
      done, todo := Append(done, Cons(scan, m, k, Nil)), rest;
      scan := scan.next;
    }
    AppendNil(done);
  }

  /** What follows `newtop` in its list goes below it, behind its own children. */
  method TakeSiblings(newtop: Node, ghost k: Forest, ghost s: Forest)
    requires Seg(newtop.child, Is(newtop), k, null, false) && Seg(newtop.next, Any, s, null, false)
    requires Distinct(k) && Distinct(s) && Nodes(k) !! Nodes(s) && newtop !in Nodes(k) && newtop !in Nodes(s)
    modifies newtop`child, Nodes(k)`next, Nodes(s)`parent
    ensures Seg(newtop.child, Is(newtop), Append(k, s), null, false)
  {
    hide Seg, Distinct, Nodes, Append;
    NodesAllocated(k);
    NodesAllocated(s);
    SegFirst(newtop.next, Any, s, null, false);
    var last := FindLast(newtop.child, Is(newtop), k, false);
    TailIn(k);
    var head := Link(newtop.child, last, newtop.next, Is(newtop), k, null, false);
    newtop.child := head;
    FixParents(newtop.next, newtop, s);
    SegAppend(newtop.child, Is(newtop), k, s, null, false);
  }

  /** What the pass needs of the rest of the root list. */
  lemma PrunedParts(f: Forest)
    requires f.Cons? && Pruned(f)
    ensures Pruned(f.rest) && Full(f.kids)
    ensures f.msg.None? ==> f.kids.Cons? && f.kids.msg.Some? && Full(f.kids.kids) && Full(f.kids.rest)
  {
  }

  /** The empty root `c`, the first of `todo`, is replaced by its first child. */
  method ReplaceRoot(c: Node, swap: bool, ghost todo: Forest) returns (newtop: Node)
    requires todo.Cons? && c == todo.node && todo.msg.None? && Pruned(todo) && Distinct(todo)
    requires Seg(c, Is(null), todo, null, true)
    modifies Nodes(todo.kids)
    ensures todo.kids.Cons? && newtop == todo.kids.node && newtop.parent == null && newtop.next == c.next
    ensures var (m, k) := PromoteRoot(None, todo.kids, swap);
      && Carries(newtop, m) && Seg(newtop.child, Is(newtop), k, null, false)
      && Distinct(k) && newtop !in Nodes(k) && Nodes(k) + {newtop} == Nodes(todo.kids)
  {
    hide Seg, Distinct, Nodes, Append, Top, Swapped, Full, Pruned;
    ghost var Cons(_, _, kids, rest) := todo;
    PrunedParts(todo);
    ConsParts(todo);
    ConsParts(kids);
    SegCons(c, Is(null), todo, null, true);
    SegCons(c.child, Any, kids, null, true);
    NodesAllocated(kids.kids);
    NodesAllocated(kids.rest);
    newtop := c.child;
    newtop.parent := null;
    ghost var s := kids.rest;
    if swap {
      SwapOldest(newtop, kids.msg, s);
      s := Swapped(kids.msg, StartTime(kids.msg), s);
      SwappedKeeps(kids.msg, StartTime(kids.msg), kids.rest);
      SwappedFull(kids.msg, StartTime(kids.msg), kids.rest);
    }
    SegStrict(newtop.child, Is(newtop), kids.kids, null);
    SegStrict(newtop.next, Any, s, null);
    NodesAllocated(s);
    TakeSiblings(newtop, kids.kids, s);
    AppendNodes(kids.kids, s);
    AppendDistinct(kids.kids, s);
    newtop.next := c.next;
  }

  /** The last loop of thread_items. */
  method RemovePhantoms(head: Node?, swap: bool, ghost f: Forest) returns (head': Node?)
    requires Seg(head, Is(null), f, null, true) && Distinct(f) && Pruned(f)
    modifies Nodes(f)
    ensures Seg(head', Is(null), Promote(f, swap), null, false)
  {
    hide Seg, Distinct, Nodes, Append, PromoteRoot, Full, Pruned;
    head' := head;
    var last: Node? := null;
    ghost var done, todo := Nil, f;
    NilParts();
    AppendToNil(Promote(f, swap));
    SegFirst(head, Is(null), f, null, true);
    SegNil(head, Is(null), head, false);
    while (if last == null then head' else last.next) != null
      invariant (if last == null then head' else last.next) == First(todo, null)
      invariant Distinct(done) && Distinct(todo) && Nodes(done) !! Nodes(todo)
      invariant Nodes(done) <= Nodes(f) && Nodes(todo) <= Nodes(f) && Pruned(todo)
      invariant last == Tail(done)
      invariant Seg(head', Is(null), done, First(todo, null), false) && Seg(First(todo, null), Is(null), todo, null, true)
      invariant Append(done, Promote(todo, swap)) == Promote(f, swap)
      decreases todo
    {
      head', last, done := PromoteNext(head', last, swap, done, todo);
      todo := todo.rest;
    }
    AppendNil(done);
  }

  lemma PromoteCons(f: Forest, swap: bool)
    requires f.Cons?
    ensures var (m, k) := PromoteRoot(f.msg, f.kids, swap);
      Promote(f, swap) ==
      Cons(if f.msg.Some? || f.kids.Nil? then f.node else f.kids.node, m, k, Promote(f.rest, swap))
  {
  }

  /** One round: step over a message, or put the first child of an empty root in its place. */
  method PromoteNext(head: Node?, last: Node?, swap: bool, ghost done: Forest, ghost todo: Forest)
    returns (head': Node?, last': Node, ghost done': Forest)
    requires todo.Cons? && (if last == null then head else last.next) == todo.node
    requires Distinct(done) && Distinct(todo) && Nodes(done) !! Nodes(todo) && Pruned(todo) && last == Tail(done)
    requires Seg(head, Is(null), done, todo.node, false) && Seg(todo.node, Is(null), todo, null, true)
    modifies Nodes(done), Nodes(todo)
    ensures Nodes(done') <= Nodes(done) + Nodes(todo) && Distinct(done') && Nodes(done') !! Nodes(todo.rest)
    ensures Distinct(todo.rest) && Nodes(todo.rest) <= Nodes(todo) && Pruned(todo.rest) && last' == Tail(done')
    ensures last'.next == First(todo.rest, null)
    ensures Seg(head', Is(null), done', First(todo.rest, null), false)
    ensures Seg(First(todo.rest, null), Is(null), todo.rest, null, true)
    ensures Append(done', Promote(todo.rest, swap)) == Append(done, Promote(todo, swap))
  {
    hide Seg, Distinct, Nodes, Append, Full, Pruned, Top, Swapped, Promote;
    ghost var Cons(_, m, k, rest) := todo;
    NodesAllocated(done);
    NodesAllocated(todo);
    NodesAllocated(rest);
    PrunedParts(todo);
    ConsParts(todo);
    SegCons(todo.node, Is(null), todo, null, true);
    var child := if last == null then head else last.next;
    SegFirst(child.next, Is(null), rest, null, true);
    TailIn(done);
    if child.item == None {
      ConsParts(k);
      SegFirst(child.child, Any, k, null, true);
      head' := Link(head, last, child.child, Is(null), done, child, false);
      var newtop := ReplaceRoot(child, swap, todo);
      ghost var (m', k') := PromoteRoot(None, k, swap);
      PromoteCons(todo, swap);
      Advance(head', Is(null), done, newtop, m', k', Promote(rest, swap), false);
      last', done' := newtop, Append(done, Cons(newtop, m', k', Nil));
    } else {
      SegStrict(child.child, Is(child), k, null);
      PromoteCons(todo, swap);
      Advance(head, Is(null), done, child, m, k, Promote(rest, swap), false);
      head', last', done' := head, child, Append(done, Cons(child, m, k, Nil));
    }
  }
}
