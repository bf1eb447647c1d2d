/** prune_empty: drop empty nodes that have no child, and put the children of an empty node in
    its place unless it is a root with several children. */
module ThreadPrune {
  import opened Wrappers
  import opened ThreadForest

  // ---------------------------------------------------------------- what the result is

  /** The siblings of `k`, pushed one by one onto the front of `f`. */
  ghost function RevOnto(k: Forest, f: Forest): Forest
    decreases k
  {
    match k
    case Nil => f
    case Cons(n, m, kids, rest) => RevOnto(rest, Cons(n, m, kids, f))
  }

  ghost function Prune(f: Forest, root: bool): Forest {
    match f
    case Nil => Nil
    case Cons(n, m, kids, rest) =>
      var k := Prune(kids, false);
      var r := Prune(rest, root);
      if m.Some? then Cons(n, m, k, r)
      else if k.Nil? then r
      else if !root || k.rest.Nil? then RevOnto(k, r)
      else Cons(n, m, k, r)
  }

  lemma RevOntoNodes(k: Forest, f: Forest)
    ensures Nodes(RevOnto(k, f)) == Nodes(k) + Nodes(f)
    ensures Size(RevOnto(k, f)) == Size(k) + Size(f)
    decreases k
  {
  }

  lemma RevOntoDistinct(k: Forest, f: Forest)
    requires Distinct(k) && Distinct(f) && Nodes(k) !! Nodes(f)
    ensures Distinct(RevOnto(k, f))
    decreases k
  {
  }

  lemma RevOntoMsgs(k: Forest, f: Forest)
    ensures Msgs(RevOnto(k, f)) == Msgs(k) + Msgs(f)
    decreases k
  {
  }

  lemma RevOntoAbove(k: Forest, f: Forest, a: Msg, d: Msg)
    ensures Above(RevOnto(k, f), a, d) <==> Above(k, a, d) || Above(f, a, d)
    decreases k
  {
  }

  lemma RevOntoShape(k: Forest, f: Forest)
    requires Full(k)
    ensures Full(RevOnto(k, f)) <==> Full(f)
    ensures Pruned(RevOnto(k, f)) <==> Pruned(f)
    decreases k
  {
  }

  lemma PruneNodes(f: Forest, root: bool)
    ensures Nodes(Prune(f, root)) <= Nodes(f)
    ensures Size(Prune(f, root)) <= Size(f)
  {
    match f
    case Nil =>
    case Cons(n, m, kids, rest) =>
      PruneNodes(kids, false);
      PruneNodes(rest, root);
      RevOntoNodes(Prune(kids, false), Prune(rest, root));
  }

  lemma PruneDistinct(f: Forest, root: bool)
    requires Distinct(f)
    ensures Distinct(Prune(f, root))
  {
    match f
    case Nil =>
    case Cons(n, m, kids, rest) =>
      PruneNodes(kids, false);
      PruneNodes(rest, root);
      PruneDistinct(kids, false);
      PruneDistinct(rest, root);
      RevOntoDistinct(Prune(kids, false), Prune(rest, root));
  }

  // ---------------------------------------------------------------- what it keeps

  /** Pruning keeps exactly the same messages. */
  lemma {:induction false} PruneKeepsMessages(f: Forest, root: bool)
    ensures Msgs(Prune(f, root)) == Msgs(f)
  {
    match f
    case Nil =>
    case Cons(n, m, kids, rest) =>
      PruneKeepsMessages(kids, false);
      PruneKeepsMessages(rest, root);
      RevOntoMsgs(Prune(kids, false), Prune(rest, root));
  }

  /** Pruning keeps exactly the same ancestor relation between messages. */
  lemma {:induction false} PruneKeepsAncestors(f: Forest, root: bool, a: Msg, d: Msg)
    ensures Above(Prune(f, root), a, d) <==> Above(f, a, d)
  {
    match f
    case Nil =>
    case Cons(n, m, kids, rest) =>
      PruneKeepsMessages(kids, false);
      PruneKeepsAncestors(kids, false, a, d);
      PruneKeepsAncestors(rest, root, a, d);
      RevOntoAbove(Prune(kids, false), Prune(rest, root), a, d);
  }

  /** Below the roots no empty node is left; an empty root keeps at least two children. */
  lemma {:induction false} PruneShape(f: Forest, root: bool)
    ensures Pruned(Prune(f, root))
    ensures !root ==> Full(Prune(f, root))
  {
    match f
    case Nil =>
    case Cons(n, m, kids, rest) =>
      PruneShape(kids, false);
      PruneShape(rest, root);
      RevOntoShape(Prune(kids, false), Prune(rest, root));
  }

  /** A forest without empty nodes is left alone. */
  lemma PruneFull(f: Forest, root: bool)
    requires Full(f)
    ensures Prune(f, root) == f
  {
  }

  lemma PruneRevOnto(k: Forest, f: Forest, root: bool)
    requires Full(k)
    ensures Prune(RevOnto(k, f), root) == RevOnto(k, Prune(f, root))
    decreases k
  {
    if k.Cons? {
      PruneFull(k.kids, false);
      PruneRevOnto(k.rest, Cons(k.node, k.msg, k.kids, f), root);
    }
  }

  // ---------------------------------------------------------------- the code

  /** Push `child` onto the front of the chain `now` that follows `done`. */
  method PushFront(head: Node?, lastc: Node?, child: Node, parent: Node?, ghost done: Forest,
                   ghost now: Forest, ghost m: Option<Msg>, ghost kids: Forest)
    returns (head': Node?)
    requires Distinct(done) && lastc == Tail(done)
    requires lastc != null ==> lastc !in Nodes(now) && lastc !in Nodes(kids) && lastc != child
    requires child !in Nodes(done) && child !in Nodes(kids) && child !in Nodes(now)
    requires Seg(head, Is(parent), done, First(now, null), false)
    requires Carries(child, m) && Seg(child.child, Is(child), kids, null, false)
    requires Seg(First(now, null), Is(parent), now, null, false)
    modifies (if lastc == null then {} else {lastc}), {child}
    ensures if lastc == null then head' == child else lastc.next == child
    ensures Seg(head', Is(parent), done, child, false)
    ensures Seg(child, Is(parent), Cons(child, m, kids, now), null, false)
  {
    hide Seg;
    NodesAllocated(kids);
    NodesAllocated(now);
    child.parent := parent;
    child.next := if lastc == null then head else lastc.next;
    SegEnd(head, Is(parent), done, First(now, null), false);
    head' := Link(head, lastc, child, Is(parent), done, First(now, null), false);
    SegCons(child, Is(parent), Cons(child, m, kids, now), null, false);
  }

  /** Put the children `k` of `c` in the place of `c`, in front of `rest`. */
  method PromoteChildren(head: Node?, lastc: Node?, c: Node, ghost par: Node?,
                         ghost done: Forest, ghost k: Forest, ghost rest: Forest)
    returns (head': Node?)
    requires Distinct(done) && Distinct(k) && Distinct(rest)
    requires c !in Nodes(done) && c !in Nodes(k) && c !in Nodes(rest)
    requires Nodes(done) !! Nodes(k) && Nodes(done) !! Nodes(rest) && Nodes(k) !! Nodes(rest)
    requires lastc == Tail(done) && Seg(head, Is(par), done, c, false)
    requires c.parent == par
    requires Seg(c.child, Is(c), k, null, false) && Seg(c.next, Is(par), rest, null, false)
    modifies Nodes(done), Nodes(k)
    ensures Seg(head', Is(par), done, First(RevOnto(k, rest), null), false)
    ensures Seg(First(RevOnto(k, rest), null), Is(par), RevOnto(k, rest), null, false)
  {
    hide Seg;
    if done.Cons? { LastProps(done); }
    NodesAllocated(k);
    NodesAllocated(rest);
    SegFirst(c.next, Is(par), rest, null, false);
    head' := Link(head, lastc, c.next, Is(par), done, c, false);
    var child := c.child;
    ghost var left, now := k, rest;
    SegFirst(child, Is(c), left, null, false);
    while child != null
      invariant Nodes(left) <= Nodes(k) && Nodes(now) <= Nodes(k) + Nodes(rest)
      invariant Distinct(left) && Nodes(left) !! Nodes(now)
      invariant RevOnto(left, now) == RevOnto(k, rest)
      invariant child == First(left, null) && Seg(child, Is(c), left, null, false)
      invariant Seg(First(now, null), Is(par), now, null, false)
      invariant Seg(head', Is(par), done, First(now, null), false)
      invariant c.parent == par
      decreases left
    {
      ghost var Cons(_, m, kids, tail) := left;
      SegCons(child, Is(c), left, null, false);
      SegFirst(child.next, Is(c), tail, null, false);
      var next := child.next;
      head' := PushFront(head', lastc, child, c.parent, done, now, m, kids);
      left, now := tail, Cons(child, m, kids, now);
      child := next;
    }
  }

  /** One round of the loop of prune_empty once the children `k` of `c` are pruned: drop `c`,
      put its children in its place, or step over it. */
  method Place(head: Node?, lastc: Node?, c: Node, ghost par: Node?,
               ghost done: Forest, ghost m: Option<Msg>, ghost k: Forest, ghost rest: Forest)
    returns (head': Node?, lastc': Node?, ghost done': Forest, ghost todo': Forest)
    requires Distinct(done) && Distinct(k) && Distinct(rest) && Full(k)
    requires c !in Nodes(done) && c !in Nodes(k) && c !in Nodes(rest)
    requires Nodes(done) !! Nodes(k) && Nodes(done) !! Nodes(rest) && Nodes(k) !! Nodes(rest)
    requires lastc == Tail(done) && Seg(head, Is(par), done, c, false)
    requires c.parent == par && Carries(c, m)
    requires Seg(c.child, Is(c), k, null, false) && Seg(c.next, Is(par), rest, null, false)
    requires c.child == null <==> k.Nil?
    requires k.Cons? ==> (c.child.next == null <==> k.rest.Nil?)
    modifies Nodes(done), Nodes(k)
    ensures Nodes(done') <= Nodes(done) + {c} + Nodes(k) && Nodes(todo') <= Nodes(k) + Nodes(rest)
    ensures Size(todo') <= Size(k) + Size(rest)
    ensures Distinct(done') && Distinct(todo') && Nodes(done') !! Nodes(todo')
    ensures lastc' == Tail(done')
    ensures Seg(head', Is(par), done', First(todo', null), false)
    ensures Seg(First(todo', null), Is(par), todo', null, false)
    ensures var root := par == null;
      Append(done', Prune(todo', root)) ==
      Append(done, if m.Some? then Cons(c, m, k, Prune(rest, root))
                   else if k.Nil? then Prune(rest, root)
                   else if !root || k.rest.Nil? then RevOnto(k, Prune(rest, root))
                   else Cons(c, m, k, Prune(rest, root)))
  {
    hide Seg, Prune;
    if done.Cons? { LastProps(done); }
    NodesAllocated(rest);
    SegFirst(c.next, Is(par), rest, null, false);
    if c.item == None && c.child == null {
      head' := Link(head, lastc, c.next, Is(par), done, c, false);
      lastc', done', todo' := lastc, done, rest;
    } else if c.item == None && (c.parent != null || c.child.next == null) {
      head' := PromoteChildren(head, lastc, c, par, done, k, rest);
      PruneRevOnto(k, rest, par == null);
      RevOntoNodes(k, rest);
      RevOntoDistinct(k, rest);
      lastc', done', todo' := lastc, done, RevOnto(k, rest);
    } else {
      Advance(head, Is(par), done, c, m, k, Prune(rest, par == null), false);
      head', lastc', done', todo' := head, c, Append(done, Cons(c, m, k, Nil)), rest;
    }
  }

  /** prune_empty.  `f` is the chain at `head`; its nodes have parent `par`. */
  method PruneEmpty(head: Node?, ghost par: Node?, ghost f: Forest) returns (head': Node?)
    requires Seg(head, Is(par), f, null, false) && Distinct(f)
    modifies Nodes(f)
    ensures Seg(head', Is(par), Prune(f, par == null), null, false)
    decreases Size(f), 0
  {
    hide Seg;
    ghost var root := par == null;
    ghost var done, todo := Nil, f;
    var lastc: Node? := null;
    head' := head;
    SegFirst(head, Is(par), f, null, false);
    SegNil(head, Is(par), head, false);
    while (if lastc == null then head' else lastc.next) != null
      invariant Nodes(done) <= Nodes(f) && Nodes(todo) <= Nodes(f) && Size(todo) <= Size(f)
      invariant Distinct(done) && Distinct(todo) && Nodes(done) !! Nodes(todo)
      invariant lastc == Tail(done)
      invariant (if lastc == null then head' else lastc.next) == First(todo, null)
      invariant Seg(head', Is(par), done, First(todo, null), false)
      invariant Seg(First(todo, null), Is(par), todo, null, false)
      invariant Append(done, Prune(todo, root)) == Prune(f, root)
      decreases Size(todo)
    {
      NodesAllocated(done);
      NodesAllocated(todo);
      var c := if lastc == null then head' else lastc.next;
      ghost var Cons(_, m, kids, rest) := todo;
      SegCons(c, Is(par), todo, null, false);
      PruneChildren(c, kids);
      head', lastc, done, todo := Place(head', lastc, c, par, done, m, Prune(kids, false), rest);
      SegEnd(head', Is(par), done, First(todo, null), false);
    }
    AppendNil(done);
  }

  method PruneChildren(c: Node, ghost kids: Forest)
    requires c !in Nodes(kids) && Distinct(kids)
    requires Seg(c.child, Is(c), kids, null, false)
    modifies c`child, Nodes(kids)
    ensures var k := Prune(kids, false);
      && Seg(c.child, Is(c), k, null, false) && Full(k) && Distinct(k)
      && Nodes(k) <= Nodes(kids) && Size(k) <= Size(kids)
      && (c.child == null <==> k.Nil?)
      && (k.Cons? ==> (c.child.next == null <==> k.rest.Nil?))
    decreases Size(kids), 1
  {
    PruneNodes(kids, false);
    PruneDistinct(kids, false);
    PruneShape(kids, false);
    var ch := PruneEmpty(c.child, c, kids);
    c.child := ch;
  }
}
