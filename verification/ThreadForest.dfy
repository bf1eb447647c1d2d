/** The thread tree of camel-folder-thread.c: nodes linked in place through `next`, `parent`
    and `child`, together with the ghost `Forest` a chain of siblings stands for.

    A `Forest` follows the pointers: `kids` is the chain that starts at `child`, `rest` the one
    that starts at `next`.  Because it holds the nodes themselves, "which nodes, in which shape,
    carrying which messages" is a plain value, and `Seg` ties it to the heap. */
module ThreadForest {
  import opened Wrappers

  /** What threading reads of a message.  `ptr` is its identity; `subject` and `re` are what
      stripping reply prefixes and list ids leaves of the subject line. */
  datatype Item = Item(ptr: int, messageId: nat, references: seq<nat>,
                       subject: Option<string>, re: bool, dateSent: int, dateReceived: int)

  class Node {
    var next: Node?
    var parent: Node?
    var child: Node?
    var item: Option<Item>
    var order: nat
    var re: bool
    var rootSubject: Option<string>

    constructor ()
      ensures next == null && parent == null && child == null
      ensures item == None && order == 0 && !re && rootSubject == None
    {
      next, parent, child := null, null, null;
      item, order, re, rootSubject := None, 0, false, None;
    }
  }

  /** A message placed in a node: the item and its 1-based position in the input. */
  datatype Msg = Msg(item: Item, order: nat)

  datatype Forest = Nil | Cons(node: Node, msg: Option<Msg>, kids: Forest, rest: Forest)

  // ---------------------------------------------------------------- the forest as a value

  ghost function Nodes(f: Forest): set<Node> {
    match f
    case Nil => {}
    case Cons(n, _, kids, rest) => {n} + Nodes(kids) + Nodes(rest)
  }

  ghost function Size(f: Forest): nat {
    match f
    case Nil => 0
    case Cons(_, _, kids, rest) => 1 + Size(kids) + Size(rest)
  }

  /** No node occurs twice: the shape is a tree, without sharing and without cycles. */
  ghost predicate Distinct(f: Forest) {
    match f
    case Nil => true
    case Cons(n, _, kids, rest) =>
      n !in Nodes(kids) && n !in Nodes(rest) && Nodes(kids) !! Nodes(rest) &&
      Distinct(kids) && Distinct(rest)
  }

  ghost function MsgOf(m: Option<Msg>): multiset<Msg> {
    match m
    case None => multiset{}
    case Some(x) => multiset{x}
  }

  /** The messages of a forest, with their multiplicities. */
  ghost function Msgs(f: Forest): multiset<Msg> {
    match f
    case Nil => multiset{}
    case Cons(_, m, kids, rest) => MsgOf(m) + Msgs(kids) + Msgs(rest)
  }

  /** Message `a` sits in a proper ancestor of the node of message `d`. */
  ghost predicate Above(f: Forest, a: Msg, d: Msg) {
    match f
    case Nil => false
    case Cons(_, m, kids, rest) =>
      (m == Some(a) && d in Msgs(kids)) || Above(kids, a, d) || Above(rest, a, d)
  }

  ghost function Append(f: Forest, g: Forest): Forest {
    match f
    case Nil => g
    case Cons(n, m, kids, rest) => Cons(n, m, kids, Append(rest, g))
  }

  ghost function Length(f: Forest): nat {
    match f
    case Nil => 0
    case Cons(_, _, _, rest) => 1 + Length(rest)
  }

  /** Every node carries a message. */
  ghost predicate Full(f: Forest) {
    match f
    case Nil => true
    case Cons(_, m, kids, rest) => m.Some? && Full(kids) && Full(rest)
  }

  /** Empty nodes only among the roots, each with at least two children, all carrying messages. */
  ghost predicate Pruned(f: Forest) {
    match f
    case Nil => true
    case Cons(_, m, kids, rest) =>
      Full(kids) && Pruned(rest) && (m.None? ==> kids.Cons? && kids.rest.Cons?)
  }

  ghost function Last(f: Forest): Node
    requires f.Cons?
  {
    if f.rest.Nil? then f.node else Last(f.rest)
  }

  ghost function First(f: Forest, q: Node?): Node? {
    if f.Nil? then q else f.node
  }

  lemma NilParts()
    ensures Nodes(Nil) == {} && Distinct(Nil) && Msgs(Nil) == multiset{} && MsgOf(None) == multiset{}
  {
  }

  lemma MsgsCons(n: Node, m: Option<Msg>, kids: Forest, rest: Forest)
    ensures Msgs(Cons(n, m, kids, rest)) == MsgOf(m) + Msgs(kids) + Msgs(rest)
  {
  }

  lemma AboveCons(n: Node, m: Option<Msg>, kids: Forest, rest: Forest, a: Msg, d: Msg)
    ensures Above(Cons(n, m, kids, rest), a, d) <==>
              (m == Some(a) && d in Msgs(kids)) || Above(kids, a, d) || Above(rest, a, d)
  {
  }

  lemma AppendNodes(f: Forest, g: Forest)
    ensures Nodes(Append(f, g)) == Nodes(f) + Nodes(g)
    ensures Size(Append(f, g)) == Size(f) + Size(g)
  {
  }

  lemma {:induction false} AppendDistinct(f: Forest, g: Forest)
    ensures Distinct(Append(f, g)) <==> Distinct(f) && Distinct(g) && Nodes(f) !! Nodes(g)
  {
    if f.Cons? {
      AppendNodes(f.rest, g);
      AppendDistinct(f.rest, g);
    }
  }

  lemma AppendMsgs(f: Forest, g: Forest)
    ensures Msgs(Append(f, g)) == Msgs(f) + Msgs(g)
  {
  }

  lemma AppendShape(f: Forest, g: Forest)
    ensures Full(Append(f, g)) <==> Full(f) && Full(g)
    ensures Pruned(Append(f, g)) <==> Pruned(f) && Pruned(g)
  {
  }

  lemma AppendAbove(f: Forest, g: Forest, a: Msg, d: Msg)
    ensures Above(Append(f, g), a, d) <==> Above(f, a, d) || Above(g, a, d)
  {
  }

  lemma AppendNil(f: Forest)
    ensures Append(f, Nil) == f
  {
  }

  lemma AppendAssoc(f: Forest, g: Forest, h: Forest)
    ensures Append(Append(f, g), h) == Append(f, Append(g, h))
  {
  }

  lemma LastProps(f: Forest)
    requires f.Cons?
    ensures Last(f) in Nodes(f)
  {
  }

  lemma LastAppend(f: Forest, n: Node, m: Option<Msg>, kids: Forest)
    ensures Last(Append(f, Cons(n, m, kids, Nil))) == n
  {
  }

  lemma AboveMsgs(f: Forest, a: Msg, d: Msg)
    requires Above(f, a, d)
    ensures a in Msgs(f) && d in Msgs(f)
  {
  }

  // ---------------------------------------------------------------- the forest in the heap

  /** What the `parent` fields of a sibling chain must be: one given value, or anything. */
  datatype Parent = Is(node: Node?) | Any

  ghost predicate ParentOk(n: Node, par: Parent)
    reads n`parent
  {
    par.Is? ==> n.parent == par.node
  }

  ghost predicate Carries(n: Node, m: Option<Msg>)
    reads n`item, n`order
  {
    match m
    case None => n.item == None
    case Some(x) => n.item == Some(x.item) && n.order == x.order
  }

  /** The children of an empty node may have a stale `parent` in a `loose` forest. */
  ghost function KidsParent(n: Node, m: Option<Msg>, loose: bool): Parent {
    if loose && m.None? then Any else Is(n)
  }

  /** The chain that starts at `p` and ends at `q` (not included) is the forest `f`. */
  ghost predicate Seg(p: Node?, par: Parent, f: Forest, q: Node?, loose: bool)
    reads Nodes(f)`next, Nodes(f)`parent, Nodes(f)`child, Nodes(f)`item, Nodes(f)`order
    decreases f
  {
    match f
    case Nil => p == q
    case Cons(n, m, kids, rest) =>
      p == n && ParentOk(n, par) && Carries(n, m) &&
      Seg(n.child, KidsParent(n, m, loose), kids, null, loose) &&
      Seg(n.next, par, rest, q, loose)
  }

  lemma SegNil(p: Node?, par: Parent, q: Node?, loose: bool)
    ensures Seg(p, par, Nil, q, loose) <==> p == q
  {
  }

  lemma SegCons(p: Node?, par: Parent, f: Forest, q: Node?, loose: bool)
    requires f.Cons?
    ensures Seg(p, par, f, q, loose) <==>
              p == f.node && ParentOk(f.node, par) && Carries(f.node, f.msg) &&
              Seg(f.node.child, KidsParent(f.node, f.msg, loose), f.kids, null, loose) &&
              Seg(f.node.next, par, f.rest, q, loose)
  {
  }

  lemma SegFirst(p: Node?, par: Parent, f: Forest, q: Node?, loose: bool)
    requires Seg(p, par, f, q, loose)
    ensures p == First(f, q)
  {
  }

  lemma SegAppend(p: Node?, par: Parent, f: Forest, g: Forest, q: Node?, loose: bool)
    ensures Seg(p, par, Append(f, g), q, loose) <==>
            Seg(p, par, f, First(g, q), loose) && Seg(First(g, q), par, g, q, loose)
  {
  }

  /** A strict forest is also a loose one. */
  lemma SegLoosen(p: Node?, par: Parent, f: Forest, q: Node?)
    requires Seg(p, par, f, q, false)
    ensures Seg(p, par, f, q, true) && Seg(p, Any, f, q, true)
    decreases f
  {
    if f.Cons? {
      SegLoosen(f.node.child, Is(f.node), f.kids, null);
      SegLoosen(f.node.next, par, f.rest, q);
    }
  }

  ghost function Init(f: Forest): Forest
    requires f.Cons?
  {
    if f.rest.Nil? then Nil else Cons(f.node, f.msg, f.kids, Init(f.rest))
  }

  ghost function LastTree(f: Forest): Forest
    requires f.Cons?
  {
    if f.rest.Nil? then f else LastTree(f.rest)
  }

  lemma SplitLast(f: Forest)
    requires f.Cons?
    ensures LastTree(f).Cons? && LastTree(f).rest == Nil && LastTree(f).node == Last(f)
    ensures f == Append(Init(f), LastTree(f))
  {
  }

  /** The last sibling of a chain, null when it is empty. */
  ghost function Tail(f: Forest): Node? {
    if f.Nil? then null else Last(f)
  }

  /** Where a chain ends is what its last node, or its head, points at. */
  lemma SegEnd(p: Node?, par: Parent, f: Forest, q: Node?, loose: bool)
    requires Seg(p, par, f, q, loose)
    ensures if f.Nil? then p == q else Last(f).next == q
  {
  }

  /** The node `c` after the chain `f` is added to it. */
  lemma Advance(p: Node?, par: Parent, f: Forest, c: Node, m: Option<Msg>, kids: Forest,
                tail: Forest, loose: bool)
    requires Distinct(f) && Distinct(kids) && c !in Nodes(f) && c !in Nodes(kids) && Nodes(f) !! Nodes(kids)
    requires Seg(p, par, f, c, loose) && ParentOk(c, par) && Carries(c, m)
    requires Seg(c.child, KidsParent(c, m, loose), kids, null, loose)
    ensures var g := Append(f, Cons(c, m, kids, Nil));
      && Seg(p, par, g, c.next, loose) && Tail(g) == c
      && Distinct(g) && Nodes(g) == Nodes(f) + {c} + Nodes(kids)
      && Append(g, tail) == Append(f, Cons(c, m, kids, tail))
  {
    var cell := Cons(c, m, kids, Nil);
    SegAppend(p, par, f, cell, c.next, loose);
    AppendNodes(f, cell);
    AppendDistinct(f, cell);
    AppendAssoc(f, cell, tail);
    LastAppend(f, c, m, kids);
  }

  lemma NodesAllocated(f: Forest)
    ensures forall x :: x in Nodes(f) ==> allocated(x)
  {
  }

  /** `last->next = x`, where `last` is the last node of the chain `f` that starts at `head`.

      The source passes a list head by address and casts that address to a node, `next` being
      the first field.  Here the head travels as an in-out value, and `last == null` stands for
      the address of the head. */
  method Link(head: Node?, last: Node?, x: Node?,
              ghost par: Parent, ghost f: Forest, ghost q: Node?, ghost loose: bool)
    returns (head': Node?)
    requires Distinct(f) && last == Tail(f) && Seg(head, par, f, q, loose)
    modifies (if last == null then {} else {last})`next
    ensures Seg(head', par, f, x, loose)
    ensures last == null ==> head' == x
    ensures last != null ==> head' == head && last.next == x
  {
    if last == null {
      head' := x;
    } else {
      SplitLast(f);
      AppendDistinct(Init(f), LastTree(f));
      SegAppend(head, par, Init(f), LastTree(f), q, loose);
      last.next := x;
      SegAppend(head, par, Init(f), LastTree(f), x, loose);
      head' := head;
    }
  }
}
