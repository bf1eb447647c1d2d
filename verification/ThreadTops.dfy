/** Surgery on a chain of siblings: find a node, cut it out, give it other children.

    `Tops` are the nodes of the chain itself. A node of it splits the chain into what is before and
    what is after it; `MsgAt` and `KidsAt` are its message and children. `CutTop` takes its whole tree
    out, and `WithKids` changes its children. For each of these a lemma says what happens to the
    nodes, the messages and the ancestors, and to the other nodes of the chain. `Order` lists the
    nodes of the chain, which ties positions in the chain to positions in a sequence. */
module ThreadTops {
  import opened Wrappers
  import opened ThreadForest

  ghost function Tops(f: Forest): set<Node> {
    match f
    case Nil => {}
    case Cons(n, _, _, rest) => {n} + Tops(rest)
  }

  ghost function Before(f: Forest, n: Node): Forest
    requires n in Tops(f)
  {
    if f.node == n then Nil else Cons(f.node, f.msg, f.kids, Before(f.rest, n))
  }

  ghost function After(f: Forest, n: Node): Forest
    requires n in Tops(f)
  {
    if f.node == n then f.rest else After(f.rest, n)
  }

  ghost function MsgAt(f: Forest, n: Node): Option<Msg>
    requires n in Tops(f)
  {
    if f.node == n then f.msg else MsgAt(f.rest, n)
  }

  ghost function KidsAt(f: Forest, n: Node): Forest
    requires n in Tops(f)
  {
    if f.node == n then f.kids else KidsAt(f.rest, n)
  }

  /** All messages of the tree at `n`. */
  ghost function TreeMsgs(f: Forest, n: Node): multiset<Msg>
    requires n in Tops(f)
  {
    MsgOf(MsgAt(f, n)) + Msgs(KidsAt(f, n))
  }

  ghost function CutTop(f: Forest, n: Node): Forest
    requires n in Tops(f)
  {
    Append(Before(f, n), After(f, n))
  }

  ghost function WithKids(f: Forest, n: Node, k: Forest): Forest
    requires n in Tops(f)
  {
    Append(Before(f, n), Cons(n, MsgAt(f, n), k, After(f, n)))
  }

  lemma Split(f: Forest, n: Node)
    requires n in Tops(f)
    ensures f == Append(Before(f, n), Cons(n, MsgAt(f, n), KidsAt(f, n), After(f, n)))
  {
  }

  lemma TopsNodes(f: Forest)
    ensures Tops(f) <= Nodes(f)
  {
  }

  lemma AppendTops(f: Forest, g: Forest)
    ensures Tops(Append(f, g)) == Tops(f) + Tops(g)
  {
  }

  /** The tree at a node found in the left or the right part of a chain. */
  lemma AppendAt(f: Forest, g: Forest, n: Node)
    requires n in Tops(f) || n in Tops(g)
    ensures n in Tops(Append(f, g))
    ensures n in Tops(f) ==> MsgAt(Append(f, g), n) == MsgAt(f, n) && KidsAt(Append(f, g), n) == KidsAt(f, n)
    ensures n !in Tops(f) ==> MsgAt(Append(f, g), n) == MsgAt(g, n) && KidsAt(Append(f, g), n) == KidsAt(g, n)
  {
    AppendTops(f, g);
  }

  lemma InSomeTree(f: Forest, d: Msg) returns (n: Node)
    requires d in Msgs(f) && Distinct(f)
    ensures n in Tops(f) && d in TreeMsgs(f, n)
  {
    if d in MsgOf(f.msg) + Msgs(f.kids) {
      n := f.node;
    } else {
      n := InSomeTree(f.rest, d);
      TopsNodes(f.rest);
    }
  }

  /** The parts of a duplicate-free forest around a top node. */
  lemma SplitDistinct(f: Forest, n: Node)
    requires n in Tops(f) && Distinct(f)
    ensures var b, k, a := Before(f, n), KidsAt(f, n), After(f, n);
      && Distinct(b) && Distinct(k) && Distinct(a)
      && Nodes(f) == Nodes(b) + {n} + Nodes(k) + Nodes(a)
      && n !in Nodes(b) && n !in Nodes(k) && n !in Nodes(a)
      && Nodes(b) !! Nodes(k) && Nodes(b) !! Nodes(a) && Nodes(k) !! Nodes(a)
  {
    Split(f, n);
    AppendDistinct(Before(f, n), Cons(n, MsgAt(f, n), KidsAt(f, n), After(f, n)));
    AppendNodes(Before(f, n), Cons(n, MsgAt(f, n), KidsAt(f, n), After(f, n)));
  }

  lemma SplitTops(f: Forest, n: Node)
    requires n in Tops(f) && Distinct(f)
    ensures Tops(f) == Tops(Before(f, n)) + {n} + Tops(After(f, n))
    ensures n !in Tops(Before(f, n)) && n !in Tops(After(f, n))
  {
    Split(f, n);
    SplitDistinct(f, n);
    AppendTops(Before(f, n), Cons(n, MsgAt(f, n), KidsAt(f, n), After(f, n)));
    TopsNodes(Before(f, n));
    TopsNodes(After(f, n));
  }

  /** Another top is found where it was, beside `n`. */
  lemma SplitAt(f: Forest, n: Node, x: Node)
    requires n in Tops(f) && x in Tops(f) && x != n && Distinct(f)
    ensures x in Tops(Before(f, n)) ==>
              MsgAt(Before(f, n), x) == MsgAt(f, x) && KidsAt(Before(f, n), x) == KidsAt(f, x)
    ensures x !in Tops(Before(f, n)) ==>
              x in Tops(After(f, n)) && MsgAt(After(f, n), x) == MsgAt(f, x) && KidsAt(After(f, n), x) == KidsAt(f, x)
  {
    SplitTops(f, n);
  }

  // ---------------------------------------------------------------- in one tree

  /** Both messages are in the tree of one root. */
  ghost predicate Together(f: Forest, a: Msg, d: Msg) {
    exists n :: n in Tops(f) && a in TreeMsgs(f, n) && d in TreeMsgs(f, n)
  }

  ghost predicate BothIn(ms: multiset<Msg>, a: Msg, d: Msg) {
    a in ms && d in ms
  }

  lemma TogetherNil(a: Msg, d: Msg)
    ensures !Together(Nil, a, d)
  {
  }

  lemma TogetherCons(n: Node, m: Option<Msg>, k: Forest, rest: Forest, a: Msg, d: Msg)
    requires n !in Nodes(rest)
    ensures Together(Cons(n, m, k, rest), a, d) <==> BothIn(MsgOf(m) + Msgs(k), a, d) || Together(rest, a, d)
  {
    var f := Cons(n, m, k, rest);
    TopsNodes(rest);
    assert TreeMsgs(f, n) == MsgOf(m) + Msgs(k);
    assert forall x :: x in Tops(rest) ==> TreeMsgs(f, x) == TreeMsgs(rest, x);
    if Together(f, a, d) {
      var x :| x in Tops(f) && a in TreeMsgs(f, x) && d in TreeMsgs(f, x);
      assert x == n || x in Tops(rest);
    }
  }

  // ---------------------------------------------------------------- cutting

  lemma {:induction false} CutProps(f: Forest, n: Node)
    requires n in Tops(f) && Distinct(f)
    ensures var g := CutTop(f, n);
      && Distinct(g) && Nodes(g) == Nodes(f) - {n} - Nodes(KidsAt(f, n))
      && Tops(g) == Tops(f) - {n}
  {
    hide Distinct, Tops;
    SplitDistinct(f, n);
    SplitTops(f, n);
    AppendDistinct(Before(f, n), After(f, n));
    AppendNodes(Before(f, n), After(f, n));
    AppendTops(Before(f, n), After(f, n));
  }

  lemma CutMsgs(f: Forest, n: Node)
    requires n in Tops(f)
    ensures Msgs(f) == Msgs(CutTop(f, n)) + TreeMsgs(f, n)
    ensures Length(f) == Length(CutTop(f, n)) + 1
  {
    var b, c, a := Before(f, n), Cons(n, MsgAt(f, n), KidsAt(f, n), After(f, n)), After(f, n);
    Split(f, n);
    AppendMsgs(b, a);
    AppendMsgs(b, c);
    AppendLength(b, a);
    AppendLength(b, c);
  }

  lemma AppendLength(f: Forest, g: Forest)
    ensures Length(Append(f, g)) == Length(f) + Length(g)
  {
  }

  lemma CutAbove(f: Forest, n: Node, a: Msg, d: Msg)
    requires n in Tops(f)
    ensures Above(f, a, d) <==>
              || Above(CutTop(f, n), a, d)
              || (MsgAt(f, n) == Some(a) && d in Msgs(KidsAt(f, n)))
              || Above(KidsAt(f, n), a, d)
  {
    Split(f, n);
    AppendAbove(Before(f, n), After(f, n), a, d);
    AppendAbove(Before(f, n), Cons(n, MsgAt(f, n), KidsAt(f, n), After(f, n)), a, d);
  }

  lemma CutAt(f: Forest, n: Node, x: Node)
    requires n in Tops(f) && x in Tops(f) && x != n && Distinct(f)
    ensures x in Tops(CutTop(f, n))
    ensures MsgAt(CutTop(f, n), x) == MsgAt(f, x) && KidsAt(CutTop(f, n), x) == KidsAt(f, x)
  {
    SplitTops(f, n);
    SplitAt(f, n, x);
    AppendAt(Before(f, n), After(f, n), x);
  }

  lemma CutShape(f: Forest, n: Node)
    requires n in Tops(f)
    ensures Full(f) <==> Full(CutTop(f, n)) && Full(KidsAt(f, n)) && MsgAt(f, n).Some?
    ensures Pruned(f) ==> Pruned(CutTop(f, n)) && Full(KidsAt(f, n))
    ensures Pruned(f) && MsgAt(f, n).None? ==> Length(KidsAt(f, n)) >= 2
  {
    Split(f, n);
    AppendShape(Before(f, n), After(f, n));
    AppendShape(Before(f, n), Cons(n, MsgAt(f, n), KidsAt(f, n), After(f, n)));
  }

  // ---------------------------------------------------------------- other children

  lemma WithKidsProps(f: Forest, n: Node, k: Forest)
    requires n in Tops(f) && Distinct(f) && Distinct(k)
    requires Nodes(k) !! Nodes(f) - Nodes(KidsAt(f, n))
    ensures var g := WithKids(f, n, k);
      && Distinct(g) && Nodes(g) == Nodes(f) - Nodes(KidsAt(f, n)) + Nodes(k)
      && Tops(g) == Tops(f)
  {
    SplitDistinct(f, n);
    SplitTops(f, n);
    var b, c := Before(f, n), Cons(n, MsgAt(f, n), k, After(f, n));
    AppendTops(b, c);
    hide Tops;
    AppendDistinct(b, c);
    AppendNodes(b, c);
  }

  lemma WithKidsMsgs(f: Forest, n: Node, k: Forest)
    requires n in Tops(f)
    ensures Msgs(WithKids(f, n, k)) == Msgs(CutTop(f, n)) + MsgOf(MsgAt(f, n)) + Msgs(k)
  {
    AppendMsgs(Before(f, n), Cons(n, MsgAt(f, n), k, After(f, n)));
    AppendMsgs(Before(f, n), After(f, n));
  }

  lemma {:induction false} WithKidsAbove(f: Forest, n: Node, k: Forest, a: Msg, d: Msg)
    requires n in Tops(f)
    ensures Above(WithKids(f, n, k), a, d) <==>
              || Above(CutTop(f, n), a, d)
              || (MsgAt(f, n) == Some(a) && d in Msgs(k))
              || Above(k, a, d)
  {
    AppendAbove(Before(f, n), After(f, n), a, d);
    AppendAbove(Before(f, n), Cons(n, MsgAt(f, n), k, After(f, n)), a, d);
  }

  lemma WithKidsAt(f: Forest, n: Node, k: Forest, x: Node)
    requires n in Tops(f) && x in Tops(f) && Distinct(f)
    ensures x in Tops(WithKids(f, n, k)) && MsgAt(WithKids(f, n, k), x) == MsgAt(f, x)
    ensures KidsAt(WithKids(f, n, k), x) == if x == n then k else KidsAt(f, x)
  {
    SplitTops(f, n);
    if x != n { SplitAt(f, n, x); }
    AppendAt(Before(f, n), Cons(n, MsgAt(f, n), k, After(f, n)), x);
  }

  lemma WithKidsShape(f: Forest, n: Node, k: Forest)
    requires n in Tops(f) && Pruned(f) && Full(k)
    requires MsgAt(f, n).None? ==> Length(k) >= 2
    ensures Pruned(WithKids(f, n, k))
  {
    Split(f, n);
    AppendShape(Before(f, n), Cons(n, MsgAt(f, n), KidsAt(f, n), After(f, n)));
    AppendShape(Before(f, n), Cons(n, MsgAt(f, n), k, After(f, n)));
  }

  lemma WithKidsFull(f: Forest, n: Node, k: Forest)
    requires n in Tops(f) && Full(f) && Full(k)
    ensures Full(WithKids(f, n, k))
  {
    Split(f, n);
    AppendShape(Before(f, n), Cons(n, MsgAt(f, n), KidsAt(f, n), After(f, n)));
    AppendShape(Before(f, n), Cons(n, MsgAt(f, n), k, After(f, n)));
  }

  lemma WithKidsParts(f: Forest, n: Node, k: Forest)
    requires n in Tops(f) && Distinct(f)
    ensures var g := WithKids(f, n, k); n in Tops(g) && Before(g, n) == Before(f, n) && After(g, n) == After(f, n)
    ensures var g := WithKids(f, n, k); n in Tops(g) && MsgAt(g, n) == MsgAt(f, n) && KidsAt(g, n) == k
  {
    SplitTops(f, n);
    var b, c := Before(f, n), Cons(n, MsgAt(f, n), k, After(f, n));
    AppendTops(b, c);
    AppendAt(b, c, n);
    AppendBefore(b, c, n);
    AppendNil(b);
  }

  lemma AppendBefore(b: Forest, c: Forest, n: Node)
    requires n in Tops(c) && n !in Tops(b)
    ensures n in Tops(Append(b, c)) && Before(Append(b, c), n) == Append(b, Before(c, n))
    ensures After(Append(b, c), n) == After(c, n)
  {
    AppendTops(b, c);
    if b.Nil? { AppendNil(Before(c, n)); } else { AppendBefore(b.rest, c, n); }
    AppendNil(b);
  }

  // ---------------------------------------------------------------- the order of the roots

  ghost function Order(f: Forest): seq<Node> {
    if f.Nil? then [] else [f.node] + Order(f.rest)
  }

  ghost function SetOf(s: seq<Node>): set<Node> {
    set x | x in s
  }

  lemma SetOfNext(s: seq<Node>, i: nat)
    requires i < |s|
    ensures SetOf(s[..i + 1]) == SetOf(s[..i]) + {s[i]}
  {
  }

  lemma OrderTops(f: Forest)
    ensures SetOf(Order(f)) == Tops(f)
    ensures forall x :: x in Tops(f) <==> x in Order(f)
    ensures Distinct(f) ==> forall i, j :: 0 <= i < j < |Order(f)| ==> Order(f)[i] != Order(f)[j]
  {
    if f.Cons? {
      OrderTops(f.rest);
      TopsNodes(f.rest);
    }
  }

  lemma OrderAppend(f: Forest, g: Forest)
    ensures Order(Append(f, g)) == Order(f) + Order(g)
  {
  }

  /** Around the root at position `i`. */
  lemma OrderAt(f: Forest, i: nat)
    requires i < |Order(f)| && Distinct(f)
    ensures var n := Order(f)[i];
      && n in Tops(f) && Order(Before(f, n)) == Order(f)[..i] && Order(After(f, n)) == Order(f)[i + 1..]
      && Tail(Before(f, n)) == (if i == 0 then null else Order(f)[i - 1])
  {
    var n := Order(f)[i];
    OrderTops(f);
    if i > 0 {
      assert n == Order(f.rest)[i - 1];
      OrderTops(f.rest);
      TopsNodes(f.rest);
      OrderAt(f.rest, i - 1);
      if i > 1 { BeforeTail(f.rest, n); }
    }
  }

  lemma BeforeTail(f: Forest, n: Node)
    requires n in Tops(f) && f.node != n
    ensures Before(f, n).Cons?
  {
  }

  lemma OrderCut(f: Forest, n: Node, i: nat)
    requires Distinct(f) && i < |Order(f)| && Order(f)[i] == n
    ensures n in Tops(f) && Order(CutTop(f, n)) == Order(f)[..i] + Order(f)[i + 1..]
  {
    OrderAt(f, i);
    OrderAppend(Before(f, n), After(f, n));
  }

  lemma OrderPut(f: Forest, c: Node, n: Node, m: Option<Msg>, k: Forest, i: nat)
    requires Distinct(f) && i < |Order(f)| && Order(f)[i] == c
    ensures c in Tops(f) && Order(Append(Before(f, c), Cons(n, m, k, After(f, c)))) == Order(f)[i := n]
  {
    OrderAt(f, i);
    OrderAppend(Before(f, c), Cons(n, m, k, After(f, c)));
  }

  lemma OrderIndex(f: Forest, n: Node) returns (i: nat)
    requires n in Tops(f)
    ensures i < |Order(f)| && Order(f)[i] == n
  {
    if f.node == n { i := 0; } else { i := OrderIndex(f.rest, n); i := i + 1; }
  }

  lemma SegOrder(p: Node?, par: Parent, f: Forest, q: Node?, loose: bool, i: nat)
    requires Seg(p, par, f, q, loose) && i < |Order(f)|
    ensures i == 0 ==> p == Order(f)[0]
    ensures Order(f)[i].next == (if i + 1 < |Order(f)| then Order(f)[i + 1] else q)
    decreases f
  {
    if i > 0 {
      SegOrder(f.node.next, par, f.rest, q, loose, i - 1);
    } else {
      SegFirst(f.node.next, par, f.rest, q, loose);
    }
  }

  // ---------------------------------------------------------------- the same in the heap

  lemma SegSplit(p: Node?, par: Parent, f: Forest, n: Node, q: Node?, loose: bool)
    requires n in Tops(f)
    ensures Seg(p, par, f, q, loose) <==>
      && Seg(p, par, Before(f, n), n, loose)
      && ParentOk(n, par) && Carries(n, MsgAt(f, n))
      && Seg(n.child, KidsParent(n, MsgAt(f, n), loose), KidsAt(f, n), null, loose)
      && Seg(n.next, par, After(f, n), q, loose)
  {
    var c := Cons(n, MsgAt(f, n), KidsAt(f, n), After(f, n));
    Split(f, n);
    SegAppend(p, par, Before(f, n), c, q, loose);
    SegCons(n, par, c, q, loose);
  }
}
