/** Messages that belong to one thread: pruning, sorting and the last pass keep them under one root. */
module ThreadTogether {
  import opened Wrappers
  import opened ThreadForest
  import opened ThreadTops
  import opened ThreadLinks
  import opened ThreadBuild
  import opened ThreadRoots
  import opened ThreadPrune
  import opened ThreadSort
  import opened ThreadPhantom

  // ---------------------------------------------------------------- pruning

  /** Pruning keeps exactly the same threads: an empty root stays while it holds several messages
      together. */
  lemma {:induction false} PruneTogether(f: Forest, a: Msg, d: Msg)
    requires Distinct(f)
    ensures Together(Prune(f, true), a, d) <==> Together(f, a, d)
  {
    hide Together, Distinct, Nodes, Msgs;
    match f
    case Nil =>
    case Cons(n, m, kids, rest) =>
      DistinctParts(f);
      var k, r := Prune(kids, false), Prune(rest, true);
      PruneTogether(rest, a, d);
      PruneKeepsMessages(kids, false);
      PruneNodes(kids, false);
      PruneNodes(rest, true);
      TogetherCons(n, m, kids, rest, a, d);
      TogetherCons(n, m, k, r, a, d);
      NilParts();
      if k.Cons? {
        ConsTops(k);
        MsgsCons(k.node, k.msg, k.kids, k.rest);
        TogetherCons(k.node, k.msg, k.kids, r, a, d);
        if k.rest.Nil? { assert RevOnto(k, r) == Cons(k.node, k.msg, k.kids, r); }
      }
  }

  lemma DistinctParts(f: Forest)
    requires Distinct(f) && f.Cons?
    ensures f.node !in Nodes(f.kids) && f.node !in Nodes(f.rest) && Nodes(f.kids) !! Nodes(f.rest)
    ensures Distinct(f.kids) && Distinct(f.rest)
  {
  }

  lemma ConsTops(f: Forest)
    requires f.Cons?
    ensures f.node in Nodes(f)
  {
  }

  // ---------------------------------------------------------------- sorting

  lemma {:induction false} InsertTogether(n: Node, m: Option<Msg>, k: Forest, f: Forest, a: Msg, d: Msg)
    requires Distinct(f) && n !in Nodes(f) && n !in Nodes(k) && Nodes(k) !! Nodes(f)
    ensures Together(Insert(n, m, k, f), a, d) <==> Together(Cons(n, m, k, f), a, d)
  {
    hide Together, Msgs, Lead, Less, Distinct, Nodes;
    if f.Cons? {
      DistinctParts(f);
      ConsTops(f);
      RestNodes(f);
      InsertTogether(n, m, k, f.rest, a, d);
      InsertKeeps(n, m, k, f.rest);
      TogetherCons(n, m, k, f.rest, a, d);
      TogetherCons(n, m, k, f, a, d);
      TogetherCons(f.node, f.msg, f.kids, f.rest, a, d);
      TogetherCons(f.node, f.msg, f.kids, Insert(n, m, k, f.rest), a, d);
    }
  }

  lemma RestNodes(f: Forest)
    requires f.Cons?
    ensures Nodes(f.rest) <= Nodes(f)
  {
  }

  lemma {:induction false} SortListTogether(f: Forest, a: Msg, d: Msg)
    requires Distinct(f)
    ensures Together(SortList(f), a, d) <==> Together(f, a, d)
  {
    hide Together, Msgs, Distinct, Nodes, Insert;
    if f.Cons? {
      DistinctParts(f);
      SortListTogether(f.rest, a, d);
      SortListKeeps(f.rest);
      SortListDistinct(f.rest);
      InsertTogether(f.node, f.msg, f.kids, SortList(f.rest), a, d);
      TogetherCons(f.node, f.msg, f.kids, f.rest, a, d);
      TogetherCons(f.node, f.msg, f.kids, SortList(f.rest), a, d);
    }
  }

  lemma {:induction false} SortKidsTogether(f: Forest, a: Msg, d: Msg)
    requires Distinct(f)
    ensures Together(SortKids(f), a, d) <==> Together(f, a, d)
  {
    hide Together, Msgs, Distinct, Nodes, SortForest;
    if f.Cons? {
      DistinctParts(f);
      SortKidsTogether(f.rest, a, d);
      SortKidsKeeps(f.rest);
      SortKeeps(f.kids);
      TogetherCons(f.node, f.msg, f.kids, f.rest, a, d);
      TogetherCons(f.node, f.msg, SortForest(f.kids), SortKids(f.rest), a, d);
    }
  }

  /** Sorting keeps exactly the same threads. */
  lemma SortTogether(f: Forest, a: Msg, d: Msg)
    requires Distinct(f)
    ensures Together(SortForest(f), a, d) <==> Together(f, a, d)
  {
    hide Together, Distinct;
    SortKidsTogether(f, a, d);
    SortKidsDistinct(f);
    SortListTogether(SortKids(f), a, d);
  }

  // ---------------------------------------------------------------- the last pass

  /** Replacing the empty roots keeps exactly the same threads. */
  lemma {:induction false} PromoteTogether(f: Forest, swap: bool, a: Msg, d: Msg)
    requires Distinct(f)
    ensures Together(Promote(f, swap), a, d) <==> Together(f, a, d)
  {
    hide Together, Msgs, Distinct, Nodes, PromoteRoot;
    if f.Cons? {
      DistinctParts(f);
      PromoteTogether(f.rest, swap, a, d);
      PromoteNodes(f.rest, swap);
      PromoteRootMsgs(f.msg, f.kids, swap);
      var (m', k') := PromoteRoot(f.msg, f.kids, swap);
      TogetherCons(f.node, f.msg, f.kids, f.rest, a, d);
      if f.kids.Cons? {
        ConsTops(f.kids);
        TogetherCons(f.kids.node, m', k', Promote(f.rest, swap), a, d);
      }
      TogetherCons(f.node, m', k', Promote(f.rest, swap), a, d);
    }
  }

  // ---------------------------------------------------------------- the graph

  /** Some node without a parent is above both, or is one of them. */
  ghost predicate CommonRoot(l: Links, x: Node, y: Node)
    requires Wellformed(l) && x in l.par && y in l.par
  {
    exists r :: r in l.par && l.par[r] == null && Under(l, r, x) && Under(l, r, y)
  }

  lemma HasMessage(l: Links, s: seq<Node>, bound: nat, q: Node?, x: Node, a: Msg)
    requires Wellformed(l) && Ranked(l, s, bound) && Siblings(l, s, q) && Labelled(l) && x in l.msg && l.msg[x] == Some(a)
    ensures x in l.par && (a in Msgs(ForestOf(l, s, bound)) <==> Below(l, s, x))
  {
    MsgsOf(l, s, bound, q, x, a);
    NodesOf(l, s, bound, x);
  }

  /** The tree of a node holds the messages of the nodes under it. */
  lemma TreeHas(l: Links, n: Node, x: Node, a: Msg)
    requires Wellformed(l) && n in l.par && Labelled(l) && x in l.msg && l.msg[x] == Some(a)
    ensures Ranked(l, l.kids[n], l.rank[n]) && x in l.par
    ensures a in MsgOf(l.msg[n]) + Msgs(ForestOf(l, l.kids[n], l.rank[n])) <==> Under(l, n, x)
  {
    KidsRanked(l, n);
    HasMessage(l, l.kids[n], l.rank[n], n, x, a);
    assert l.msg[n] == Some(a) <==> n == x;
    if Anc(l, n, x) { var c := BelowChild(l, n, x); }
    if Below(l, l.kids[n], x) {
      var c :| c in l.kids[n] && Under(l, c, x);
      ChildBelow(l, n, c, x);
    }
  }

  ghost predicate BelowOne(l: Links, s: seq<Node>, x: Node, y: Node)
    requires Wellformed(l) && x in l.par && y in l.par
  {
    exists r :: r in s && Under(l, r, x) && Under(l, r, y)
  }

  lemma BelowOneHead(l: Links, s: seq<Node>, x: Node, y: Node)
    requires Wellformed(l) && x in l.par && y in l.par && s != []
    ensures BelowOne(l, s, x, y) <==> (Under(l, s[0], x) && Under(l, s[0], y)) || BelowOne(l, s[1..], x, y)
  {
    hide Under;
    if BelowOne(l, s, x, y) {
      var r :| r in s && Under(l, r, x) && Under(l, r, y);
      if r != s[0] { assert r in s[1..]; }
    }
  }

  lemma BelowOneNone(l: Links, x: Node, y: Node)
    requires Wellformed(l) && x in l.par && y in l.par
    ensures !BelowOne(l, [], x, y)
  {
  }

  lemma {:induction false} ForestTogether(l: Links, s: seq<Node>, bound: nat, q: Node?, x: Node, y: Node, a: Msg, d: Msg)
    requires Wellformed(l) && Ranked(l, s, bound) && Siblings(l, s, q) && Labelled(l)
    requires x in l.msg && y in l.msg && l.msg[x] == Some(a) && l.msg[y] == Some(d)
    ensures Together(ForestOf(l, s, bound), a, d) <==> BelowOne(l, s, x, y)
    decreases |s|
  {
    hide Together, Under, Anc, Nodes, Msgs, MsgOf, Distinct, BelowOne;
    if s == [] {
      TogetherNil(a, d);
      BelowOneNone(l, x, y);
    } else {
      var n := s[0];
      ForestDistinct(l, s, bound, q);
      TreeHas(l, n, x, a);
      TreeHas(l, n, y, d);
      ForestTogether(l, s[1..], bound, q, x, y, a, d);
      DistinctParts(ForestOf(l, s, bound));
      TogetherCons(n, l.msg[n], ForestOf(l, l.kids[n], l.rank[n]), ForestOf(l, s[1..], bound), a, d);
      BelowOneHead(l, s, x, y);
    }
  }

  /** The forest below the roots of the graph. */
  lemma RootsTogether(l: Links, r: seq<Node>, x: Node, y: Node, a: Msg, d: Msg)
    requires Wellformed(l) && RootList(l, r) && Ranked(l, r, l.top) && Labelled(l)
    requires x in l.msg && y in l.msg && l.msg[x] == Some(a) && l.msg[y] == Some(d)
    ensures x in l.par && y in l.par
    ensures Together(ForestOf(l, r, l.top), a, d) <==> CommonRoot(l, x, y)
  {
    hide Together, Under, Anc, ForestOf;
    ForestTogether(l, r, l.top, null, x, y, a, d);
  }

  /** Two messages are in one tree of the linked forest exactly if their nodes have a common root. */
  lemma MessagesTogether(items: seq<Item>, b: Build, r: seq<Node>, i: nat, j: nat)
    requires BuildOk(items, b) && |b.owner| == |items| && Wellformed(b.l) && RootList(b.l, r) && Ranked(b.l, r, b.l.top)
    requires i < |items| && j < |items|
    ensures b.owner[i] in b.l.par && b.owner[j] in b.l.par
    ensures Together(ForestOf(b.l, r, b.l.top), Msg(items[i], i + 1), Msg(items[j], j + 1)) <==>
              CommonRoot(b.l, b.owner[i], b.owner[j])
  {
    hide Together, Under, Anc, ForestOf, BuildOk, CommonRoot, Wellformed;
    OwnersOf(items, b, i);
    OwnersOf(items, b, j);
    OwnedLabelled(items, b);
    RootsTogether(b.l, r, b.owner[i], b.owner[j], Msg(items[i], i + 1), Msg(items[j], j + 1));
  }

  lemma OwnersOf(items: seq<Item>, b: Build, k: nat)
    requires BuildOk(items, b) && k < |b.owner|
    ensures b.owner[k] in b.l.par && b.owner[k] in b.l.msg && b.l.msg[b.owner[k]] == Some(Msg(items[k], k + 1))
  {
    assert OwnerAt(items, b, k);
  }
}
