/** From the graph of the reference loop to the forest of its roots. */
module ThreadRoots {
  import opened Wrappers
  import opened ThreadForest
  import opened ThreadLinks
  import opened ThreadBuild
  import opened ThreadReferences

  // ---------------------------------------------------------------- ancestors

  lemma UpRank(l: Links, a: Node, d: Node)
    requires Wellformed(l) && d in l.par && Anc(l, a, d)
    ensures a in l.par && l.rank[d] < l.rank[a]
    decreases l.top - l.rank[d]
  {
    AncStep(l, a, d);
    if l.par[d] != a { UpRank(l, a, l.par[d]); }
  }

  lemma AncTrans(l: Links, a: Node, b: Node, d: Node)
    requires Wellformed(l) && b in l.par && d in l.par && Under(l, a, b) && Under(l, b, d)
    ensures Under(l, a, d)
    ensures a != b || b != d ==> Anc(l, a, d)
    decreases l.top - l.rank[d]
  {
    AncStep(l, b, d);
    AncStep(l, a, d);
    if b != d && l.par[d] != b { AncTrans(l, a, b, l.par[d]); }
  }

  /** Two ancestors of one node are on one line. */
  lemma AncLine(l: Links, a: Node, b: Node, d: Node)
    requires Wellformed(l) && d in l.par && Under(l, a, d) && Under(l, b, d)
    ensures a in l.par && b in l.par && (Under(l, a, b) || Under(l, b, a))
    decreases l.top - l.rank[d]
  {
    AncStep(l, a, d);
    AncStep(l, b, d);
    if a != d { UpRank(l, a, d); }
    if b != d { UpRank(l, b, d); }
    if a != d && b != d { AncLine(l, a, b, l.par[d]); }
  }

  lemma ParentUnder(l: Links, n: Node)
    requires Wellformed(l) && n in l.par && l.par[n] != null
    ensures l.par[n] in l.par && Anc(l, l.par[n], n)
  {
    AncStep(l, l.par[n], n);
  }

  /** What is below `n` is below one of its children. */
  lemma BelowChild(l: Links, n: Node, x: Node) returns (c: Node)
    requires Wellformed(l) && n in l.par && x in l.par && Anc(l, n, x)
    ensures c in l.kids[n] && c in l.par && Under(l, c, x)
    decreases l.top - l.rank[x]
  {
    AncStep(l, n, x);
    assert NodeOk(l, x);
    if l.par[x] == n {
      c := x;
    } else {
      c := BelowChild(l, n, l.par[x]);
      ParentUnder(l, x);
      AncTrans(l, c, l.par[x], x);
    }
  }

  lemma ChildBelow(l: Links, n: Node, c: Node, x: Node)
    requires Wellformed(l) && n in l.par && c in l.kids[n] && x in l.par && Under(l, c, x)
    ensures c in l.par && l.rank[c] < l.rank[n] && l.par[c] == n && Anc(l, n, x)
  {
    assert NodeOk(l, n);
    assert NodeOk(l, c);
    ParentUnder(l, c);
    if c != x { UpRank(l, c, x); }
    AncTrans(l, n, c, x);
    if n == x { UpRank(l, n, c); }
  }

  /** Every node is below a node without a parent. */
  lemma RootAbove(l: Links, x: Node) returns (r: Node)
    requires Wellformed(l) && x in l.par
    ensures r in l.par && l.par[r] == null && Under(l, r, x)
    decreases l.top - l.rank[x]
  {
    AncStep(l, x, x);
    if l.par[x] == null {
      r := x;
    } else {
      r := RootAbove(l, l.par[x]);
      ParentUnder(l, x);
      AncTrans(l, r, l.par[x], x);
    }
  }

  // ---------------------------------------------------------------- the forest

  /** Nodes with one parent, each once. */
  ghost predicate Siblings(l: Links, s: seq<Node>, q: Node?) {
    NoRepeat(s) && forall x :: x in s ==> x in l.par && l.par[x] == q
  }

  ghost predicate Ranked(l: Links, s: seq<Node>, bound: nat)
    requires Wellformed(l)
  {
    forall x :: x in s ==> x in l.par && l.rank[x] < bound
  }

  lemma KidsRanked(l: Links, n: Node)
    requires Wellformed(l) && n in l.par
    ensures Ranked(l, l.kids[n], l.rank[n]) && Siblings(l, l.kids[n], n)
  {
    assert NodeOk(l, n);
    forall c | c in l.kids[n] ensures c in l.par && l.rank[c] < l.rank[n] { assert NodeOk(l, c); }
  }

  ghost function ForestOf(l: Links, s: seq<Node>, bound: nat): Forest
    requires Wellformed(l) && Ranked(l, s, bound)
    decreases bound, |s|
  {
    if s == [] then Nil
    else
      KidsRanked(l, s[0]);
      Cons(s[0], l.msg[s[0]], ForestOf(l, l.kids[s[0]], l.rank[s[0]]), ForestOf(l, s[1..], bound))
  }

  ghost predicate Below(l: Links, s: seq<Node>, x: Node)
    requires Wellformed(l) && x in l.par
  {
    exists r :: r in s && Under(l, r, x)
  }

  lemma BelowHead(l: Links, s: seq<Node>, x: Node)
    requires Wellformed(l) && x in l.par && s != []
    ensures Below(l, s, x) <==> Under(l, s[0], x) || Below(l, s[1..], x)
  {
    if Below(l, s, x) {
      var r :| r in s && Under(l, r, x);
      if r != s[0] { assert r in s[1..]; }
    }
  }

  lemma {:induction false} NodesOf(l: Links, s: seq<Node>, bound: nat, x: Node)
    requires Wellformed(l) && Ranked(l, s, bound)
    ensures x in Nodes(ForestOf(l, s, bound)) <==> x in l.par && Below(l, s, x)
    decreases bound, |s|
  {
    if s != [] {
      var n := s[0];
      KidsRanked(l, n);
      NodesOf(l, l.kids[n], l.rank[n], x);
      NodesOf(l, s[1..], bound, x);
      if x in l.par {
        BelowHead(l, s, x);
        if Anc(l, n, x) { var c := BelowChild(l, n, x); }
        if Below(l, l.kids[n], x) {
          var c :| c in l.kids[n] && Under(l, c, x);
          ChildBelow(l, n, c, x);
        }
      }
    }
  }

  /** Siblings are not below each other, and nothing is below two of them. */
  lemma SiblingsApart(l: Links, q: Node?, a: Node, b: Node, x: Node)
    requires Wellformed(l) && a in l.par && b in l.par && l.par[a] == q && l.par[b] == q && a != b
    requires x in l.par && Under(l, a, x)
    ensures !Under(l, b, x)
  {
    if Under(l, b, x) {
      AncLine(l, a, b, x);
      NotUnderSibling(l, q, a, b);
      NotUnderSibling(l, q, b, a);
    }
  }

  lemma NotUnderSibling(l: Links, q: Node?, a: Node, b: Node)
    requires Wellformed(l) && a in l.par && b in l.par && l.par[a] == q && l.par[b] == q && a != b
    ensures !Under(l, a, b)
  {
    if Under(l, a, b) {
      AncStep(l, a, b);
      AncStep(l, a, a);
      if q != a { UpRank(l, a, q); }
    }
  }

  /** No node occurs twice. */
  lemma {:induction false} ForestDistinct(l: Links, s: seq<Node>, bound: nat, q: Node?)
    requires Wellformed(l) && Ranked(l, s, bound) && Siblings(l, s, q)
    ensures Distinct(ForestOf(l, s, bound))
    decreases bound, |s|
  {
    if s != [] {
      var n := s[0];
      KidsRanked(l, n);
      ForestDistinct(l, l.kids[n], l.rank[n], n);
      ForestDistinct(l, s[1..], bound, q);
      forall x | x in Nodes(ForestOf(l, l.kids[n], l.rank[n]))
        ensures x != n && x !in Nodes(ForestOf(l, s[1..], bound))
      {
        NodesOf(l, l.kids[n], l.rank[n], x);
        var c :| c in l.kids[n] && Under(l, c, x);
        ChildBelow(l, n, c, x);
        UpRank(l, n, x);
        NotInRest(l, s, bound, q, x);
      }
      NotInRest(l, s, bound, q, n);
    }
  }

  lemma NotInRest(l: Links, s: seq<Node>, bound: nat, q: Node?, x: Node)
    requires Wellformed(l) && Ranked(l, s, bound) && Siblings(l, s, q) && s != [] && x in l.par && Under(l, s[0], x)
    ensures x !in Nodes(ForestOf(l, s[1..], bound))
  {
    NodesOf(l, s[1..], bound, x);
    if Below(l, s[1..], x) {
      var r :| r in s[1..] && Under(l, r, x);
      SiblingsApart(l, q, s[0], r, x);
    }
  }

  /** The forest is what the heap holds. */
  lemma {:induction false} SegOf(l: Links, s: seq<Node>, bound: nat, q: Node?)
    requires Wellformed(l) && Drawn(l) && Ranked(l, s, bound) && Siblings(l, s, q) && ListDrawn(s)
    ensures Seg(FirstOf(s), Is(q), ForestOf(l, s, bound), null, false)
    decreases bound, |s|
  {
    if s != [] {
      var n := s[0];
      KidsRanked(l, n);
      NodeDrawnIs(l, n);
      NodeDrawnParts(l, n);
      SegOf(l, l.kids[n], l.rank[n], n);
      assert forall i :: 0 <= i < |s| - 1 ==> s[1..][i] == s[i + 1];
      SegOf(l, s[1..], bound, q);
    }
  }

  // ---------------------------------------------------------------- its messages

  /** No message is in two nodes. */
  ghost predicate Labelled(l: Links)
    requires Wellformed(l)
  {
    forall x, y :: x in l.msg && y in l.msg && l.msg[x].Some? && l.msg[x] == l.msg[y] ==> x == y
  }

  lemma OwnedLabelled(items: seq<Item>, b: Build)
    requires BuildOk(items, b)
    ensures Labelled(b.l)
  {
    forall x, y | x in b.l.msg && y in b.l.msg && b.l.msg[x].Some? && b.l.msg[x] == b.l.msg[y] ensures x == y {
      assert Owned(items, b, x) && Owned(items, b, y);
    }
  }

  /** A message is in the forest once if its node is, and else not at all. */
  lemma {:induction false} MsgsOf(l: Links, s: seq<Node>, bound: nat, q: Node?, x: Node, m: Msg)
    requires Wellformed(l) && Ranked(l, s, bound) && Siblings(l, s, q) && Labelled(l)
    requires x in l.msg && l.msg[x] == Some(m)
    ensures var f := ForestOf(l, s, bound); Msgs(f)[m] == if x in Nodes(f) then 1 else 0
    decreases bound, |s|
  {
    if s != [] {
      var n := s[0];
      KidsRanked(l, n);
      MsgsOf(l, l.kids[n], l.rank[n], n, x, m);
      MsgsOf(l, s[1..], bound, q, x, m);
      ForestDistinct(l, s, bound, q);
      assert l.msg[n] == Some(m) ==> n == x;
    }
  }

  /** A message that is in no node is not in the forest. */
  lemma {:induction false} MsgsNone(l: Links, s: seq<Node>, bound: nat, m: Msg)
    requires Wellformed(l) && Ranked(l, s, bound)
    requires forall x :: x in l.msg ==> l.msg[x] != Some(m)
    ensures m !in Msgs(ForestOf(l, s, bound))
    decreases bound, |s|
  {
    if s != [] {
      KidsRanked(l, s[0]);
      MsgsNone(l, l.kids[s[0]], l.rank[s[0]], m);
      MsgsNone(l, s[1..], bound, m);
    }
  }

  /** The ancestors in the forest are those of the graph. */
  lemma {:induction false} AboveOf(l: Links, s: seq<Node>, bound: nat, q: Node?, x: Node, y: Node, a: Msg, d: Msg)
    requires Wellformed(l) && Ranked(l, s, bound) && Siblings(l, s, q) && Labelled(l)
    requires x in l.msg && y in l.msg && l.msg[x] == Some(a) && l.msg[y] == Some(d)
    ensures var f := ForestOf(l, s, bound); Above(f, a, d) <==> x in Nodes(f) && Anc(l, x, y)
    decreases bound, |s|
  {
    if s != [] {
      var n := s[0];
      KidsRanked(l, n);
      AboveOf(l, l.kids[n], l.rank[n], n, x, y, a, d);
      AboveOf(l, s[1..], bound, q, x, y, a, d);
      MsgsOf(l, l.kids[n], l.rank[n], n, y, d);
      NodesOf(l, l.kids[n], l.rank[n], y);
      assert l.msg[n] == Some(a) <==> n == x;
      if Anc(l, n, y) { var c := BelowChild(l, n, y); }
      if Below(l, l.kids[n], y) {
        var c :| c in l.kids[n] && Under(l, c, y);
        ChildBelow(l, n, c, y);
      }
    }
  }

  /** The messages of the first `n` items. */
  ghost function AllMsgs(items: seq<Item>, n: nat): multiset<Msg>
    requires n <= |items|
  {
    if n == 0 then multiset{} else AllMsgs(items, n - 1) + multiset{Msg(items[n - 1], n)}
  }

  lemma {:induction false} AllMsgsAt(items: seq<Item>, n: nat, m: Msg)
    requires n <= |items|
    ensures AllMsgs(items, n)[m] == if 1 <= m.order <= n && m.item == items[m.order - 1] then 1 else 0
  {
    if n > 0 { AllMsgsAt(items, n - 1, m); }
  }

  /** The roots of the graph. */
  ghost predicate RootList(l: Links, r: seq<Node>) {
    Siblings(l, r, null) && forall n :: n in l.par && l.par[n] == null ==> n in r
  }

  lemma RootsRanked(l: Links, r: seq<Node>)
    requires Wellformed(l) && Siblings(l, r, null)
    ensures Ranked(l, r, l.top)
  {
    forall x | x in r ensures l.rank[x] < l.top { AncStep(l, x, x); }
  }

  /** Every node is in the forest of the roots. */
  lemma AllNodes(l: Links, r: seq<Node>)
    requires Wellformed(l) && RootList(l, r) && Ranked(l, r, l.top)
    ensures Nodes(ForestOf(l, r, l.top)) == l.par.Keys
  {
    forall x | x in Nodes(ForestOf(l, r, l.top)) ensures x in l.par { NodesOf(l, r, l.top, x); }
    forall x | x in l.par ensures x in Nodes(ForestOf(l, r, l.top)) {
      NodesOf(l, r, l.top, x);
      var t := RootAbove(l, x);
      assert t in r && Under(l, t, x);
    }
  }

  lemma ForestMessage(items: seq<Item>, b: Build, r: seq<Node>, m: Msg)
    requires BuildOk(items, b) && |b.owner| == |items| && RootList(b.l, r) && Ranked(b.l, r, b.l.top)
    requires Nodes(ForestOf(b.l, r, b.l.top)) == b.l.par.Keys && Labelled(b.l)
    ensures Msgs(ForestOf(b.l, r, b.l.top))[m] == if 1 <= m.order <= |items| && m.item == items[m.order - 1] then 1 else 0
  {
    hide TablesOk, Wellformed, Nameless, ForestOf, Ranked, Labelled;
    KeysOk(b.l);
    if 1 <= m.order <= |items| && m.item == items[m.order - 1] {
      var x := b.owner[m.order - 1];
      assert OwnerAt(items, b, m.order - 1);
      MsgsOf(b.l, r, b.l.top, null, x, m);
    } else {
      forall x | x in b.l.msg ensures b.l.msg[x] != Some(m) { assert Owned(items, b, x); }
      MsgsNone(b.l, r, b.l.top, m);
    }
  }

  /** Every message of the input is in exactly one node of the forest. */
  lemma ForestMessages(items: seq<Item>, b: Build, r: seq<Node>)
    requires BuildOk(items, b) && |b.owner| == |items| && RootList(b.l, r) && Ranked(b.l, r, b.l.top)
    ensures Msgs(ForestOf(b.l, r, b.l.top)) == AllMsgs(items, |items|)
  {
    hide BuildOk, ForestOf, AllMsgs, RootList, Ranked, Wellformed;
    OwnedLabelled(items, b);
    BuildWellformed(items, b);
    AllNodes(b.l, r);
    forall m: Msg ensures Msgs(ForestOf(b.l, r, b.l.top))[m] == AllMsgs(items, |items|)[m] {
      AllMsgsAt(items, |items|, m);
      ForestMessage(items, b, r, m);
    }
  }

  /** One message is above another exactly if its node is an ancestor in the graph. */
  lemma ForestAncestors(items: seq<Item>, b: Build, r: seq<Node>, i: nat, j: nat)
    requires BuildOk(items, b) && |b.owner| == |items| && RootList(b.l, r) && Ranked(b.l, r, b.l.top)
    requires i < |items| && j < |items|
    ensures b.owner[j] in b.l.par
    ensures Above(ForestOf(b.l, r, b.l.top), Msg(items[i], i + 1), Msg(items[j], j + 1)) <==>
              Anc(b.l, b.owner[i], b.owner[j])
  {
    OwnedLabelled(items, b);
    AllNodes(b.l, r);
    assert OwnerAt(items, b, i) && OwnerAt(items, b, j);
    AboveOf(b.l, r, b.l.top, null, b.owner[i], b.owner[j], Msg(items[i], i + 1), Msg(items[j], j + 1));
  }

  // ---------------------------------------------------------------- the root list

  /** The roots among the nodes seen so far, linked from `head`. */
  ghost predicate Collected(l: Links, seen: set<Node>, r: seq<Node>, head: Node?)
    reads r`next
  {
    NoRepeat(r) && (forall n :: n in r ==> n in seen && n in l.par && l.par[n] == null) &&
    (forall n :: n in seen && n in l.par && l.par[n] == null ==> n in r) &&
    head == FirstOf(r) && ListDrawn(r)
  }

  /** hashloop: a node without a parent goes to the front of the root list. */
  method HashLoop(c: Node, head: Node?, ghost l: Links, ghost seen: set<Node>, ghost r: seq<Node>)
    returns (head': Node?, ghost r': seq<Node>)
    requires Wellformed(l) && Drawn(l) && Collected(l, seen, r, head) && c in l.par && c !in seen && seen <= l.par.Keys
    modifies c`next
    ensures Drawn(l) && Collected(l, seen + {c}, r', head')
    ensures l.par[c] != null ==> c.next == old(c.next)
  {
    hide Drawn, Wellformed, NodeDrawn, ListDrawn, NoRepeat, Carries;
    head', r' := head, r;
    DrawnParent(l, c);
    if c.parent == null {
      RootsApart(l, c);
      DrawnAll(l);
      c.next := head;
      head' := c;
      forall n | n in l.par ensures NodeDrawn(l, n) {
        assert old(ListDrawn(l.kids[n]));
        NodeDrawnOf(l, n);
      }
      DrawnFold(l);
      r' := [c] + r;
      NoRepeatCons(c, r);
      assert old(ListDrawn(r));
      ListDrawnCons(c, r);
    }
  }

  lemma RootsApart(l: Links, c: Node)
    requires Wellformed(l) && c in l.par && l.par[c] == null
    ensures l.kids.Keys == l.par.Keys && l.msg.Keys == l.par.Keys
    ensures forall n :: n in l.par ==> c !in l.kids[n]
  {
    forall n | n in l.par ensures c !in l.kids[n] { NodeParts(l, n); }
  }

  lemma DrawnAll(l: Links)
    requires Wellformed(l) && Drawn(l)
    ensures l.kids.Keys == l.par.Keys && l.msg.Keys == l.par.Keys
    ensures forall n :: n in l.par ==>
      n.parent == l.par[n] && n.child == FirstOf(l.kids[n]) && Carries(n, l.msg[n]) && ListDrawn(l.kids[n])
  {
    forall n | n in l.par
      ensures n.parent == l.par[n] && n.child == FirstOf(l.kids[n]) && Carries(n, l.msg[n]) && ListDrawn(l.kids[n])
    {
      NodeDrawnIs(l, n);
      NodeDrawnParts(l, n);
    }
  }

  /** g_hash_table_foreach with hashloop: the values of one table, in any order. */
  method ForEach<K>(table: map<K, Node>, head: Node?, ghost l: Links, ghost seen: set<Node>, ghost r: seq<Node>)
    returns (head': Node?, ghost r': seq<Node>)
    requires Wellformed(l) && Drawn(l) && Collected(l, seen, r, head) && seen <= l.par.Keys
    requires table.Values <= l.par.Keys && table.Values !! seen
    requires forall x, y :: x in table && y in table && table[x] == table[y] ==> x == y
    modifies l.par.Keys`next
    ensures Drawn(l) && Collected(l, seen + table.Values, r', head')
  {
    hide Drawn, Wellformed, Collected;
    head', r' := head, r;
    var keys := table.Keys;
    ghost var done := seen;
    MapValues(table);
    while keys != {}
      invariant keys <= table.Keys && seen <= done && done <= l.par.Keys
      invariant forall k :: k in table ==> (table[k] in done <==> k !in keys)
      invariant forall n :: n in done ==> n in seen || n in table.Values
      invariant Drawn(l) && Collected(l, done, r', head')
      decreases keys
    {
      var k :| k in keys;
      keys := keys - {k};
      head', r' := HashLoop(table[k], head', l, done, r');
      done := done + {table[k]};
    }
    assert done == seen + table.Values;
  }

  /** The root list of thread_items. */
  method CollectRoots(ids: map<nat, Node>, noIds: map<Item, Node>, ghost items: seq<Item>, ghost b: Build)
    returns (head: Node?, ghost f: Forest, ghost r: seq<Node>)
    requires BuildOk(items, b) && Heap(b.l) && ids == b.ids && noIds == b.noIds && |b.owner| == |items|
    modifies b.l.par.Keys`next
    ensures Seg(head, Is(null), f, null, false) && Distinct(f) && Nodes(f) == b.l.par.Keys
    ensures Msgs(f) == AllMsgs(items, |items|)
    ensures Wellformed(b.l) && RootList(b.l, r) && Ranked(b.l, r, b.l.top) && f == ForestOf(b.l, r, b.l.top)
    ensures forall k :: 0 <= k < |items| ==> b.owner[k] in b.l.par
    ensures forall i, j :: 0 <= i < |items| && 0 <= j < |items| ==>
      (Above(f, Msg(items[i], i + 1), Msg(items[j], j + 1)) <==> Anc(b.l, b.owner[i], b.owner[j]))
  {
    hide Drawn, Wellformed, Orders, TablesOk, Collected, BuildOk, RootList, ListDrawn;
    BuildWellformed(items, b);
    TablesParts(b);
    HeapDrawn(b.l);
    head := null;
    r := [];
    CollectedNone(b.l);
    head, r := ForEach(ids, head, b.l, {}, r);
    assert {} + ids.Values == ids.Values;
    head, r := ForEach(noIds, head, b.l, ids.Values, r);
    CollectedAll(b.l, ids.Values + noIds.Values, r, head);
    RootsRanked(b.l, r);
    f := ForestOf(b.l, r, b.l.top);
    SegOf(b.l, r, b.l.top, null);
    ForestDistinct(b.l, r, b.l.top, null);
    AllNodes(b.l, r);
    ForestMessages(items, b, r);
    BuildBounds(items, b);
    forall i, j | 0 <= i < |items| && 0 <= j < |items|
      ensures Above(f, Msg(items[i], i + 1), Msg(items[j], j + 1)) <==> Anc(b.l, b.owner[i], b.owner[j])
    {
      ForestAncestors(items, b, r, i, j);
    }
  }

  lemma TablesParts(b: Build)
    requires TablesOk(b)
    ensures b.l.par.Keys == b.ids.Values + b.noIds.Values && b.ids.Values !! b.noIds.Values
    ensures forall x, y :: x in b.ids && y in b.ids && b.ids[x] == b.ids[y] ==> x == y
    ensures forall x, y :: x in b.noIds && y in b.noIds && b.noIds[x] == b.noIds[y] ==> x == y
  {
  }

  lemma CollectedNone(l: Links)
    ensures Collected(l, {}, [], null)
  {
  }

  lemma CollectedAll(l: Links, seen: set<Node>, r: seq<Node>, head: Node?)
    requires Wellformed(l) && Collected(l, seen, r, head) && seen == l.par.Keys
    ensures RootList(l, r) && Siblings(l, r, null) && ListDrawn(r) && head == FirstOf(r)
  {
  }
}
