/** The node graph the reference loop builds.

    Every node knows its parent, and the children of a node form a list. `Links` is a picture of the
    graph and `Drawn` says that the heap agrees with it; `rank` grows towards the ancestors, so there
    is no cycle. The three functions that change the graph change the picture by `Cut` and `Join`. */
module ThreadLinks {
  import opened Wrappers
  import opened ThreadForest

  /** A picture of the graph: parents, child lists, and the message each node carries. */
  datatype Links = Links(par: map<Node, Node?>, kids: map<Node, seq<Node>>, rank: map<Node, nat>, top: nat,
                         msg: map<Node, Option<Msg>>)
  {
    ghost function Nodes(): set<Node> { par.Keys }
  }

  ghost predicate NoRepeat(s: seq<Node>) {
    forall i, j :: 0 <= i < j < |s| ==> s[i] != s[j]
  }

  /** The parent of `n` has it as a child and a higher rank; the children of `n` have it as parent. */
  ghost predicate NodeOk(l: Links, n: Node)
    requires n in l.par && l.kids.Keys == l.par.Keys && l.rank.Keys == l.par.Keys
  {
    && l.rank[n] < l.top
    && (l.par[n] != null ==> l.par[n] in l.par && n in l.kids[l.par[n]] && l.rank[n] < l.rank[l.par[n]])
    && NoRepeat(l.kids[n])
    && (forall c :: c in l.kids[n] ==> c in l.par && l.par[c] == n)
  }

  /** Parents and child lists agree, and the ranks show that no node is its own ancestor. */
  ghost predicate Wellformed(l: Links) {
    && l.kids.Keys == l.par.Keys && l.rank.Keys == l.par.Keys && l.msg.Keys == l.par.Keys
    && (forall n {:trigger NodeOk(l, n)} :: n in l.par ==> NodeOk(l, n))
  }

  ghost function FirstOf(s: seq<Node>): Node? {
    if s == [] then null else s[0]
  }

  ghost function NextOf(s: seq<Node>, i: nat): Node? {
    if i + 1 < |s| then s[i + 1] else null
  }

  ghost predicate ListDrawn(s: seq<Node>)
    reads s`next
  {
    forall i :: 0 <= i < |s| ==> s[i].next == NextOf(s, i)
  }

  ghost predicate NodeDrawn(l: Links, n: Node)
    requires Wellformed(l) && n in l.par
    reads n`parent, n`child, n`item, n`order, l.kids[n]`next
  {
    n.parent == l.par[n] && n.child == FirstOf(l.kids[n]) && Carries(n, l.msg[n]) && ListDrawn(l.kids[n])
  }

  /** The nodes of the heap are as the picture says. */
  ghost predicate Drawn(l: Links)
    requires Wellformed(l)
    reads l.par.Keys
  {
    forall n {:trigger NodeDrawn(l, n)} :: n in l.par ==> (assert NodeOk(l, n); NodeDrawn(l, n))
  }

  /** `a` is a proper ancestor of `d`. */
  ghost predicate Anc(l: Links, a: Node, d: Node)
    requires Wellformed(l) && d in l.par
    decreases l.top - l.rank[d]
  {
    assert NodeOk(l, d);
    l.par[d] != null && (l.par[d] == a || (assert NodeOk(l, l.par[d]); Anc(l, a, l.par[d])))
  }

  ghost predicate Under(l: Links, a: Node, d: Node)
    requires Wellformed(l) && d in l.par
  {
    a == d || Anc(l, a, d)
  }

  // ---------------------------------------------------------------- a new node

  ghost function AddNode(l: Links, n: Node, m: Option<Msg>): Links {
    Links(l.par[n := null], l.kids[n := []], l.rank[n := 0], l.top + 1, l.msg[n := m])
  }

  lemma AddNodeOk(l: Links, n: Node, m: Option<Msg>)
    requires Wellformed(l) && n !in l.par
    ensures Wellformed(AddNode(l, n, m))
  {
    var l' := AddNode(l, n, m);
    forall x | x in l'.par ensures NodeOk(l', x) {
      if x != n {
        assert NodeOk(l, x);
        assert n !in l.kids[x];
      }
    }
  }

  // ---------------------------------------------------------------- a new parent

  ghost function Without(s: seq<Node>, n: Node): seq<Node>
    ensures n !in s ==> Without(s, n) == s
  {
    if s == [] then [] else if s[0] == n then s[1..] else [s[0]] + Without(s[1..], n)
  }

  lemma WithoutProps(s: seq<Node>, n: Node)
    requires NoRepeat(s)
    ensures NoRepeat(Without(s, n))
    ensures forall x :: x in Without(s, n) <==> x in s && x != n
  {
    if s != [] {
      assert NoRepeat(s[1..]);
      WithoutProps(s[1..], n);
      assert forall x :: x in s <==> x == s[0] || x in s[1..];
      assert s[0] !in s[1..];
      if s[0] != n { NoRepeatCons(s[0], Without(s[1..], n)); }
    }
  }

  lemma NoRepeatCons(x: Node, s: seq<Node>)
    requires NoRepeat(s) && x !in s
    ensures NoRepeat([x] + s)
  {
  }

  /** `child` leaves its parent. */
  ghost function Cut(l: Links, child: Node): Links
    requires Wellformed(l) && child in l.par && l.par[child] != null
  {
    assert NodeOk(l, child);
    l.(par := l.par[child := null], kids := l.kids[l.par[child] := Without(l.kids[l.par[child]], child)])
  }

  lemma CutOk(l: Links, child: Node)
    requires Wellformed(l) && child in l.par && l.par[child] != null
    ensures Wellformed(Cut(l, child))
  {
    hide NoRepeat;
    assert NodeOk(l, child);
    var l', p := Cut(l, child), l.par[child];
    assert NodeOk(l, p);
    WithoutProps(l.kids[p], child);
    forall n | n in l'.par ensures NodeOk(l', n) {
      assert NodeOk(l, n);
      assert NoRepeat(l'.kids[n]);
      assert l'.par[n] != null ==> n in l'.kids[l'.par[n]];
      forall c | c in l'.kids[n] ensures c in l'.par && l'.par[c] == n {
        assert c in l.kids[n] && c != child;
      }
    }
  }

  /** `up` is `parent` and all its ancestors. */
  ghost predicate Upwards(l: Links, parent: Node, up: set<Node>)
    requires Wellformed(l)
  {
    parent in up && up <= l.par.Keys && forall x :: x in up && l.par[x] != null ==> l.par[x] in up
  }

  ghost function Join(l: Links, parent: Node, child: Node, up: set<Node>): Links
    requires Wellformed(l) && child in l.par && parent in l.par
  {
    Links(l.par[child := parent], l.kids[parent := [child] + l.kids[parent]],
          map n | n in l.rank :: l.rank[n] + if n in up then l.rank[child] + 1 else 0,
          l.top + l.rank[child] + 1, l.msg)
  }

  lemma JoinOk(l: Links, parent: Node, child: Node, up: set<Node>)
    requires Wellformed(l) && child in l.par && parent in l.par && l.par[child] == null
    requires Upwards(l, parent, up) && child !in up
    ensures Wellformed(Join(l, parent, child, up))
  {
    hide NoRepeat;
    assert NodeOk(l, parent) && NodeOk(l, child);
    var l' := Join(l, parent, child, up);
    assert child !in l.kids[parent];
    NoRepeatCons(child, l.kids[parent]);
    forall n | n in l'.par ensures NodeOk(l', n) {
      assert NodeOk(l, n);
    }
  }

  lemma JoinParts(l: Links, parent: Node, child: Node, up: set<Node>)
    requires Wellformed(l) && child in l.par && parent in l.par
    ensures var l' := Join(l, parent, child, up);
      && l'.par.Keys == l'.kids.Keys == l.par.Keys && l'.msg == l.msg
      && l'.par[child] == parent && l'.kids[parent] == [child] + l.kids[parent]
      && (forall n :: n in l.par && n != child ==> l'.par[n] == l.par[n])
      && (forall n :: n in l.par && n != parent ==> l'.kids[n] == l.kids[n])
  {
  }

  // ---------------------------------------------------------------- the code

  /** container_add_child. */
  method ContainerAddChild(node: Node, child: Node, ghost l: Links, ghost up: set<Node>) returns (ghost l': Links)
    requires Wellformed(l) && Drawn(l) && node in l.par && child in l.par && l.par[child] == null
    requires Upwards(l, node, up) && child !in up
    modifies node`child, child`next, child`parent
    ensures l' == Join(l, node, child, up) && Wellformed(l') && Drawn(l')
  {
    hide NoRepeat, Carries, ListDrawn, Drawn, NodeDrawn, Upwards, NodeOk, Join;
    JoinOk(l, node, child, up);
    JoinParts(l, node, child, up);
    forall n | n in l.par ensures child !in l.kids[n] && NodeDrawn(l, n) {
      NodeParts(l, n);
      NodeDrawnIs(l, n);
    }
    NodeDrawnParts(l, node);
    NodeDrawnParts(l, child);
    label before:
    child.next := node.child;
    node.child := child;
    child.parent := node;
    l' := Join(l, node, child, up);
    ListDrawnCons(child, l.kids[node]);
    NodeDrawnOf(l', node);
    NodeDrawnOf(l', child);
    forall n | n in l.par && n != node && n != child ensures NodeDrawn(l, n) {
      assert old@before(NodeDrawn(l, n));
    }
    DrawnBut(l, l', node, child);
  }

  lemma ListDrawnCons(x: Node, s: seq<Node>)
    requires ListDrawn(s) && x.next == FirstOf(s)
    ensures ListDrawn([x] + s)
  {
  }

  lemma {:induction false} WithoutAt(s: seq<Node>, i: nat)
    requires NoRepeat(s) && i < |s|
    ensures Without(s, s[i]) == s[..i] + s[i + 1..]
  {
    hide NoRepeat;
    if i > 0 {
      NoRepeatTail(s, i);
      var t := s[1..];
      WithoutAt(t, i - 1);
      assert [s[0]] + (t[..i - 1] + t[i..]) == s[..i] + s[i + 1..];
    }
  }

  lemma NoRepeatTail(s: seq<Node>, i: nat)
    requires NoRepeat(s) && 0 < i < |s|
    ensures NoRepeat(s[1..]) && s[0] != s[i] && s[1..][i - 1] == s[i]
  {
  }

  /** The lists of two nodes have nothing in common. */
  lemma KidsApart(l: Links, x: Node, y: Node, c: Node)
    requires Wellformed(l) && x in l.par && y in l.par && c in l.kids[x] && c in l.kids[y]
    ensures x == y
  {
    assert NodeOk(l, x) && NodeOk(l, y);
  }

  /** The list is linked around its element `i`. */
  lemma DrawnWithout(s: seq<Node>, i: nat)
    requires i < |s|
    requires forall j :: 0 <= j < |s| && j != i - 1 && j != i ==> s[j].next == NextOf(s, j)
    requires i > 0 ==> s[i - 1].next == NextOf(s, i)
    ensures ListDrawn(s[..i] + s[i + 1..])
  {
    var k := s[..i] + s[i + 1..];
    forall j | 0 <= j < |k| ensures k[j].next == NextOf(k, j) {
      if j < i { assert k[j] == s[j]; } else { assert k[j] == s[j + 1]; }
    }
  }

  /** `child`, which follows `p` in the list `s`, is unlinked. */
  method UnlinkChild(node: Node, p: Node?, child: Node, ghost s: seq<Node>, ghost i: nat)
    requires NoRepeat(s) && ListDrawn(s) && node.child == FirstOf(s) && i < |s| && s[i] == child
    requires p == if i == 0 then null else s[i - 1]
    modifies node`child, (if p == null then {} else {p})`next
    ensures p != null ==> node.child == old(node.child)
    ensures node.child == FirstOf(Without(s, child))
    ensures ListDrawn(Without(s, child))
  {
    hide Without, ListDrawn;
    WithoutAt(s, i);
    assert forall j :: 0 <= j < |s| ==> s[j].next == NextOf(s, j) by { DrawnList(s); }
    if p == null {
      node.child := child.next;
    } else {
      assert forall j :: 0 <= j < |s| && j != i - 1 ==> s[j] != p;
      p.next := child.next;
    }
    DrawnWithout(s, i);
  }

  lemma DrawnList(s: seq<Node>)
    requires ListDrawn(s)
    ensures forall j :: 0 <= j < |s| ==> s[j].next == NextOf(s, j)
  {
  }

  /** `child`, found after `p` in the list of its parent, leaves it. */
  method CutChild(node: Node, p: Node?, child: Node, ghost l: Links, ghost i: nat) returns (ghost l': Links)
    requires Wellformed(l) && Drawn(l) && child in l.par && l.par[child] == node && node in l.par
    requires i < |l.kids[node]| && l.kids[node][i] == child
    requires p == if i == 0 then null else l.kids[node][i - 1]
    modifies l.par.Keys`child, l.par.Keys`next, child`parent
    ensures l' == Cut(l, child) && Wellformed(l') && Drawn(l')
  {
    hide NoRepeat, Without, Carries, Drawn, ListDrawn, NodeDrawn, NodeOk, Cut;
    ghost var s := l.kids[node];
    assert NoRepeat(s) && (p != null ==> p in s && p in l.par) by { NodeParts(l, node); }
    assert node != child by { NodeParts(l, node); CutParts(l, child); }
    forall n | n in l.par ensures NodeDrawn(l, n) && (n != node ==> p == null || p !in l.kids[n]) {
      NodeDrawnIs(l, n);
      if n != node { OthersApart(l, n, node); }
    }
    NodeDrawnParts(l, node);
    NodeDrawnParts(l, child);
    label before:
    UnlinkChild(node, p, child, s, i);
    child.parent := null;
    forall n | n in l.par && n != node && n != child ensures NodeDrawn(l, n) {
      assert old@before(NodeDrawn(l, n));
    }
    CutDrawn(l, child);
    l' := Cut(l, child);
  }

  lemma CutDrawn(l: Links, child: Node)
    requires Wellformed(l) && child in l.par && l.par[child] != null && l.par[child] in l.par
    requires forall n :: n in l.par && n != l.par[child] && n != child ==> NodeDrawn(l, n)
    requires var node, s := l.par[child], Without(l.kids[l.par[child]], child);
      node.parent == l.par[node] && node.child == FirstOf(s) && Carries(node, l.msg[node]) && ListDrawn(s)
    requires child.parent == null && child.child == FirstOf(l.kids[child]) && Carries(child, l.msg[child]) && ListDrawn(l.kids[child])
    ensures Wellformed(Cut(l, child)) && Drawn(Cut(l, child))
  {
    hide NoRepeat, Without, Carries, Drawn, ListDrawn, NodeDrawn, NodeOk, Cut;
    CutOk(l, child);
    CutParts(l, child);
    NodeDrawnOf(Cut(l, child), l.par[child]);
    NodeDrawnOf(Cut(l, child), child);
    DrawnBut(l, Cut(l, child), l.par[child], child);
  }

  lemma NodeParts(l: Links, n: Node)
    requires Wellformed(l) && n in l.par
    ensures NoRepeat(l.kids[n])
    ensures forall c :: c in l.kids[n] ==> c in l.par && l.par[c] == n
  {
    assert NodeOk(l, n);
  }

  lemma NodeDrawnParts(l: Links, n: Node)
    requires Wellformed(l) && n in l.par && NodeDrawn(l, n)
    ensures n.parent == l.par[n] && n.child == FirstOf(l.kids[n]) && Carries(n, l.msg[n]) && ListDrawn(l.kids[n])
  {
  }

  lemma CutParts(l: Links, child: Node)
    requires Wellformed(l) && child in l.par && l.par[child] != null
    ensures l.par[child] in l.par && l.par[child] != child
    ensures var l' := Cut(l, child);
      && l'.par.Keys == l'.kids.Keys == l.par.Keys && l'.msg == l.msg
      && l'.par[child] == null && l'.kids[l.par[child]] == Without(l.kids[l.par[child]], child)
      && (forall n :: n in l.par && n != child ==> l'.par[n] == l.par[n])
      && (forall n :: n in l.par && n != l.par[child] ==> l'.kids[n] == l.kids[n])
  {
    assert NodeOk(l, child);
  }

  /** All nodes but two are drawn as they were. */
  lemma DrawnBut(l: Links, l': Links, node: Node, child: Node)
    requires Wellformed(l) && Wellformed(l') && l'.par.Keys == l.par.Keys && l'.msg == l.msg
    requires node in l.par && NodeDrawn(l', node) && child in l.par && NodeDrawn(l', child)
    requires forall n :: n in l.par && n != child ==> l'.par[n] == l.par[n]
    requires forall n :: n in l.par && n != node ==> l'.kids[n] == l.kids[n]
    requires forall n :: n in l.par && n != node && n != child ==> NodeDrawn(l, n)
    ensures Drawn(l')
  {
    hide NodeOk, Carries, ListDrawn;
  }

  lemma NodeDrawnOf(l: Links, n: Node)
    requires Wellformed(l) && n in l.par
    requires n.parent == l.par[n] && n.child == FirstOf(l.kids[n]) && Carries(n, l.msg[n]) && ListDrawn(l.kids[n])
    ensures NodeDrawn(l, n)
  {
  }

  /** The second half of container_parent_child: find `child` in the list of its parent. */
  method RemoveChild(child: Node, ghost l: Links) returns (ghost l': Links)
    requires Wellformed(l) && Drawn(l) && child in l.par && l.par[child] != null
    modifies l.par.Keys`child, l.par.Keys`next, child`parent
    ensures l' == Cut(l, child) && Wellformed(l') && Drawn(l')
  {
    hide NoRepeat, Without, Carries, Drawn;
    assert NodeOk(l, child);
    NodeDrawnIs(l, child);
    var node := child.parent;
    var p: Node? := null;
    var c := node.child;
    ghost var s, i := l.kids[node], 0;
    assert NodeOk(l, node);
    NodeDrawnIs(l, node);
    while c != null
      invariant 0 <= i <= |s| && c == (if i < |s| then s[i] else null) && child in s[i..]
      invariant p == if i == 0 then null else s[i - 1]
      invariant Drawn(l)
      decreases |s| - i
    {
      if c == child {
        l' := CutChild(node, p, child, l, i);
        return;
      }
      assert ListDrawn(s) by { NodeDrawnIs(l, node); }
      p := c;
      c := c.next;
      i := i + 1;
    }
    assert false;
  }

  lemma DrawnFold(l: Links)
    requires Wellformed(l) && forall n :: n in l.par ==> NodeDrawn(l, n)
    ensures Drawn(l)
  {
  }

  lemma NodeDrawnIs(l: Links, n: Node)
    requires Wellformed(l) && Drawn(l) && n in l.par
    ensures NodeDrawn(l, n)
  {
  }

  lemma OthersApart(l: Links, n: Node, node: Node)
    requires Wellformed(l) && n in l.par && node in l.par && n != node
    ensures forall x :: x in l.kids[n] ==> x !in l.kids[node]
  {
    forall x | x in l.kids[n] ensures x !in l.kids[node] {
      if x in l.kids[node] { KidsApart(l, n, node, x); }
    }
  }

  lemma UpwardsCut(l: Links, parent: Node, child: Node, up: set<Node>)
    requires Wellformed(l) && child in l.par && l.par[child] != null && Upwards(l, parent, up) && child !in up
    requires Wellformed(Cut(l, child))
    ensures Upwards(Cut(l, child), parent, up)
  {
    assert NodeOk(l, child);
  }

  ghost predicate IsAbove(l: Links, a: Node, n: Node?)
    requires Wellformed(l) && (n != null ==> n in l.par)
  {
    n != null && Under(l, a, n)
  }

  lemma AncStep(l: Links, a: Node, d: Node)
    requires Wellformed(l) && d in l.par
    ensures l.par[d] != null ==> l.par[d] in l.par && l.rank[d] < l.rank[l.par[d]] < l.top
    ensures l.rank[d] < l.top
    ensures Anc(l, a, d) <==> IsAbove(l, a, l.par[d])
  {
    assert NodeOk(l, d);
    if l.par[d] != null { assert NodeOk(l, l.par[d]); }
  }

  lemma DrawnParent(l: Links, n: Node)
    requires Wellformed(l) && Drawn(l) && n in l.par
    ensures n.parent == l.par[n]
  {
    NodeDrawnIs(l, n);
  }

  /** `child` is now the first child of `parent`, and all other children are in their order. */
  ghost predicate KidsMoved(l: Links, l': Links, parent: Node, child: Node) {
    && l'.kids.Keys == l.kids.Keys
    && forall n :: n in l.kids && n in l'.kids ==>
         l'.kids[n] == if n == parent then [child] + l.kids[n] else Without(l.kids[n], child)
  }

  lemma MovedKids(l: Links, parent: Node, child: Node, up: set<Node>)
    requires Wellformed(l) && child in l.par && parent in l.par && l.par[child] != parent
    ensures l.par[child] == null ==> KidsMoved(l, Join(l, parent, child, up), parent, child)
    ensures l.par[child] != null && Wellformed(Cut(l, child)) ==>
      KidsMoved(l, Join(Cut(l, child), parent, child, up), parent, child)
  {
    assert NodeOk(l, child);
    forall n | n in l.kids && n != l.par[child] ensures child !in l.kids[n] { NodeParts(l, n); }
  }

  /** container_parent_child: `child` gets the parent `parent`, unless it has it already or is
      itself one of its ancestors. */
  method ContainerParentChild(parent: Node, child: Node, ghost l: Links) returns (ghost l': Links)
    requires Wellformed(l) && Drawn(l) && parent in l.par && child in l.par && parent != child
    modifies l.par.Keys`child, l.par.Keys`next, l.par.Keys`parent
    ensures Wellformed(l') && Drawn(l') && l'.msg == l.msg
    ensures l'.par == if l.par[child] == parent || Anc(l, child, parent) then l.par else l.par[child := parent]
    ensures if l.par[child] == parent || Anc(l, child, parent) then l' == l else KidsMoved(l, l', parent, child)
  {
    hide Drawn, Wellformed, Anc, Under, NodeOk;
    DrawnParent(l, child);
    // nothing to do
    if child.parent == parent {
      l' := l;
      return;
    }
    // walk up: the child must not be above its new parent
    KeysOk(l);
    DrawnParent(l, parent);
    AncStep(l, child, parent);
    ghost var up := {parent};
    var node := parent.parent;
    while node != null
      invariant Drawn(l) && l.rank.Keys == l.par.Keys
      invariant node != null ==> node in l.par && l.rank[node] < l.top
      invariant Anc(l, child, parent) <==> IsAbove(l, child, node)
      invariant parent in up && up <= l.par.Keys && child !in up
      invariant forall x :: x in up && l.par[x] != null ==> l.par[x] in up || l.par[x] == node
      decreases if node == null then 0 else 1 + l.top - l.rank[node]
    {
      UnderStep(l, child, node);
      if node == child {
        l' := l;
        return;
      }
      AncStep(l, child, node);
      DrawnParent(l, node);
      up := up + {node};
      node := node.parent;
    }
    UpwardsFold(l, parent, up);
    l' := Reparent(parent, child, l, up);
  }

  /** Move `child` from its parent, if it has one, to the front of the children of `parent`. */
  method Reparent(parent: Node, child: Node, ghost l: Links, ghost up: set<Node>) returns (ghost l': Links)
    requires Wellformed(l) && Drawn(l) && parent in l.par && child in l.par
    requires Upwards(l, parent, up) && child !in up
    modifies l.par.Keys`child, l.par.Keys`next, l.par.Keys`parent
    ensures Wellformed(l') && Drawn(l') && l'.msg == l.msg && l'.par == l.par[child := parent]
    ensures l.par[child] != parent ==> KidsMoved(l, l', parent, child)
  {
    hide Drawn, Wellformed, NodeOk, Upwards, Without;
    if l.par[child] != parent { MovedKids(l, parent, child, up); }
    l' := l;
    DrawnParent(l, child);
    if child.parent != null {
      l' := RemoveChild(child, l);
      UpwardsCut(l, parent, child, up);
    }
    l' := ContainerAddChild(parent, child, l', up);
  }

  lemma KeysOk(l: Links)
    requires Wellformed(l)
    ensures l.rank.Keys == l.par.Keys && l.kids.Keys == l.par.Keys && l.msg.Keys == l.par.Keys
  {
  }

  lemma UnderStep(l: Links, a: Node, n: Node)
    requires Wellformed(l) && n in l.par
    ensures IsAbove(l, a, n) <==> a == n || Anc(l, a, n)
  {
  }

  lemma UpwardsFold(l: Links, parent: Node, up: set<Node>)
    requires Wellformed(l) && parent in up && up <= l.par.Keys
    requires forall x :: x in up && l.par[x] != null ==> l.par[x] in up
    ensures Upwards(l, parent, up)
  {
  }
}
