/** What the reference loop of thread_items has made so far, as a value.

    A `Build` holds the links, the two hash tables, and which node belongs to which item. `BuildOk`
    is what all builds have in common: the tables hold every node once, and every item taken so far
    has one node. `EdgesOk` says where the parent edges come from. The functions `WithId`, `Take` and
    `TakeNew` are the ways a build grows, with a lemma each. */
module ThreadBuild {
  import opened Wrappers
  import opened ThreadForest
  import opened ThreadLinks

  ghost function NonZero(refs: seq<nat>): seq<nat> {
    if refs == [] then []
    else if refs[|refs| - 1] == 0 then NonZero(refs[..|refs| - 1])
    else NonZero(refs[..|refs| - 1]) + [refs[|refs| - 1]]
  }

  lemma NonZeroNext(refs: seq<nat>, j: nat)
    requires j < |refs|
    ensures NonZero(refs[..j + 1]) == NonZero(refs[..j]) + if refs[j] == 0 then [] else [refs[j]]
  {
    assert refs[..j + 1][..j] == refs[..j];
  }

  /** What the loop has built: the graph, the two tables, and the node of each message so far. */
  datatype Build = Build(l: Links, ids: map<nat, Node>, noIds: map<Item, Node>, owner: seq<Node>)

  /** The node at position `j` of message `k`'s list: its own node, then its references. */
  ghost predicate ChainAt(items: seq<Item>, b: Build, k: nat, j: nat, n: Node) {
    k < |b.owner| && k < |items| && j <= |NonZero(items[k].references)| &&
    if j == 0 then n == b.owner[k]
    else var id := NonZero(items[k].references)[j - 1]; id in b.ids && n == b.ids[id]
  }

  /** `n` and `p` are neighbours in the list of some message. */
  ghost predicate Neighbours(items: seq<Item>, b: Build, n: Node, p: Node) {
    exists k: nat, j: nat :: ChainAt(items, b, k, j, n) && ChainAt(items, b, k, j + 1, p)
  }

  /** The tables hold every node once, by id or, without one of their own, by item. */
  ghost predicate TablesOk(b: Build) {
    && b.l.par.Keys == b.ids.Values + b.noIds.Values
    && b.ids.Values !! b.noIds.Values
    && (forall x, y :: x in b.ids && y in b.ids && b.ids[x] == b.ids[y] ==> x == y)
    && (forall x, y :: x in b.noIds && y in b.noIds && b.noIds[x] == b.noIds[y] ==> x == y)
    && 0 !in b.ids
  }

  /** Message `k` has no id, or one that an earlier message has. */
  ghost predicate Nameless(items: seq<Item>, k: nat)
    requires k < |items|
  {
    items[k].messageId == 0 || exists j :: 0 <= j < k && items[j].messageId == items[k].messageId
  }

  /** The node of message `k`: under its id, unless it has none or an earlier message has it. */
  ghost predicate OwnerAt(items: seq<Item>, b: Build, k: nat)
    requires k < |b.owner| <= |items| && Wellformed(b.l)
  {
    var n, id := b.owner[k], items[k].messageId;
    n in b.l.par && b.l.msg[n] == Some(Msg(items[k], k + 1)) &&
    if items[k] in b.noIds
    then n == b.noIds[items[k]] && Nameless(items, k)
    else id in b.ids && n == b.ids[id]
  }

  ghost predicate Owned(items: seq<Item>, b: Build, n: Node)
    requires Wellformed(b.l) && n in b.l.par && |b.owner| <= |items|
  {
    b.l.msg[n].Some? ==>
      var o := b.l.msg[n].value.order;
      1 <= o <= |b.owner| && b.owner[o - 1] == n && b.l.msg[n].value.item == items[o - 1]
  }

  ghost predicate Owners(items: seq<Item>, b: Build)
    requires Wellformed(b.l) && |b.owner| <= |items|
  {
    && (forall k {:trigger OwnerAt(items, b, k)} :: 0 <= k < |b.owner| ==> OwnerAt(items, b, k))
    && (forall n {:trigger Owned(items, b, n)} :: n in b.l.par ==> Owned(items, b, n))
  }

  ghost predicate BuildOk(items: seq<Item>, b: Build) {
    && |b.owner| <= |items|
    && Wellformed(b.l) && TablesOk(b)
    && Owners(items, b)
    && (forall x :: x in b.noIds ==> x in items[..|b.owner|])
  }

  /** Every parent is a neighbour. */
  ghost predicate EdgesOk(items: seq<Item>, b: Build) {
    forall n {:trigger Neighbours(items, b, n, b.l.par[n])} ::
      n in b.l.par && b.l.par[n] != null ==> Neighbours(items, b, n, b.l.par[n])
  }

  /** The heap: the graph, and an order number on the nodes of messages only. */
  ghost predicate Orders(l: Links)
    requires Wellformed(l)
    reads l.par.Keys`order
  {
    forall n :: n in l.par ==> n.order == if l.msg[n].Some? then l.msg[n].value.order else 0
  }

  ghost predicate DistinctItems(items: seq<Item>) {
    forall i, j :: 0 <= i < j < |items| ==> items[i] != items[j]
  }

  // ---------------------------------------------------------------- growing tables

  /** `c` holds everything `b` holds. */
  ghost predicate Grows(b: Build, c: Build) {
    (forall x :: x in b.ids ==> x in c.ids && c.ids[x] == b.ids[x]) && b.owner <= c.owner
  }

  lemma NeighboursGrow(items: seq<Item>, b: Build, c: Build, n: Node, p: Node)
    requires Grows(b, c) && Neighbours(items, b, n, p)
    ensures Neighbours(items, c, n, p)
  {
    var k: nat, j: nat :| ChainAt(items, b, k, j, n) && ChainAt(items, b, k, j + 1, p);
    assert ChainAt(items, c, k, j, n) && ChainAt(items, c, k, j + 1, p);
  }

  lemma EdgesGrow(items: seq<Item>, b: Build, c: Build)
    requires EdgesOk(items, b) && Grows(b, c)
    requires forall n :: n in c.l.par && c.l.par[n] != null ==> n in b.l.par && b.l.par[n] == c.l.par[n]
    ensures EdgesOk(items, c)
  {
    forall n | n in c.l.par && c.l.par[n] != null ensures Neighbours(items, c, n, c.l.par[n]) {
      NeighboursGrow(items, b, c, n, c.l.par[n]);
    }
  }

  /** A new node, filed under an id. */
  ghost function WithId(b: Build, id: nat, c: Node): Build {
    b.(l := AddNode(b.l, c, None), ids := b.ids[id := c])
  }

  lemma ValuesPlus<K, V>(m: map<K, V>, k: K, v: V)
    requires k !in m
    ensures m[k := v].Values == m.Values + {v}
  {
    var m' := m[k := v];
    assert m'[k] == v;
    forall x | x in m.Values ensures x in m'.Values {
      var y :| y in m && m[y] == x;
      assert m'[y] == x;
    }
  }

  lemma WithIdTables(b: Build, id: nat, c: Node)
    requires TablesOk(b) && id != 0 && id !in b.ids && c !in b.l.par
    ensures TablesOk(WithId(b, id, c))
  {
    ValuesPlus(b.ids, id, c);
    assert forall x :: x in b.ids ==> b.ids[x] in b.ids.Values;
  }

  /** Owners do not change while nodes without a message are added or nodes relinked. */
  lemma OwnersKept(items: seq<Item>, b: Build, c: Build)
    requires BuildOk(items, b) && Wellformed(c.l) && Grows(b, c) && c.owner == b.owner && c.noIds == b.noIds
    requires b.l.par.Keys <= c.l.par.Keys
    requires forall n :: n in c.l.par ==> c.l.msg[n] == if n in b.l.par then b.l.msg[n] else None
    ensures Owners(items, c)
  {
    hide Wellformed, TablesOk, Nameless;
    KeysOk(b.l);
    KeysOk(c.l);
    forall k | 0 <= k < |c.owner| ensures OwnerAt(items, c, k) { assert OwnerAt(items, b, k); }
    forall n | n in c.l.par ensures Owned(items, c, n) { if n in b.l.par { assert Owned(items, b, n); } }
  }

  lemma WithIdEdges(items: seq<Item>, b: Build, id: nat, c: Node)
    requires EdgesOk(items, b) && id !in b.ids && c !in b.l.par
    ensures EdgesOk(items, WithId(b, id, c))
  {
    hide EdgesOk;
    EdgesGrow(items, b, WithId(b, id, c));
  }

  lemma WithIdBuild(items: seq<Item>, b: Build, id: nat, c: Node)
    requires BuildOk(items, b) && id != 0 && id !in b.ids && c !in b.l.par
    ensures BuildOk(items, WithId(b, id, c))
  {
    hide TablesOk, Wellformed, Owners, OwnerAt, Owned, NodeOk;
    var b' := WithId(b, id, c);
    AddNodeOk(b.l, c, None);
    WithIdTables(b, id, c);
    KeysOk(b.l);
    OwnersKept(items, b, b');
  }

  lemma WithIdOk(items: seq<Item>, b: Build, id: nat, c: Node)
    requires BuildOk(items, b) && EdgesOk(items, b) && id != 0 && id !in b.ids && c !in b.l.par
    ensures BuildOk(items, WithId(b, id, c)) && EdgesOk(items, WithId(b, id, c))
  {
    hide *;
    WithIdEdges(items, b, id, c);
    WithIdBuild(items, b, id, c);
  }

  /** The next message takes the node `c`. */
  ghost function Take(items: seq<Item>, b: Build, c: Node): Build
    requires |b.owner| < |items|
  {
    b.(l := b.l.(msg := b.l.msg[c := Some(Msg(items[|b.owner|], |b.owner| + 1))]), owner := b.owner + [c])
  }

  lemma SetMsgOk(l: Links, c: Node, m: Option<Msg>)
    requires Wellformed(l) && c in l.par
    ensures Wellformed(l.(msg := l.msg[c := m]))
  {
    var l' := l.(msg := l.msg[c := m]);
    forall n | n in l'.par ensures NodeOk(l', n) { assert NodeOk(l, n); }
  }

  lemma TakeOwners(items: seq<Item>, b: Build, c: Node)
    requires BuildOk(items, b) && |b.owner| < |items| && items[|b.owner|] !in b.noIds
    requires var id := items[|b.owner|].messageId; id in b.ids && b.ids[id] == c
    requires c in b.l.par && b.l.msg[c].None? && Wellformed(Take(items, b, c).l)
    ensures Owners(items, Take(items, b, c))
  {
    hide TablesOk, Wellformed, Nameless;
    KeysOk(b.l);
    var b', i := Take(items, b, c), |b.owner|;
    forall k | 0 <= k < |b'.owner| ensures OwnerAt(items, b', k) { if k < i { assert OwnerAt(items, b, k); } }
    forall n | n in b'.l.par ensures Owned(items, b', n) { assert Owned(items, b, n); }
  }

  lemma TakeOk(items: seq<Item>, b: Build, c: Node)
    requires BuildOk(items, b) && EdgesOk(items, b) && DistinctItems(items) && |b.owner| < |items|
    requires var id := items[|b.owner|].messageId; id in b.ids && b.ids[id] == c
    requires c in b.l.par && b.l.msg[c].None?
    ensures BuildOk(items, Take(items, b, c)) && EdgesOk(items, Take(items, b, c))
  {
    hide TablesOk, Neighbours, Wellformed, Owners, EdgesOk, OwnerAt, Owned, DistinctItems;
    var b', i := Take(items, b, c), |b.owner|;
    SetMsgOk(b.l, c, Some(Msg(items[i], i + 1)));
    TablesSame(b, b');
    FreshItem(items, b);
    TakeOwners(items, b, c);
    assert items[..i + 1] == items[..i] + [items[i]];
    EdgesGrow(items, b, b');
  }

  lemma TablesSame(b: Build, c: Build)
    requires TablesOk(b) && b.ids == c.ids && b.noIds == c.noIds && b.l.par.Keys == c.l.par.Keys
    ensures TablesOk(c)
  {
  }

  lemma FreshItem(items: seq<Item>, b: Build)
    requires BuildOk(items, b) && DistinctItems(items) && |b.owner| < |items|
    ensures items[|b.owner|] !in b.noIds
  {
    forall x | x in b.noIds ensures x != items[|b.owner|] {
      var k :| 0 <= k < |b.owner| && items[..|b.owner|][k] == x;
    }
  }

  lemma MapValues<K, V>(m: map<K, V>)
    ensures forall k :: k in m ==> m[k] in m.Values
  {
  }

  /** A message without an id of its own gets a new node, filed under the item. */
  ghost function TakeNew(items: seq<Item>, b: Build, c: Node): Build
    requires |b.owner| < |items|
  {
    var i := |b.owner|;
    b.(l := AddNode(b.l, c, Some(Msg(items[i], i + 1))), noIds := b.noIds[items[i] := c], owner := b.owner + [c])
  }

  lemma TakeNewTables(b: Build, item: Item, c: Node, m: Option<Msg>)
    requires TablesOk(b) && item !in b.noIds && c !in b.l.par
    ensures TablesOk(b.(l := AddNode(b.l, c, m), noIds := b.noIds[item := c]))
  {
    ValuesPlus(b.noIds, item, c);
    assert forall x :: x in b.noIds ==> b.noIds[x] in b.noIds.Values;
  }

  lemma TakeNewOwners(items: seq<Item>, b: Build, c: Node)
    requires BuildOk(items, b) && DistinctItems(items) && |b.owner| < |items| && c !in b.l.par
    requires Nameless(items, |b.owner|)
    requires Wellformed(TakeNew(items, b, c).l)
    ensures var b' := TakeNew(items, b, c); |b'.owner| <= |items| && Owners(items, b')
  {
    hide TablesOk, Wellformed;
    var b', i := TakeNew(items, b, c), |b.owner|;
    forall k | 0 <= k < |b'.owner| ensures OwnerAt(items, b', k) {
      if k < i { assert OwnerAt(items, b, k); assert items[k] != items[i]; }
    }
    forall n | n in b'.l.par ensures Owned(items, b', n) { if n != c { assert Owned(items, b, n); } }
  }

  lemma TakeNewOk(items: seq<Item>, b: Build, c: Node)
    requires BuildOk(items, b) && EdgesOk(items, b) && DistinctItems(items) && |b.owner| < |items|
    requires Nameless(items, |b.owner|)
    requires c !in b.l.par
    ensures BuildOk(items, TakeNew(items, b, c)) && EdgesOk(items, TakeNew(items, b, c))
  {
    hide TablesOk, Neighbours, OwnerAt, Owned, Owners, EdgesOk, DistinctItems, Nameless;
    var b', i := TakeNew(items, b, c), |b.owner|;
    FreshItem(items, b);
    AddNodeOk(b.l, c, Some(Msg(items[i], i + 1)));
    TakeNewTables(b, items[i], c, Some(Msg(items[i], i + 1)));
    TablesSame(b.(l := b'.l, noIds := b'.noIds), b');
    TakeNewOwners(items, b, c);
    hide Wellformed;
    assert items[..i + 1] == items[..i] + [items[i]];
    EdgesGrow(items, b, b');
  }

  /** A node that has a message already took it from an earlier message with the same id. */
  lemma TakenBefore(items: seq<Item>, b: Build, id: nat)
    requires BuildOk(items, b) && id in b.ids
    ensures b.ids[id] in b.l.par
    ensures b.l.msg[b.ids[id]].Some? ==> exists j :: 0 <= j < |b.owner| && items[j].messageId == id
  {
    var c := b.ids[id];
    MapValues(b.ids);
    MapValues(b.noIds);
    assert Owned(items, b, c);
    if b.l.msg[c].Some? {
      var j := b.l.msg[c].value.order - 1;
      assert OwnerAt(items, b, j);
    }
  }

  lemma JoinBuild(items: seq<Item>, b: Build, l': Links)
    requires BuildOk(items, b) && Wellformed(l') && l'.msg == b.l.msg && l'.par.Keys == b.l.par.Keys
    ensures BuildOk(items, b.(l := l'))
  {
    hide TablesOk, Wellformed, Owners, OwnerAt, Owned, NodeOk;
    var b' := b.(l := l');
    TablesSame(b, b');
    KeysOk(b.l);
    KeysOk(l');
    OwnersKept(items, b, b');
  }

  lemma JoinOneEdge(items: seq<Item>, b: Build, l': Links, child: Node, c: Node, r: nat)
    requires l'.par == b.l.par || (child in b.l.par && l'.par == b.l.par[child := c])
    requires EdgesOk(items, b)
    requires |b.owner| > 0 && ChainAt(items, b, |b.owner| - 1, r, child) && ChainAt(items, b, |b.owner| - 1, r + 1, c)
    ensures EdgesOk(items, b.(l := l'))
  {
    hide Neighbours;
    var b' := b.(l := l');
    forall n | n in l'.par && l'.par[n] != null ensures Neighbours(items, b', n, l'.par[n]) {
      if n in b.l.par && l'.par[n] == b.l.par[n] {
        NeighboursGrow(items, b, b', n, l'.par[n]);
      } else {
        NeighboursHere(items, b', child, c, r);
      }
    }
  }

  /** `child` gets the parent `c`, its neighbour in the list of the last message. */
  lemma JoinEdges(items: seq<Item>, b: Build, l': Links, child: Node, c: Node, r: nat)
    requires BuildOk(items, b) && EdgesOk(items, b) && Wellformed(l') && l'.msg == b.l.msg
    requires l'.par == b.l.par || (child in b.l.par && l'.par == b.l.par[child := c])
    requires |b.owner| > 0 && ChainAt(items, b, |b.owner| - 1, r, child) && ChainAt(items, b, |b.owner| - 1, r + 1, c)
    ensures BuildOk(items, b.(l := l')) && EdgesOk(items, b.(l := l'))
  {
    hide *;
    JoinBuild(items, b, l');
    JoinOneEdge(items, b, l', child, c, r);
  }

  lemma NeighboursHere(items: seq<Item>, b: Build, child: Node, c: Node, r: nat)
    requires |b.owner| > 0 && ChainAt(items, b, |b.owner| - 1, r, child) && ChainAt(items, b, |b.owner| - 1, r + 1, c)
    ensures Neighbours(items, b, child, c)
  {
  }

  lemma BuildWellformed(items: seq<Item>, b: Build)
    requires BuildOk(items, b)
    ensures Wellformed(b.l) && TablesOk(b) && b.l.msg.Keys == b.l.par.Keys
  {
  }

  /** The chain of the last message, its node and its references, up to reference `r`. */
  lemma ChainStart(items: seq<Item>, b: Build)
    requires 0 < |b.owner| <= |items|
    ensures ChainAt(items, b, |b.owner| - 1, 0, b.owner[|b.owner| - 1])
  {
  }

  lemma ChainNext(items: seq<Item>, b: Build, refs: seq<nat>, j: nat)
    requires 0 < |b.owner| <= |items| && refs == items[|b.owner| - 1].references && j < |refs| && refs[j] != 0 && refs[j] in b.ids
    ensures ChainAt(items, b, |b.owner| - 1, |NonZero(refs[..j])| + 1, b.ids[refs[j]])
  {
    NonZeroNext(refs, j);
    NonZeroPrefix(refs, j + 1);
  }

  lemma {:induction false} NonZeroPrefix(refs: seq<nat>, j: nat)
    requires j <= |refs|
    ensures NonZero(refs[..j]) <= NonZero(refs)
    decreases |refs|
  {
    if j < |refs| {
      var r := refs[..|refs| - 1];
      NonZeroPrefix(r, j);
      assert r[..j] == refs[..j];
    } else {
      assert refs[..j] == refs;
    }
  }

  lemma ChainGrows(items: seq<Item>, b: Build, c: Build, k: nat, j: nat, n: Node)
    requires ChainAt(items, b, k, j, n) && Grows(b, c)
    ensures ChainAt(items, c, k, j, n)
  {
  }

  lemma ChainSame(items: seq<Item>, b: Build, l: Links, k: nat, j: nat, n: Node)
    requires ChainAt(items, b, k, j, n)
    ensures ChainAt(items, b.(l := l), k, j, n)
  {
  }

  lemma WithIdGrows(b: Build, id: nat, c: Node)
    requires id !in b.ids
    ensures Grows(b, WithId(b, id, c)) && WithId(b, id, c).owner == b.owner && WithId(b, id, c).noIds == b.noIds
    ensures WithId(b, id, c).ids == b.ids[id := c] && WithId(b, id, c).l == AddNode(b.l, c, None)
    ensures AddNode(b.l, c, None).par.Keys == b.l.par.Keys + {c}
  {
  }

  lemma GrowsSame(b: Build)
    ensures Grows(b, b)
  {
  }

  lemma IdsIn(b: Build)
    requires TablesOk(b)
    ensures forall id :: id in b.ids ==> b.ids[id] in b.l.par
  {
    MapValues(b.ids);
  }

  lemma NonZeroNone(refs: seq<nat>)
    ensures NonZero(refs[..0]) == []
  {
  }

  lemma BuildBounds(items: seq<Item>, b: Build)
    requires BuildOk(items, b)
    ensures |b.owner| <= |items|
    ensures forall k :: 0 <= k < |b.owner| ==> b.owner[k] in b.l.par
  {
    forall k | 0 <= k < |b.owner| ensures b.owner[k] in b.l.par { assert OwnerAt(items, b, k); }
  }

  /** The nodes of no message at all. */
  ghost const NONE: Build := Build(Links(map[], map[], map[], 0, map[]), map[], map[], [])
}
