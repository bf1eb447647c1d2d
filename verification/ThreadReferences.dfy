/** The reference loop of thread_items on the nodes: one node per message, linked to the nodes of the
    messages it refers to, in the order of its references. What each step does to the build is said
    in its contract; `Follow` in the contract of the whole loop says that the references are followed.

    Each step is a method on the nodes and the two hash tables. The build goes along as a ghost value,
    and the lemmas about it are in `ThreadBuild` and `ThreadFollow`. */
module ThreadReferences {
  import opened Wrappers
  import opened ThreadForest
  import opened ThreadLinks
  import opened ThreadBuild
  import opened ThreadFollow

  // ---------------------------------------------------------------- the code

  lemma LinkingIs(l: Links, child: Node, c: Node)
    requires Wellformed(l) && child in l.par && c in l.par
    ensures Linking(l, child, c) == if l.par[child] == c || Anc(l, child, c) then l.par else l.par[child := c]
    ensures Linking(l, child, c).Keys == l.par.Keys
  {
  }

  ghost predicate Heap(l: Links)
    requires Wellformed(l)
    reads l.par.Keys
  {
    Drawn(l) && Orders(l)
  }

  /** A fresh node belongs to no list yet. */
  method NewNode(ghost l: Links) returns (c: Node)
    requires Wellformed(l) && Heap(l)
    ensures fresh(c) && c !in l.par && Wellformed(AddNode(l, c, None)) && Heap(AddNode(l, c, None))
  {
    hide Drawn, NodeDrawn, Wellformed, Orders, Carries;
    KeysOk(l);
    forall n | n in l.par ensures allocated(n) && forall x :: x in l.kids[n] ==> x in l.par && allocated(x) {
      NodeParts(l, n);
    }
    HeapAt(l);
    c := new Node();
    AddNodeOk(l, c, None);
    ghost var l' := AddNode(l, c, None);
    forall n | n in l'.par ensures NodeDrawn(l', n) && n.order == OrderOf(l', n) {
      if n != c { assert ListDrawn(l.kids[n]); } else { NoneCarried(c); }
      NodeDrawnOf(l', n);
    }
    HeapFold(l');
  }

  ghost function OrderOf(l: Links, n: Node): nat
    requires n in l.msg
  {
    if l.msg[n].Some? then l.msg[n].value.order else 0
  }

  lemma NoneCarried(c: Node)
    requires c.item == None
    ensures Carries(c, None)
  {
  }

  /** The facts about every node. */
  lemma HeapAt(l: Links)
    requires Wellformed(l) && Heap(l)
    ensures l.kids.Keys == l.par.Keys && l.msg.Keys == l.par.Keys
    ensures forall n :: n in l.par ==>
      n.parent == l.par[n] && n.child == FirstOf(l.kids[n]) && Carries(n, l.msg[n]) && ListDrawn(l.kids[n]) &&
      n.order == OrderOf(l, n)
  {
    forall n | n in l.par
      ensures n.parent == l.par[n] && n.child == FirstOf(l.kids[n]) && Carries(n, l.msg[n]) && ListDrawn(l.kids[n])
    {
      NodeDrawnIs(l, n);
      NodeDrawnParts(l, n);
    }
  }

  lemma HeapFold(l: Links)
    requires Wellformed(l) && forall n :: n in l.par ==> NodeDrawn(l, n) && n.order == OrderOf(l, n)
    ensures Heap(l)
  {
    DrawnFold(l);
  }

  /** Put the message into its node. */
  method SetItem(c: Node, item: Item, order: nat, ghost l: Links)
    requires Wellformed(l) && Heap(l) && c in l.par
    modifies c`item, c`order
    ensures var l' := Marked(l, c, item, order); Wellformed(l') && Heap(l')
  {
    hide Drawn, NodeDrawn, Wellformed, Orders, ListDrawn;
    HeapAt(l);
    SetMsgOk(l, c, Some(Msg(item, order)));
    c.item := Some(item);
    c.order := order;
    ghost var l' := Marked(l, c, item, order);
    forall n | n in l'.par ensures NodeDrawn(l', n) && n.order == OrderOf(l', n) {
      NodeDrawnOf(l', n);
    }
    HeapFold(l');
  }

  /** Orders do not change while nodes are relinked. */
  lemma OrdersSame(l: Links, l': Links)
    requires Wellformed(l) && Wellformed(l') && l'.par.Keys == l.par.Keys && l'.msg == l.msg && Orders(l)
    ensures Orders(l')
  {
  }

  /** Node `c` has received message `i`. */
  ghost function Marked(l: Links, c: Node, item: Item, order: nat): Links {
    l.(msg := l.msg[c := Some(Msg(item, order))])
  }

  lemma CaseNew(items: seq<Item>, b: Build, c: Node)
    requires BuildOk(items, b) && EdgesOk(items, b) && DistinctItems(items) && |b.owner| < |items|
    requires Nameless(items, |b.owner|)
    requires c !in b.l.par
    ensures var i, b' := |b.owner|, TakeNew(items, b, c);
      && BuildOk(items, b') && EdgesOk(items, b') && b'.l == Marked(AddNode(b.l, c, None), c, items[i], i + 1)
      && b'.ids == b.ids && b'.noIds == b.noIds[items[i] := c] && b'.owner == b.owner + [c]
      && b'.l.par.Keys == b.l.par.Keys + {c}
  {
    hide BuildOk, EdgesOk, DistinctItems, Nameless;
    TakeNewOk(items, b, c);
    var i := |b.owner|;
    var m := Some(Msg(items[i], i + 1));
    assert b.l.msg[c := None][c := m] == b.l.msg[c := m];
  }

  lemma CaseId(items: seq<Item>, b: Build, c: Node)
    requires BuildOk(items, b) && EdgesOk(items, b) && DistinctItems(items) && |b.owner| < |items|
    requires var id := items[|b.owner|].messageId; id != 0 && id !in b.ids
    requires c !in b.l.par
    ensures |WithId(b, items[|b.owner|].messageId, c).owner| < |items|
    ensures var i, b' := |b.owner|, Take(items, WithId(b, items[|b.owner|].messageId, c), c);
      && BuildOk(items, b') && EdgesOk(items, b') && b'.l == Marked(AddNode(b.l, c, None), c, items[i], i + 1)
      && b'.ids == b.ids[items[i].messageId := c] && b'.noIds == b.noIds && b'.owner == b.owner + [c]
      && b'.l.par.Keys == b.l.par.Keys + {c}
  {
    WithIdOk(items, b, items[|b.owner|].messageId, c);
    TakeOk(items, WithId(b, items[|b.owner|].messageId, c), c);
  }

  lemma CaseReuse(items: seq<Item>, b: Build, c: Node)
    requires BuildOk(items, b) && EdgesOk(items, b) && DistinctItems(items) && |b.owner| < |items|
    requires var id := items[|b.owner|].messageId; id in b.ids && b.ids[id] == c
    requires c in b.l.par && Wellformed(b.l) && OrderOf(b.l, c) == 0
    ensures var i, b' := |b.owner|, Take(items, b, c);
      && BuildOk(items, b') && EdgesOk(items, b') && b'.l == Marked(b.l, c, items[i], i + 1)
      && b'.ids == b.ids && b'.noIds == b.noIds && b'.owner == b.owner + [c] && b'.l.par.Keys == b.l.par.Keys
  {
    OrderZero(items, b, c);
    TakeOk(items, b, c);
  }

  lemma CaseKnown(items: seq<Item>, b: Build, id: nat)
    requires BuildOk(items, b) && id in b.ids && Heap(b.l) && |b.owner| < |items| && id == items[|b.owner|].messageId
    ensures Wellformed(b.l) && b.ids[id] in b.l.par && b.ids[id].order == OrderOf(b.l, b.ids[id])
    ensures OrderOf(b.l, b.ids[id]) != 0 ==> Nameless(items, |b.owner|)
  {
    TakenBefore(items, b, id);
    HeapAt(b.l);
  }

  lemma ZeroNameless(items: seq<Item>, i: nat)
    requires i < |items| && items[i].messageId == 0
    ensures Nameless(items, i)
  {
  }

  lemma OrderZero(items: seq<Item>, b: Build, c: Node)
    requires BuildOk(items, b) && c in b.l.par && OrderOf(b.l, c) == 0
    ensures b.l.msg[c].None?
  {
    assert Owned(items, b, c);
  }

  /** The node of the message is marked; no node has moved. */
  lemma PlaceFrame(items: seq<Item>, b: Build, b': Build, l: Links, c: Node, id: nat)
    requires BuildOk(items, b) && BuildOk(items, b') && Followed(items, b) && |b.owner| < |items|
    requires (l == b.l && c in b.l.par) || (l == AddNode(b.l, c, None) && c !in b.l.par)
    requires b'.l == Marked(l, c, items[|b.owner|], |b.owner| + 1) && b'.owner == b.owner + [c]
    requires b'.ids == b.ids || (id !in b.ids && b'.ids == b.ids[id := c])
    ensures Grows(b, b') && b.l.par.Keys <= b'.l.par.Keys && forall n :: n in b.l.par ==> b'.l.par[n] == b.l.par[n]
    ensures Amid(items, b', |b.owner|, 0, 0, c, {})
  {
    hide BuildOk, Followed, Amid;
    OwnersApart(items, b);
    OwnersApart(items, b');
    PlaceFollows(items, b, b');
  }

  /** The first half of a round: find or make the node of the message. */
  method PlaceItem(item: Item, i: nat, ids: map<nat, Node>, noIds: map<Item, Node>, ghost items: seq<Item>, ghost b: Build)
    returns (c: Node, ids': map<nat, Node>, noIds': map<Item, Node>, ghost b': Build)
    requires BuildOk(items, b) && EdgesOk(items, b) && Heap(b.l) && Followed(items, b)
    requires DistinctItems(items) && i == |b.owner| < |items| && item == items[i]
    requires ids == b.ids && noIds == b.noIds
    modifies b.l.par.Keys
    ensures BuildOk(items, b') && EdgesOk(items, b') && Heap(b'.l)
    ensures b'.owner == b.owner + [c] && ids' == b'.ids && noIds' == b'.noIds
    ensures Grows(b, b') && b.l.par.Keys <= b'.l.par.Keys && forall n :: n in b.l.par ==> b'.l.par[n] == b.l.par[n]
    ensures Amid(items, b', i, 0, 0, c, {})
    ensures forall n :: n in b'.l.par ==> n in b.l.par || fresh(n)
  {
    hide *;
    BuildWellformed(items, b);
    ids', noIds' := ids, noIds;
    ghost var l := b.l;
    var id := item.messageId;
    if id != 0 {
      if id in ids {
        c := ids[id];
        CaseKnown(items, b, id);
      }
      if id in ids && c.order != 0 {
        // the id is taken: file the message as one without id
        c := NewNode(b.l);
        noIds' := noIds'[item := c];
        CaseNew(items, b, c);
        l, b' := AddNode(b.l, c, None), TakeNew(items, b, c);
      } else if id !in ids {
        c := NewNode(b.l);
        ids' := ids'[id := c];
        CaseId(items, b, c);
        l, b' := AddNode(b.l, c, None), Take(items, WithId(b, id, c), c);
      } else {
        CaseReuse(items, b, c);
        b' := Take(items, b, c);
      }
    } else {
      c := NewNode(b.l);
      noIds' := noIds'[item := c];
      ZeroNameless(items, i);
      CaseNew(items, b, c);
      l, b' := AddNode(b.l, c, None), TakeNew(items, b, c);
    }
    AddNodeKeys(b.l, c);
    PlaceFrame(items, b, b', l, c, id);
    SetItem(c, item, i + 1, l);
  }

  lemma AddNodeKeys(l: Links, c: Node)
    ensures AddNode(l, c, None).par.Keys == l.par.Keys + {c}
  {
  }

  /** The node of a reference: the one filed under its id, or a new one. */
  method Lookup(id: nat, ids: map<nat, Node>, ghost items: seq<Item>, ghost b: Build)
    returns (c: Node, found: bool, ids': map<nat, Node>, ghost b': Build)
    requires BuildOk(items, b) && EdgesOk(items, b) && Heap(b.l) && ids == b.ids && id != 0
    ensures BuildOk(items, b') && EdgesOk(items, b') && Heap(b'.l) && ids' == b'.ids && Grows(b, b')
    ensures b'.owner == b.owner && b'.noIds == b.noIds && id in b'.ids && b'.ids[id] == c && c in b'.l.par
    ensures forall n :: n in b'.l.par ==> n in b.l.par || fresh(n)
    ensures found == (id in b.ids) && b' == if found then b else WithId(b, id, c)
    ensures b.l.par.Keys <= b'.l.par.Keys && (found || c !in b.l.par)
  {
    hide *;
    BuildWellformed(items, b);
    ids', b', found := ids, b, false;
    if id in ids {
      c := ids[id];
      found := true;
      IdsIn(b);
      GrowsSame(b);
    } else {
      c := NewNode(b.l);
      ids' := ids'[id := c];
      WithIdOk(items, b, id, c);
      WithIdGrows(b, id, c);
      b' := WithId(b, id, c);
    }
  }

  /** Link `child` below `c`, its neighbour. */
  method LinkNeighbours(child: Node, c: Node, ghost items: seq<Item>, ghost b: Build, ghost r: nat) returns (ghost b': Build)
    requires BuildOk(items, b) && EdgesOk(items, b) && Heap(b.l)
    requires child in b.l.par && c in b.l.par && c != child
    requires |b.owner| > 0 && ChainAt(items, b, |b.owner| - 1, r, child) && ChainAt(items, b, |b.owner| - 1, r + 1, c)
    modifies b.l.par.Keys`child, b.l.par.Keys`next, b.l.par.Keys`parent
    ensures BuildOk(items, b') && EdgesOk(items, b') && Heap(b'.l) && b' == b.(l := b'.l) && b'.l.par.Keys == b.l.par.Keys
    ensures Wellformed(b.l) && b'.l.par == Linking(b.l, child, c) && b'.l.msg == b.l.msg
  {
    hide *;
    BuildWellformed(items, b);
    HeapDrawn(b.l);
    LinkingIs(b.l, child, c);
    ghost var l' := ContainerParentChild(c, child, b.l);
    JoinEdges(items, b, l', child, c, r);
    OrdersSame(b.l, l');
    HeapIs(l');
    b' := b.(l := l');
  }

  lemma HeapDrawn(l: Links)
    requires Wellformed(l)
    ensures Heap(l) <==> Drawn(l) && Orders(l)
  {
  }

  lemma HeapIs(l: Links)
    requires Wellformed(l) && Drawn(l) && Orders(l)
    ensures Heap(l)
  {
  }

  /** The reference `id` is the one after position `r` in the list of the last message. */
  ghost predicate RefAt(items: seq<Item>, b: Build, r: nat, id: nat) {
    0 < |b.owner| <= |items| && r < |NonZero(items[|b.owner| - 1].references)| &&
    NonZero(items[|b.owner| - 1].references)[r] == id
  }

  /** The state between two references of the last message, before number `jj`. */
  ghost predicate Walking(items: seq<Item>, b: Build, b': Build, refs: seq<nat>, jj: nat, s: nat, child: Node)
    requires jj <= |refs|
  {
    && BuildOk(items, b') && EdgesOk(items, b') && b'.owner == b.owner && b'.noIds == b.noIds
    && 0 < |b.owner| <= |items| && refs == items[|b.owner| - 1].references
    && Amid(items, b', |b.owner| - 1, s, |NonZero(refs[..jj])|, child, {})
  }

  lemma WalkStart(items: seq<Item>, b: Build, refs: seq<nat>)
    requires BuildOk(items, b) && EdgesOk(items, b) && |b.owner| > 0 && refs == items[|b.owner| - 1].references
    requires Amid(items, b, |b.owner| - 1, 0, 0, b.owner[|b.owner| - 1], {})
    ensures Walking(items, b, b, refs, 0, 0, b.owner[|b.owner| - 1])
  {
    hide BuildOk, EdgesOk, Amid;
    BuildBounds(items, b);
    NonZeroNone(refs);
  }

  lemma WalkSkip(items: seq<Item>, b: Build, b': Build, refs: seq<nat>, jj: nat, s: nat, child: Node)
    requires jj < |refs| && refs[jj] == 0 && Walking(items, b, b', refs, jj, s, child)
    ensures Walking(items, b, b', refs, jj + 1, s, child)
  {
    hide BuildOk, EdgesOk, Amid, NonZero;
    NonZeroNext(refs, jj);
  }

  lemma WalkParts(items: seq<Item>, b: Build, b': Build, refs: seq<nat>, jj: nat, s: nat, child: Node)
    requires jj <= |refs| && Walking(items, b, b', refs, jj, s, child)
    ensures BuildOk(items, b') && EdgesOk(items, b') && b'.owner == b.owner && b'.noIds == b.noIds && child in b'.l.par
    ensures |b.owner| > 0 && ChainAt(items, b', |b.owner| - 1, |NonZero(refs[..jj])|, child)
    ensures jj < |refs| && refs[jj] != 0 ==> RefAt(items, b', |NonZero(refs[..jj])|, refs[jj])
  {
    hide BuildOk, EdgesOk, NonZero, Following;
    if jj < |refs| {
      NonZeroNext(refs, jj);
      NonZeroPrefix(refs, jj + 1);
    }
  }

  /** After the last reference all have been followed. */
  lemma WalkEnd(items: seq<Item>, b: Build, b': Build, refs: seq<nat>, s: nat, child: Node)
    requires Walking(items, b, b', refs, |refs|, s, child)
    ensures Followed(items, b')
  {
    hide BuildOk, EdgesOk, NonZero, Amid;
    assert refs[..|refs|] == refs;
    EndAmid(items, b', |b.owner| - 1, s, child);
  }

  /** What one reference does: its node `c` is the one filed under `id`, or a new one, and `child` is
      linked below it. */
  ghost predicate FollowsOne(items: seq<Item>, b: Build, id: nat, was: Build, b': Build, child: Node, c: Node) {
    && (if id in b.ids then c == b.ids[id] && was == b else c !in b.l.par && was == WithId(b, id, c))
    && BuildOk(items, was) && EdgesOk(items, was) && Wellformed(was.l) && child in was.l.par && c in was.l.par
    && (if c == child then b' == was
        else b' == was.(l := b'.l) && b'.l.msg == was.l.msg && b'.l.par == Linking(was.l, child, c))
  }

  lemma FollowsFold(items: seq<Item>, b: Build, id: nat, was: Build, b': Build, child: Node, c: Node)
    requires if id in b.ids then c == b.ids[id] && was == b else c !in b.l.par && was == WithId(b, id, c)
    requires BuildOk(items, was) && EdgesOk(items, was) && Wellformed(was.l) && child in was.l.par && c in was.l.par
    requires if c == child then b' == was
      else b' == was.(l := b'.l) && b'.l.msg == was.l.msg && b'.l.par == Linking(was.l, child, c)
    ensures FollowsOne(items, b, id, was, b', child, c)
  {
  }

  /** The walk after one reference. */
  lemma OneAmid(items: seq<Item>, b: Build, id: nat, was: Build, b': Build, k: nat, s: nat, r: nat, child: Node, c: Node)
    returns (s': nat)
    requires BuildOk(items, b) && Amid(items, b, k, s, r, child, {}) && FollowsOne(items, b, id, was, b', child, c)
    requires ChainAt(items, was, k, r + 1, c) && child in b.l.par && was.owner == b.owner && was.noIds == b.noIds
    ensures ChainAt(items, b', k, r + 1, c) && c in b'.l.par && b'.owner == b.owner && b'.noIds == b.noIds
    ensures if id in b.ids && c != child then Followed(items, b') else Amid(items, b', k, s', r + 1, c, {})
  {
    hide BuildOk, EdgesOk, ChainAt, Wellformed, Amid, Followed, Linking;
    ChainSame(items, was, b'.l, k, r + 1, c);
    LinkingIs(was.l, child, c);
    if id in b.ids {
      KnownAmid(items, b, b', k, s, r, child, c);
      s' := s;
    } else {
      MadeAmid(items, b, id, b', k, s, r, child, c);
      s' := r + 1;
    }
  }

  /** The walk after a reference whose node was there before. */
  lemma KnownAmid(items: seq<Item>, b: Build, b': Build, k: nat, s: nat, r: nat, child: Node, c: Node)
    requires BuildOk(items, b) && EdgesOk(items, b) && Amid(items, b, k, s, r, child, {})
    requires Wellformed(b.l) && c in b.l.par && ChainAt(items, b, k, r + 1, c)
    requires if c == child then b' == b
      else b' == b.(l := b'.l) && b'.l.msg == b.l.msg && b'.l.par == Linking(b.l, child, c)
    ensures if c == child then Amid(items, b', k, s, r + 1, c, {}) else Followed(items, b')
  {
    hide BuildOk, EdgesOk, ChainAt, Wellformed, Following, Stays, Linking;
    if c == child {
      SameAmid(items, b, k, s, r, child);
    } else {
      LinkFollows(items, b, b'.l, k, s, r, child, c, {});
    }
  }

  /** The walk after a reference whose node was made for it. */
  lemma MadeAmid(items: seq<Item>, b: Build, id: nat, b': Build, k: nat, s: nat, r: nat, child: Node, c: Node)
    requires BuildOk(items, b) && Amid(items, b, k, s, r, child, {}) && id !in b.ids && c !in b.l.par
    requires var w := WithId(b, id, c);
      && BuildOk(items, w) && EdgesOk(items, w) && Wellformed(w.l) && ChainAt(items, w, k, r + 1, c)
      && b' == w.(l := b'.l) && b'.l.msg == w.l.msg && b'.l.par == Linking(w.l, child, c)
    ensures Amid(items, b', k, r + 1, r + 1, c, {})
  {
    hide BuildOk, EdgesOk, ChainAt, Wellformed, Following, Stays, Anc;
    var w := WithId(b, id, c);
    WithIdGrows(b, id, c);
    NewAmid(items, b, id, c, k, s, r, child);
    LinkFollows(items, w, b'.l, k, s, r, child, c, {c});
    ChainSame(items, w, b'.l, k, r + 1, c);
    NextAmid(items, b', k, r, c);
  }

  lemma RefChain(items: seq<Item>, b: Build, was: Build, r: nat, id: nat)
    requires RefAt(items, b, r, id) && was.owner == b.owner && id in was.ids
    ensures ChainAt(items, was, |b.owner| - 1, r + 1, was.ids[id])
  {
  }

  /** After one reference more, unless the walk stops there. */
  lemma WalkOne(items: seq<Item>, b: Build, b0: Build, refs: seq<nat>, jj: nat, s: nat, child: Node,
                was: Build, b': Build, c: Node)
    returns (s': nat)
    requires jj < |refs| && refs[jj] != 0 && Walking(items, b, b0, refs, jj, s, child)
    requires FollowsOne(items, b0, refs[jj], was, b', child, c) && BuildOk(items, b') && EdgesOk(items, b')
    requires was.owner == b0.owner && was.noIds == b0.noIds && |b0.owner| > 0
    requires ChainAt(items, was, |b0.owner| - 1, |NonZero(refs[..jj])| + 1, c)
    ensures b'.owner == b.owner && b'.noIds == b.noIds
    ensures if refs[jj] in b0.ids && c != child then Followed(items, b') else Walking(items, b, b', refs, jj + 1, s', c)
  {
    hide BuildOk, EdgesOk, ChainAt, NonZero, Amid, FollowsOne, Followed;
    WalkParts(items, b, b0, refs, jj, s, child);
    NonZeroNext(refs, jj);
    s' := OneAmid(items, b0, refs[jj], was, b', |b.owner| - 1, s, |NonZero(refs[..jj])|, child, c);
  }

  /** One reference: link `child` below its node, and stop at the first that was there before. */
  method FollowOne(id: nat, child: Node, ids: map<nat, Node>, ghost items: seq<Item>, ghost b: Build, ghost r: nat)
    returns (child': Node, stop: bool, ids': map<nat, Node>, ghost was: Build, ghost b': Build)
    requires BuildOk(items, b) && EdgesOk(items, b) && Heap(b.l) && ids == b.ids && id != 0
    requires RefAt(items, b, r, id) && child in b.l.par && ChainAt(items, b, |b.owner| - 1, r, child)
    modifies b.l.par.Keys
    ensures BuildOk(items, b') && EdgesOk(items, b') && Heap(b'.l) && ids' == b'.ids
    ensures FollowsOne(items, b, id, was, b', child, child') && stop == (id in b.ids && child' != child)
    ensures was.owner == b.owner && was.noIds == b.noIds && ChainAt(items, was, |b.owner| - 1, r + 1, child')
    ensures forall n :: n in b'.l.par ==> n in b.l.par || fresh(n)
  {
    hide *;
    BuildWellformed(items, b);
    var c, found;
    c, found, ids', b' := Lookup(id, ids, items, b);
    was := b';
    BuildWellformed(items, was);
    RefOwners(items, b, r, id);
    ChainGrows(items, b, was, |b.owner| - 1, r, child);
    RefChain(items, b, was, r, id);
    stop := false;
    if c != child {
      b' := LinkNeighbours(child, c, items, was, r);
      stop := found;
    }
    FollowsFold(items, b, id, was, b', child, c);
    child' := c;
  }

  lemma RefOwners(items: seq<Item>, b: Build, r: nat, id: nat)
    requires RefAt(items, b, r, id)
    ensures |b.owner| > 0
  {
  }

  /** The second half of a round: walk the references, from the parent towards the root. */
  method FollowReferences(refs: seq<nat>, c0: Node, ids: map<nat, Node>, ghost items: seq<Item>, ghost b: Build)
    returns (ids': map<nat, Node>, ghost b': Build)
    requires BuildOk(items, b) && EdgesOk(items, b) && Heap(b.l) && ids == b.ids
    requires |b.owner| > 0 && refs == items[|b.owner| - 1].references && c0 == b.owner[|b.owner| - 1]
    requires Amid(items, b, |b.owner| - 1, 0, 0, c0, {})
    modifies b.l.par.Keys
    ensures BuildOk(items, b') && EdgesOk(items, b') && Heap(b'.l) && ids' == b'.ids && Followed(items, b')
    ensures b'.owner == b.owner && b'.noIds == b.noIds
    ensures forall n :: n in b'.l.par ==> n in b.l.par || fresh(n)
  {
    hide *;
    BuildBounds(items, b);
    BuildWellformed(items, b);
    var child := c0;
    ids', b' := ids, b;
    ghost var s: nat := 0;
    WalkStart(items, b, refs);
    for jj := 0 to |refs|
      invariant Walking(items, b, b', refs, jj, s, child) && BuildOk(items, b') && EdgesOk(items, b')
      invariant b'.owner == b.owner && b'.noIds == b.noIds
      invariant Wellformed(b'.l) && Heap(b'.l) && ids' == b'.ids
      invariant forall n :: n in b'.l.par ==> n in b.l.par || fresh(n)
    {
      // zero stands for no id
      if refs[jj] == 0 {
        WalkSkip(items, b, b', refs, jj, s, child);
        continue;
      }
      WalkParts(items, b, b', refs, jj, s, child);
      ghost var before, node := b', child;
      var stop;
      ghost var was;
      child, stop, ids', was, b' := FollowOne(refs[jj], child, ids', items, b', |NonZero(refs[..jj])|);
      s := WalkOne(items, b, before, refs, jj, s, node, was, b', child);
      BuildWellformed(items, b');
      // a node that was known has its own place already
      if stop { return; }
    }
    WalkEnd(items, b, b', refs, s, child);
  }

  /** The whole loop. */
  method LinkReferences(items: seq<Item>) returns (ids: map<nat, Node>, noIds: map<Item, Node>, ghost b: Build)
    requires DistinctItems(items)
    ensures BuildOk(items, b) && EdgesOk(items, b) && Heap(b.l) && |b.owner| == |items| && Followed(items, b)
    ensures ids == b.ids && noIds == b.noIds
    ensures forall n :: n in b.l.par ==> fresh(n)
  {
    hide *;
    NoneOk(items);
    BuildWellformed(items, NONE);
    ids, noIds, b := map[], map[], NONE;
    for i := 0 to |items|
      invariant BuildOk(items, b) && EdgesOk(items, b) && Wellformed(b.l) && Heap(b.l) && |b.owner| == i && Followed(items, b)
      invariant ids == b.ids && noIds == b.noIds
      invariant forall n :: n in b.l.par ==> fresh(n)
    {
      var c;
      c, ids, noIds, b := PlaceItem(items[i], i, ids, noIds, items, b);
      ids, b := FollowReferences(items[i].references, c, ids, items, b);
      BuildWellformed(items, b);
    }
  }

  lemma NoneOk(items: seq<Item>)
    ensures BuildOk(items, NONE) && EdgesOk(items, NONE) && Heap(NONE.l) && Followed(items, NONE)
    ensures NONE.owner == [] && NONE.ids == map[] && NONE.noIds == map[] && NONE.l.par == map[]
  {
  }
}
