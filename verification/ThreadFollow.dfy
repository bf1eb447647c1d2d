/** The parent of a node is the node of the next reference, unless that would make a loop. */
module ThreadFollow {
  import opened Wrappers
  import opened ThreadForest
  import opened ThreadLinks
  import opened ThreadBuild

  // ---------------------------------------------------------------- loops

  /** `n` and another node `p` are neighbours. */
  ghost predicate Step(items: seq<Item>, b: Build, n: Node, p: Node) {
    n != p && Neighbours(items, b, n, p)
  }

  /** A chain of `len` such steps leads from `p` to `n`. */
  ghost predicate Climbs(items: seq<Item>, b: Build, p: Node, n: Node, len: nat) {
    if len == 0 then p == n
    else exists m :: m in b.l.par && Step(items, b, p, m) && Climbs(items, b, m, n, len - 1)
  }

  /** From `p` neighbours lead back to `n`: a link from `n` to `p` would close a loop. */
  ghost predicate Loop(items: seq<Item>, b: Build, p: Node, n: Node) {
    exists len: nat :: len > 0 && Climbs(items, b, p, n, len)
  }

  lemma {:induction false} ClimbsKept(items: seq<Item>, b: Build, c: Build, p: Node, n: Node, len: nat)
    requires Climbs(items, b, p, n, len) && Grows(b, c) && b.l.par.Keys <= c.l.par.Keys
    ensures Climbs(items, c, p, n, len)
  {
    hide Neighbours, Grows;
    if len > 0 {
      var m :| m in b.l.par && Step(items, b, p, m) && Climbs(items, b, m, n, len - 1);
      NeighboursGrow(items, b, c, p, m);
      ClimbsKept(items, b, c, m, n, len - 1);
    }
  }

  lemma LoopKept(items: seq<Item>, b: Build, c: Build, p: Node, n: Node)
    requires Loop(items, b, p, n) && Grows(b, c) && b.l.par.Keys <= c.l.par.Keys
    ensures Loop(items, c, p, n)
  {
    hide Climbs, Grows;
    var len: nat :| len > 0 && Climbs(items, b, p, n, len);
    ClimbsKept(items, b, c, p, n, len);
  }

  /** Parents are neighbours, so ancestors are reached by such steps. */
  lemma {:induction false} AncLoop(items: seq<Item>, b: Build, a: Node, d: Node) returns (len: nat)
    requires Wellformed(b.l) && EdgesOk(items, b) && d in b.l.par && Anc(b.l, a, d)
    ensures len > 0 && Climbs(items, b, d, a, len)
    decreases b.l.top - b.l.rank[d]
  {
    hide Wellformed, Anc, Under, Neighbours;
    KeysOk(b.l);
    AncStep(b.l, a, d);
    var p := b.l.par[d];
    assert Step(items, b, d, p);
    UnderStep(b.l, a, p);
    if p == a {
      assert Climbs(items, b, p, a, 0);
      len := 1;
    } else {
      len := AncLoop(items, b, a, p);
      len := len + 1;
    }
  }

  // ---------------------------------------------------------------- where a node hangs

  /** Only `n` stands at the positions from `j` up to `q`, not included, in the list of message `k`. */
  ghost predicate Stays(items: seq<Item>, b: Build, k: nat, j: nat, q: nat, n: Node) {
    forall i: nat :: j <= i < q ==> ChainAt(items, b, k, i, n)
  }

  /** `p` is the first other node after position `j`, and it is the parent of `n`, unless it was below
      `n` already. */
  ghost predicate LinkedAt(items: seq<Item>, b: Build, k: nat, j: nat, q: nat, n: Node, p: Node) {
    && n in b.l.par && p != n && j < q && Stays(items, b, k, j, q, n) && ChainAt(items, b, k, q, p)
    && (b.l.par[n] == p || Loop(items, b, p, n))
  }

  ghost predicate Linked(items: seq<Item>, b: Build, k: nat, j: nat, n: Node) {
    exists q: nat, p :: p in b.l.par && LinkedAt(items, b, k, j, q, n, p)
  }

  /** The node at position `j` is linked to the first other node after it, or there is none; then it
      has no parent, unless it is that of the message. */
  ghost predicate HangsAt(items: seq<Item>, b: Build, k: nat, j: nat, n: Node) {
    k < |items| && n in b.l.par &&
    (Linked(items, b, k, j, n) ||
     (Stays(items, b, k, j, |NonZero(items[k].references)| + 1, n) && (j > 0 ==> b.l.par[n] == null)))
  }

  /** A node without a message hangs so at one of its places. */
  ghost predicate EmptyHangs(items: seq<Item>, b: Build, n: Node) {
    exists k: nat, j: nat :: j > 0 && HangsAt(items, b, k, j, n)
  }

  /** The references of the first `done` messages have been followed; the nodes `but` are in work. */
  ghost predicate Following(items: seq<Item>, b: Build, done: nat, but: set<Node>) {
    && done <= |b.owner|
    && (forall k :: 0 <= k < done ==> HangsAt(items, b, k, 0, b.owner[k]))
    && (forall n :: n in b.l.par && n !in but && n in b.l.msg && b.l.msg[n] == None ==> EmptyHangs(items, b, n))
  }

  /** All references have been followed. */
  ghost predicate Followed(items: seq<Item>, b: Build) {
    Following(items, b, |b.owner|, {})
  }

  lemma StaysKept(items: seq<Item>, b: Build, c: Build, k: nat, j: nat, q: nat, n: Node)
    requires Stays(items, b, k, j, q, n) && Grows(b, c)
    ensures Stays(items, c, k, j, q, n)
  {
    hide ChainAt, Grows;
    forall i: nat | j <= i < q ensures ChainAt(items, c, k, i, n) { ChainGrows(items, b, c, k, i, n); }
  }

  lemma HangsKept(items: seq<Item>, b: Build, c: Build, k: nat, j: nat, n: Node)
    requires HangsAt(items, b, k, j, n) && Grows(b, c) && b.l.par.Keys <= c.l.par.Keys && c.l.par[n] == b.l.par[n]
    ensures HangsAt(items, c, k, j, n)
  {
    hide ChainAt, Grows, Stays, Loop;
    if Linked(items, b, k, j, n) {
      var q: nat, p :| p in b.l.par && LinkedAt(items, b, k, j, q, n, p);
      StaysKept(items, b, c, k, j, q, n);
      ChainGrows(items, b, c, k, q, p);
      if b.l.par[n] != p { LoopKept(items, b, c, p, n); }
      assert LinkedAt(items, c, k, j, q, n, p);
    } else {
      StaysKept(items, b, c, k, j, |NonZero(items[k].references)| + 1, n);
    }
  }

  lemma EmptyKept(items: seq<Item>, b: Build, c: Build, n: Node)
    requires EmptyHangs(items, b, n) && Grows(b, c) && b.l.par.Keys <= c.l.par.Keys
    requires n in b.l.par && c.l.par[n] == b.l.par[n]
    ensures EmptyHangs(items, c, n)
  {
    hide HangsAt, Grows;
    var k: nat, j: nat :| j > 0 && HangsAt(items, b, k, j, n);
    HangsKept(items, b, c, k, j, n);
  }

  // ---------------------------------------------------------------- following the references

  /** In the round of the last message, `k`: the walk is at `child`, which stands at the positions from
      `s` to `r`; it is the node of the message, or an empty one made in this round. */
  ghost predicate Amid(items: seq<Item>, b: Build, k: nat, s: nat, r: nat, child: Node, but: set<Node>) {
    && |b.owner| == k + 1 && s <= r && Stays(items, b, k, s, r + 1, child) && child in b.l.par
    && if s == 0 then child == b.owner[k] && Following(items, b, k, but)
       else child in b.l.msg && b.l.msg[child] == None && b.l.par[child] == null && Following(items, b, k + 1, but + {child})
  }

  lemma OwnersApart(items: seq<Item>, b: Build)
    requires BuildOk(items, b)
    ensures b.l.msg.Keys == b.l.par.Keys
    ensures forall k :: 0 <= k < |b.owner| ==> b.owner[k] in b.l.par && b.l.msg[b.owner[k]] == Some(Msg(items[k], k + 1))
    ensures forall i, j :: 0 <= i < j < |b.owner| ==> b.owner[i] != b.owner[j]
  {
    forall k | 0 <= k < |b.owner|
      ensures b.owner[k] in b.l.par && b.l.msg[b.owner[k]] == Some(Msg(items[k], k + 1))
    {
      assert OwnerAt(items, b, k);
    }
  }

  /** Nodes whose parent stays the same hang as before. */
  lemma FollowingKept(items: seq<Item>, b: Build, c: Build, done: nat, but: set<Node>, child: Node?)
    requires BuildOk(items, b) && Following(items, b, done, but) && Grows(b, c) && b.l.par.Keys <= c.l.par.Keys
    requires forall n :: n in b.l.par && n != child ==> c.l.par[n] == b.l.par[n]
    ensures forall k :: 0 <= k < done && b.owner[k] != child ==> HangsAt(items, c, k, 0, b.owner[k])
    ensures forall n :: n in b.l.par && n !in but && n != child && n in b.l.msg && b.l.msg[n] == None ==> EmptyHangs(items, c, n)
  {
    hide HangsAt, EmptyHangs, Grows, BuildOk;
    OwnersApart(items, b);
    forall k | 0 <= k < done && b.owner[k] != child ensures HangsAt(items, c, k, 0, b.owner[k]) {
      HangsKept(items, b, c, k, 0, b.owner[k]);
    }
    forall n | n in b.l.par && n !in but && n != child && n in b.l.msg && b.l.msg[n] == None ensures EmptyHangs(items, c, n) {
      EmptyKept(items, b, c, n);
    }
  }

  lemma GrowsOwner(b: Build, c: Build)
    requires Grows(b, c)
    ensures b.owner <= c.owner
  {
  }

  /** The next message has got its node. */
  lemma PlaceFollows(items: seq<Item>, b: Build, c: Build)
    requires BuildOk(items, b) && BuildOk(items, c) && Followed(items, b) && Grows(b, c) && |c.owner| == |b.owner| + 1
    requires b.l.par.Keys <= c.l.par.Keys && forall n :: n in b.l.par ==> c.l.par[n] == b.l.par[n]
    requires b.l.msg.Keys == b.l.par.Keys && c.l.msg.Keys == c.l.par.Keys
    requires forall n :: n in c.l.par ==> n == c.owner[|b.owner|] || (n in b.l.par && c.l.msg[n] == b.l.msg[n])
    ensures Amid(items, c, |b.owner|, 0, 0, c.owner[|b.owner|], {})
  {
    hide HangsAt, EmptyHangs, Grows, BuildOk;
    FollowingKept(items, b, c, |b.owner|, {}, null);
    OwnersApart(items, c);
    GrowsOwner(b, c);
    BuildBounds(items, c);
    ChainStart(items, c);
    assert Following(items, c, |b.owner|, {});
  }

  /** A new node for a reference is in work too. */
  lemma NewAmid(items: seq<Item>, b: Build, id: nat, c: Node, k: nat, s: nat, r: nat, child: Node)
    requires BuildOk(items, b) && Amid(items, b, k, s, r, child, {}) && id !in b.ids && c !in b.l.par
    ensures Amid(items, WithId(b, id, c), k, s, r, child, {c})
  {
    hide HangsAt, EmptyHangs, Grows, BuildOk, Stays;
    var b' := WithId(b, id, c);
    WithIdGrows(b, id, c);
    OwnersApart(items, b);
    StaysKept(items, b, b', k, s, r + 1, child);
    FollowingKept(items, b, b', if s == 0 then k else k + 1, if s == 0 then {} else {child}, null);
  }

  /** `child` has been linked to the next node `c`, or cannot be. */
  lemma LinkFollows(items: seq<Item>, b: Build, l': Links, k: nat, s: nat, r: nat, child: Node, c: Node, but: set<Node>)
    requires BuildOk(items, b) && EdgesOk(items, b) && Amid(items, b, k, s, r, child, but)
    requires Wellformed(b.l) && c in b.l.par && c != child && ChainAt(items, b, k, r + 1, c)
    requires l'.msg == b.l.msg && l'.par == Linking(b.l, child, c)
    ensures Following(items, b.(l := l'), k + 1, but)
  {
    hide HangsAt, EmptyHangs, BuildOk, EdgesOk, Stays, ChainAt, Wellformed, Anc;
    var b' := b.(l := l');
    OwnersApart(items, b);
    FollowingKept(items, b, b', if s == 0 then k else k + 1, if s == 0 then but else but + {child}, child);
    StaysKept(items, b, b', k, s, r + 1, child);
    ChainGrows(items, b, b', k, r + 1, c);
    if l'.par[child] != c {
      var len := AncLoop(items, b, child, c);
      LoopKept(items, b, b', c, child);
    }
    assert LinkedAt(items, b', k, s, r + 1, child, c);
    HangsLinked(items, b', k, s, r + 1, child, c);
    if s > 0 { EmptyAt(items, b', k, s, child); }
  }

  /** The parents after container_parent_child. */
  ghost function Linking(l: Links, child: Node, c: Node): map<Node, Node?>
    requires Wellformed(l) && child in l.par && c in l.par
  {
    if l.par[child] == c || Anc(l, child, c) then l.par else l.par[child := c]
  }

  lemma HangsLinked(items: seq<Item>, b: Build, k: nat, j: nat, q: nat, n: Node, p: Node)
    requires LinkedAt(items, b, k, j, q, n, p) && p in b.l.par
    ensures HangsAt(items, b, k, j, n)
  {
    hide Loop, Stays;
  }

  lemma EmptyAt(items: seq<Item>, b: Build, k: nat, j: nat, n: Node)
    requires HangsAt(items, b, k, j, n) && j > 0
    ensures EmptyHangs(items, b, n)
  {
  }

  /** A node new in this round is the next to be linked. */
  lemma NextAmid(items: seq<Item>, b: Build, k: nat, r: nat, c: Node)
    requires |b.owner| == k + 1 && Following(items, b, k + 1, {c}) && ChainAt(items, b, k, r + 1, c)
    requires c in b.l.par && c in b.l.msg && b.l.msg[c] == None && b.l.par[c] == null
    ensures Amid(items, b, k, r + 1, r + 1, c, {})
  {
    hide HangsAt, EmptyHangs, ChainAt;
    assert {} + {c} == {c};
  }

  /** The reference names the node the walk is at. */
  lemma SameAmid(items: seq<Item>, b: Build, k: nat, s: nat, r: nat, child: Node)
    requires Amid(items, b, k, s, r, child, {}) && ChainAt(items, b, k, r + 1, child)
    ensures Amid(items, b, k, s, r + 1, child, {})
  {
    hide HangsAt, EmptyHangs, ChainAt;
  }

  /** There are no more references. */
  lemma EndAmid(items: seq<Item>, b: Build, k: nat, s: nat, child: Node)
    requires BuildOk(items, b) && k < |items| && Amid(items, b, k, s, |NonZero(items[k].references)|, child, {})
    ensures Followed(items, b)
  {
    hide EmptyHangs, ChainAt, BuildOk, Stays, NonZero;
    OwnersApart(items, b);
    if s > 0 { EmptyAt(items, b, k, s, child); }
  }

  // ---------------------------------------------------------------- what it means for a message

  /** Message `k` itself is filed under `id`. */
  ghost predicate Own(items: seq<Item>, k: nat, id: nat)
    requires k < |items|
  {
    !Nameless(items, k) && id == items[k].messageId
  }

  /** Of the references of message `k` that are not zero, the first from number `i` on that is not the
      message itself; their number if there is none. */
  ghost function FirstOther(items: seq<Item>, k: nat, i: nat): (r: nat)
    requires k < |items| && i <= |NonZero(items[k].references)|
    ensures var refs := NonZero(items[k].references);
      && i <= r <= |refs| && (r < |refs| ==> !Own(items, k, refs[r]))
      && forall j :: i <= j < r ==> Own(items, k, refs[j])
    decreases |NonZero(items[k].references)| - i
  {
    var refs := NonZero(items[k].references);
    if i == |refs| || !Own(items, k, refs[i]) then i else FirstOther(items, k, i + 1)
  }

  /** The first message with an id is filed under it. */
  lemma FirstWithId(items: seq<Item>, k: nat) returns (j: nat)
    requires k < |items| && items[k].messageId != 0
    ensures j <= k && items[j].messageId == items[k].messageId && !Nameless(items, j)
    ensures j == k ==> !Nameless(items, k)
  {
    if Nameless(items, k) {
      var i :| 0 <= i < k && items[i].messageId == items[k].messageId;
      j := FirstWithId(items, i);
    } else {
      j := k;
    }
  }

  lemma OwnerNamed(items: seq<Item>, b: Build, k: nat)
    requires BuildOk(items, b) && k < |b.owner|
    ensures !Nameless(items, k) ==> items[k].messageId in b.ids && b.ids[items[k].messageId] == b.owner[k]
    ensures forall id :: id in b.ids && b.ids[id] == b.owner[k] ==> id == items[k].messageId && id != 0
  {
    hide Nameless;
    assert OwnerAt(items, b, k);
    MapValues(b.ids);
    MapValues(b.noIds);
  }

  /** The node of a message is filed under an id exactly if the message is. */
  lemma OwnIs(items: seq<Item>, b: Build, k: nat, id: nat)
    requires BuildOk(items, b) && k < |b.owner|
    ensures id in b.ids && b.ids[id] == b.owner[k] <==> Own(items, k, id)
  {
    hide BuildOk, Nameless;
    BuildBounds(items, b);
    OwnerNamed(items, b, k);
    if id in b.ids && b.ids[id] == b.owner[k] {
      var j := FirstWithId(items, k);
      OwnerNamed(items, b, j);
      OwnersApart(items, b);
    }
  }

  /** No chain of neighbours leads back to where it began. */
  ghost predicate Loopless(items: seq<Item>, b: Build) {
    forall n :: n in b.l.par ==> !Loop(items, b, n, n)
  }

  lemma StepLoop(items: seq<Item>, b: Build, n: Node, p: Node)
    requires Step(items, b, n, p) && p in b.l.par && Loop(items, b, p, n)
    ensures Loop(items, b, n, n)
  {
    hide Step;
    var len: nat :| len > 0 && Climbs(items, b, p, n, len);
    assert Climbs(items, b, n, n, len + 1);
  }

  lemma LinkedLoopless(items: seq<Item>, b: Build, k: nat, j: nat, q: nat, n: Node, p: Node)
    requires LinkedAt(items, b, k, j, q, n, p) && p in b.l.par && Loopless(items, b)
    ensures b.l.par[n] == p
  {
    hide ChainAt, Loop;
    assert ChainAt(items, b, k, q - 1, n) && ChainAt(items, b, k, (q - 1) + 1, p);
    assert Step(items, b, n, p);
    if Loop(items, b, p, n) { StepLoop(items, b, n, p); }
  }

  lemma ChainIs(items: seq<Item>, b: Build, k: nat, j: nat, n: Node)
    requires ChainAt(items, b, k, j, n) && j > 0
    ensures k < |items| && j - 1 < |NonZero(items[k].references)|
    ensures var id := NonZero(items[k].references)[j - 1]; id in b.ids && b.ids[id] == n
  {
  }

  /** The first reference of message `k` to another node has a node, and that is the parent of the
      message, unless neighbours lead from it back to the message. */
  lemma FirstReference(items: seq<Item>, b: Build, k: nat)
    requires BuildOk(items, b) && Followed(items, b) && k < |b.owner|
    ensures |b.owner| <= |items|
    ensures var refs, r, n := NonZero(items[k].references), FirstOther(items, k, 0), b.owner[k];
      r < |refs| ==>
        && refs[r] in b.ids && b.ids[refs[r]] != n && n in b.l.par
        && (b.l.par[n] == b.ids[refs[r]] || Loop(items, b, b.ids[refs[r]], n))
        && (Loopless(items, b) ==> b.l.par[n] == b.ids[refs[r]])
  {
    hide BuildOk, EmptyHangs, ChainAt, Own, Loop, Loopless, NonZero, FirstOther;
    BuildBounds(items, b);
    var refs, r, n := NonZero(items[k].references), FirstOther(items, k, 0), b.owner[k];
    assert HangsAt(items, b, k, 0, n);
    if r < |refs| {
      forall i: nat | ChainAt(items, b, k, i + 1, n) ensures i < |refs| && Own(items, k, refs[i]) {
        ChainIs(items, b, k, i + 1, n);
        OwnIs(items, b, k, refs[i]);
      }
      assert !ChainAt(items, b, k, r + 1, n);
      assert Linked(items, b, k, 0, n);
      var q: nat, p :| p in b.l.par && LinkedAt(items, b, k, 0, q, n, p);
      ChainIs(items, b, k, q, p);
      OwnIs(items, b, k, refs[q - 1]);
      assert q - 1 >= r;
      assert q - 1 == r;
      if Loopless(items, b) { LinkedLoopless(items, b, k, 0, q, n, p); }
    }
  }

  /** Of two messages that refer to each other first, one does not get the other as parent. */
  lemma MutualReferences(items: seq<Item>, b: Build, i: nat, j: nat)
    requires BuildOk(items, b) && i < |b.owner| && j < |b.owner|
    ensures b.owner[i] in b.l.par && b.owner[j] in b.l.par
    ensures !(b.l.par[b.owner[i]] == b.owner[j] && b.l.par[b.owner[j]] == b.owner[i])
  {
    hide BuildOk, Wellformed;
    BuildBounds(items, b);
    BuildWellformed(items, b);
    AncStep(b.l, b.owner[i], b.owner[j]);
    AncStep(b.l, b.owner[j], b.owner[i]);
  }

  // ---------------------------------------------------------------- when there is no loop

  /** Along the list of every message, its own id and its references, `rank` grows. */
  ghost predicate Ascending(items: seq<Item>, rank: nat -> nat) {
    forall k :: 0 <= k < |items| ==> AscendingAt(items, k, rank)
  }

  ghost predicate AscendingAt(items: seq<Item>, k: nat, rank: nat -> nat)
    requires k < |items|
  {
    var refs := NonZero(items[k].references);
    && (forall i :: 0 < i < |refs| && refs[i - 1] != refs[i] ==> rank(refs[i - 1]) < rank(refs[i]))
    && (forall id :: Own(items, k, id) && refs != [] && refs[0] != id ==> rank(id) < rank(refs[0]))
  }

  /** A step from the node of one id to that of another goes up. */
  lemma StepRises(items: seq<Item>, b: Build, rank: nat -> nat, x: nat, p: Node) returns (y: nat)
    requires BuildOk(items, b) && Ascending(items, rank) && x in b.ids && Step(items, b, b.ids[x], p)
    ensures y in b.ids && b.ids[y] == p && rank(x) < rank(y)
  {
    hide BuildOk, Own, NonZero;
    BuildBounds(items, b);
    BuildWellformed(items, b);
    var n := b.ids[x];
    var k: nat, j: nat :| ChainAt(items, b, k, j, n) && ChainAt(items, b, k, j + 1, p);
    assert AscendingAt(items, k, rank);
    ChainIs(items, b, k, j + 1, p);
    y := NonZero(items[k].references)[j];
    if j > 0 {
      ChainIs(items, b, k, j, n);
    } else {
      OwnIs(items, b, k, x);
    }
  }

  lemma {:induction false} ClimbRises(items: seq<Item>, b: Build, rank: nat -> nat, x: nat, n: Node, len: nat) returns (y: nat)
    requires BuildOk(items, b) && Ascending(items, rank) && x in b.ids && Climbs(items, b, b.ids[x], n, len)
    ensures y in b.ids && b.ids[y] == n && rank(x) + len <= rank(y)
    decreases len
  {
    hide BuildOk, Ascending, Step;
    if len == 0 {
      y := x;
    } else {
      var m :| m in b.l.par && Step(items, b, b.ids[x], m) && Climbs(items, b, m, n, len - 1);
      y := StepRises(items, b, rank, x, m);
      y := ClimbRises(items, b, rank, y, n, len - 1);
    }
  }

  lemma StepId(items: seq<Item>, b: Build, n: Node, p: Node) returns (y: nat)
    requires Step(items, b, n, p)
    ensures y in b.ids && b.ids[y] == p
  {
    hide NonZero;
    var k: nat, j: nat :| ChainAt(items, b, k, j, n) && ChainAt(items, b, k, j + 1, p);
    ChainIs(items, b, k, j + 1, p);
    y := NonZero(items[k].references)[j];
  }

  /** Messages whose lists agree with some order of the ids make no loop. */
  lemma AscendingLoopless(items: seq<Item>, b: Build, rank: nat -> nat)
    requires BuildOk(items, b) && Ascending(items, rank)
    ensures Loopless(items, b)
  {
    hide BuildOk, Ascending, Step;
    BuildWellformed(items, b);
    forall n | n in b.l.par ensures !Loop(items, b, n, n) {
      if Loop(items, b, n, n) {
        var len: nat :| len > 0 && Climbs(items, b, n, n, len);
        var m :| m in b.l.par && Step(items, b, n, m) && Climbs(items, b, m, n, len - 1);
        var y := StepId(items, b, n, m);
        var z := ClimbRises(items, b, rank, y, n, len - 1);
        var u := ClimbRises(items, b, rank, z, n, len);
        IdsApart(b, z, u);
      }
    }
  }

  lemma IdsApart(b: Build, x: nat, y: nat)
    requires TablesOk(b) && x in b.ids && y in b.ids && b.ids[x] == b.ids[y]
    ensures x == y
  {
  }
}
