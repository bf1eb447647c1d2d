/** thread_items of camel-folder-thread.c: the whole of message threading. */
module Thread {
  import opened ThreadForest
  import opened ThreadTops
  import opened ThreadLinks
  import opened ThreadBuild
  import opened ThreadFollow
  import opened ThreadReferences
  import opened ThreadRoots
  import opened ThreadPrune
  import opened ThreadRegroup
  import opened ThreadMerge
  import opened ThreadPromise
  import opened ThreadSort
  import opened ThreadSorting
  import opened ThreadPhantom
  import opened ThreadPromote
  import opened ThreadTogether

  datatype Flags = Flags(subject: bool, sort: bool)

  /** The forest after each pass of thread_items. */
  datatype Stages = Stages(build: Build, linked: Forest, pruned: Forest, grouped: Forest, key: map<Node, Key>,
                           sorted: Forest, final: Forest)

  /** The message of input position `k`. */
  ghost function MsgOfItem(items: seq<Item>, k: nat): Msg
    requires k < |items|
  {
    Msg(items[k], k + 1)
  }

  /** Message `i` was linked above message `j` by the references. */
  ghost predicate Referred(items: seq<Item>, s: Stages, i: nat, j: nat)
    requires BuildOk(items, s.build) && |s.build.owner| == |items| && i < |items| && j < |items|
  {
    BuildBounds(items, s.build);
    Anc(s.build.l, s.build.owner[i], s.build.owner[j])
  }

  /** Some node, with or without a message, that has no parent is above both or is one of them. */
  ghost predicate SameThread(items: seq<Item>, s: Stages, i: nat, j: nat)
    requires BuildOk(items, s.build) && |s.build.owner| == |items| && i < |items| && j < |items|
  {
    BuildBounds(items, s.build);
    CommonRoot(s.build.l, s.build.owner[i], s.build.owner[j])
  }

  /** How each pass made its forest from the one before. */
  ghost predicate Passes(items: seq<Item>, flags: Flags, dates: bool, s: Stages) {
    && BuildOk(items, s.build) && EdgesOk(items, s.build) && Followed(items, s.build) && |s.build.owner| == |items|
    && Distinct(s.linked) && Msgs(s.linked) == AllMsgs(items, |items|)
    && (forall i: nat, j: nat :: i < |items| && j < |items| ==>
          (Above(s.linked, MsgOfItem(items, i), MsgOfItem(items, j)) <==> Referred(items, s, i, j)))
    && (forall i: nat, j: nat :: i < |items| && j < |items| ==>
          (Together(s.linked, MsgOfItem(items, i), MsgOfItem(items, j)) <==> SameThread(items, s, i, j)))
    && s.pruned == Prune(s.linked, true)
    && (if flags.subject then Regrouped(s.pruned, s.grouped, s.key) else s.grouped == s.pruned)
    && s.sorted == (if flags.sort then SortForest(s.grouped) else s.grouped)
    && s.final == Promote(s.sorted, !flags.sort && dates)
  }

  // ---------------------------------------------------------------- what follows

  lemma AllOrderly(items: seq<Item>)
    ensures Orderly(AllMsgs(items, |items|))
  {
    var all := AllMsgs(items, |items|);
    forall a | a in all ensures all[a] == 1 { AllMsgsAt(items, |items|, a); }
    forall a, b | a in all && b in all && a.order == b.order ensures a == b {
      AllMsgsAt(items, |items|, a);
      AllMsgsAt(items, |items|, b);
    }
  }

  lemma GroupedOk(items: seq<Item>, flags: Flags, dates: bool, s: Stages)
    requires Passes(items, flags, dates, s)
    ensures Distinct(s.grouped) && Pruned(s.grouped) && Msgs(s.grouped) == AllMsgs(items, |items|)
  {
    PruneDistinct(s.linked, true);
    PruneShape(s.linked, true);
    PruneKeepsMessages(s.linked, true);
  }

  lemma SortedOk(items: seq<Item>, flags: Flags, dates: bool, s: Stages)
    requires Passes(items, flags, dates, s)
    ensures Distinct(s.sorted) && Pruned(s.sorted) && Msgs(s.sorted) == AllMsgs(items, |items|)
  {
    hide Passes, Prune;
    GroupedOk(items, flags, dates, s);
    SortDistinct(s.grouped);
    SortShape(s.grouped);
    SortKeeps(s.grouped);
    SortedIs(items, flags, dates, s);
  }

  lemma SortedIs(items: seq<Item>, flags: Flags, dates: bool, s: Stages)
    requires Passes(items, flags, dates, s)
    ensures s.sorted == (if flags.sort then SortForest(s.grouped) else s.grouped)
    ensures s.final == Promote(s.sorted, !flags.sort && dates)
  {
  }

  /** The tree holds every message of the input in exactly one node, has no empty node, and no node
      occurs twice. */
  lemma EachMessageOnce(items: seq<Item>, flags: Flags, dates: bool, s: Stages)
    requires Passes(items, flags, dates, s)
    ensures Distinct(s.final) && Full(s.final)
    ensures forall m :: Msgs(s.final)[m] == if 1 <= m.order <= |items| && m.item == items[m.order - 1] then 1 else 0
  {
    hide Passes, Prune;
    SortedOk(items, flags, dates, s);
    SortedIs(items, flags, dates, s);
    var swap := !flags.sort && dates;
    PromoteNodes(s.sorted, swap);
    PromoteFull(s.sorted, swap);
    PromoteKeepsMessages(s.sorted, swap);
    forall m { AllMsgsAt(items, |items|, m); }
  }

  /** Regrouping and sorting keep the ancestors of the pruned forest, and pruning those of the graph. */
  lemma BeforePromotion(items: seq<Item>, flags: Flags, dates: bool, s: Stages, i: nat, j: nat)
    requires Passes(items, flags, dates, s) && i < |items| && j < |items| && Referred(items, s, i, j)
    ensures Above(s.sorted, MsgOfItem(items, i), MsgOfItem(items, j))
  {
    var a, d := MsgOfItem(items, i), MsgOfItem(items, j);
    assert Above(s.linked, a, d);
    PruneKeepsAncestors(s.linked, true, a, d);
    assert Above(s.grouped, a, d);
    SortKeepsAncestors(s.grouped, a, d);
  }

  /** When no swaps are made, as with the SORT flag, every message keeps all its ancestors. */
  lemma AncestorsKept(items: seq<Item>, flags: Flags, dates: bool, s: Stages, i: nat, j: nat)
    requires Passes(items, flags, dates, s) && i < |items| && j < |items| && Referred(items, s, i, j)
    requires flags.sort || !dates || Safe(s.sorted)
    ensures Above(s.final, MsgOfItem(items, i), MsgOfItem(items, j))
  {
    BeforePromotion(items, flags, dates, s, i, j);
    SafePromote(s.sorted, !flags.sort && dates, MsgOfItem(items, i), MsgOfItem(items, j));
  }

  /** Message `i` is filed under its id, and that is the first reference of message `j` to another node. */
  ghost predicate FirstReferred(items: seq<Item>, i: nat, j: nat)
    requires i < |items| && j < |items|
  {
    var refs, r := NonZero(items[j].references), FirstOther(items, j, 0);
    !Nameless(items, i) && r < |refs| && refs[r] == items[i].messageId
  }

  /** References are followed: a message comes below the one it refers to first, unless the lists of
      other messages lead back from that one to it; when the lists agree with some order of the ids it
      always does, and it stays there as far as ancestors are kept. */
  lemma ReferencesFollowed(items: seq<Item>, flags: Flags, dates: bool, s: Stages, i: nat, j: nat)
    requires Passes(items, flags, dates, s) && i < |items| && j < |items| && FirstReferred(items, i, j)
    ensures Referred(items, s, i, j) || Loop(items, s.build, s.build.owner[i], s.build.owner[j])
    ensures Loopless(items, s.build) ==>
      Referred(items, s, i, j) && Above(s.sorted, MsgOfItem(items, i), MsgOfItem(items, j))
    ensures Loopless(items, s.build) && (flags.sort || !dates || Safe(s.sorted)) ==>
      Above(s.final, MsgOfItem(items, i), MsgOfItem(items, j))
    ensures forall rank: nat -> nat :: Ascending(items, rank) ==> Loopless(items, s.build)
  {
    hide Prune, Regrouped, SortForest, Promote, BuildOk, EdgesOk, Followed, Loop, Loopless, Nameless, Anc, Ascending, NonZero, FirstOther;
    FirstReference(items, s.build, j);
    OwnerNamed(items, s.build, i);
    BuildBounds(items, s.build);
    BuildWellformed(items, s.build);
    ParentAnc(s.build.l, s.build.owner[i], s.build.owner[j]);
    if Loopless(items, s.build) {
      BeforePromotion(items, flags, dates, s, i, j);
      if flags.sort || !dates || Safe(s.sorted) { AncestorsKept(items, flags, dates, s, i, j); }
    }
    forall rank: nat -> nat | Ascending(items, rank) ensures Loopless(items, s.build) {
      AscendingLoopless(items, s.build, rank);
    }
  }

  lemma ParentAnc(l: Links, a: Node, d: Node)
    requires Wellformed(l) && d in l.par
    ensures l.par[d] == a ==> Anc(l, a, d)
  {
  }

  /** Two messages end under one root if the links, with the nodes of messages that are missing, have one
      root above them; without the SUBJECT flag only then, and with it only then or if they came under
      roots of one subject. */
  lemma OneThread(items: seq<Item>, flags: Flags, dates: bool, s: Stages, i: nat, j: nat)
    requires Passes(items, flags, dates, s) && i < |items| && j < |items|
    ensures var a, d := MsgOfItem(items, i), MsgOfItem(items, j);
      && (SameThread(items, s, i, j) ==> Together(s.final, a, d))
      && (Together(s.final, a, d) ==> SameThread(items, s, i, j) || (flags.subject && OneSubject(s.pruned, a, d)))
  {
    hide Together, Prune, SortForest, Promote, Distinct, CommonRoot, BuildOk, OneSubject, Regrouped;
    var a, d := MsgOfItem(items, i), MsgOfItem(items, j);
    GroupedOk(items, flags, dates, s);
    SortDistinct(s.grouped);
    PruneTogether(s.linked, a, d);
    if flags.subject {
      RegroupedTogether(s.pruned, s.grouped, s.key, a, d);
    }
    SortTogether(s.grouped, a, d);
    PromoteTogether(s.sorted, !flags.sort && dates, a, d);
  }

  lemma RegroupedTogether(f: Forest, w: Forest, key: map<Node, Key>, a: Msg, d: Msg)
    requires Regrouped(f, w, key)
    ensures Together(f, a, d) ==> Together(w, a, d)
    ensures Together(w, a, d) ==> Together(f, a, d) || OneSubject(f, a, d)
  {
    hide Together, OneSubject;
    if Together(w, a, d) { OnlyJoined(f, w, key, a, d); }
  }

  /** With the SORT flag the roots are in the order of their dates, then of the input, and so was every
      list of siblings before the last pass. */
  lemma RootsIncreasing(items: seq<Item>, flags: Flags, dates: bool, s: Stages)
    requires Passes(items, flags, dates, s) && flags.sort
    ensures Increasing(s.final) && Sorted(s.sorted)
    ensures RootsByDate(s.final) && AllByDate(s.sorted)
  {
    hide Passes, Prune, RootsByDate, KidsByDate, AllByDate;
    GroupedOk(items, flags, dates, s);
    SortedOk(items, flags, dates, s);
    SortedIs(items, flags, dates, s);
    AllOrderly(items);
    SortSorts(s.grouped);
    SortByDate(s.grouped);
    PromoteIncreasing(s.sorted);
    EachMessageOnce(items, flags, dates, s);
    FullPruned(s.final);
    IncreasingByDate(s.final);
  }

  // ---------------------------------------------------------------- the code

  class FolderThread {
    const items: seq<Item>
    const flags: Flags
    /** Both functions that tell the date of an item were given. */
    const dates: bool
    var tree: Node?

    constructor (items: seq<Item>, flags: Flags, dates: bool)
      ensures this.items == items && this.flags == flags && this.dates == dates && tree == null
    {
      this.items, this.flags, this.dates, tree := items, flags, dates, null;
    }

    /** thread_items. */
    method ThreadItems() returns (ghost s: Stages)
      requires DistinctItems(items)
      requires flags.sort ==> dates
      modifies this`tree
      ensures Passes(items, flags, dates, s)
      ensures Seg(tree, Is(null), s.final, null, false) && Distinct(s.final) && Full(s.final)
      ensures Msgs(s.final) == AllMsgs(items, |items|)
    {
      hide *;
      var ids, noIds;
      ghost var b, f, r, w, key;
      // link the messages by their references
      ids, noIds, b := LinkReferences(items);
      var head: Node?;
      // collect the nodes that have no parent
      head, f, r := CollectRoots(ids, noIds, items, b);
      forall i, j | 0 <= i < |items| && 0 <= j < |items|
        ensures Together(f, Msg(items[i], i + 1), Msg(items[j], j + 1)) <==> CommonRoot(b.l, b.owner[i], b.owner[j])
      {
        MessagesTogether(items, b, r, i, j);
      }
      // drop nodes without a message where that is possible
      head := PruneEmpty(head, null, f);
      ghost var p := Prune(f, true);
      PruneDistinct(f, true);
      PruneShape(f, true);
      PruneNodes(f, true);
      PruneKeepsMessages(f, true);
      // put roots of one subject together, if asked for
      w, key := p, map[];
      if flags.subject {
        head, w, key := GroupRootSet(head, p);
        RegroupedParts(p, w, key);
      } else {
        SegLoosen(head, Is(null), p, null);
      }
      ghost var t := w;
      AllOrderly(items);
      if flags.sort {
        head := SortThread(head, Is(null), w);
        t := SortForest(w);
        SortDistinct(w);
        SortShape(w);
        SortKeeps(w);
      }
      // replace the empty roots that are left
      head := RemovePhantoms(head, !flags.sort && dates, t);
      s := Stages(b, f, p, w, key, t, Promote(t, !flags.sort && dates));
      BuildWellformed(items, b);
      PassesFold(items, flags, dates, s);
      EachMessageOnce(items, flags, dates, s);
      PromoteKeepsMessages(t, !flags.sort && dates);
      tree := head;
    }
  }

  lemma RegroupedParts(p: Forest, w: Forest, key: map<Node, Key>)
    requires Regrouped(p, w, key)
    ensures Distinct(w) && Pruned(w) && Msgs(w) == Msgs(p)
  {
  }

  lemma {:induction false} PassesFold(items: seq<Item>, flags: Flags, dates: bool, s: Stages)
    requires BuildOk(items, s.build) && EdgesOk(items, s.build) && Followed(items, s.build) && |s.build.owner| == |items|
    requires Distinct(s.linked) && Msgs(s.linked) == AllMsgs(items, |items|)
    requires Wellformed(s.build.l) && forall k :: 0 <= k < |items| ==> s.build.owner[k] in s.build.l.par
    requires forall i, j :: 0 <= i < |items| && 0 <= j < |items| ==>
      (Above(s.linked, Msg(items[i], i + 1), Msg(items[j], j + 1)) <==> Anc(s.build.l, s.build.owner[i], s.build.owner[j]))
    requires forall i, j :: 0 <= i < |items| && 0 <= j < |items| ==>
      (Together(s.linked, Msg(items[i], i + 1), Msg(items[j], j + 1)) <==> CommonRoot(s.build.l, s.build.owner[i], s.build.owner[j]))
    requires s.pruned == Prune(s.linked, true)
    requires if flags.subject then Regrouped(s.pruned, s.grouped, s.key) else s.grouped == s.pruned
    requires s.sorted == (if flags.sort then SortForest(s.grouped) else s.grouped)
    requires s.final == Promote(s.sorted, !flags.sort && dates)
    ensures Passes(items, flags, dates, s)
  {
  }
}
