/** Regrouping tears no thread apart: messages under one root stay under one root.

    A round moves whole trees, so it is enough to follow the roots that two messages are under through
    each arm of the loop. */
module ThreadWhole {
  import opened Wrappers
  import opened ThreadForest
  import opened ThreadTops
  import opened ThreadMoves
  import opened ThreadRegroup
  import opened ThreadKeep

  /** The container of the subject of root `y` is one of its children. */
  ghost predicate Splits(s: Groups, y: Node)
    requires y in Tops(s.w)
  {
    y in s.key && s.key[y].subject.Some? && s.key[y].subject.value in s.table &&
    s.table[s.key[y].subject.value] in Tops(KidsAt(s.w, y))
  }

  /** Both messages are under root `y`, and will stay together: the container, which may be moved away, has
      both or none. */
  ghost predicate InOne(s: Groups, y: Node, a: Msg, d: Msg)
    requires y in Tops(s.w)
  {
    if Splits(s, y) then
      var k, e := KidsAt(s.w, y), s.table[s.key[y].subject.value];
      BothIn(TreeMsgs(k, e), a, d) || BothIn(Msgs(CutTop(k, e)), a, d)
    else BothIn(TreeMsgs(s.w, y), a, d)
  }

  ghost predicate Whole(s: Groups, a: Msg, d: Msg) {
    exists y :: y in Tops(s.w) && InOne(s, y, a, d)
  }

  lemma WholeAt(s: Groups, y: Node, a: Msg, d: Msg)
    requires y in Tops(s.w) && InOne(s, y, a, d)
    ensures Whole(s, a, d)
  {
  }

  lemma WholeTogether(s: Groups, a: Msg, d: Msg)
    requires Whole(s, a, d)
    ensures Together(s.w, a, d)
  {
    var y :| y in Tops(s.w) && InOne(s, y, a, d);
    if Splits(s, y) { CutMsgs(KidsAt(s.w, y), s.table[s.key[y].subject.value]); }
  }

  /** No child of a root is a root, or a child of another. */
  lemma KidApart(w: Forest, y: Node, e: Node)
    requires Distinct(w) && y in Tops(w) && e in Tops(KidsAt(w, y))
    ensures e !in Tops(w)
    ensures Adopted(w, e) ==> Holder(w, e) == y && MsgAt(w, y).None?
  {
    SplitDistinct(w, y);
    SplitTops(w, y);
    TopsNodes(Before(w, y));
    TopsNodes(After(w, y));
    TopsNodes(KidsAt(w, y));
    if Adopted(w, e) {
      HolderProps(w, e);
      var h := Holder(w, e);
      if h != y {
        SplitAt(w, y, h);
        if h in Tops(Before(w, y)) { KidIn(Before(w, y), h, e); } else { KidIn(After(w, y), h, e); }
      }
    }
  }

  lemma KidIn(w: Forest, h: Node, e: Node)
    requires h in Tops(w) && e in Tops(KidsAt(w, h))
    ensures e in Nodes(w)
  {
    TopsNodes(w.kids);
  }

  /** Where the container is a child, it is lodged there. */
  lemma SplitsHolder(s: Groups, y: Node)
    requires Tables(s) && y in Tops(s.w) && Splits(s, y)
    ensures var e := s.table[s.key[y].subject.value];
      e !in Tops(s.w) && Adopted(s.w, e) && Holder(s.w, e) == y && MsgAt(s.w, y).None?
  {
    hide Distinct, Tops, Adopted, KidsAt, MsgAt, Nodes;
    var e := s.table[s.key[y].subject.value];
    KidApart(s.w, y, e);
    assert Placed(s.w, e);
  }

  lemma HolderSplits(s: Groups, c: Node, e: Node)
    requires Tables(s) && Match(s, c, e) && e !in Tops(s.w)
    ensures Adopted(s.w, e)
    ensures var h := Holder(s.w, e);
      && h in Tops(s.w) && h != c && h != e && h in s.key && s.key[h].subject == s.key[c].subject
      && MsgAt(s.w, h).None? && e in Tops(KidsAt(s.w, h)) && Splits(s, h)
  {
    hide Distinct, Tops, Adopted, KidsAt, MsgAt, Nodes;
    MatchProps(s, c, e);
    HolderProps(s.w, e);
  }

  lemma NotSplit(s: Groups, c: Node, e: Node, y: Node)
    requires Tables(s) && Match(s, c, e) && y in Tops(s.w) && (y == c || y == e)
    ensures !Splits(s, y)
  {
    hide Distinct, Tops, Adopted, KidsAt, MsgAt, Nodes;
    MatchProps(s, c, e);
    if Splits(s, y) { SplitsHolder(s, y); }
  }

  /** A root that looks the same after a move. */
  lemma SameOne(s: Groups, s': Groups, y: Node, a: Msg, d: Msg)
    requires y in Tops(s.w) && y in Tops(s'.w) && InOne(s, y, a, d)
    requires MsgAt(s'.w, y) == MsgAt(s.w, y) && KidsAt(s'.w, y) == KidsAt(s.w, y) && (Splits(s', y) <==> Splits(s, y))
    requires y in s.key && y in s'.key && s'.key[y] == s.key[y]
    requires Splits(s, y) ==> s'.table[s.key[y].subject.value] == s.table[s.key[y].subject.value]
    ensures Whole(s', a, d)
  {
    WholeAt(s', y, a, d);
  }

  // ---------------------------------------------------------------- merging

  /** The holder of the container, once `c` went into that. */
  lemma MergeHolder(s: Groups, c: Node, e: Node)
    requires Tables(s) && Match(s, c, e) && MayMerge(s, c, e) && e !in Tops(s.w)
    ensures Adopted(s.w, e)
    ensures var h, k, w' := Holder(s.w, e), KidsWith(s, c, e), Merge(s, c, e).w;
      && h in Tops(s.w) && h in Tops(w') && e in Tops(KidsAt(s.w, h)) && h != c
      && KidsAt(w', h) == WithKids(KidsAt(s.w, h), e, k) && Distinct(KidsAt(s.w, h))
  {
    hide Nodes, Distinct, Tops, Adopted, WithKids, MsgAt, Msgs, Append, KidsWith, Tables;
    HolderSplits(s, c, e);
    MatchProps(s, c, e);
    TablesDistinct(s);
    DetachNodes(s.w, c);
    DetachPlaced(s.w, c, e);
    DetachAt(s.w, c, Holder(s.w, e));
    SetKidsAt(Detach(s.w, c), e, KidsWith(s, c, e), Holder(s.w, e));
    SplitDistinct(s.w, Holder(s.w, e));
  }

  lemma TablesDistinct(s: Groups)
    requires Tables(s)
    ensures Distinct(s.w) && Tops(s.w) <= s.key.Keys
  {
  }

  lemma WithKidsCut(k: Forest, e: Node, g: Forest)
    requires e in Tops(k) && Distinct(k)
    ensures var h := WithKids(k, e, g); e in Tops(h) && CutTop(h, e) == CutTop(k, e) && TreeMsgs(h, e) == MsgOf(MsgAt(k, e)) + Msgs(g)
  {
    WithKidsParts(k, e, g);
  }

  /** What was under `c` is under the container, or with it under its holder. */
  lemma MergeOne(s: Groups, c: Node, e: Node, a: Msg, d: Msg)
    requires Tables(s) && Match(s, c, e) && MayMerge(s, c, e) && Tables(Merge(s, c, e)) && InOne(s, c, a, d)
    ensures Whole(Merge(s, c, e), a, d)
  {
    hide Nodes, Distinct, Tops, Adopted, WithKids, MsgAt, KidsAt, Msgs, Append, KidsWith, Tables, Detach, SetKids, CutTop;
    var s' := Merge(s, c, e);
    NotSplit(s, c, e, c);
    MatchProps(s, c, e);
    TablesDistinct(s);
    if e in Tops(s.w) {
      MergeAt(s, c, e, e);
      EntrySplit(s', e);
      WholeAt(s', e, a, d);
    } else {
      HolderSplits(s, c, e);
      MergeHolder(s, c, e);
      var h := Holder(s.w, e);
      WithKidsCut(KidsAt(s.w, h), e, KidsWith(s, c, e));
      KidsWithMsgs(s, c, e);
      WholeAt(s', h, a, d);
    }
  }

  lemma EntrySplit(s: Groups, e: Node)
    requires Tables(s) && e in Tops(s.w) && e in s.key && s.key[e].subject.Some?
    requires s.key[e].subject.value in s.table && s.table[s.key[e].subject.value] == e
    ensures !Splits(s, e)
  {
    hide Distinct, Tops, Adopted, KidsAt, MsgAt, Nodes;
    if Splits(s, e) { SplitsHolder(s, e); }
  }

  lemma KidsWithMsgs(s: Groups, c: Node, e: Node)
    requires Distinct(s.w) && c in Tops(s.w) && Placed(s.w, e)
    ensures MsgAt(s.w, c).None? ==> Msgs(KidsWith(s, c, e)) == Msgs(TreeKids(s.w, e)) + TreeMsgs(s.w, c)
    ensures MsgAt(s.w, c).Some? ==> Msgs(KidsWith(s, c, e)) == TreeMsgs(s.w, c) + Msgs(TreeKids(s.w, e))
  {
    AppendMsgs(TreeKids(s.w, e), KidsAt(s.w, c));
  }

  /** What was under another root still is. */
  lemma MergeStays(s: Groups, c: Node, e: Node, y: Node, a: Msg, d: Msg)
    requires Tables(s) && Match(s, c, e) && MayMerge(s, c, e) && Tables(Merge(s, c, e))
    requires y in Tops(s.w) && y != c && InOne(s, y, a, d)
    ensures Whole(Merge(s, c, e), a, d)
  {
    hide Nodes, Distinct, Tops, Adopted, WithKids, MsgAt, KidsAt, Msgs, Append, KidsWith, Tables, Detach, SetKids, CutTop;
    var s' := Merge(s, c, e);
    MatchProps(s, c, e);
    TablesDistinct(s);
    MergeAt(s, c, e, y);
    if y == e {
      NotSplit(s, c, e, e);
      EntrySplit(s', e);
      WholeAt(s', e, a, d);
    } else if e !in Tops(s.w) && y == Holder(s.w, e) {
      HolderSplits(s, c, e);
      MergeHolder(s, c, e);
      WithKidsCut(KidsAt(s.w, y), e, KidsWith(s, c, e));
      KidsWithMsgs(s, c, e);
      HolderTree(s.w, e);
      WholeAt(s', y, a, d);
    } else {
      SameOne(s, s', y, a, d);
    }
  }

  lemma HolderTree(w: Forest, e: Node)
    requires Distinct(w) && Adopted(w, e)
    ensures e !in Tops(w) && Placed(w, e)
    ensures var h := Holder(w, e);
      && h in Tops(w) && e in Tops(KidsAt(w, h)) && TreeKids(w, e) == KidsAt(KidsAt(w, h), e) && TreeMsg(w, e) == MsgAt(KidsAt(w, h), e)
  {
    HolderProps(w, e);
  }

  lemma MergeWhole(s: Groups, c: Node, e: Node, a: Msg, d: Msg)
    requires Tables(s) && Match(s, c, e) && MayMerge(s, c, e) && Tables(Merge(s, c, e)) && Whole(s, a, d)
    ensures Whole(Merge(s, c, e), a, d)
  {
    hide InOne, Tables, Merge, Match, MayMerge;
    var y :| y in Tops(s.w) && InOne(s, y, a, d);
    if y == c { MergeOne(s, c, e, a, d); } else { MergeStays(s, c, e, y, a, d); }
  }

  // ---------------------------------------------------------------- adopting

  /** The root that loses the container. */
  lemma DetachKids(s: Groups, c: Node, e: Node)
    requires Tables(s) && Match(s, c, e) && e !in Tops(s.w)
    ensures Adopted(s.w, e) && Placed(s.w, e) && Distinct(Detach(s.w, e))
    ensures var h, w := Holder(s.w, e), Detach(s.w, e);
      && h in Tops(s.w) && h in Tops(w) && h != c && e in Tops(KidsAt(s.w, h))
      && KidsAt(w, h) == CutTop(KidsAt(s.w, h), e) && e !in Tops(KidsAt(w, h)) && MsgAt(w, h) == None
  {
    hide Nodes, Distinct, Tops, Adopted, WithKids, MsgAt, Msgs, Append, Tables, CutTop;
    HolderSplits(s, c, e);
    MatchProps(s, c, e);
    TablesDistinct(s);
    DetachNodes(s.w, e);
    DetachAt(s.w, e, Holder(s.w, e));
    SplitDistinct(s.w, Holder(s.w, e));
    CutProps(KidsAt(s.w, Holder(s.w, e)), e);
  }

  lemma AdoptKids(s: Groups, c: Node, e: Node)
    requires Tables(s) && Match(s, c, e) && MsgAt(s.w, c).None? && TreeMsg(s.w, e).Some?
    ensures var w' := Adopt(s, c, e).w;
      && c in Tops(w') && KidsAt(w', c) == Cons(e, TreeMsg(s.w, e), TreeKids(s.w, e), KidsAt(s.w, c))
      && e in Tops(KidsAt(w', c)) && TreeMsgs(KidsAt(w', c), e) == MsgOf(TreeMsg(s.w, e)) + Msgs(TreeKids(s.w, e))
      && CutTop(KidsAt(w', c), e) == KidsAt(s.w, c)
  {
    hide Nodes, Distinct, Tops, Adopted, WithKids, MsgAt, Msgs, Append, Tables, Detach, SetKids, CutTop;
    AdoptForest(s, c, e);
    MatchProps(s, c, e);
    HeadCut(KidsAt(Adopt(s, c, e).w, c));
  }

  lemma HeadCut(f: Forest)
    requires f.Cons?
    ensures f.node in Tops(f) && CutTop(f, f.node) == f.rest && TreeMsgs(f, f.node) == MsgOf(f.msg) + Msgs(f.kids)
  {
  }

  /** The old holder has lost the container. */
  lemma AdoptHolder(s: Groups, c: Node, e: Node)
    requires Tables(s) && Match(s, c, e) && MsgAt(s.w, c).None? && TreeMsg(s.w, e).Some? && e !in Tops(s.w)
    ensures Adopted(s.w, e)
    ensures var h, w' := Holder(s.w, e), Adopt(s, c, e).w;
      && h in Tops(s.w) && h in Tops(w') && e in Tops(KidsAt(s.w, h)) && MsgAt(w', h) == None
      && KidsAt(w', h) == CutTop(KidsAt(s.w, h), e) && e !in Tops(CutTop(KidsAt(s.w, h), e))
  {
    hide Nodes, Distinct, Tops, Adopted, WithKids, MsgAt, Msgs, Append, Tables, Detach, SetKids;
    MatchProps(s, c, e);
    TablesDistinct(s);
    DetachKids(s, c, e);
    DetachNodes(s.w, e);
    SetKidsAt(Detach(s.w, e), c, Cons(e, TreeMsg(s.w, e), TreeKids(s.w, e), KidsAt(Detach(s.w, e), c)), Holder(s.w, e));
  }

  lemma AdoptWhole(s: Groups, c: Node, e: Node, a: Msg, d: Msg)
    requires Tables(s) && Match(s, c, e) && MsgAt(s.w, c).None? && TreeMsg(s.w, e).Some? && Tables(Adopt(s, c, e))
    requires Whole(s, a, d)
    ensures Whole(Adopt(s, c, e), a, d)
  {
    hide Nodes, Distinct, Tops, Adopted, WithKids, MsgAt, KidsAt, Msgs, Append, Tables, Detach, SetKids, CutTop;
    var s' := Adopt(s, c, e);
    var y :| y in Tops(s.w) && InOne(s, y, a, d);
    MatchProps(s, c, e);
    TablesDistinct(s);
    TablesDistinct(s');
    AdoptKids(s, c, e);
    if y == c {
      NotSplit(s, c, e, c);
      NilParts();
      WholeAt(s', c, a, d);
    } else if y == e {
      NotSplit(s, c, e, e);
      TopTree(s.w, e);
      WholeAt(s', c, a, d);
    } else if e !in Tops(s.w) && y == Holder(s.w, e) {
      HolderSplits(s, c, e);
      HolderTree(s.w, e);
      AdoptHolder(s, c, e);
      NilParts();
      if BothIn(TreeMsgs(KidsAt(s.w, y), e), a, d) { WholeAt(s', c, a, d); } else { WholeAt(s', y, a, d); }
    } else {
      AdoptAt(s, c, e, y);
      SameOne(s, s', y, a, d);
    }
  }

  lemma TopTree(w: Forest, e: Node)
    requires Distinct(w) && e in Tops(w)
    ensures TreeMsgs(w, e) == MsgOf(TreeMsg(w, e)) + Msgs(TreeKids(w, e))
  {
  }

  // ---------------------------------------------------------------- pairing

  lemma PairHolder(s: Groups, c: Node, e: Node, scan: Node)
    requires Tables(s) && Match(s, c, e) && MayPair(s, c, e, scan) && e !in Tops(s.w)
    ensures Adopted(s.w, e)
    ensures var h, w' := Holder(s.w, e), Pair(s, c, e, scan).w;
      && h in Tops(s.w) && h in Tops(w') && e in Tops(KidsAt(s.w, h)) && MsgAt(w', h) == None
      && KidsAt(w', h) == CutTop(KidsAt(s.w, h), e) && scan !in Tops(KidsAt(w', h))
  {
    hide Nodes, Distinct, Tops, Adopted, WithKids, MsgAt, Msgs, Append, Tables, Detach, CutTop;
    MatchProps(s, c, e);
    TablesDistinct(s);
    PairForest(s, c, e, scan);
    DetachKids(s, c, e);
    var h := Holder(s.w, e);
    ReplaceAt(Detach(s.w, e), c, scan, None, PairKids(s, c, e), h);
    SplitDistinct(Detach(s.w, e), h);
    TopsNodes(KidsAt(Detach(s.w, e), h));
  }

  lemma PairWhole(s: Groups, c: Node, e: Node, scan: Node, a: Msg, d: Msg)
    requires Tables(s) && Match(s, c, e) && MayPair(s, c, e, scan) && Tables(Pair(s, c, e, scan)) && Whole(s, a, d)
    ensures Whole(Pair(s, c, e, scan), a, d)
  {
    hide Nodes, Distinct, Tops, Adopted, WithKids, MsgAt, KidsAt, Msgs, Append, Tables, Detach, Replace, CutTop, PairKids;
    var s' := Pair(s, c, e, scan);
    var y :| y in Tops(s.w) && InOne(s, y, a, d);
    MatchProps(s, c, e);
    TablesDistinct(s);
    TablesDistinct(s');
    PairScan(s, c, e, scan);
    EntrySplit(s', scan);
    if y == c {
      NotSplit(s, c, e, c);
      WholeAt(s', scan, a, d);
    } else if y == e {
      NotSplit(s, c, e, e);
      TopTree(s.w, e);
      WholeAt(s', scan, a, d);
    } else if e !in Tops(s.w) && y == Holder(s.w, e) {
      HolderSplits(s, c, e);
      HolderTree(s.w, e);
      PairHolder(s, c, e, scan);
      NilParts();
      if BothIn(TreeMsgs(KidsAt(s.w, y), e), a, d) { WholeAt(s', scan, a, d); } else { WholeAt(s', y, a, d); }
    } else {
      PairAt(s, c, e, scan, y);
      PairElsewhere(s, c, e, scan, y);
      SameOne(s, s', y, a, d);
    }
  }

  lemma PairElsewhere(s: Groups, c: Node, e: Node, scan: Node, y: Node)
    requires Tables(s) && Match(s, c, e) && MayPair(s, c, e, scan)
    requires y in Tops(s.w) && y != c && y != e && (e in Tops(s.w) || y != Holder(s.w, e))
    requires y in Tops(Pair(s, c, e, scan).w) && KidsAt(Pair(s, c, e, scan).w, y) == KidsAt(s.w, y)
    ensures y in s.key && y != scan
    ensures Splits(Pair(s, c, e, scan), y) <==> Splits(s, y)
    ensures Splits(s, y) ==> s.key[y].subject != s.key[c].subject
  {
    hide Nodes, Distinct, Tops, Adopted, MsgAt, KidsAt, Detach, Replace, PairKids, Tables;
    MatchProps(s, c, e);
    TablesDistinct(s);
    SplitDistinct(s.w, y);
    TopsNodes(s.w);
    TopsNodes(KidsAt(s.w, y));
    if Splits(s, y) { SplitsHolder(s, y); }
  }

  // ---------------------------------------------------------------- the whole loop

  /** All that was together is, and will be. */
  ghost predicate AllWhole(f: Forest, s: Groups) {
    forall a, d :: Together(f, a, d) ==> Whole(s, a, d)
  }

  lemma StartWhole(f: Forest, s: Groups)
    requires Tables(s) && s.w == f && s.table.Values <= Tops(f)
    ensures AllWhole(f, s)
  {
    forall a, d | Together(f, a, d) ensures Whole(s, a, d) {
      var y :| y in Tops(f) && a in TreeMsgs(f, y) && d in TreeMsgs(f, y);
      if Splits(s, y) { KidApart(f, y, s.table[s.key[y].subject.value]); }
      WholeAt(s, y, a, d);
    }
  }

  lemma PassWhole(f: Forest, s: Groups, c: Node)
    requires AllWhole(f, s)
    ensures AllWhole(f, Pass(s, c))
  {
    forall a, d | Together(f, a, d) ensures Whole(Pass(s, c), a, d) {
      var y :| y in Tops(s.w) && InOne(s, y, a, d);
      WholeAt(Pass(s, c), y, a, d);
    }
  }

  lemma AllMerge(f: Forest, s: Groups, c: Node, e: Node)
    requires Tables(s) && Match(s, c, e) && MayMerge(s, c, e) && Tables(Merge(s, c, e)) && AllWhole(f, s)
    ensures AllWhole(f, Merge(s, c, e))
  {
    hide Whole, Together, Merge, Tables, Match, MayMerge;
    forall a, d | Together(f, a, d) ensures Whole(Merge(s, c, e), a, d) { MergeWhole(s, c, e, a, d); }
  }

  lemma AllAdopt(f: Forest, s: Groups, c: Node, e: Node)
    requires Tables(s) && Match(s, c, e) && MsgAt(s.w, c).None? && Placed(s.w, e) && TreeMsg(s.w, e).Some?
    requires Tables(Adopt(s, c, e)) && AllWhole(f, s)
    ensures AllWhole(f, Adopt(s, c, e))
  {
    hide Whole, Together, Adopt, Tables, Match;
    forall a, d | Together(f, a, d) ensures Whole(Adopt(s, c, e), a, d) { AdoptWhole(s, c, e, a, d); }
  }

  lemma AllPair(f: Forest, s: Groups, c: Node, e: Node, scan: Node)
    requires Tables(s) && Match(s, c, e) && MayPair(s, c, e, scan) && Tables(Pair(s, c, e, scan)) && AllWhole(f, s)
    ensures AllWhole(f, Pair(s, c, e, scan))
  {
    hide Whole, Together, Pair, Tables, Match, MayPair;
    forall a, d | Together(f, a, d) ensures Whole(Pair(s, c, e, scan), a, d) { PairWhole(s, c, e, scan, a, d); }
  }

  /** In the end. */
  lemma EndWhole(f: Forest, s: Groups)
    requires AllWhole(f, s)
    ensures forall a, d :: Together(f, a, d) ==> Together(s.w, a, d)
  {
    hide Whole, Together;
    forall a, d | Together(f, a, d) ensures Together(s.w, a, d) { WholeTogether(s, a, d); }
  }
}
