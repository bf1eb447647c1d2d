/** Every move of group_root_set keeps the invariant. */
module ThreadKeep {
  import opened Wrappers
  import opened ThreadForest
  import opened ThreadTops
  import opened ThreadMoves
  import opened ThreadRegroup

  lemma PassKeeps(f: Forest, s: Groups, c: Node)
    requires Inv(f, s) && c in Tops(s.w) && c !in s.seen
    requires s.key[c].subject.None? || Entry(s, c)
    ensures Inv(f, Pass(s, c))
  {
    var s' := Pass(s, c);
    assert Tables(s') by {
      forall t | t in s'.table
        ensures var e := s'.table[t]; Placed(s'.w, e) && e in s'.key && s'.key[e].subject == Some(t) && Lodged(s', e)
      {
        assert Lodged(s, s.table[t]);
      }
    }
    assert NoReplyAbove(s');
    assert Kept(f, s'.w);
    assert Sound(f, s');
    assert Complete(s');
  }

  /** Containers of different subjects hang under different roots. */
  lemma HoldersDiffer(s: Groups, t: string, u: string)
    requires Tables(s) && t in s.table && u in s.table && t != u
    requires s.table[t] !in Tops(s.w) && s.table[u] !in Tops(s.w)
    ensures s.table[t] != s.table[u] && Holder(s.w, s.table[t]) != Holder(s.w, s.table[u])
  {
    assert Lodged(s, s.table[t]) && Lodged(s, s.table[u]);
  }

  // ---------------------------------------------------------------- adopting

  lemma AdoptForest(s: Groups, c: Node, e: Node)
    requires Tables(s) && Match(s, c, e) && MsgAt(s.w, c).None? && TreeMsg(s.w, e).Some?
    ensures var s' := Adopt(s, c, e); var w' := s'.w;
      && Distinct(w') && Pruned(w') && Tops(w') == Tops(s.w) - {e} && Nodes(w') == Nodes(s.w)
      && c in Tops(w') && MsgAt(w', c) == None
      && KidsAt(w', c) == Cons(e, TreeMsg(s.w, e), TreeKids(s.w, e), KidsAt(s.w, c))
      && Length(KidsAt(w', c)) >= 3 && Adopted(w', e) && Holder(w', e) == c && e !in Tops(w')
      && TreeMsg(w', e) == TreeMsg(s.w, e)
  {
    hide Nodes, Distinct, Tops, Adopted, WithKids, MsgAt, Msgs;
    MatchProps(s, c, e);
    DetachNodes(s.w, e);
    var w := Detach(s.w, e);
    var k := Cons(e, TreeMsg(s.w, e), TreeKids(s.w, e), KidsAt(w, c));
    DetachShape(s.w, e);
    DetachAt(s.w, e, c);
    SplitDistinct(w, c);
    CutShape(w, c);
    ConsNodes(e, TreeMsg(s.w, e), TreeKids(s.w, e), KidsAt(w, c));
    SetKidsNodes(w, c, k);
    SetKidsShape(w, c, k);
    SetKidsAt(w, c, k, c);
    HolderUnique(SetKids(w, c, k), e, c);
    MsgAtHead(k);
  }

  lemma ConsNodes(n: Node, m: Option<Msg>, kids: Forest, rest: Forest)
    ensures Nodes(Cons(n, m, kids, rest)) == {n} + Nodes(kids) + Nodes(rest)
    ensures Tops(Cons(n, m, kids, rest)) == {n} + Tops(rest)
    ensures Distinct(Cons(n, m, kids, rest)) <==>
      n !in Nodes(kids) && n !in Nodes(rest) && Nodes(kids) !! Nodes(rest) && Distinct(kids) && Distinct(rest)
  {
  }

  lemma MsgAtHead(f: Forest)
    requires f.Cons?
    ensures f.node in Tops(f) && MsgAt(f, f.node) == f.msg && KidsAt(f, f.node) == f.kids
  {
  }

  lemma AdoptTables(s: Groups, c: Node, e: Node)
    requires Tables(s) && Match(s, c, e) && MsgAt(s.w, c).None? && TreeMsg(s.w, e).Some?
    ensures Tables(Adopt(s, c, e))
  {
    hide Nodes, Distinct, Tops, Adopted, WithKids, MsgAt, Msgs;
    AdoptForest(s, c, e);
    MatchProps(s, c, e);
    var s' := Adopt(s, c, e);
    forall t | t in s'.table
      ensures var x := s'.table[t]; Placed(s'.w, x) && x in s'.key && s'.key[x].subject == Some(t) && Lodged(s', x)
    {
      var x := s.table[t];
      if x != e {
        AdoptOther(s, c, e, t);
      }
    }
  }

  lemma AdoptOther(s: Groups, c: Node, e: Node, t: string)
    requires Tables(s) && Match(s, c, e) && MsgAt(s.w, c).None? && TreeMsg(s.w, e).Some?
    requires t in s.table && s.table[t] != e
    ensures var s', x := Adopt(s, c, e), s.table[t];
      && Distinct(s'.w) && Placed(s'.w, x) && Lodged(s', x)
      && (x !in Tops(s'.w) ==> x !in Tops(s.w) && Holder(s'.w, x) == Holder(s.w, x))
      && TreeMsg(s'.w, x) == TreeMsg(s.w, x) && (x in Tops(s'.w) <==> x in Tops(s.w))
  {
    hide Nodes, Distinct, Tops, Adopted, WithKids, MsgAt, Msgs;
    AdoptForest(s, c, e);
    MatchProps(s, c, e);
    var x := s.table[t];
    assert Lodged(s, x);
    DetachNodes(s.w, e);
    var w := Detach(s.w, e);
    var k := Cons(e, TreeMsg(s.w, e), TreeKids(s.w, e), KidsAt(w, c));
    if x !in Tops(s.w) { HolderProps(s.w, x); }
    DetachPlaced(s.w, e, x);
    DetachAt(s.w, e, c);
    SplitDistinct(w, c);
    ConsNodes(e, TreeMsg(s.w, e), TreeKids(s.w, e), KidsAt(w, c));
    SetKidsPlaced(w, c, k, x);
    if x !in Tops(s.w) && e !in Tops(s.w) {
      HoldersDiffer(s, t, s.key[e].subject.value);
    }
  }

  /** The messages of a container come from roots of its subject. */
  lemma {:induction false} EntryFrom(f: Forest, s: Groups, e: Node, d: Msg)
    requires Tables(s) && Sound(f, s) && Entry(s, e) && Placed(s.w, e)
    requires d in MsgOf(TreeMsg(s.w, e)) + Msgs(TreeKids(s.w, e))
    ensures From(f, d, s.key[e].subject)
  {
    hide Nodes, Distinct, Tops, Adopted, MsgAt, Msgs, From;
    var t := s.key[e].subject.value;
    assert Lodged(s, s.table[t]);
    if e in Tops(s.w) {
      assert d in TreeMsgs(s.w, e);
    } else {
      HolderProps(s.w, e);
      var h := Holder(s.w, e);
      CutMsgs(KidsAt(s.w, h), e);
      assert d in TreeMsgs(s.w, h);
    }
  }

  lemma AdoptAt(s: Groups, c: Node, e: Node, x: Node)
    requires Tables(s) && Match(s, c, e) && MsgAt(s.w, c).None? && TreeMsg(s.w, e).Some?
    requires x in Tops(s.w) && x != e && x != c
    ensures var w' := Adopt(s, c, e).w;
      && x in Tops(w') && MsgAt(w', x) == MsgAt(s.w, x) && TreeMsgs(w', x) <= TreeMsgs(s.w, x)
      && (e in Tops(s.w) || x != Holder(s.w, e) ==> KidsAt(w', x) == KidsAt(s.w, x))
  {
    hide Nodes, Distinct, Tops, Adopted, WithKids, MsgAt, Msgs;
    MatchProps(s, c, e);
    DetachNodes(s.w, e);
    var w := Detach(s.w, e);
    DetachAt(s.w, e, x);
    SetKidsAt(w, c, Cons(e, TreeMsg(s.w, e), TreeKids(s.w, e), KidsAt(w, c)), x);
  }

  lemma AdoptAbove(s: Groups, c: Node, e: Node, a: Msg, d: Msg)
    requires Tables(s) && Match(s, c, e) && MsgAt(s.w, c).None? && TreeMsg(s.w, e).Some?
    ensures Above(Adopt(s, c, e).w, a, d) <==> Above(s.w, a, d)
  {
    hide Nodes, Distinct, Tops, Adopted, WithKids, Msgs;
    MatchProps(s, c, e);
    DetachNodes(s.w, e);
    DetachAt(s.w, e, c);
    var w := Detach(s.w, e);
    DetachAbove(s.w, e, a, d);
    DetachAbove(w, c, a, d);
    SetKidsAbove(w, c, Cons(e, TreeMsg(s.w, e), TreeKids(s.w, e), KidsAt(w, c)), a, d);
  }

  lemma AdoptMsgs(s: Groups, c: Node, e: Node)
    requires Tables(s) && Match(s, c, e) && MsgAt(s.w, c).None? && TreeMsg(s.w, e).Some?
    ensures Msgs(Adopt(s, c, e).w) == Msgs(s.w)
  {
    hide Nodes, Distinct, Tops, Adopted, WithKids;
    MatchProps(s, c, e);
    DetachNodes(s.w, e);
    DetachAt(s.w, e, c);
    var w := Detach(s.w, e);
    DetachMsgs(s.w, e);
    DetachMsgs(w, c);
    SetKidsMsgs(w, c, Cons(e, TreeMsg(s.w, e), TreeKids(s.w, e), KidsAt(w, c)));
  }

  lemma AdoptSound(f: Forest, s: Groups, c: Node, e: Node)
    requires Tables(s) && Match(s, c, e) && MsgAt(s.w, c).None? && TreeMsg(s.w, e).Some?
    requires Sound(f, s)
    ensures Tables(Adopt(s, c, e)) && Sound(f, Adopt(s, c, e))
  {
    hide Nodes, Distinct, Tops, Adopted, WithKids, MsgAt, Msgs, From, NewPair, Above;
    AdoptTables(s, c, e);
    AdoptForest(s, c, e);
    MatchProps(s, c, e);
    var s' := Adopt(s, c, e);
    forall x | x in Tops(s'.w) && (s'.key[x].subject.None? || (x !in s'.seen && !Entry(s', x)))
      ensures Untouched(f, s', x)
    {
      AdoptAt(s, c, e, x);
      assert Untouched(f, s, x);
    }
    forall t | t in s'.table && TreeMsg(s'.w, s'.table[t]).Some?
      ensures var x := s'.table[t]; x in Tops(f) && MsgAt(f, x) == TreeMsg(s'.w, x) && KeyAt(f, x) == s'.key[x]
    {
      if s.table[t] != e { AdoptOther(s, c, e, t); }
    }
    forall x, d | x in Tops(s'.w) && d in TreeMsgs(s'.w, x)
      ensures From(f, d, s'.key[x].subject)
    {
      if x != c {
        AdoptAt(s, c, e, x);
      } else {
        MsgsCons(e, TreeMsg(s.w, e), TreeKids(s.w, e), KidsAt(s.w, c));
        if d in TreeMsgs(s.w, c) {
        } else {
          EntryFrom(f, s, e, d);
        }
      }
    }
    forall a, d | Above(s'.w, a, d) ensures Above(f, a, d) || NewPair(f, a, d) {
      AdoptAbove(s, c, e, a, d);
    }
  }

  lemma AdoptKeeps(f: Forest, s: Groups, c: Node, e: Node)
    requires Inv(f, s) && Match(s, c, e) && MsgAt(s.w, c).None? && TreeMsg(s.w, e).Some?
    ensures Inv(f, Adopt(s, c, e))
  {
    hide Nodes, Distinct, Tops, Adopted, WithKids, MsgAt, Msgs, From, NewPair, Above;
    AdoptTables(s, c, e);
    AdoptForest(s, c, e);
    AdoptSound(f, s, c, e);
    AdoptMsgs(s, c, e);
    MatchProps(s, c, e);
    var s' := Adopt(s, c, e);
    forall a, d | Above(f, a, d) ensures Above(s'.w, a, d) {
      AdoptAbove(s, c, e, a, d);
    }
    forall x | x in Tops(s'.w) && x !in s'.seen && s'.key[x].subject.Some? && !s'.key[x].re && MsgAt(s'.w, x).Some?
      ensures var y := s'.table[s'.key[x].subject.value]; TreeMsg(s'.w, y).None? || !s'.key[y].re
    {
      AdoptAt(s, c, e, x);
      var t := s.key[x].subject.value;
      if s.table[t] != e { AdoptOther(s, c, e, t); }
    }
    forall x | x in s'.seen && s'.key[x].subject.Some?
      ensures var y := s'.table[s'.key[x].subject.value];
        y == x || (MsgAt(s'.w, x).None? && (TreeMsg(s'.w, y).None? || y !in Tops(s'.w)))
    {
      var t := s.key[x].subject.value;
      if x != c {
        AdoptAt(s, c, e, x);
        if s.table[t] != e { AdoptOther(s, c, e, t); }
      }
    }
  }

  // ---------------------------------------------------------------- merging into the container

  /** When `c` goes into `e`: an empty `c` into an empty `e`, a message into an empty `e`, or a
      reply under a message that is none. */
  ghost predicate MayMerge(s: Groups, c: Node, e: Node)
    requires Tables(s) && Match(s, c, e)
  {
    MatchProps(s, c, e);
    if MsgAt(s.w, c).None? then TreeMsg(s.w, e).None?
    else TreeMsg(s.w, e).None? || (s.key[c].re && !s.key[e].re)
  }

  lemma MergeForest(s: Groups, c: Node, e: Node)
    requires Tables(s) && Match(s, c, e) && MayMerge(s, c, e)
    ensures var w', k := Merge(s, c, e).w, KidsWith(s, c, e);
      && Distinct(w') && Pruned(w') && Tops(w') == Tops(s.w) - {c} && Nodes(w') <= Nodes(s.w)
      && Distinct(k) && Nodes(k) !! Nodes(Detach(s.w, c)) - Nodes(TreeKids(s.w, e))
  {
    MatchProps(s, c, e);
    var w, k := Detach(s.w, c), KidsWith(s, c, e);
    DetachNodes(s.w, c);
    DetachShape(s.w, c);
    DetachPlaced(s.w, c, e);
    DetachNodes(w, e);
    if e !in Tops(s.w) { HolderProps(s.w, e); }
    DetachShape(w, e);
    AppendNodes(TreeKids(s.w, e), KidsAt(s.w, c));
    AppendDistinct(TreeKids(s.w, e), KidsAt(s.w, c));
    AppendShape(TreeKids(s.w, e), KidsAt(s.w, c));
    AppendLength(TreeKids(s.w, e), KidsAt(s.w, c));
    ConsNodes(c, MsgAt(s.w, c), KidsAt(s.w, c), TreeKids(s.w, e));
    hide Nodes, Distinct, Tops, Adopted, WithKids, MsgAt, Msgs, Append;
    SetKidsNodes(w, e, k);
    SetKidsShape(w, e, k);
  }

  /** A container after the merge: lodged where it was, with the same message. */
  lemma MergeOther(s: Groups, c: Node, e: Node, t: string)
    requires Tables(s) && Match(s, c, e) && MayMerge(s, c, e) && t in s.table
    ensures var s', x := Merge(s, c, e), s.table[t];
      && Distinct(s'.w) && Placed(s'.w, x) && Lodged(s', x)
      && (x !in Tops(s'.w) ==> x !in Tops(s.w) && Holder(s'.w, x) == Holder(s.w, x))
      && TreeMsg(s'.w, x) == TreeMsg(s.w, x) && (x in Tops(s'.w) <==> x in Tops(s.w))
  {
    hide Nodes, Distinct, Tops, Adopted, WithKids, MsgAt, Msgs, Append;
    MergeForest(s, c, e);
    MatchProps(s, c, e);
    var w, k, x := Detach(s.w, c), KidsWith(s, c, e), s.table[t];
    assert Lodged(s, x);
    if x !in Tops(s.w) { HolderProps(s.w, x); }
    if e !in Tops(s.w) { HolderProps(s.w, e); }
    DetachNodes(s.w, c);
    DetachPlaced(s.w, c, e);
    DetachPlaced(s.w, c, x);
    SetKidsPlaced(w, e, k, x);
  }

  lemma MergeTables(s: Groups, c: Node, e: Node)
    requires Tables(s) && Match(s, c, e) && MayMerge(s, c, e)
    ensures Tables(Merge(s, c, e))
  {
    hide Nodes, Distinct, Tops, Adopted, WithKids, MsgAt, Msgs, Append;
    MergeForest(s, c, e);
    MatchProps(s, c, e);
    var s' := Merge(s, c, e);
    forall t | t in s'.table
      ensures var x := s'.table[t]; Placed(s'.w, x) && x in s'.key && s'.key[x].subject == Some(t) && Lodged(s', x)
    {
      MergeOther(s, c, e, t);
    }
  }

  lemma MergeAt(s: Groups, c: Node, e: Node, x: Node)
    requires Tables(s) && Match(s, c, e) && MayMerge(s, c, e)
    requires x in Tops(s.w) && x != c
    ensures var w' := Merge(s, c, e).w;
      && x in Tops(w') && MsgAt(w', x) == MsgAt(s.w, x)
      && (if x == e || (e !in Tops(s.w) && x == Holder(s.w, e))
          then TreeMsgs(w', x) == TreeMsgs(s.w, x) + TreeMsgs(s.w, c)
          else KidsAt(w', x) == KidsAt(s.w, x))
  {
    hide Nodes, Distinct, Tops, Adopted, WithKids, MsgAt, Append;
    MatchProps(s, c, e);
    DetachNodes(s.w, c);
    DetachPlaced(s.w, c, e);
    DetachAt(s.w, c, x);
    var w, k := Detach(s.w, c), KidsWith(s, c, e);
    AppendMsgs(TreeKids(s.w, e), KidsAt(s.w, c));
    SetKidsAt(w, e, k, x);
    if e !in Tops(s.w) && x == Holder(s.w, e) {
      CutMsgs(KidsAt(w, x), e);
      WithKidsMsgs(KidsAt(w, x), e, k);
    }
  }

  lemma MergeAbove(s: Groups, c: Node, e: Node, a: Msg, d: Msg)
    requires Tables(s) && Match(s, c, e) && MayMerge(s, c, e)
    ensures Above(Merge(s, c, e).w, a, d) <==>
              Above(s.w, a, d) || (TreeMsg(s.w, e) == Some(a) && d in TreeMsgs(s.w, c))
  {
    hide Nodes, Distinct, Tops, Adopted, WithKids, MsgAt, Append;
    MatchProps(s, c, e);
    DetachNodes(s.w, c);
    DetachPlaced(s.w, c, e);
    var w, k := Detach(s.w, c), KidsWith(s, c, e);
    DetachAbove(s.w, c, a, d);
    DetachAbove(w, e, a, d);
    AppendMsgs(TreeKids(s.w, e), KidsAt(s.w, c));
    AppendAbove(TreeKids(s.w, e), KidsAt(s.w, c), a, d);
    SetKidsAbove(w, e, k, a, d);
  }

  lemma MergeMsgs(s: Groups, c: Node, e: Node)
    requires Tables(s) && Match(s, c, e) && MayMerge(s, c, e)
    ensures Msgs(Merge(s, c, e).w) == Msgs(s.w)
  {
    hide Nodes, Distinct, Tops, Adopted, WithKids, MsgAt, Append;
    MatchProps(s, c, e);
    DetachNodes(s.w, c);
    DetachPlaced(s.w, c, e);
    var w, k := Detach(s.w, c), KidsWith(s, c, e);
    DetachMsgs(s.w, c);
    DetachMsgs(w, e);
    AppendMsgs(TreeKids(s.w, e), KidsAt(s.w, c));
    SetKidsMsgs(w, e, k);
  }

  lemma MergeSound(f: Forest, s: Groups, c: Node, e: Node)
    requires Tables(s) && Match(s, c, e) && MayMerge(s, c, e) && Sound(f, s)
    ensures Tables(Merge(s, c, e)) && Sound(f, Merge(s, c, e))
  {
    hide Nodes, Distinct, Tops, Adopted, WithKids, MsgAt, Msgs, From, Above, Append;
    MergeTables(s, c, e);
    MergeForest(s, c, e);
    MatchProps(s, c, e);
    var s' := Merge(s, c, e);
    assert Lodged(s, e);
    forall x | x in Tops(s'.w) && (s'.key[x].subject.None? || (x !in s'.seen && !Entry(s', x)))
      ensures Untouched(f, s', x)
    {
      MergeAt(s, c, e, x);
      assert Untouched(f, s, x);
    }
    forall t | t in s'.table && TreeMsg(s'.w, s'.table[t]).Some?
      ensures var x := s'.table[t]; x in Tops(f) && MsgAt(f, x) == TreeMsg(s'.w, x) && KeyAt(f, x) == s'.key[x]
    {
      MergeOther(s, c, e, t);
    }
    forall x, d | x in Tops(s'.w) && d in TreeMsgs(s'.w, x)
      ensures From(f, d, s'.key[x].subject)
    {
      MergeAt(s, c, e, x);
      assert d in TreeMsgs(s.w, c) ==> From(f, d, s.key[c].subject);
    }
    forall a, d | Above(s'.w, a, d) ensures Above(f, a, d) || NewPair(f, a, d) {
      MergeAbove(s, c, e, a, d);
      if !Above(s.w, a, d) {
        assert Untouched(f, s, c);
        assert NewPairAt(f, e, c, a, d);
      }
    }
  }

  lemma MergeKeeps(f: Forest, s: Groups, c: Node, e: Node)
    requires Inv(f, s) && Match(s, c, e) && MayMerge(s, c, e)
    ensures Inv(f, Merge(s, c, e))
  {
    hide Nodes, Distinct, Tops, Adopted, WithKids, MsgAt, Msgs, From, NewPair, Above, Append;
    MergeTables(s, c, e);
    MergeForest(s, c, e);
    MergeSound(f, s, c, e);
    MergeMsgs(s, c, e);
    MatchProps(s, c, e);
    var s' := Merge(s, c, e);
    forall a, d | Above(f, a, d) ensures Above(s'.w, a, d) {
      MergeAbove(s, c, e, a, d);
    }
    forall x | x in Tops(s'.w) && x !in s'.seen && s'.key[x].subject.Some? && !s'.key[x].re && MsgAt(s'.w, x).Some?
      ensures var y := s'.table[s'.key[x].subject.value]; TreeMsg(s'.w, y).None? || !s'.key[y].re
    {
      MergeAt(s, c, e, x);
      MergeOther(s, c, e, s.key[x].subject.value);
    }
    forall x | x in s'.seen && s'.key[x].subject.Some?
      ensures var y := s'.table[s'.key[x].subject.value];
        y == x || (MsgAt(s'.w, x).None? && (TreeMsg(s'.w, y).None? || y !in Tops(s'.w)))
    {
      MergeAt(s, c, e, x);
      MergeOther(s, c, e, s.key[x].subject.value);
    }
  }

  // ---------------------------------------------------------------- the phantom

  ghost predicate MayPair(s: Groups, c: Node, e: Node, scan: Node)
    requires Tables(s) && Match(s, c, e)
  {
    MatchProps(s, c, e);
    MsgAt(s.w, c).Some? && TreeMsg(s.w, e).Some? && scan !in Nodes(s.w) && scan !in s.key
  }

  lemma PairBase(s: Groups, c: Node, e: Node)
    requires Tables(s) && Match(s, c, e) && MsgAt(s.w, c).Some?
    ensures Placed(s.w, e) && Distinct(Detach(s.w, e))
    ensures var w := Detach(s.w, e);
      && Tops(w) == Tops(s.w) - {e} && c in Tops(w)
      && MsgAt(w, c) == MsgAt(s.w, c) && KidsAt(w, c) == KidsAt(s.w, c)
      && Nodes(s.w) == Nodes(CutTop(w, c)) + Nodes(Cons(c, MsgAt(s.w, c), KidsAt(s.w, c), Nil)) + {e} + Nodes(TreeKids(s.w, e))
      && Nodes(CutTop(w, c)) !! Nodes(Cons(c, MsgAt(s.w, c), KidsAt(s.w, c), Nil))
      && Distinct(Cons(c, MsgAt(s.w, c), KidsAt(s.w, c), Nil))
      && Nodes(w) == Nodes(CutTop(w, c)) + Nodes(Cons(c, MsgAt(s.w, c), KidsAt(s.w, c), Nil))
  {
    hide Nodes, Distinct, Tops, Adopted, WithKids, MsgAt, Msgs, Append, CutTop, Detach;
    MatchProps(s, c, e);
    DetachNodes(s.w, e);
    DetachAt(s.w, e, c);
    if e !in Tops(s.w) { HolderProps(s.w, e); }
    CutProps(Detach(s.w, e), c);
    SplitDistinct(Detach(s.w, e), c);
    NilParts();
    ConsNodes(c, MsgAt(s.w, c), KidsAt(s.w, c), Nil);
  }

  lemma PairForest(s: Groups, c: Node, e: Node, scan: Node)
    requires Tables(s) && Match(s, c, e) && MayPair(s, c, e, scan)
    ensures var w, w', k := Detach(s.w, e), Pair(s, c, e, scan).w, PairKids(s, c, e);
      && Distinct(w') && Pruned(w') && Tops(w') == Tops(s.w) - {e, c} + {scan} && Nodes(w') == Nodes(s.w) + {scan}
      && Distinct(w) && c in Tops(w) && MsgAt(w, c) == MsgAt(s.w, c) && KidsAt(w, c) == KidsAt(s.w, c)
      && Distinct(k) && scan !in Nodes(k) && scan !in Nodes(w) && Nodes(k) !! Nodes(CutTop(w, c))
  {
    hide Nodes, Distinct, Tops, Adopted, WithKids, MsgAt, Msgs, Append, CutTop, Detach, Pruned, Full;
    MatchProps(s, c, e);
    PairBase(s, c, e);
    DetachNodes(s.w, e);
    var w, k := Detach(s.w, e), PairKids(s, c, e);
    ConsNodes(e, TreeMsg(s.w, e), TreeKids(s.w, e), Cons(c, MsgAt(s.w, c), KidsAt(s.w, c), Nil));
    ReplaceNodes(w, c, scan, None, k);
    DetachShape(s.w, e);
    CutShape(w, c);
    FullCons(c, MsgAt(s.w, c), KidsAt(s.w, c), Nil);
    FullCons(e, TreeMsg(s.w, e), TreeKids(s.w, e), Cons(c, MsgAt(s.w, c), KidsAt(s.w, c), Nil));
    ReplaceShape(w, c, scan, None, k);
  }

  lemma FullCons(n: Node, m: Option<Msg>, kids: Forest, rest: Forest)
    ensures Full(Cons(n, m, kids, rest)) <==> m.Some? && Full(kids) && Full(rest)
    ensures Full(Nil)
  {
  }

  lemma PairOther(s: Groups, c: Node, e: Node, scan: Node, t: string)
    requires Tables(s) && Match(s, c, e) && MayPair(s, c, e, scan)
    requires t in s.table && s.table[t] != e
    ensures var s', x := Pair(s, c, e, scan), s.table[t];
      && Distinct(s'.w) && Placed(s'.w, x) && Lodged(s', x)
      && (x !in Tops(s'.w) ==> x !in Tops(s.w) && Holder(s'.w, x) == Holder(s.w, x))
      && TreeMsg(s'.w, x) == TreeMsg(s.w, x) && (x in Tops(s'.w) <==> x in Tops(s.w))
  {
    hide Nodes, Distinct, Tops, Adopted, WithKids, MsgAt, Msgs, Append, CutTop;
    PairForest(s, c, e, scan);
    MatchProps(s, c, e);
    var w, k, x := Detach(s.w, e), PairKids(s, c, e), s.table[t];
    assert Lodged(s, x);
    if x !in Tops(s.w) { HolderProps(s.w, x); }
    DetachPlaced(s.w, e, x);
    ReplacePlaced(w, c, scan, None, k, x);
    if x !in Tops(s.w) && e !in Tops(s.w) {
      HoldersDiffer(s, t, s.key[e].subject.value);
    }
  }

  lemma PairTables(s: Groups, c: Node, e: Node, scan: Node)
    requires Tables(s) && Match(s, c, e) && MayPair(s, c, e, scan)
    ensures Tables(Pair(s, c, e, scan))
  {
    hide Nodes, Distinct, Tops, Adopted, WithKids, MsgAt, Msgs, Append, CutTop;
    PairForest(s, c, e, scan);
    MatchProps(s, c, e);
    var s' := Pair(s, c, e, scan);
    forall t | t in s'.table
      ensures var x := s'.table[t]; Placed(s'.w, x) && x in s'.key && s'.key[x].subject == Some(t) && Lodged(s', x)
    {
      if s'.table[t] != scan { PairOther(s, c, e, scan, t); }
    }
  }

  lemma PairAt(s: Groups, c: Node, e: Node, scan: Node, x: Node)
    requires Tables(s) && Match(s, c, e) && MayPair(s, c, e, scan)
    requires x in Tops(s.w) && x != e && x != c
    ensures var w' := Pair(s, c, e, scan).w;
      && x in Tops(w') && MsgAt(w', x) == MsgAt(s.w, x) && TreeMsgs(w', x) <= TreeMsgs(s.w, x)
      && (e in Tops(s.w) || x != Holder(s.w, e) ==> KidsAt(w', x) == KidsAt(s.w, x))
  {
    hide Nodes, Distinct, Tops, Adopted, WithKids, MsgAt, Msgs, Append, CutTop;
    PairForest(s, c, e, scan);
    MatchProps(s, c, e);
    DetachAt(s.w, e, x);
    ReplaceAt(Detach(s.w, e), c, scan, None, PairKids(s, c, e), x);
  }

  lemma PairScan(s: Groups, c: Node, e: Node, scan: Node)
    requires Tables(s) && Match(s, c, e) && MayPair(s, c, e, scan)
    ensures var w' := Pair(s, c, e, scan).w;
      && scan in Tops(w') && MsgAt(w', scan) == None
      && TreeMsgs(w', scan) == MsgOf(TreeMsg(s.w, e)) + Msgs(TreeKids(s.w, e)) + TreeMsgs(s.w, c)
  {
    hide Nodes, Distinct, Tops, Adopted, WithKids, MsgAt, Append, CutTop;
    PairForest(s, c, e, scan);
    MatchProps(s, c, e);
    ReplaceAt(Detach(s.w, e), c, scan, None, PairKids(s, c, e), scan);
    PairKidsMsgs(s, c, e);
  }

  lemma PairKidsMsgs(s: Groups, c: Node, e: Node)
    requires Tables(s) && Match(s, c, e)
    ensures Placed(s.w, e)
    ensures Msgs(PairKids(s, c, e)) == MsgOf(TreeMsg(s.w, e)) + Msgs(TreeKids(s.w, e)) + TreeMsgs(s.w, c)
  {
    hide Nodes, Distinct, Tops, Adopted, MsgAt, Append, Msgs;
    MatchProps(s, c, e);
    NilParts();
    MsgsCons(c, MsgAt(s.w, c), KidsAt(s.w, c), Nil);
    MsgsCons(e, TreeMsg(s.w, e), TreeKids(s.w, e), Cons(c, MsgAt(s.w, c), KidsAt(s.w, c), Nil));
  }

  lemma PairAbove(s: Groups, c: Node, e: Node, scan: Node, a: Msg, d: Msg)
    requires Tables(s) && Match(s, c, e) && MayPair(s, c, e, scan)
    ensures Above(Pair(s, c, e, scan).w, a, d) <==> Above(s.w, a, d)
  {
    hide Nodes, Distinct, Tops, Adopted, WithKids, MsgAt, Append, CutTop;
    PairForest(s, c, e, scan);
    MatchProps(s, c, e);
    var w, k := Detach(s.w, e), PairKids(s, c, e);
    DetachAbove(s.w, e, a, d);
    CutAbove(w, c, a, d);
    ReplaceAbove(w, c, scan, None, k, a, d);
    AboveCons(e, TreeMsg(s.w, e), TreeKids(s.w, e), Cons(c, MsgAt(s.w, c), KidsAt(s.w, c), Nil), a, d);
    AboveCons(c, MsgAt(s.w, c), KidsAt(s.w, c), Nil, a, d);
  }

  lemma PairMsgs(s: Groups, c: Node, e: Node, scan: Node)
    requires Tables(s) && Match(s, c, e) && MayPair(s, c, e, scan)
    ensures Msgs(Pair(s, c, e, scan).w) == Msgs(s.w)
  {
    hide Nodes, Distinct, Tops, Adopted, WithKids, MsgAt, Append, CutTop, Detach, Replace, Msgs;
    PairForest(s, c, e, scan);
    MatchProps(s, c, e);
    PairKidsMsgs(s, c, e);
    DetachMsgs(s.w, e);
    CutMsgs(Detach(s.w, e), c);
    ReplaceMsgs(Detach(s.w, e), c, scan, None, PairKids(s, c, e));
  }

  lemma PairSound(f: Forest, s: Groups, c: Node, e: Node, scan: Node)
    requires Tables(s) && Match(s, c, e) && MayPair(s, c, e, scan) && Sound(f, s)
    ensures Tables(Pair(s, c, e, scan)) && Sound(f, Pair(s, c, e, scan))
  {
    hide Nodes, Distinct, Tops, Adopted, WithKids, MsgAt, Msgs, From, NewPair, Above, Append, CutTop;
    PairTables(s, c, e, scan);
    PairForest(s, c, e, scan);
    PairScan(s, c, e, scan);
    MatchProps(s, c, e);
    var s' := Pair(s, c, e, scan);
    assert Lodged(s, e);
    forall x | x in Tops(s'.w) && (s'.key[x].subject.None? || (x !in s'.seen && !Entry(s', x)))
      ensures Untouched(f, s', x)
    {
      PairAt(s, c, e, scan, x);
      assert Untouched(f, s, x);
    }
    forall t | t in s'.table && TreeMsg(s'.w, s'.table[t]).Some?
      ensures var x := s'.table[t]; x in Tops(f) && MsgAt(f, x) == TreeMsg(s'.w, x) && KeyAt(f, x) == s'.key[x]
    {
      PairOther(s, c, e, scan, t);
    }
    forall x, d | x in Tops(s'.w) && d in TreeMsgs(s'.w, x)
      ensures From(f, d, s'.key[x].subject)
    {
      if x != scan {
        PairAt(s, c, e, scan, x);
      } else if d !in TreeMsgs(s.w, c) {
        EntryFrom(f, s, e, d);
      }
    }
    forall a, d | Above(s'.w, a, d) ensures Above(f, a, d) || NewPair(f, a, d) {
      PairAbove(s, c, e, scan, a, d);
    }
  }

  lemma PairKeeps(f: Forest, s: Groups, c: Node, e: Node, scan: Node)
    requires Inv(f, s) && Match(s, c, e) && MayPair(s, c, e, scan)
    ensures Inv(f, Pair(s, c, e, scan))
  {
    hide Nodes, Distinct, Tops, Adopted, WithKids, MsgAt, Msgs, From, NewPair, Above, Append, CutTop;
    PairTables(s, c, e, scan);
    PairForest(s, c, e, scan);
    PairScan(s, c, e, scan);
    PairSound(f, s, c, e, scan);
    PairMsgs(s, c, e, scan);
    MatchProps(s, c, e);
    var s' := Pair(s, c, e, scan);
    forall a, d | Above(f, a, d) ensures Above(s'.w, a, d) {
      PairAbove(s, c, e, scan, a, d);
    }
    forall x | x in Tops(s'.w) && x !in s'.seen && s'.key[x].subject.Some? && !s'.key[x].re && MsgAt(s'.w, x).Some?
      ensures var y := s'.table[s'.key[x].subject.value]; TreeMsg(s'.w, y).None? || !s'.key[y].re
    {
      PairAt(s, c, e, scan, x);
      var t := s.key[x].subject.value;
      if s.table[t] != e { PairOther(s, c, e, scan, t); }
    }
    forall x | x in s'.seen && s'.key[x].subject.Some?
      ensures var y := s'.table[s'.key[x].subject.value];
        y == x || (MsgAt(s'.w, x).None? && (TreeMsg(s'.w, y).None? || y !in Tops(s'.w)))
    {
      if x != scan {
        PairAt(s, c, e, scan, x);
        var t := s.key[x].subject.value;
        if s.table[t] != e { PairOther(s, c, e, scan, t); }
      }
    }
  }
}
