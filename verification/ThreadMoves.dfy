/** Moving whole trees inside the root set.

    While the root set is regrouped, the tree that stands for a subject is either a root or a child
    of an empty root; `Placed` says so, and `Holder` is that empty root. `Detach` takes such a tree
    out, `SetKids` changes the children of such a node, and `Replace` puts a new root in the place of
    another. For each of these a lemma says what happens to the nodes, the messages, the ancestors
    and the shape, and that the other trees stay as they are. */
module ThreadMoves {
  import opened Wrappers
  import opened ThreadForest
  import opened ThreadTops

  /** `n` is a child of an empty root. */
  ghost predicate Adopted(w: Forest, n: Node) {
    w.Cons? && ((w.msg.None? && n in Tops(w.kids)) || Adopted(w.rest, n))
  }

  ghost predicate Placed(w: Forest, n: Node) {
    n in Tops(w) || Adopted(w, n)
  }

  ghost function Holder(w: Forest, n: Node): Node
    requires Adopted(w, n)
  {
    if w.msg.None? && n in Tops(w.kids) then w.node else Holder(w.rest, n)
  }

  lemma HolderIn(w: Forest, n: Node)
    requires Adopted(w, n)
    ensures Holder(w, n) in Tops(w)
  {
  }

  lemma HolderProps(w: Forest, n: Node)
    requires Adopted(w, n) && Distinct(w)
    ensures var h := Holder(w, n); h in Tops(w) && MsgAt(w, h).None? && n in Tops(KidsAt(w, h))
    ensures n !in Tops(w)
  {
    TopsNodes(w.rest);
    TopsNodes(w.kids);
    if w.msg.None? && n in Tops(w.kids) {
    } else {
      HolderProps(w.rest, n);
      AdoptedIn(w.rest, n);
    }
  }

  lemma AdoptedIn(w: Forest, n: Node)
    requires Adopted(w, n)
    ensures n in Nodes(w)
  {
    TopsNodes(w.kids);
  }

  lemma HolderUnique(w: Forest, n: Node, p: Node)
    requires Distinct(w) && p in Tops(w) && MsgAt(w, p).None? && n in Tops(KidsAt(w, p))
    ensures Adopted(w, n) && Holder(w, n) == p
  {
    TopsNodes(w.kids);
    TopsNodes(w.rest);
    if w.node != p {
      HolderUnique(w.rest, n, p);
      AdoptedIn(w.rest, n);
    }
  }

  ghost function TreeMsg(w: Forest, n: Node): Option<Msg>
    requires Distinct(w) && Placed(w, n)
  {
    if n in Tops(w) then MsgAt(w, n)
    else
      HolderProps(w, n);
      MsgAt(KidsAt(w, Holder(w, n)), n)
  }

  ghost function TreeKids(w: Forest, n: Node): Forest
    requires Distinct(w) && Placed(w, n)
  {
    if n in Tops(w) then KidsAt(w, n)
    else
      HolderProps(w, n);
      KidsAt(KidsAt(w, Holder(w, n)), n)
  }

  /** Take the tree at `n` out. */
  ghost function Detach(w: Forest, n: Node): Forest
    requires Distinct(w) && Placed(w, n)
  {
    if n in Tops(w) then CutTop(w, n)
    else
      HolderProps(w, n);
      var h := Holder(w, n);
      WithKids(w, h, CutTop(KidsAt(w, h), n))
  }

  /** Give `x` the children `k`. */
  ghost function SetKids(w: Forest, x: Node, k: Forest): Forest
    requires Distinct(w) && Placed(w, x)
  {
    if x in Tops(w) then WithKids(w, x, k)
    else
      HolderProps(w, x);
      var h := Holder(w, x);
      WithKids(w, h, WithKids(KidsAt(w, h), x, k))
  }

  // ---------------------------------------------------------------- taking a tree out

  lemma DetachNodes(w: Forest, n: Node)
    requires Distinct(w) && Placed(w, n)
    ensures var g, k := Detach(w, n), TreeKids(w, n);
      && Distinct(g) && Distinct(k) && n !in Nodes(k) && n !in Nodes(g)
      && Nodes(w) == Nodes(g) + {n} + Nodes(k) && Nodes(g) !! Nodes(k)
      && Tops(g) == Tops(w) - {n}
  {
    hide Nodes, Distinct, Tops, Adopted, WithKids, MsgAt;
    if n in Tops(w) {
      SplitDistinct(w, n);
      CutProps(w, n);
    } else {
      HolderProps(w, n);
      var h := Holder(w, n);
      var kh := KidsAt(w, h);
      SplitDistinct(w, h);
      SplitDistinct(kh, n);
      CutProps(kh, n);
      WithKidsProps(w, h, CutTop(kh, n));
    }
  }

  lemma {:induction false} DetachMsgs(w: Forest, n: Node)
    requires Distinct(w) && Placed(w, n)
    ensures Msgs(w) == Msgs(Detach(w, n)) + MsgOf(TreeMsg(w, n)) + Msgs(TreeKids(w, n))
  {
    hide Nodes, Distinct, Tops, Adopted, WithKids, MsgAt, Msgs;
    if n in Tops(w) {
      CutMsgs(w, n);
    } else {
      HolderProps(w, n);
      var h := Holder(w, n);
      CutMsgs(w, h);
      CutMsgs(KidsAt(w, h), n);
      WithKidsMsgs(w, h, CutTop(KidsAt(w, h), n));
    }
  }

  /** Nothing but the pairs inside the tree goes with it: no message was above it. */
  lemma DetachAbove(w: Forest, n: Node, a: Msg, d: Msg)
    requires Distinct(w) && Placed(w, n)
    ensures var m, k := TreeMsg(w, n), TreeKids(w, n);
      Above(w, a, d) <==> Above(Detach(w, n), a, d) || (m == Some(a) && d in Msgs(k)) || Above(k, a, d)
  {
    if n in Tops(w) {
      CutAbove(w, n, a, d);
    } else {
      HolderProps(w, n);
      var h := Holder(w, n);
      CutAbove(w, h, a, d);
      CutAbove(KidsAt(w, h), n, a, d);
      WithKidsAbove(w, h, CutTop(KidsAt(w, h), n), a, d);
    }
  }

  lemma DetachShape(w: Forest, n: Node)
    requires Distinct(w) && Placed(w, n) && Pruned(w)
    requires n !in Tops(w) ==> Holder(w, n) in Tops(w) && Length(KidsAt(w, Holder(w, n))) >= 3
    ensures Pruned(Detach(w, n)) && Full(TreeKids(w, n))
    ensures n !in Tops(w) ==> TreeMsg(w, n).Some?
    ensures TreeMsg(w, n).None? ==> Length(TreeKids(w, n)) >= 2
  {
    if n in Tops(w) {
      CutShape(w, n);
    } else {
      HolderProps(w, n);
      var h := Holder(w, n);
      CutShape(w, h);
      CutShape(KidsAt(w, h), n);
      CutMsgs(KidsAt(w, h), n);
      WithKidsShape(w, h, CutTop(KidsAt(w, h), n));
    }
  }

  /** What another root keeps. */
  lemma DetachAt(w: Forest, n: Node, x: Node)
    requires Distinct(w) && Placed(w, n) && x in Tops(w) && x != n
    ensures var g := Detach(w, n);
      && x in Tops(g) && MsgAt(g, x) == MsgAt(w, x)
      && (if n !in Tops(w) && x == Holder(w, n)
          then n in Tops(KidsAt(w, x)) && KidsAt(g, x) == CutTop(KidsAt(w, x), n)
          else KidsAt(g, x) == KidsAt(w, x))
      && TreeMsgs(g, x) <= TreeMsgs(w, x)
  {
    DetachNodes(w, n);
    if n in Tops(w) {
      CutAt(w, n, x);
    } else {
      HolderProps(w, n);
      var h := Holder(w, n);
      WithKidsAt(w, h, CutTop(KidsAt(w, h), n), x);
      CutMsgs(KidsAt(w, h), n);
    }
  }

  /** Another placed tree stays placed as it was. */
  lemma DetachPlaced(w: Forest, n: Node, e: Node)
    requires Distinct(w) && Placed(w, n) && Placed(w, e) && e != n
    requires e in Tops(w) || Holder(w, e) != n
    ensures var g := Detach(w, n);
      && Distinct(g) && Placed(g, e) && (e in Tops(g) <==> e in Tops(w))
      && TreeMsg(g, e) == TreeMsg(w, e)
      && (n in Tops(w) || e !in Tops(w) ==> TreeKids(g, e) == TreeKids(w, e))
      && (e !in Tops(w) ==> Holder(g, e) == Holder(w, e) && Holder(w, e) in Tops(w) && Holder(w, e) in Tops(g))
      && (e !in Tops(w) && (n in Tops(w) || Holder(w, n) != Holder(w, e)) ==>
            KidsAt(g, Holder(w, e)) == KidsAt(w, Holder(w, e)))
  {
    DetachNodes(w, n);
    if e in Tops(w) {
      DetachAt(w, n, e);
    } else {
      HolderProps(w, e);
      var h := Holder(w, e);
      DetachAt(w, n, h);
      var g := Detach(w, n);
      if n !in Tops(w) && Holder(w, n) == h {
        HolderProps(w, n);
        SplitDistinct(w, h);
        CutAt(KidsAt(w, h), n, e);
        CutProps(KidsAt(w, h), n);
      }
      HolderUnique(g, e, h);
    }
  }

  // ---------------------------------------------------------------- giving a tree other children

  lemma SetKidsNodes(w: Forest, x: Node, k: Forest)
    requires Distinct(w) && Placed(w, x) && Distinct(k)
    requires Nodes(k) !! Nodes(w) - Nodes(TreeKids(w, x))
    ensures var g := SetKids(w, x, k);
      && Distinct(g) && Nodes(g) == Nodes(w) - Nodes(TreeKids(w, x)) + Nodes(k) && Tops(g) == Tops(w)
  {
    hide Nodes, Distinct, Tops, Adopted, WithKids, MsgAt;
    if x in Tops(w) {
      WithKidsProps(w, x, k);
    } else {
      HolderProps(w, x);
      var h := Holder(w, x);
      var kh := KidsAt(w, h);
      SplitDistinct(w, h);
      SplitDistinct(kh, x);
      WithKidsProps(kh, x, k);
      WithKidsProps(w, h, WithKids(kh, x, k));
    }
  }

  lemma SetKidsMsgs(w: Forest, x: Node, k: Forest)
    requires Distinct(w) && Placed(w, x)
    ensures Msgs(SetKids(w, x, k)) == Msgs(Detach(w, x)) + MsgOf(TreeMsg(w, x)) + Msgs(k)
  {
    if x in Tops(w) {
      WithKidsMsgs(w, x, k);
    } else {
      HolderProps(w, x);
      var h := Holder(w, x);
      WithKidsMsgs(KidsAt(w, h), x, k);
      WithKidsMsgs(w, h, WithKids(KidsAt(w, h), x, k));
      WithKidsMsgs(w, h, CutTop(KidsAt(w, h), x));
    }
  }

  lemma SetKidsAbove(w: Forest, x: Node, k: Forest, a: Msg, d: Msg)
    requires Distinct(w) && Placed(w, x)
    ensures Above(SetKids(w, x, k), a, d) <==>
              || Above(Detach(w, x), a, d)
              || (TreeMsg(w, x) == Some(a) && d in Msgs(k))
              || Above(k, a, d)
  {
    if x in Tops(w) {
      WithKidsAbove(w, x, k, a, d);
    } else {
      HolderProps(w, x);
      var h := Holder(w, x);
      WithKidsAbove(KidsAt(w, h), x, k, a, d);
      WithKidsAbove(w, h, WithKids(KidsAt(w, h), x, k), a, d);
      WithKidsAbove(w, h, CutTop(KidsAt(w, h), x), a, d);
    }
  }

  lemma SetKidsShape(w: Forest, x: Node, k: Forest)
    requires Distinct(w) && Placed(w, x) && Pruned(w) && Full(k)
    requires TreeMsg(w, x).None? ==> Length(k) >= 2
    ensures Pruned(SetKids(w, x, k))
  {
    if x in Tops(w) {
      WithKidsShape(w, x, k);
    } else {
      HolderProps(w, x);
      var h := Holder(w, x);
      CutShape(w, h);
      WithKidsFull(KidsAt(w, h), x, k);
      WithKidsLength(KidsAt(w, h), x, k);
      WithKidsShape(w, h, WithKids(KidsAt(w, h), x, k));
    }
  }

  lemma WithKidsLength(f: Forest, n: Node, k: Forest)
    requires n in Tops(f)
    ensures Length(WithKids(f, n, k)) == Length(f)
  {
  }

  lemma SetKidsAt(w: Forest, x: Node, k: Forest, y: Node)
    requires Distinct(w) && Placed(w, x) && y in Tops(w)
    ensures var g := SetKids(w, x, k);
      && y in Tops(g) && MsgAt(g, y) == MsgAt(w, y)
      && (if x in Tops(w) && y == x then KidsAt(g, y) == k
          else if x !in Tops(w) && y == Holder(w, x)
          then x in Tops(KidsAt(w, y)) && KidsAt(g, y) == WithKids(KidsAt(w, y), x, k)
          else KidsAt(g, y) == KidsAt(w, y))
  {
    if x in Tops(w) {
      WithKidsAt(w, x, k, y);
    } else {
      HolderProps(w, x);
      WithKidsAt(w, Holder(w, x), WithKids(KidsAt(w, Holder(w, x)), x, k), y);
    }
  }

  lemma SetKidsPlaced(w: Forest, x: Node, k: Forest, e: Node)
    requires Distinct(w) && Placed(w, x) && Placed(w, e) && Distinct(k)
    requires Nodes(k) !! Nodes(w) - Nodes(TreeKids(w, x))
    requires e in Tops(w) || Holder(w, e) != x || e in Tops(k)
    ensures var g := SetKids(w, x, k);
      && Distinct(g) && Placed(g, e) && (e in Tops(g) <==> e in Tops(w))
      && (e in Tops(w) || Holder(w, e) != x ==> TreeMsg(g, e) == TreeMsg(w, e))
      && (e !in Tops(w) ==> Holder(g, e) == Holder(w, e) && Holder(w, e) in Tops(w) && Holder(w, e) in Tops(g))
      && (e !in Tops(w) && Holder(w, e) != x ==>
            Length(KidsAt(g, Holder(w, e))) == Length(KidsAt(w, Holder(w, e))))
  {
    SetKidsNodes(w, x, k);
    if e in Tops(w) {
      SetKidsAt(w, x, k, e);
    } else {
      HolderProps(w, e);
      var h := Holder(w, e);
      SetKidsAt(w, x, k, h);
      var g := SetKids(w, x, k);
      if x !in Tops(w) && Holder(w, x) == h {
        HolderProps(w, x);
        SplitDistinct(w, h);
        WithKidsAt(KidsAt(w, h), x, k, e);
        WithKidsLength(KidsAt(w, h), x, k);
        WithKidsTops(KidsAt(w, h), x, k);
      }
      HolderUnique(g, e, h);
    }
  }

  lemma WithKidsTops(f: Forest, n: Node, k: Forest)
    requires n in Tops(f)
    ensures Tops(WithKids(f, n, k)) == Tops(f)
  {
  }

  // ---------------------------------------------------------------- another tree in a root's place

  ghost function Replace(w: Forest, c: Node, n: Node, m: Option<Msg>, k: Forest): Forest
    requires c in Tops(w)
  {
    Append(Before(w, c), Cons(n, m, k, After(w, c)))
  }

  lemma {:induction false} ReplaceNodes(w: Forest, c: Node, n: Node, m: Option<Msg>, k: Forest)
    requires c in Tops(w) && Distinct(w) && Distinct(k)
    requires n !in Nodes(k) && n !in Nodes(w) && Nodes(k) !! Nodes(CutTop(w, c))
    ensures var g := Replace(w, c, n, m, k);
      && Distinct(g) && Nodes(g) == Nodes(CutTop(w, c)) + {n} + Nodes(k) && Tops(g) == Tops(w) - {c} + {n}
  {
    var b, x := Before(w, c), Cons(n, m, k, After(w, c));
    AppendTops(b, x);
    SplitDistinct(w, c);
    SplitTops(w, c);
    AppendNodes(b, After(w, c));
    hide Tops;
    AppendDistinct(b, x);
    AppendNodes(b, x);
  }

  lemma ReplaceMsgs(w: Forest, c: Node, n: Node, m: Option<Msg>, k: Forest)
    requires c in Tops(w)
    ensures Msgs(Replace(w, c, n, m, k)) == Msgs(CutTop(w, c)) + MsgOf(m) + Msgs(k)
  {
    AppendMsgs(Before(w, c), Cons(n, m, k, After(w, c)));
    AppendMsgs(Before(w, c), After(w, c));
  }

  lemma ReplaceAbove(w: Forest, c: Node, n: Node, m: Option<Msg>, k: Forest, a: Msg, d: Msg)
    requires c in Tops(w)
    ensures Above(Replace(w, c, n, m, k), a, d) <==>
              Above(CutTop(w, c), a, d) || (m == Some(a) && d in Msgs(k)) || Above(k, a, d)
  {
    AppendAbove(Before(w, c), Cons(n, m, k, After(w, c)), a, d);
    AppendAbove(Before(w, c), After(w, c), a, d);
  }

  lemma ReplaceShape(w: Forest, c: Node, n: Node, m: Option<Msg>, k: Forest)
    requires c in Tops(w) && Pruned(w) && Full(k) && (m.None? ==> Length(k) >= 2)
    ensures Pruned(Replace(w, c, n, m, k))
  {
    CutShape(w, c);
    AppendShape(Before(w, c), After(w, c));
    AppendShape(Before(w, c), Cons(n, m, k, After(w, c)));
  }

  lemma ReplaceAt(w: Forest, c: Node, n: Node, m: Option<Msg>, k: Forest, x: Node)
    requires c in Tops(w) && Distinct(w) && n !in Nodes(w)
    requires x == n || (x in Tops(w) && x != c)
    ensures x in Tops(Replace(w, c, n, m, k))
    ensures var g := Replace(w, c, n, m, k);
      && (x == n ==> MsgAt(g, x) == m && KidsAt(g, x) == k)
      && (x != n ==> MsgAt(g, x) == MsgAt(w, x) && KidsAt(g, x) == KidsAt(w, x))
  {
    SplitTops(w, c);
    SplitDistinct(w, c);
    TopsNodes(w);
    if x != n { SplitAt(w, c, x); }
    AppendAt(Before(w, c), Cons(n, m, k, After(w, c)), x);
  }

  lemma ReplacePlaced(w: Forest, c: Node, n: Node, m: Option<Msg>, k: Forest, e: Node)
    requires c in Tops(w) && Distinct(w) && Distinct(k)
    requires n !in Nodes(k) && n !in Nodes(w) && Nodes(k) !! Nodes(CutTop(w, c))
    requires Placed(w, e) && e != c && (e in Tops(w) || Holder(w, e) != c)
    ensures var g := Replace(w, c, n, m, k);
      && Distinct(g) && Placed(g, e) && (e in Tops(g) <==> e in Tops(w))
      && TreeMsg(g, e) == TreeMsg(w, e)
      && (e !in Tops(w) ==>
            Holder(g, e) == Holder(w, e) && Holder(w, e) in Tops(w) && Holder(w, e) in Tops(g) &&
            KidsAt(g, Holder(w, e)) == KidsAt(w, Holder(w, e)))
  {
    hide Nodes, Tops, WithKids, CutTop, Distinct;
    ReplaceNodes(w, c, n, m, k);
    TopsNodes(w);
    PlacedIn(w, e);
    if e in Tops(w) {
      ReplaceAt(w, c, n, m, k, e);
    } else {
      HolderProps(w, e);
      ReplaceAt(w, c, n, m, k, Holder(w, e));
      HolderUnique(Replace(w, c, n, m, k), e, Holder(w, e));
    }
  }

  lemma PlacedIn(w: Forest, e: Node)
    requires Placed(w, e)
    ensures e in Nodes(w)
  {
    TopsNodes(w);
    if Adopted(w, e) { AdoptedIn(w, e); }
  }

  // ---------------------------------------------------------------- the order of the roots

  lemma OrderSetKids(w: Forest, x: Node, k: Forest)
    requires Distinct(w) && Placed(w, x)
    ensures Order(SetKids(w, x, k)) == Order(w)
  {
    var h := x;
    if x !in Tops(w) { HolderProps(w, x); h := Holder(w, x); }
    var i := OrderIndex(w, h);
    if x in Tops(w) {
      OrderPut(w, x, x, MsgAt(w, x), k, i);
    } else {
      OrderPut(w, h, h, MsgAt(w, h), WithKids(KidsAt(w, h), x, k), i);
    }
  }

  lemma OrderDetachKid(w: Forest, n: Node)
    requires Distinct(w) && Placed(w, n) && n !in Tops(w)
    ensures Order(Detach(w, n)) == Order(w)
  {
    HolderProps(w, n);
    var h := Holder(w, n);
    var i := OrderIndex(w, h);
    OrderPut(w, h, h, MsgAt(w, h), CutTop(KidsAt(w, h), n), i);
  }

  lemma ReplaceKids(w: Forest, c: Node, n: Node, m: Option<Msg>, k: Forest, k': Forest)
    requires c in Tops(w) && Distinct(w) && n !in Nodes(w)
    ensures var g := Replace(w, c, n, m, k);
      n in Tops(g) && KidsAt(g, n) == k && WithKids(g, n, k') == Replace(w, c, n, m, k')
  {
    SplitTops(w, c);
    SplitDistinct(w, c);
    TopsNodes(Before(w, c));
    var b, x := Before(w, c), Cons(n, m, k, After(w, c));
    AppendTops(b, x);
    AppendAt(b, x, n);
    AppendBefore(b, x, n);
    AppendNil(b);
  }

  /** The node before `c` once `e` is taken out, as remove_node corrects it. */
  lemma BeforeDetach(w: Forest, c: Node, e: Node)
    requires Distinct(w) && c in Tops(w) && Placed(w, e) && e != c
    ensures var p := Tail(Before(w, c));
      && Distinct(Detach(w, e)) && c in Tops(Detach(w, e))
      && Tail(Before(Detach(w, e), c)) == if p == e && e in Tops(w) then Tail(Before(w, e)) else p
  {
    hide Nodes, Tops, Before, After, Tail, MsgAt, KidsAt, Adopted, Distinct;
    DetachNodes(w, e);
    OrderTops(w);
    OrderTops(Detach(w, e));
    var i := OrderIndex(w, c);
    OrderAt(w, i);
    if e in Tops(w) {
      var j := OrderIndex(w, e);
      OrderCut(w, e, j);
      OrderAt(w, j);
      OrderAt(Detach(w, e), if j < i then i - 1 else i);
    } else {
      OrderDetachKid(w, e);
      OrderAt(Detach(w, e), i);
    }
  }
}
