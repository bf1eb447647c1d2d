/** What group_root_set promises, and when it leaves one root of a subject. */
module ThreadPromise {
  import opened Wrappers
  import opened ThreadForest
  import opened ThreadTops
  import opened ThreadRegroup
  import opened ThreadCount
  import opened ThreadWhole
  import opened ThreadJoins

  /** What group_root_set promises of the root set `w` it makes of `f`; `key` gives the subject of
      every root of `w`.

      No message is lost or duplicated and no ancestor is lost.  A message gets a new ancestor exactly
      if it belongs to a root reply that joins the container of its subject, a message that is no
      reply, as `Joins` tells from `f`.  All messages of
      a root come from roots of its subject, and a root without a subject is left alone.  Empty
      roots have two or more children, all with messages.  A root with a message shares its subject
      with no other root.  As many roots of a subject are left as `RootsLeft` tells from `f`.  What was
      under one root still is. */
  ghost predicate Regrouped(f: Forest, w: Forest, key: map<Node, Key>) {
    && Distinct(w) && Pruned(w) && Tops(w) <= key.Keys
    && Kept(f, w)
    && (forall a, d :: Above(w, a, d) <==> Above(f, a, d) || JoinPair(f, a, d))
    && (forall x, d :: x in Tops(w) && d in TreeMsgs(w, x) ==> From(f, d, key[x].subject))
    && (forall x :: x in Tops(w) && key[x].subject.None? ==>
          x in Tops(f) && MsgAt(w, x) == MsgAt(f, x) && KidsAt(w, x) == KidsAt(f, x))
    && (forall x, y :: x in Tops(w) && y in Tops(w) && x != y && key[x].subject.Some? && key[x].subject == key[y].subject ==>
          MsgAt(w, x).None? && MsgAt(w, y).None?)
    && (forall t :: |Group(Tops(w), key, t)| == RootsLeft(f, t))
    && (forall a, d :: Together(f, a, d) ==> Together(w, a, d))
  }

  lemma SeenApart(s: Groups)
    requires Tables(s) && Complete(s) && s.seen == Tops(s.w)
    ensures forall x, y :: x in Tops(s.w) && y in Tops(s.w) && x != y && s.key[x].subject.Some? && s.key[x].subject == s.key[y].subject ==>
      MsgAt(s.w, x).None? && MsgAt(s.w, y).None?
  {
    hide MsgAt, Tops, Distinct, Pruned, Lodged;
    forall x, y | x in Tops(s.w) && y in Tops(s.w) && x != y && s.key[x].subject.Some? && s.key[x].subject == s.key[y].subject
      ensures MsgAt(s.w, x).None?
    {
      var e := s.table[s.key[x].subject.value];
      assert x in s.seen && y in s.seen;
    }
  }

  lemma AllSeen(f: Forest, s: Groups)
    requires Inv(f, s) && s.seen == Tops(s.w) && Counted(f, s, []) && AllWhole(f, s) && Joining(f, s, [])
    ensures Regrouped(f, s.w, s.key)
  {
    hide Together, AllWhole, Complete, Counted, Group, RootsLeft, NewPair, From, MsgAt, KidsAt, Above, Tops, Distinct, Pruned,
      Joining, JoinPair;
    EndWhole(f, s);
    EndJoining(f, s);
    SeenApart(s);
    forall t ensures |Group(Tops(s.w), s.key, t)| == RootsLeft(f, t) { EndCounts(f, s, t); }
  }

  /** A message gets a new ancestor only as part of a root reply, which comes below a root of the same
      subject that is none. */
  lemma JoinsNewly(f: Forest, w: Forest, key: map<Node, Key>, a: Msg, d: Msg)
    requires Regrouped(f, w, key) && Above(w, a, d)
    ensures Above(f, a, d) || NewPair(f, a, d)
  {
    hide Pruned, Distinct, RootsLeft, From, Kept, Group, Together, Above, Tops, KeyAt, MsgAt, KidsAt;
    if !Above(f, a, d) {
      var t, y :| y in Tops(f) && JoinsAt(f, t, y, a, d);
      ChosenFor(f, t);
      assert NewPairAt(f, Chosen(f)[t], y, a, d);
    }
  }

  /** Both messages were under roots of some subject. */
  ghost predicate OneSubject(f: Forest, a: Msg, d: Msg) {
    exists t :: From(f, a, Some(t)) && From(f, d, Some(t))
  }

  /** Messages come under one root only if they were before, or were under roots of one subject. */
  lemma OnlyJoined(f: Forest, w: Forest, key: map<Node, Key>, a: Msg, d: Msg)
    requires Regrouped(f, w, key) && Together(w, a, d)
    ensures Together(f, a, d) || OneSubject(f, a, d)
  {
    hide Pruned, Distinct, RootsLeft, From, NewPair, Kept, Group;
    var x :| x in Tops(w) && a in TreeMsgs(w, x) && d in TreeMsgs(w, x);
    if key[x].subject.None? {
      assert TreeMsgs(w, x) == TreeMsgs(f, x);
    } else {
      var t := key[x].subject.value;
      assert From(f, a, Some(t)) && From(f, d, Some(t));
    }
  }

  lemma RegroupedLeft(f: Forest, w: Forest, key: map<Node, Key>, t: string)
    requires Regrouped(f, w, key)
    ensures |Group(Tops(w), key, t)| == RootsLeft(f, t)
    ensures RootsLeft(f, t) >= 2 ==> forall x :: x in Group(Tops(w), key, t) ==> MsgAt(w, x).None?
  {
    hide Pruned, Distinct, RootsLeft, Tops, MsgAt, KidsAt, From, NewPair, Kept;
    var g := Group(Tops(w), key, t);
    if |g| >= 2 {
      forall x | x in g ensures MsgAt(w, x).None? {
        assert |g - {x}| >= 1;
        var y :| y in g - {x};
      }
    }
  }

  /** A subject of the roots is left with one root exactly when `BecomesOne` held before; otherwise
      with several, all of them empty. */
  lemma OneRoot(f: Forest, w: Forest, key: map<Node, Key>, t: string)
    requires Regrouped(f, w, key) && t in Chosen(f)
    ensures |Group(Tops(w), key, t)| >= 1
    ensures |Group(Tops(w), key, t)| == 1 <==> BecomesOne(f, t)
    ensures !BecomesOne(f, t) ==> forall x :: x in Group(Tops(w), key, t) ==> MsgAt(w, x).None?
  {
    hide Regrouped, RootsLeft, BecomesOne, Tops, MsgAt;
    RegroupedLeft(f, w, key, t);
    OneRootLeft(f, t);
  }

  // ---------------------------------------------------------------- what it does not promise

  /** An empty root `a` and two messages `b` and `c`, all of one subject. */
  ghost function ThreeRoots(a: Node, a1: Node, a2: Node, b: Node, c: Node, m1: Msg, m2: Msg, mb: Msg, mc: Msg): Forest {
    Cons(a, None, Cons(a1, Some(m1), Nil, Cons(a2, Some(m2), Nil, Nil)), Cons(b, Some(mb), Nil, Cons(c, Some(mc), Nil, Nil)))
  }

  /** The message is no reply and has this subject. */
  predicate About(m: Msg, t: string) {
    m.item.subject == Some(t) && !m.item.re
  }

  lemma ThreeRootsOk(a: Node, a1: Node, a2: Node, b: Node, c: Node, m1: Msg, m2: Msg, mb: Msg, mc: Msg)
    requires a != a1 && a != a2 && a != b && a != c && a1 != a2 && a1 != b && a1 != c && a2 != b && a2 != c && b != c
    ensures var f := ThreeRoots(a, a1, a2, b, c, m1, m2, mb, mc);
      Distinct(f) && Pruned(f) && Tops(f) == {a, b, c} && Nodes(f) == {a, a1, a2, b, c}
      && MsgAt(f, a) == None && MsgAt(f, b) == Some(mb) && MsgAt(f, c) == Some(mc)
      && KeyAt(f, a) == Key(m1.item.subject, m1.item.re) && KeyAt(f, b) == Key(mb.item.subject, mb.item.re)
      && KeyAt(f, c) == Key(mc.item.subject, mc.item.re)
  {
    var fc := Cons(c, Some(mc), Nil, Nil);
    var fb := Cons(b, Some(mb), Nil, fc);
    var k2 := Cons(a2, Some(m2), Nil, Nil);
    var k1 := Cons(a1, Some(m1), Nil, k2);
    assert Nodes(Nil) == {} && Tops(Nil) == {};
    assert Nodes(fc) == {c} && Distinct(fc) && Tops(fc) == {c} && Pruned(fc);
    assert Nodes(fb) == {b, c} && Distinct(fb) && Tops(fb) == {b, c} && Pruned(fb);
    assert Nodes(k2) == {a2} && Distinct(k2) && Full(k2) && Length(k2) == 1;
    assert Nodes(k1) == {a1, a2} && Distinct(k1) && Full(k1) && Length(k1) == 2;
    var f := Cons(a, None, k1, fb);
    assert Distinct(f) && Pruned(f) && Tops(f) == {a, b, c};
    assert MsgAt(fb, c) == MsgAt(fc, c);
  }

  /** The first message becomes the container of three roots of one subject, the first of them
      empty and the others no replies. */
  lemma FirstMessageChosen(f: Forest, a: Node, b: Node, c: Node, t: string)
    requires Tops(f) == {a, b, c} && Order(f) == [a, b, c] && a != b && a != c && b != c
    requires MsgAt(f, a).None? && MsgAt(f, b).Some? && MsgAt(f, c).Some?
    requires forall x :: x in Tops(f) ==> KeyAt(f, x) == Key(Some(t), false)
    ensures Chosen(f) == map[t := b]
  {
    hide MsgAt, KidsAt, KeyAt, Order, Tops, FileAll, Chosen;
    var q := [a, b, c];
    ChosenIs(f);
    FileAllNone(f);
    assert q[..0] == [] && q[..3] == q;
    FileAllNext(f, q, 0);
    FileAllNext(f, q, 1);
    FileAllNext(f, q, 2);
  }

  /** The empty root stays, and the second message puts the container into a new one. */
  lemma TwoLater(f: Forest, a: Node, b: Node, c: Node, t: string)
    requires Tops(f) == {a, b, c} && a != b && a != c && b != c
    requires MsgAt(f, a).None? && MsgAt(f, c).Some?
    requires forall x :: x in Tops(f) ==> KeyAt(f, x) == Key(Some(t), false)
    ensures Later(f, t, b, false, true, [a, b, c]) == 2
  {
    hide MsgAt, KidsAt, KeyAt, Tops, Later;
    LaterBlank(f, t, b, false, true, [a, b, c]);
    Elsewhere(f, t, b, false, b);
    assert [a, b, c][1..] == [b, c] && [b, c][1..] == [c];
    LaterSkip(f, t, b, false, false, [b, c]);
    LaterTwin(f, t, b, false, false, [c]);
  }

  lemma ThreeRootsLeft(a: Node, a1: Node, a2: Node, b: Node, c: Node, m1: Msg, m2: Msg, mb: Msg, mc: Msg, t: string)
    requires a != a1 && a != a2 && a != b && a != c && a1 != a2 && a1 != b && a1 != c && a2 != b && a2 != c && b != c
    requires About(m1, t) && About(mb, t) && About(mc, t)
    ensures var f := ThreeRoots(a, a1, a2, b, c, m1, m2, mb, mc); Chosen(f) == map[t := b] && RootsLeft(f, t) == 2
  {
    hide MsgAt, KidsAt, KeyAt, Order, Tops, FileAll, Chosen, Later, ThreeRoots;
    var f := ThreeRoots(a, a1, a2, b, c, m1, m2, mb, mc);
    ThreeRootsOk(a, a1, a2, b, c, m1, m2, mb, mc);
    ThreeRootsOrder(a, a1, a2, b, c, m1, m2, mb, mc);
    FirstMessageChosen(f, a, b, c, t);
    TwoLater(f, a, b, c, t);
  }

  lemma ThreeRootsOrder(a: Node, a1: Node, a2: Node, b: Node, c: Node, m1: Msg, m2: Msg, mb: Msg, mc: Msg)
    ensures Order(ThreeRoots(a, a1, a2, b, c, m1, m2, mb, mc)) == [a, b, c]
  {
    var fc := Cons(c, Some(mc), Nil, Nil);
    var fb := Cons(b, Some(mb), Nil, fc);
    assert Order(fc) == [c] + Order(Nil);
    assert Order(fb) == [b] + Order(fc);
  }

  /** Roots of one subject do not always become one: the empty root takes in the container, which is
      then paired with the other message in a new empty root, and both empty roots stay. */
  lemma LeftBehind(a: Node, a1: Node, a2: Node, b: Node, c: Node, m1: Msg, m2: Msg, mb: Msg, mc: Msg, t: string,
                   w: Forest, key: map<Node, Key>)
    requires a != a1 && a != a2 && a != b && a != c && a1 != a2 && a1 != b && a1 != c && a2 != b && a2 != c && b != c
    requires About(m1, t) && About(mb, t) && About(mc, t)
    requires Regrouped(ThreeRoots(a, a1, a2, b, c, m1, m2, mb, mc), w, key)
    ensures |Group(Tops(w), key, t)| == 2
    ensures forall x :: x in Group(Tops(w), key, t) ==> MsgAt(w, x).None?
  {
    hide RootsLeft, Regrouped, Tops, MsgAt;
    ThreeRootsLeft(a, a1, a2, b, c, m1, m2, mb, mc, t);
    RegroupedLeft(ThreeRoots(a, a1, a2, b, c, m1, m2, mb, mc), w, key, t);
  }
}
