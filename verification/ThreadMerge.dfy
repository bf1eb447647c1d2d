/** The merging loop of group_root_set, and the function as a whole.

    Each round handles the root after `clast`: it is passed, or merged with the container of its
    subject by one of the moves. `Position` says where the loop stands. What the loop keeps is the
    invariant `Inv` and the count of the roots of every subject; `ThreadPromise` says what follows
    for the result. */
module ThreadMerge {
  import opened Wrappers
  import opened ThreadForest
  import opened ThreadTops
  import opened ThreadMoves
  import opened ThreadRegroup
  import opened ThreadKeep
  import opened ThreadCount
  import opened ThreadPromise
  import opened ThreadWhole
  import opened ThreadJoins
  import opened ThreadSubjects

  /** The loop has passed the first `i` roots; `clast` is the last of them. */
  ghost predicate Position(s: Groups, clast: Node?, i: nat) {
    var o := Order(s.w);
    i <= |o| && s.seen == SetOf(o[..i]) && clast == if i == 0 then null else o[i - 1]
  }

  lemma PositionNext(list: Node?, s: Groups, clast: Node?, i: nat)
    requires Distinct(s.w) && Seg(list, Is(null), s.w, null, true) && Position(s, clast, i)
    ensures var o := Order(s.w);
      (if clast == null then list else clast.next) == (if i < |o| then o[i] else null)
    ensures var o := Order(s.w); i < |o| ==> o[i] in Tops(s.w) && o[i] !in s.seen && clast == Tail(Before(s.w, o[i]))
  {
    hide Seg, Distinct, Before, After, Tops, Order, Tail;
    var o := Order(s.w);
    OrderTops(s.w);
    if i > 0 {
      SegOrder(list, Is(null), s.w, null, true, i - 1);
    } else if |o| > 0 {
      SegOrder(list, Is(null), s.w, null, true, 0);
    } else {
      SegEmpty(list, s.w);
    }
    if i < |o| { OrderAt(s.w, i); }
  }

  lemma PassPosition(s: Groups, clast: Node?, i: nat)
    requires Position(s, clast, i) && i < |Order(s.w)|
    ensures Position(Pass(s, Order(s.w)[i]), Order(s.w)[i], i + 1)
  {
    SetOfNext(Order(s.w), i);
  }

  lemma MergePosition(s: Groups, clast: Node?, i: nat, c: Node, e: Node)
    requires Tables(s) && Match(s, c, e) && Position(s, clast, i) && i < |Order(s.w)| && c == Order(s.w)[i]
    ensures Position(Merge(s, c, e), clast, i) && |Order(Merge(s, c, e).w)| == |Order(s.w)| - 1
    ensures Order(Merge(s, c, e).w)[i..] == Order(s.w)[i + 1..]
  {
    hide Order, Distinct, Tops, Adopted, SetOf;
    MatchProps(s, c, e);
    DetachNodes(s.w, c);
    DetachPlaced(s.w, c, e);
    DetachTop(s.w, c);
    OrderCut(s.w, c, i);
    OrderSetKids(Detach(s.w, c), e, KidsWith(s, c, e));
    var o, o' := Order(s.w), Order(Merge(s, c, e).w);
    assert o'[..i] == o[..i] && o'[i..] == o[i + 1..];
  }

  /** Taking one more node out of a list without duplicates, around position `i`. */
  lemma SeqWithout(o: seq<Node>, i: nat, j: nat)
    requires i < |o| && j < |o| && i != j && forall a, b :: 0 <= a < b < |o| ==> o[a] != o[b]
    ensures var o', i' := o[..j] + o[j + 1..], if j < i then i - 1 else i;
      && o'[i'] == o[i] && SetOf(o'[..i']) == SetOf(o[..i]) - {o[j]}
  {
    var o', i' := o[..j] + o[j + 1..], if j < i then i - 1 else i;
    if j < i {
      assert o[..i] == o[..j] + [o[j]] + o[j + 1..i];
      assert o'[..i'] == o[..j] + o[j + 1..i];
    } else {
      assert o'[..i'] == o[..i];
    }
  }

  lemma SeqAfter(o: seq<Node>, i: nat, j: nat)
    requires i < |o| && j < |o| && i != j && forall a, b :: 0 <= a < b < |o| ==> o[a] != o[b]
    ensures var o', i' := o[..j] + o[j + 1..], if j < i then i - 1 else i;
      o'[i' + 1..] == Sans(o[i + 1..], o[j])
  {
    var o', i' := o[..j] + o[j + 1..], if j < i then i - 1 else i;
    if j < i {
      SansNone(o[i + 1..], o[j]);
      assert o'[i' + 1..] == o[i + 1..];
    } else {
      SansMiddle(o[i + 1..j], o[j], o[j + 1..]);
      assert o[i + 1..] == o[i + 1..j] + [o[j]] + o[j + 1..];
      assert o'[i' + 1..] == o[i + 1..j] + o[j + 1..];
    }
  }

  /** Where `c` is once the container is taken out. */
  lemma DetachPosition(s: Groups, clast: Node?, i: nat, c: Node, e: Node) returns (i': nat)
    requires Tables(s) && Match(s, c, e) && Position(s, clast, i) && i < |Order(s.w)| && c == Order(s.w)[i]
    ensures Placed(s.w, e)
    ensures var o := Order(Detach(s.w, e));
      && i' < |o| && o[i'] == c && SetOf(o[..i']) == s.seen - {e} && |o| - i' <= |Order(s.w)| - i
      && o[i' + 1..] == Sans(Order(s.w)[i + 1..], e)
  {
    hide Order, Distinct, Tops, Adopted, SetOf, Sans, CutTop, Detach, Lodged;
    MatchProps(s, c, e);
    OrderTops(s.w);
    if e in Tops(s.w) {
      var j := OrderIndex(s.w, e);
      OrderCut(s.w, e, j);
      DetachTop(s.w, e);
      SeqWithout(Order(s.w), i, j);
      SeqAfter(Order(s.w), i, j);
      i' := if j < i then i - 1 else i;
    } else {
      OrderDetachKid(s.w, e);
      assert e !in Order(s.w)[i + 1..];
      SansNone(Order(s.w)[i + 1..], e);
      i' := i;
    }
  }

  lemma AdoptPosition(s: Groups, clast: Node?, i: nat, c: Node, e: Node) returns (i': nat)
    requires Tables(s) && Match(s, c, e) && MsgAt(s.w, c).None? && Position(s, clast, i)
    requires i < |Order(s.w)| && c == Order(s.w)[i]
    ensures Position(Adopt(s, c, e), c, i') && i' <= |Order(Adopt(s, c, e).w)|
    ensures |Order(Adopt(s, c, e).w)| - i' < |Order(s.w)| - i
    ensures Order(Adopt(s, c, e).w)[i'..] == Sans(Order(s.w)[i + 1..], e)
  {
    hide Order, Distinct, Tops, Adopted, SetOf;
    MatchProps(s, c, e);
    DetachNodes(s.w, e);
    var w := Detach(s.w, e);
    i' := DetachPosition(s, clast, i, c, e);
    OrderSetKids(w, c, Cons(e, TreeMsg(s.w, e), TreeKids(s.w, e), KidsAt(w, c)));
    SetOfNext(Order(w), i');
    i' := i' + 1;
  }

  lemma PairPosition(s: Groups, clast: Node?, i: nat, c: Node, e: Node, scan: Node) returns (i': nat)
    requires Tables(s) && Match(s, c, e) && Position(s, clast, i)
    requires i < |Order(s.w)| && c == Order(s.w)[i]
    ensures Position(Pair(s, c, e, scan), scan, i') && i' <= |Order(Pair(s, c, e, scan).w)|
    ensures |Order(Pair(s, c, e, scan).w)| - i' < |Order(s.w)| - i
    ensures Order(Pair(s, c, e, scan).w)[i'..] == Sans(Order(s.w)[i + 1..], e)
  {
    hide Order, Distinct, Tops, Adopted, SetOf;
    MatchProps(s, c, e);
    DetachNodes(s.w, e);
    var w := Detach(s.w, e);
    i' := DetachPosition(s, clast, i, c, e);
    OrderPut(w, c, scan, None, PairKids(s, c, e), i');
    var o, o' := Order(w), Order(Pair(s, c, e, scan).w);
    SetOfNext(o', i');
    assert o'[..i'] == o[..i'] && o'[i' + 1..] == o[i' + 1..];
    i' := i' + 1;
  }

  /** Two messages with different reply bits and the container the reply: it cannot be. */
  lemma NotUnderReply(f: Forest, s: Groups, c: Node, e: Node)
    requires Inv(f, s) && Match(s, c, e) && MsgAt(s.w, c).Some? && Placed(s.w, e) && TreeMsg(s.w, e).Some?
    ensures s.key[c].re || !s.key[e].re
  {
  }

  lemma RootFields(list: Node?, s: Groups, x: Node)
    requires Tables(s) && Roots(list, s) && x in s.key
    ensures x.rootSubject == s.key[x].subject && x.re == s.key[x].re
  {
  }

  lemma MatchHere(f: Forest, s: Groups, c: Node)
    requires Inv(f, s) && c in Tops(s.w) && c !in s.seen
    ensures Tables(s) && c in s.key
    ensures s.key[c].subject.Some? ==> s.key[c].subject.value in s.table
    ensures s.key[c].subject.Some? && s.table[s.key[c].subject.value] != c ==>
              Match(s, c, s.table[s.key[c].subject.value])
    ensures s.key[c].subject.Some? && s.table[s.key[c].subject.value] == c ==> Entry(s, c)
  {
    assert c in s.key;
  }

  /** The roots from position `i` on. */
  lemma RestAt(w: Forest, i: nat)
    requires Distinct(w) && i < |Order(w)|
    ensures var q, o := Order(w)[i..], Order(w); q[0] == o[i] && q[1..] == o[i + 1..] && o[i] !in q[1..]
  {
    OrderTops(w);
  }

  /** The root `c` meets the container of its subject. */
  method MergeRoot(list: Node?, clast: Node?, c: Node, container: Node, table: map<string, Node>,
                   ghost f: Forest, ghost s: Groups, ghost i: nat)
    returns (list': Node?, clast': Node?, table': map<string, Node>, ghost s': Groups, ghost i': nat)
    requires Inv(f, s) && Roots(list, s) && table == s.table && Position(s, clast, i) && Match(s, c, container)
    requires i < |Order(s.w)| && c == Order(s.w)[i] && clast == Tail(Before(s.w, c))
    requires Counted(f, s, Order(s.w)[i..]) && AllWhole(f, s) && Joining(f, s, Order(s.w)[i..])
    modifies Nodes(s.w)
    ensures Inv(f, s') && Roots(list', s') && table' == s'.table && Position(s', clast', i')
    ensures i' <= |Order(s'.w)| && |Order(s'.w)| - i' < |Order(s.w)| - i
    ensures Counted(f, s', Order(s'.w)[i'..]) && AllWhole(f, s') && Joining(f, s', Order(s'.w)[i'..])
    ensures forall x :: x in Nodes(s'.w) ==> x in Nodes(s.w) || fresh(x)
  {
    hide Seg, Distinct, KidsAt, MsgAt, Nodes, Before, After, Tops, Adopted, Tail, CutTop, Detach, Order, Position,
      NoReplyAbove, Kept, Sound, Complete, Roots, Lodged, Counted, AllWhole, Joining, Ahead;
    ghost var e := container;
    ghost var q := Order(s.w)[i..];
    RestAt(s.w, i);
    CountedAhead(f, s, q);
    ContainerOk(list, s, c, e);
    RootFields(list, s, c);
    MatchProps(s, c, e);
    RootFields(list, s, e);
    TopsNodes(s.w);
    PlacedIn(s.w, e);
    table' := table;
    if c.item == None && container.item == None {
      list' := MergeEmpty(list, clast, c, container, s);
      clast', s', i' := clast, Merge(s, c, e), i;
      MergeKeeps(f, s, c, e);
      MergePosition(s, clast, i, c, e);
      MergeForest(s, c, e);
      MergeCounts(f, s, c, e, q);
      AllMerge(f, s, c, e);
      MergeJoining(f, s, c, e, q);
    } else if c.item == None && container.item != None {
      list' := AdoptContainer(list, clast, c, container, s);
      clast', s' := c, Adopt(s, c, e);
      AdoptKeeps(f, s, c, e);
      i' := AdoptPosition(s, clast, i, c, e);
      AdoptForest(s, c, e);
      AdoptCounts(f, s, c, e, q);
      AllAdopt(f, s, c, e);
      AdoptJoining(f, s, c, e, q);
    } else if (c.item != None && container.item == None) || (c.re && !container.re) {
      list' := PutUnder(list, clast, c, container, s);
      clast', s', i' := clast, Merge(s, c, e), i;
      MergeKeeps(f, s, c, e);
      MergePosition(s, clast, i, c, e);
      MergeForest(s, c, e);
      MergeCounts(f, s, c, e, q);
      AllMerge(f, s, c, e);
      MergeJoining(f, s, c, e, q);
    } else if !c.re && container.re {
      NotUnderReply(f, s, c, e);
      assert false;
    } else {
      var scan;
      list', scan, s' := PairUp(list, clast, c, container, s);
      RootFields(list', s', scan);
      table' := table[scan.rootSubject.value := scan];
      clast' := scan;
      PairKeeps(f, s, c, e, scan);
      i' := PairPosition(s, clast, i, c, e, scan);
      PairForest(s, c, e, scan);
      PairCounts(f, s, c, e, scan, q);
      AllPair(f, s, c, e, scan);
      PairJoining(f, s, c, e, scan, q);
    }
  }

  // ---------------------------------------------------------------- the function

  lemma InvDistinct(f: Forest, s: Groups)
    requires Inv(f, s)
    ensures Distinct(s.w) && Tables(s)
  {
  }

  lemma RootsSeg(list: Node?, s: Groups)
    requires Tables(s) && Roots(list, s)
    ensures Seg(list, Is(null), s.w, null, true)
  {
  }

  /** group_root_set. */
  method GroupRootSet(list: Node?, ghost f: Forest) returns (list': Node?, ghost w: Forest, ghost key: map<Node, Key>)
    requires Distinct(f) && Pruned(f) && Seg(list, Is(null), f, null, false)
    modifies Nodes(f)
    ensures Seg(list', Is(null), w, null, true) && Regrouped(f, w, key)
    ensures forall x :: x in Nodes(w) ==> x in Nodes(f) || fresh(x)
  {
    hide Seg, Distinct, KidsAt, MsgAt, Nodes, Before, After, Tops, Adopted, Tail, Order, Position,
      NoReplyAbove, Kept, Sound, Complete, Roots, Lodged, Inv, Regrouped, Tables, Entry, Counted, Chosen, KeyAt,
      AllWhole, Joining, Ahead;
    SegLoosen(list, Is(null), f, null);
    NodesAllocated(f);
    var table: map<string, Node>;
    table, key := Gather(list, f);
    ghost var s := Groups(f, {}, table, key);
    ghost var i: nat := 0;
    list' := list;
    var clast: Node? := null;
    InvDistinct(f, s);
    RootsSeg(list', s);
    StartPosition(s);
    StartCounts(f, s);
    ChosenValues(f);
    StartWhole(f, s);
    StartJoining(f, s);
    assert Order(s.w)[0..] == Order(f);
    PositionNext(list', s, clast, i);
    while (if clast == null then list' else clast.next) != null
      invariant Inv(f, s) && Tables(s) && Distinct(s.w) && Roots(list', s) && table == s.table && Position(s, clast, i)
      invariant i <= |Order(s.w)| && Counted(f, s, Order(s.w)[i..]) && AllWhole(f, s) && Joining(f, s, Order(s.w)[i..])
      invariant (if clast == null then list' else clast.next) == (if i < |Order(s.w)| then Order(s.w)[i] else null)
      invariant forall x :: x in Nodes(s.w) ==> x in Nodes(f) || fresh(x)
      decreases |Order(s.w)| - i
    {
      var c := if clast == null then list' else clast.next;
      RootsSeg(list', s);
      PositionNext(list', s, clast, i);
      MatchHere(f, s, c);
      RootFields(list', s, c);
      TopsNodes(s.w);
      if c.rootSubject != None && c.rootSubject.value in table && table[c.rootSubject.value] != c {
        list', clast, table, s, i := MergeRoot(list', clast, c, table[c.rootSubject.value], table, f, s, i);
      } else {
        PassKeeps(f, s, c);
        PassPosition(s, clast, i);
        PassRoots(list', s, c);
        RestAt(s.w, i);
        InvDistinct(f, Pass(s, c));
        PassCounts(f, s, c, Order(s.w)[i..]);
        PassWhole(f, s, c);
        CountedAhead(f, s, Order(s.w)[i..]);
        PassJoining(f, s, c, Order(s.w)[i..]);
        s, i := Pass(s, c), i + 1;
        clast := c;
      }
      InvDistinct(f, s);
      RootsSeg(list', s);
      PositionNext(list', s, clast, i);
      PositionBound(s, clast, i);
    }
    EndPosition(s, clast, i);
    assert Order(s.w)[i..] == [];
    AllSeen(f, s);
    RootsSeg(list', s);
    w, key := s.w, s.key;
  }

  lemma ChosenValues(f: Forest)
    ensures Chosen(f).Values <= Tops(f)
  {
    hide Tops;
  }

  lemma StartPosition(s: Groups)
    requires s.seen == {}
    ensures Position(s, null, 0)
  {
    assert SetOf(Order(s.w)[..0]) == {};
  }

  lemma PositionBound(s: Groups, clast: Node?, i: nat)
    requires Position(s, clast, i)
    ensures i <= |Order(s.w)|
  {
  }

  lemma EndPosition(s: Groups, clast: Node?, i: nat)
    requires Position(s, clast, i) && i == |Order(s.w)|
    ensures s.seen == Tops(s.w)
  {
    OrderTops(s.w);
    assert Order(s.w)[..i] == Order(s.w);
  }

  lemma PassRoots(list: Node?, s: Groups, c: Node)
    requires Tables(s) && Roots(list, s) && Tables(Pass(s, c))
    ensures Roots(list, Pass(s, c))
  {
  }
}
