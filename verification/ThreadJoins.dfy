/** Which replies regrouping puts below a message: the exact ancestors afterwards.

    A root of a subject with a container that is a message and no reply goes below it if it is a reply
    and comes up before another message that is none, since that one makes the container an empty
    root. */
module ThreadJoins {
  import opened Wrappers
  import opened ThreadForest
  import opened ThreadTops
  import opened ThreadMoves
  import opened ThreadRegroup
  import opened ThreadKeep
  import opened ThreadCount

  /** The place of a root. */
  ghost function Pos(f: Forest, x: Node): nat
    requires x in Tops(f)
  {
    if f.node == x then 0 else 1 + Pos(f.rest, x)
  }

  lemma {:induction false} PosOrder(f: Forest, i: nat)
    requires Distinct(f) && i < |Order(f)|
    ensures Order(f)[i] in Tops(f) && Pos(f, Order(f)[i]) == i
  {
    OrderTops(f);
    if i > 0 {
      PosOrder(f.rest, i - 1);
      TopsNodes(f.rest);
    }
  }

  /** The root `y` comes below the container of `t`: that is a message and no reply, `y` is a message and a
      reply, and no other message that is no reply stands before `y`. */
  ghost predicate Joins(f: Forest, t: string, y: Node) {
    && t in Chosen(f) && MsgAt(f, Chosen(f)[t]).Some? && !KeyAt(f, Chosen(f)[t]).re
    && y in Tops(f) && y != Chosen(f)[t] && KeyAt(f, y) == Key(Some(t), true) && MsgAt(f, y).Some?
    && forall z :: z in Tops(f) && Twin(f, t, Chosen(f)[t], false, z) ==> Pos(f, y) < Pos(f, z)
  }

  ghost predicate JoinsAt(f: Forest, t: string, y: Node, a: Msg, d: Msg) {
    Joins(f, t, y) && MsgAt(f, Chosen(f)[t]) == Some(a) && d in TreeMsgs(f, y)
  }

  /** `a` is such a container and `d` belongs to such a reply. */
  ghost predicate JoinPair(f: Forest, a: Msg, d: Msg) {
    exists t, y :: y in Tops(f) && JoinsAt(f, t, y, a, d)
  }

  // ---------------------------------------------------------------- what a round keeps

  ghost predicate Rising(f: Forest, q: seq<Node>)
    requires forall x :: x in q ==> x in Tops(f)
  {
    forall i, j :: 0 <= i < j < |q| ==> Pos(f, q[i]) < Pos(f, q[j])
  }

  /** The roots to come are in their order, and all but containers stand before them. */
  ghost predicate InTurn(f: Forest, q: seq<Node>) {
    && (forall x :: x in q ==> x in Tops(f)) && Rising(f, q)
    && (forall x :: x in Tops(f) && x !in q ==> x in Chosen(f).Values || forall z :: z in q ==> Pos(f, x) < Pos(f, z))
  }

  /** A message with the reply bit of the container was passed. */
  ghost predicate TwinDone(f: Forest, t: string, q: seq<Node>) {
    t in Chosen(f) && exists z :: z in Tops(f) && z !in q && Twin(f, t, Chosen(f)[t], KeyAt(f, Chosen(f)[t]).re, z)
  }

  /** The container is the one chosen, until such a message makes a new one; that is empty. */
  ghost predicate CurrentAt(f: Forest, s: Groups, q: seq<Node>, t: string)
    requires Distinct(s.w) && t in s.table && Placed(s.w, s.table[t])
  {
    t in Chosen(f) &&
    if MsgAt(f, Chosen(f)[t]).Some? && TwinDone(f, t, q) then TreeMsg(s.w, s.table[t]).None?
    else s.table[t] == Chosen(f)[t] && TreeMsg(s.w, s.table[t]) == MsgAt(f, s.table[t])
  }

  ghost predicate Current(f: Forest, s: Groups, q: seq<Node>)
    requires Tables(s)
  {
    forall t :: t in s.table ==> CurrentAt(f, s, q, t)
  }

  /** The replies passed are below their containers. */
  ghost predicate Joined(f: Forest, w: Forest, q: seq<Node>) {
    forall t, y, a, d :: y in Tops(f) && y !in q && JoinsAt(f, t, y, a, d) ==> Above(w, a, d)
  }

  ghost predicate OnlyJoins(f: Forest, w: Forest) {
    forall a, d :: Above(w, a, d) ==> Above(f, a, d) || JoinPair(f, a, d)
  }

  ghost predicate Joining(f: Forest, s: Groups, q: seq<Node>)
    requires Tables(s)
  {
    InTurn(f, q) && Current(f, s, q) && Joined(f, s.w, q) && OnlyJoins(f, s.w)
  }

  // ---------------------------------------------------------------- the order of the rounds

  lemma InTurnStart(f: Forest)
    requires Distinct(f)
    ensures InTurn(f, Order(f))
  {
    OrderTops(f);
    var q := Order(f);
    forall i, j | 0 <= i < j < |q| ensures Pos(f, q[i]) < Pos(f, q[j]) {
      PosOrder(f, i);
      PosOrder(f, j);
    }
  }

  lemma InTurnNext(f: Forest, q: seq<Node>)
    requires InTurn(f, q) && q != []
    ensures InTurn(f, q[1..])
  {
    hide Pos, Tops;
    var r := q[1..];
    assert forall z :: z in r ==> z in q;
    assert forall i :: 0 <= i < |r| ==> r[i] == q[i + 1];
    forall x | x in Tops(f) && x !in r && x !in Chosen(f).Values ensures forall z :: z in r ==> Pos(f, x) < Pos(f, z) {
      if x in q { assert x == q[0]; }
    }
  }

  lemma {:induction false} SansMembers(q: seq<Node>, e: Node)
    ensures forall x :: x in Sans(q, e) <==> x in q && x != e
  {
    if q != [] {
      SansMembers(q[1..], e);
      assert forall x :: x in q <==> x == q[0] || x in q[1..];
    }
  }

  lemma RisingTail(f: Forest, q: seq<Node>)
    requires (forall x :: x in q ==> x in Tops(f)) && Rising(f, q) && q != []
    ensures (forall x :: x in q[1..] ==> x in q) && Rising(f, q[1..])
    ensures forall x :: x in q[1..] ==> Pos(f, q[0]) < Pos(f, x)
  {
    hide Pos, Tops;
    assert forall i :: 0 <= i < |q[1..]| ==> q[1..][i] == q[i + 1];
  }

  lemma RisingCons(f: Forest, x: Node, q: seq<Node>)
    requires x in Tops(f) && (forall z :: z in q ==> z in Tops(f)) && Rising(f, q) && forall z :: z in q ==> Pos(f, x) < Pos(f, z)
    ensures Rising(f, [x] + q)
  {
    hide Pos, Tops;
  }

  /** A container is taken out. */
  lemma {:induction false} SansRising(f: Forest, q: seq<Node>, e: Node)
    requires (forall x :: x in q ==> x in Tops(f)) && Rising(f, q)
    ensures (forall x :: x in Sans(q, e) ==> x in q) && Rising(f, Sans(q, e))
  {
    hide Pos, Tops, Rising;
    SansMembers(q, e);
    if q == [] {
    } else {
      RisingTail(f, q);
      SansRising(f, q[1..], e);
      if q[0] != e { RisingCons(f, q[0], Sans(q[1..], e)); }
    }
  }

  lemma InTurnSans(f: Forest, q: seq<Node>, e: Node)
    requires InTurn(f, q) && (e in Tops(f) ==> e in Chosen(f).Values)
    ensures InTurn(f, Sans(q, e))
  {
    hide Pos, Tops, Sans, Chosen;
    SansMembers(q, e);
    SansRising(f, q, e);
    var r := Sans(q, e);
    assert Rising(f, r);
    forall x | x in Tops(f) && x !in r && x !in Chosen(f).Values ensures forall z :: z in r ==> Pos(f, x) < Pos(f, z) {
      assert x !in q;
    }
  }

  // ---------------------------------------------------------------- the current container

  lemma NotDone(f: Forest, t: string, q: seq<Node>, r: seq<Node>)
    requires forall x :: x in r ==> x in q
    requires t in Chosen(f) ==> forall x :: x in q && x !in r ==> !Twin(f, t, Chosen(f)[t], KeyAt(f, Chosen(f)[t]).re, x)
    ensures TwinDone(f, t, r) <==> TwinDone(f, t, q)
  {
    hide Twin, KeyAt, Tops, Chosen;
    if TwinDone(f, t, r) {
      var z :| z in Tops(f) && z !in r && Twin(f, t, Chosen(f)[t], KeyAt(f, Chosen(f)[t]).re, z);
      assert z !in q;
    }
    if TwinDone(f, t, q) {
      var z :| z in Tops(f) && z !in q && Twin(f, t, Chosen(f)[t], KeyAt(f, Chosen(f)[t]).re, z);
      assert z !in r;
    }
  }

  /** A reply whose turn it is meets the chosen container. */
  lemma JoinsNow(f: Forest, t: string, q: seq<Node>)
    requires InTurn(f, q) && q != [] && Joins(f, t, q[0])
    ensures !TwinDone(f, t, q)
  {
    hide Pos, Tops;
    ChosenFor(f, t);
    if TwinDone(f, t, q) {
      var z :| z in Tops(f) && z !in q && Twin(f, t, Chosen(f)[t], KeyAt(f, Chosen(f)[t]).re, z);
      if z in Chosen(f).Values {
        var u :| u in Chosen(f) && Chosen(f)[u] == z;
        ChosenFor(f, u);
      }
    }
  }

  /** And a reply that meets it is one that joins. */
  lemma NowJoins(f: Forest, t: string, q: seq<Node>)
    requires InTurn(f, q) && q != [] && t in Chosen(f) && !TwinDone(f, t, q)
    requires MsgAt(f, Chosen(f)[t]).Some? && !KeyAt(f, Chosen(f)[t]).re
    requires q[0] != Chosen(f)[t] && KeyAt(f, q[0]) == Key(Some(t), true) && MsgAt(f, q[0]).Some?
    ensures Joins(f, t, q[0])
  {
    hide Pos, Tops;
    forall z | z in Tops(f) && Twin(f, t, Chosen(f)[t], false, z) ensures Pos(f, q[0]) < Pos(f, z) {
      assert z in q;
      var i :| 0 <= i < |q| && q[i] == z;
      assert i != 0;
    }
  }

  lemma CurrentKept(f: Forest, s: Groups, s': Groups, q: seq<Node>, r: seq<Node>, t: string)
    requires Distinct(s.w) && t in s.table && Placed(s.w, s.table[t])
    requires Distinct(s'.w) && t in s'.table && Placed(s'.w, s'.table[t])
    requires CurrentAt(f, s, q, t) && s'.table[t] == s.table[t] && TreeMsg(s'.w, s'.table[t]) == TreeMsg(s.w, s.table[t])
    requires TwinDone(f, t, r) <==> TwinDone(f, t, q)
    ensures CurrentAt(f, s', r, t)
  {
  }

  lemma CurrentIs(f: Forest, s: Groups, q: seq<Node>, t: string)
    requires Tables(s) && Current(f, s, q) && t in s.table
    ensures Distinct(s.w) && Placed(s.w, s.table[t]) && CurrentAt(f, s, q, t)
  {
  }

  /** A container that is a message is the one chosen. */
  lemma CurrentMessage(f: Forest, s: Groups, c: Node, e: Node, q: seq<Node>)
    requires Tables(s) && Sound(f, s) && Match(s, c, e) && Current(f, s, q) && Placed(s.w, e) && TreeMsg(s.w, e).Some?
    ensures var t := s.key[c].subject.value;
      && t in Chosen(f) && e == Chosen(f)[t] && !TwinDone(f, t, q)
      && e in Tops(f) && MsgAt(f, e) == TreeMsg(s.w, e) && e in s.key && KeyAt(f, e) == s.key[e]
  {
    hide Tops, MsgAt, KeyAt, TreeMsg, Twin, Chosen, TwinDone;
    MatchProps(s, c, e);
    MatchTable(s, c, e);
    CurrentIs(f, s, q, s.key[c].subject.value);
  }

  /** The next root, which is no container, is as it was. */
  lemma NextRoot(f: Forest, s: Groups, c: Node, e: Node, q: seq<Node>)
    requires Tables(s) && Sound(f, s) && Match(s, c, e) && q != [] && c == q[0] && Ahead(f, s, q)
    ensures c in s.key && c in Tops(f) && KeyAt(f, c) == s.key[c] && MsgAt(f, c) == MsgAt(s.w, c) && TreeMsgs(f, c) == TreeMsgs(s.w, c)
  {
    hide Tops, MsgAt, KidsAt, KeyAt;
    MatchProps(s, c, e);
    assert Untouched(f, s, c);
  }

  // ---------------------------------------------------------------- merging

  lemma MergeCurrent(f: Forest, s: Groups, c: Node, e: Node, q: seq<Node>, t: string)
    requires Tables(s) && Sound(f, s) && Match(s, c, e) && MayMerge(s, c, e) && Tables(Merge(s, c, e))
    requires q != [] && c == q[0] && c !in q[1..] && Ahead(f, s, q) && Current(f, s, q) && t in s.table
    ensures Distinct(Merge(s, c, e).w) && Placed(Merge(s, c, e).w, s.table[t]) && CurrentAt(f, Merge(s, c, e), q[1..], t)
  {
    hide Tops, MsgAt, KidsAt, KeyAt, TreeMsg, Tables, Sound, Detach, SetKids, KidsWith, Adopted, Distinct, Chosen, Current;
    NextRoot(f, s, c, e, q);
    MatchProps(s, c, e);
    MergeOther(s, c, e, t);
    CurrentIs(f, s, q, t);
    var r, s' := q[1..], Merge(s, c, e);
    if t == s.key[c].subject.value && TreeMsg(s.w, e).None? {
      DoneLater(f, t, q, r);
    } else {
      if t == s.key[c].subject.value { CurrentMessage(f, s, c, e, q); }
      NotDone(f, t, q, r);
      CurrentKept(f, s, s', q, r, t);
    }
  }

  lemma DoneLater(f: Forest, t: string, q: seq<Node>, r: seq<Node>)
    requires forall x :: x in r ==> x in q
    ensures TwinDone(f, t, q) ==> TwinDone(f, t, r)
  {
    hide Twin, KeyAt, Tops, Chosen;
  }

  lemma MergeJoined(f: Forest, s: Groups, c: Node, e: Node, q: seq<Node>, t: string, y: Node, a: Msg, d: Msg)
    requires Tables(s) && Sound(f, s) && Match(s, c, e) && MayMerge(s, c, e)
    requires q != [] && c == q[0] && Ahead(f, s, q) && InTurn(f, q) && Current(f, s, q) && Joined(f, s.w, q)
    requires y in Tops(f) && y !in q[1..] && JoinsAt(f, t, y, a, d)
    ensures Above(Merge(s, c, e).w, a, d)
  {
    hide Tops, MsgAt, KidsAt, KeyAt, TreeMsg, Tables, Sound, Detach, SetKids, KidsWith, Adopted, Distinct, Chosen, Current, InTurn, Above;
    NextRoot(f, s, c, e, q);
    MatchProps(s, c, e);
    MatchTable(s, c, e);
    MergeAbove(s, c, e, a, d);
    if y == c {
      JoinsNow(f, t, q);
      CurrentIs(f, s, q, t);
    }
  }

  lemma MergeOnly(f: Forest, s: Groups, c: Node, e: Node, q: seq<Node>, a: Msg, d: Msg)
    requires Tables(s) && Sound(f, s) && Match(s, c, e) && MayMerge(s, c, e)
    requires q != [] && c == q[0] && Ahead(f, s, q) && InTurn(f, q) && Current(f, s, q) && OnlyJoins(f, s.w)
    requires Above(Merge(s, c, e).w, a, d)
    ensures Above(f, a, d) || JoinPair(f, a, d)
  {
    hide Tops, MsgAt, KidsAt, KeyAt, TreeMsg, Tables, Sound, Detach, SetKids, KidsWith, Adopted, Distinct, Chosen, Current, InTurn, Above, Joins;
    NextRoot(f, s, c, e, q);
    MatchProps(s, c, e);
    MergeAbove(s, c, e, a, d);
    if !Above(s.w, a, d) {
      CurrentMessage(f, s, c, e, q);
      var t := s.key[c].subject.value;
      NowJoins(f, t, q);
      assert JoinsAt(f, t, c, a, d);
    }
  }

  lemma MergeJoining(f: Forest, s: Groups, c: Node, e: Node, q: seq<Node>)
    requires Inv(f, s) && Match(s, c, e) && MayMerge(s, c, e) && Tables(Merge(s, c, e))
    requires q != [] && c == q[0] && c !in q[1..] && Ahead(f, s, q) && Joining(f, s, q)
    ensures Joining(f, Merge(s, c, e), q[1..])
  {
    hide Tops, MsgAt, KidsAt, KeyAt, Tables, Sound, Merge, Match, MayMerge, Ahead, InTurn, Above, JoinPair, JoinsAt, CurrentAt, Chosen,
      NoReplyAbove, Kept, Complete;
    InTurnNext(f, q);
    MergeSame(s, c, e);
    forall t | t in s.table
      ensures Distinct(Merge(s, c, e).w) && Placed(Merge(s, c, e).w, s.table[t]) && CurrentAt(f, Merge(s, c, e), q[1..], t)
    {
      MergeCurrent(f, s, c, e, q, t);
    }
    forall t, y, a, d | y in Tops(f) && y !in q[1..] && JoinsAt(f, t, y, a, d) ensures Above(Merge(s, c, e).w, a, d) {
      MergeJoined(f, s, c, e, q, t, y, a, d);
    }
    forall a, d | Above(Merge(s, c, e).w, a, d) ensures Above(f, a, d) || JoinPair(f, a, d) {
      MergeOnly(f, s, c, e, q, a, d);
    }
  }

  lemma MergeSame(s: Groups, c: Node, e: Node)
    requires Tables(s) && Match(s, c, e)
    ensures Merge(s, c, e).table == s.table
  {
  }

  // ---------------------------------------------------------------- the other moves

  /** Adopting and pairing leave the ancestors as they are; `q` loses `c`, which does not join, and `e`. */
  lemma JoinedKept(f: Forest, w: Forest, w': Forest, q: seq<Node>, r: seq<Node>)
    requires Joined(f, w, q) && OnlyJoins(f, w) && forall a, d :: Above(w', a, d) <==> Above(w, a, d)
    requires forall t, y :: y in Tops(f) && y in q && y !in r ==> !Joins(f, t, y)
    ensures Joined(f, w', r) && OnlyJoins(f, w')
  {
    hide Above, Joins, Tops, JoinPair, Chosen;
    forall t, y, a, d | y in Tops(f) && y !in r && JoinsAt(f, t, y, a, d) ensures Above(w', a, d) {
      assert y !in q;
    }
  }

  lemma ContainerJoinsNot(f: Forest, e: Node, t: string)
    requires e in Tops(f) && exists u :: u in Chosen(f) && Chosen(f)[u] == e
    ensures !Joins(f, t, e)
  {
    hide Tops, Pos, Chosen, MsgAt, KeyAt;
    var u :| u in Chosen(f) && Chosen(f)[u] == e;
    ChosenFor(f, u);
  }

  /** Only the first root and the container are gone. */
  lemma SansLeaves(q: seq<Node>, e: Node)
    requires q != []
    ensures forall x :: x in Sans(q[1..], e) ==> x in q
    ensures forall x :: x in q && x !in Sans(q[1..], e) ==> x == q[0] || x == e
  {
    SansMembers(q[1..], e);
    assert forall x :: x in q <==> x == q[0] || x in q[1..];
    forall x | x in Sans(q[1..], e) ensures x in q { SansIn(q[1..], e, x); }
  }

  lemma TwinNot(f: Forest, t: string, x: Node)
    requires x in Tops(f) && t in Chosen(f)
    requires MsgAt(f, x).None? || KeyAt(f, x).subject != Some(t) || x == Chosen(f)[t]
    ensures !Twin(f, t, Chosen(f)[t], KeyAt(f, Chosen(f)[t]).re, x)
  {
    hide Tops, MsgAt, KeyAt, Chosen;
  }

  lemma AdoptCurrent(f: Forest, s: Groups, c: Node, e: Node, q: seq<Node>, t: string)
    requires Tables(s) && Sound(f, s) && Match(s, c, e) && MsgAt(s.w, c).None? && Placed(s.w, e) && TreeMsg(s.w, e).Some?
    requires q != [] && c == q[0] && c !in q[1..] && Ahead(f, s, q) && Current(f, s, q) && t in s.table
    ensures var s' := Adopt(s, c, e);
      Distinct(s'.w) && Placed(s'.w, s.table[t]) && CurrentAt(f, s', Sans(q[1..], e), t)
  {
    hide Tops, MsgAt, KidsAt, KeyAt, TreeMsg, TreeKids, Tables, Sound, Detach, SetKids, Adopted, Distinct, Chosen, Current;
    NextRoot(f, s, c, e, q);
    MatchProps(s, c, e);
    CurrentMessage(f, s, c, e, q);
    CurrentIs(f, s, q, t);
    SansMembers(q[1..], e);
    SansLeaves(q, e);
    TwinNot(f, t, c);
    TwinNot(f, t, e);
    NotDone(f, t, q, Sans(q[1..], e));
    if s.table[t] == e { AdoptForest(s, c, e); } else { AdoptOther(s, c, e, t); }
    CurrentKept(f, s, Adopt(s, c, e), q, Sans(q[1..], e), t);
  }

  lemma AdoptJoining(f: Forest, s: Groups, c: Node, e: Node, q: seq<Node>)
    requires Inv(f, s) && Match(s, c, e) && MsgAt(s.w, c).None? && Placed(s.w, e) && TreeMsg(s.w, e).Some?
    requires Tables(Adopt(s, c, e)) && q != [] && c == q[0] && c !in q[1..] && Ahead(f, s, q) && Joining(f, s, q)
    ensures Joining(f, Adopt(s, c, e), Sans(q[1..], e))
  {
    hide Tops, MsgAt, KidsAt, KeyAt, Tables, Sound, Ahead, InTurn, Above, JoinPair, CurrentAt, Chosen, TreeMsg, TreeKids, Detach, SetKids,
      NoReplyAbove, Kept, Complete, Joined, OnlyJoins, Sans;
    var s', r := Adopt(s, c, e), Sans(q[1..], e);
    NextRoot(f, s, c, e, q);
    CurrentMessage(f, s, c, e, q);
    InTurnNext(f, q);
    InTurnSans(f, q[1..], e);
    SansMembers(q[1..], e);
    forall t | t in s.table ensures Distinct(s'.w) && Placed(s'.w, s.table[t]) && CurrentAt(f, s', r, t) {
      AdoptCurrent(f, s, c, e, q, t);
    }
    forall a, d ensures Above(s'.w, a, d) <==> Above(s.w, a, d) { AdoptAbove(s, c, e, a, d); }
    forall t, y | y in Tops(f) && y in q && y !in r ensures !Joins(f, t, y) {
      if y == c { EmptyJoinsNot(f, c, t); } else { ContainerJoinsNot(f, e, t); }
    }
    JoinedKept(f, s.w, s'.w, q, r);
  }

  lemma EmptyJoinsNot(f: Forest, y: Node, t: string)
    requires y in Tops(f) && MsgAt(f, y).None?
    ensures !Joins(f, t, y)
  {
  }

  lemma PairCurrent(f: Forest, s: Groups, c: Node, e: Node, scan: Node, q: seq<Node>, t: string)
    requires Tables(s) && Sound(f, s) && Match(s, c, e) && MayPair(s, c, e, scan) && Tables(Pair(s, c, e, scan))
    requires s.key[c].re == s.key[e].re && q != [] && c == q[0] && c !in q[1..] && Ahead(f, s, q) && Current(f, s, q)
    requires t in Pair(s, c, e, scan).table
    ensures var s' := Pair(s, c, e, scan);
      Distinct(s'.w) && Placed(s'.w, s'.table[t]) && CurrentAt(f, s', Sans(q[1..], e), t)
  {
    hide Tops, MsgAt, KidsAt, KeyAt, TreeMsg, TreeKids, Tables, Sound, Detach, Replace, PairKids, Adopted, Distinct, Chosen, Current;
    var s', r := Pair(s, c, e, scan), Sans(q[1..], e);
    NextRoot(f, s, c, e, q);
    MatchProps(s, c, e);
    MatchTable(s, c, e);
    CurrentMessage(f, s, c, e, q);
    SansMembers(q[1..], e);
    TableAt(s', t);
    if t == s.key[c].subject.value {
      PairScan(s, c, e, scan);
      ScanEmpty(s'.w, scan);
      assert Twin(f, t, e, KeyAt(f, e).re, c);
    } else {
      CurrentIs(f, s, q, t);
      SansLeaves(q, e);
      TwinNot(f, t, c);
      TwinNot(f, t, e);
      NotDone(f, t, q, r);
      EntryApart(s, t, e);
      PairOther(s, c, e, scan, t);
      CurrentKept(f, s, s', q, r, t);
    }
  }

  lemma EntryApart(s: Groups, t: string, e: Node)
    requires Tables(s) && t in s.table && e in s.key && s.key[e].subject != Some(t)
    ensures s.table[t] != e
  {
    TableAt(s, t);
  }

  lemma ScanEmpty(w: Forest, scan: Node)
    requires Distinct(w) && scan in Tops(w)
    ensures TreeMsg(w, scan) == MsgAt(w, scan)
  {
  }

  lemma PairJoining(f: Forest, s: Groups, c: Node, e: Node, scan: Node, q: seq<Node>)
    requires Inv(f, s) && Match(s, c, e) && MayPair(s, c, e, scan) && Tables(Pair(s, c, e, scan))
    requires s.key[c].re == s.key[e].re && q != [] && c == q[0] && c !in q[1..] && Ahead(f, s, q) && Joining(f, s, q)
    ensures Joining(f, Pair(s, c, e, scan), Sans(q[1..], e))
  {
    hide Tops, MsgAt, KidsAt, KeyAt, Tables, Sound, Ahead, InTurn, Above, JoinPair, CurrentAt, Chosen, TreeMsg, TreeKids, Detach, Replace,
      PairKids, NoReplyAbove, Kept, Complete, Joined, OnlyJoins, Sans;
    var s', r := Pair(s, c, e, scan), Sans(q[1..], e);
    NextRoot(f, s, c, e, q);
    MatchProps(s, c, e);
    CurrentMessage(f, s, c, e, q);
    InTurnNext(f, q);
    InTurnSans(f, q[1..], e);
    SansMembers(q[1..], e);
    forall t | t in s'.table ensures Distinct(s'.w) && Placed(s'.w, s'.table[t]) && CurrentAt(f, s', r, t) {
      PairCurrent(f, s, c, e, scan, q, t);
    }
    forall a, d ensures Above(s'.w, a, d) <==> Above(s.w, a, d) { PairAbove(s, c, e, scan, a, d); }
    forall t, y | y in Tops(f) && y in q && y !in r ensures !Joins(f, t, y) {
      if y == c { TwinJoinsNot(f, c, e, t); } else { ContainerJoinsNot(f, e, t); }
    }
    JoinedKept(f, s.w, s'.w, q, r);
  }

  lemma TwinJoinsNot(f: Forest, c: Node, e: Node, t: string)
    requires c in Tops(f) && e in Tops(f) && KeyAt(f, c).re == KeyAt(f, e).re && KeyAt(f, c).subject.Some?
    requires KeyAt(f, c).subject.value in Chosen(f) && Chosen(f)[KeyAt(f, c).subject.value] == e
    ensures !Joins(f, t, c)
  {
    hide Tops, MsgAt, KeyAt, Chosen, Pos;
  }

  lemma PassJoining(f: Forest, s: Groups, c: Node, q: seq<Node>)
    requires Inv(f, s) && Tables(Pass(s, c)) && q != [] && c == q[0] && c !in q[1..] && Ahead(f, s, q) && Joining(f, s, q)
    requires c in s.key && (s.key[c].subject.None? || Entry(s, c))
    ensures Joining(f, Pass(s, c), q[1..])
  {
    hide Tops, MsgAt, KidsAt, KeyAt, Tables, Sound, Ahead, InTurn, Above, JoinPair, CurrentAt, Chosen, TreeMsg,
      NoReplyAbove, Kept, Complete, Joined, OnlyJoins;
    InTurnNext(f, q);
    forall t | t in s.table ensures Distinct(s.w) && Placed(s.w, s.table[t]) && CurrentAt(f, Pass(s, c), q[1..], t) {
      PassCurrent(f, s, c, q, t);
    }
    forall t, y | y in Tops(f) && y in q && y !in q[1..] ensures !Joins(f, t, y) {
      PassJoinsNot(f, s, c, q, t);
    }
    JoinedKept(f, s.w, s.w, q, q[1..]);
  }

  /** A root that is passed is no message of a subject other than the container chosen for it. */
  lemma PassedPlain(f: Forest, s: Groups, c: Node, q: seq<Node>, t: string)
    requires Tables(s) && q != [] && c == q[0] && Ahead(f, s, q) && Current(f, s, q)
    requires c in s.key && (s.key[c].subject.None? || Entry(s, c))
    ensures c in Tops(f) && (KeyAt(f, c).subject == Some(t) && MsgAt(f, c).Some? ==> t in Chosen(f) && c == Chosen(f)[t])
  {
    hide Tops, MsgAt, KeyAt, TreeMsg, Chosen, TwinDone;
    AheadAt(f, s, q, c);
    if KeyAt(f, c).subject == Some(t) {
      CurrentIs(f, s, q, t);
      ScanEmpty(s.w, c);
    }
  }

  lemma PassCurrent(f: Forest, s: Groups, c: Node, q: seq<Node>, t: string)
    requires Tables(s) && q != [] && c == q[0] && c !in q[1..] && Ahead(f, s, q) && Current(f, s, q) && t in s.table
    requires c in s.key && (s.key[c].subject.None? || Entry(s, c))
    ensures Distinct(s.w) && Placed(s.w, s.table[t]) && CurrentAt(f, Pass(s, c), q[1..], t)
  {
    hide Tops, MsgAt, KeyAt, TreeMsg, Chosen, Tables, Current;
    CurrentIs(f, s, q, t);
    PassedPlain(f, s, c, q, t);
    NotDone(f, t, q, q[1..]);
    CurrentKept(f, s, Pass(s, c), q, q[1..], t);
  }

  lemma PassJoinsNot(f: Forest, s: Groups, c: Node, q: seq<Node>, t: string)
    requires Tables(s) && q != [] && c == q[0] && Ahead(f, s, q) && Current(f, s, q)
    requires c in s.key && (s.key[c].subject.None? || Entry(s, c))
    ensures !Joins(f, t, c)
  {
    hide Tops, MsgAt, KeyAt, Chosen, Tables, Current, Pos;
    PassedPlain(f, s, c, q, t);
  }

  // ---------------------------------------------------------------- the whole loop

  lemma StartJoining(f: Forest, s: Groups)
    requires Tables(s) && s.w == f && s.table == Chosen(f)
    ensures Joining(f, s, Order(f))
  {
    hide KeyAt, Chosen, Above, JoinsAt, Pos;
    InTurnStart(f);
    OrderTops(f);
    forall t | t in s.table ensures Placed(s.w, s.table[t]) && CurrentAt(f, s, Order(f), t) {
      ScanEmpty(f, s.table[t]);
    }
  }

  /** When all roots have been passed the ancestors are those from before, and such pairs. */
  lemma EndJoining(f: Forest, s: Groups)
    requires Inv(f, s) && Joining(f, s, [])
    ensures forall a, d :: Above(s.w, a, d) <==> Above(f, a, d) || JoinPair(f, a, d)
  {
    hide Above, JoinsAt, Tables, Sound, NoReplyAbove, Complete, InTurn, Current;
    forall a, d ensures Above(s.w, a, d) <==> Above(f, a, d) || JoinPair(f, a, d) {
      if JoinPair(f, a, d) {
        var t, y :| y in Tops(f) && JoinsAt(f, t, y, a, d);
      }
    }
  }
}
