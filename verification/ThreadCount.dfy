/** How many roots of one subject group_root_set leaves: `RootsLeft` reads it off the root set before
    the call. The loop keeps `Counted`: for every subject the roots passed and those still to come
    add up to it. */
module ThreadCount {
  import opened Wrappers
  import opened ThreadForest
  import opened ThreadTops
  import opened ThreadMoves
  import opened ThreadRegroup
  import opened ThreadKeep

  /** Another root of subject `t` than `e`, without a message. */
  ghost predicate Blank(f: Forest, t: string, e: Node, x: Node) {
    x in Tops(f) && x != e && KeyAt(f, x).subject == Some(t) && MsgAt(f, x).None?
  }

  /** Another root of subject `t` than `e`, a message with the reply bit `re`. */
  ghost predicate Twin(f: Forest, t: string, e: Node, re: bool, x: Node) {
    x in Tops(f) && x != e && KeyAt(f, x).subject == Some(t) && MsgAt(f, x).Some? && KeyAt(f, x).re == re
  }

  /** The roots of `t` that the rounds over `q` leave, while its container `e` is a message; `top`
      says whether `e` is a root. Each empty root stays and takes `e` in; the first twin puts it into
      a new empty container, and every root of `t` after that goes in there. */
  ghost function Later(f: Forest, t: string, e: Node, re: bool, top: bool, q: seq<Node>): nat {
    if q == [] then if top then 1 else 0
    else if Blank(f, t, e, q[0]) then 1 + Later(f, t, e, re, false, q[1..])
    else if Twin(f, t, e, re, q[0]) then 1
    else Later(f, t, e, re, top, q[1..])
  }

  ghost function RootsLeft(f: Forest, t: string): nat {
    if t !in Chosen(f) then 0
    else
      var e := Chosen(f)[t];
      if MsgAt(f, e).None? then 1 else Later(f, t, e, KeyAt(f, e).re, true, Order(f))
  }

  // ---------------------------------------------------------------- when it is one

  /** A twin comes before every other empty root. */
  ghost predicate TwinFirst(f: Forest, t: string, e: Node, re: bool, q: seq<Node>) {
    exists k :: 0 <= k < |q| && Twin(f, t, e, re, q[k]) && forall j :: 0 <= j < k ==> !Blank(f, t, e, q[j])
  }

  ghost predicate NoTwin(f: Forest, t: string, e: Node, re: bool, q: seq<Node>) {
    forall k :: 0 <= k < |q| ==> !Twin(f, t, e, re, q[k])
  }

  ghost predicate OneBlank(f: Forest, t: string, e: Node, q: seq<Node>) {
    forall j, k :: 0 <= j < k < |q| ==> !(Blank(f, t, e, q[j]) && Blank(f, t, e, q[k]))
  }

  lemma {:induction false} LaterNone(f: Forest, t: string, e: Node, re: bool, q: seq<Node>)
    ensures Later(f, t, e, re, false, q) == 0 <==>
              NoTwin(f, t, e, re, q) && forall k :: 0 <= k < |q| ==> !Blank(f, t, e, q[k])
  {
    hide Twin, Blank;
    if q != [] {
      LaterNone(f, t, e, re, q[1..]);
      assert forall k :: 1 <= k < |q| ==> q[k] == q[1..][k - 1];
      assert forall k :: 0 <= k < |q| - 1 ==> q[1..][k] == q[k + 1];
    }
  }

  lemma TwinFirstNext(f: Forest, t: string, e: Node, re: bool, q: seq<Node>)
    requires q != [] && !Twin(f, t, e, re, q[0])
    ensures TwinFirst(f, t, e, re, q) <==> !Blank(f, t, e, q[0]) && TwinFirst(f, t, e, re, q[1..])
  {
    hide Twin, Blank;
    if k :| 0 <= k < |q| && Twin(f, t, e, re, q[k]) && forall j :: 0 <= j < k ==> !Blank(f, t, e, q[j]) {
      assert q[1..][k - 1] == q[k];
    }
    if k :| 0 <= k < |q| - 1 && Twin(f, t, e, re, q[1..][k]) && forall j :: 0 <= j < k ==> !Blank(f, t, e, q[1..][j]) {
      assert q[k + 1] == q[1..][k];
      assert forall j :: 1 <= j <= k ==> q[j] == q[1..][j - 1];
    }
  }

  lemma {:induction false} LaterOne(f: Forest, t: string, e: Node, re: bool, q: seq<Node>)
    ensures Later(f, t, e, re, true, q) >= 1
    ensures Later(f, t, e, re, true, q) == 1 <==>
              TwinFirst(f, t, e, re, q) || (NoTwin(f, t, e, re, q) && OneBlank(f, t, e, q))
  {
    hide Twin, Blank, TwinFirst;
    if q == [] {
    } else if Twin(f, t, e, re, q[0]) {
      TwinNow(f, t, e, re, q);
      NotBoth(f, t, e, re, q[0]);
    } else {
      LaterOne(f, t, e, re, q[1..]);
      LaterNone(f, t, e, re, q[1..]);
      TwinFirstNext(f, t, e, re, q);
      assert forall k :: 1 <= k < |q| ==> q[k] == q[1..][k - 1];
      assert forall k :: 0 <= k < |q| - 1 ==> q[1..][k] == q[k + 1];
    }
  }

  lemma TwinNow(f: Forest, t: string, e: Node, re: bool, q: seq<Node>)
    requires q != [] && Twin(f, t, e, re, q[0])
    ensures TwinFirst(f, t, e, re, q)
  {
  }

  lemma NotBoth(f: Forest, t: string, e: Node, re: bool, x: Node)
    ensures !(Twin(f, t, e, re, x) && Blank(f, t, e, x))
  {
  }

  /** The container is empty, or a message with its reply bit comes before every other empty root,
      or there is no such message and at most one other empty root. */
  ghost predicate BecomesOne(f: Forest, t: string)
    requires t in Chosen(f)
  {
    var e, q := Chosen(f)[t], Order(f);
    || MsgAt(f, e).None?
    || TwinFirst(f, t, e, KeyAt(f, e).re, q)
    || (NoTwin(f, t, e, KeyAt(f, e).re, q) && OneBlank(f, t, e, q))
  }

  lemma OneRootLeft(f: Forest, t: string)
    requires t in Chosen(f)
    ensures RootsLeft(f, t) >= 1
    ensures RootsLeft(f, t) == 1 <==> BecomesOne(f, t)
  {
    var e := Chosen(f)[t];
    if MsgAt(f, e).Some? { LaterOne(f, t, e, KeyAt(f, e).re, Order(f)); }
  }

  // ---------------------------------------------------------------- what a round keeps

  /** Those of the nodes `roots` that have subject `t`. */
  ghost function Group(roots: set<Node>, key: map<Node, Key>, t: string): set<Node> {
    set x | x in roots && x in key && key[x].subject == Some(t)
  }

  /** The roots of `t` in the end, when the roots `q` are still to be looked at. */
  ghost function Total(f: Forest, s: Groups, t: string, q: seq<Node>): nat
    requires Tables(s) && t in s.table
  {
    var e := s.table[t];
    |Group(s.seen, s.key, t) - {e}| +
    if TreeMsg(s.w, e).None? then 1 else Later(f, t, e, s.key[e].re, e in Tops(s.w), q)
  }

  /** The root `x` has the key and the message it had in `f`. */
  ghost predicate AsBefore(f: Forest, s: Groups, x: Node) {
    x in Tops(f) && x in Tops(s.w) && x in s.key && s.key[x] == KeyAt(f, x) && MsgAt(s.w, x) == MsgAt(f, x)
  }

  ghost predicate Ahead(f: Forest, s: Groups, q: seq<Node>) {
    forall x :: x in q ==> AsBefore(f, s, x)
  }

  ghost predicate Counted(f: Forest, s: Groups, q: seq<Node>)
    requires Tables(s)
  {
    && Ahead(f, s, q) && s.table.Keys == Chosen(f).Keys
    && (forall t :: t in s.table ==> Total(f, s, t, q) == RootsLeft(f, t))
  }

  /** `q` without `e`. */
  ghost function Sans(q: seq<Node>, e: Node): seq<Node> {
    if q == [] then [] else if q[0] == e then Sans(q[1..], e) else [q[0]] + Sans(q[1..], e)
  }

  lemma SansIn(q: seq<Node>, e: Node, x: Node)
    requires x in Sans(q, e)
    ensures x in q && x != e
  {
  }

  lemma SansNone(q: seq<Node>, e: Node)
    requires e !in q
    ensures Sans(q, e) == q
  {
  }

  lemma SansAppend(a: seq<Node>, b: seq<Node>, e: Node)
    ensures Sans(a + b, e) == Sans(a, e) + Sans(b, e)
  {
    if a == [] {
      assert a + b == b;
    } else {
      SansAppend(a[1..], b, e);
      assert (a + b)[1..] == a[1..] + b;
    }
  }

  lemma SansMiddle(a: seq<Node>, e: Node, b: seq<Node>)
    requires e !in a && e !in b
    ensures Sans(a + [e] + b, e) == a + b
  {
    hide Sans;
    SansNone(a, e);
    SansNone(b, e);
    SansAppend(a + [e], b, e);
    SansAppend(a, [e], e);
    SansOne(e);
  }

  lemma SansOne(e: Node)
    ensures Sans([e], e) == []
  {
    assert [e][1..] == [];
  }

  /** A root that is no other root of `t` does not matter. */
  lemma LaterSans(f: Forest, t: string, x: Node, re: bool, top: bool, q: seq<Node>, e: Node)
    requires !Blank(f, t, x, e) && !Twin(f, t, x, re, e)
    ensures Later(f, t, x, re, top, Sans(q, e)) == Later(f, t, x, re, top, q)
  {
    hide Blank, Twin;
    if q != [] {
      LaterSans(f, t, x, re, top, q[1..], e);
      LaterSans(f, t, x, re, false, q[1..], e);
    }
  }

  /** The first root of `q` is none that counts. */
  lemma LaterSkip(f: Forest, t: string, x: Node, re: bool, top: bool, q: seq<Node>)
    requires q != [] && !Blank(f, t, x, q[0]) && !Twin(f, t, x, re, q[0])
    ensures Later(f, t, x, re, top, q) == Later(f, t, x, re, top, q[1..])
  {
  }

  lemma Elsewhere(f: Forest, t: string, x: Node, re: bool, y: Node)
    requires y == x || y !in Tops(f) || KeyAt(f, y).subject != Some(t)
    ensures !Blank(f, t, x, y) && !Twin(f, t, x, re, y)
  {
  }

  /** The state in which the merging loop starts. */
  lemma StartCounts(f: Forest, s: Groups)
    requires Tables(s) && s.w == f && s.seen == {} && s.table == Chosen(f)
    requires s.key.Keys == Tops(f) && forall x :: x in s.key ==> s.key[x] == KeyAt(f, x)
    ensures Counted(f, s, Order(f))
  {
    hide KeyAt, Chosen;
    OrderTops(f);
    forall t | t in s.table ensures Total(f, s, t, Order(f)) == RootsLeft(f, t) {
      assert Group(s.seen, s.key, t) - {s.table[t]} == {};
    }
  }

  lemma AheadAt(f: Forest, s: Groups, q: seq<Node>, x: Node)
    requires Ahead(f, s, q) && x in q
    ensures AsBefore(f, s, x)
  {
  }

  lemma AheadFold(f: Forest, s: Groups, q: seq<Node>)
    requires forall x :: x in q ==> AsBefore(f, s, x)
    ensures Ahead(f, s, q)
  {
  }

  lemma AheadRest(f: Forest, s: Groups, q: seq<Node>)
    requires Ahead(f, s, q) && q != []
    ensures Ahead(f, s, q[1..])
  {
  }

  lemma CountedAt(f: Forest, s: Groups, q: seq<Node>, t: string)
    requires Tables(s) && Counted(f, s, q)
    ensures t in s.table ==> Total(f, s, t, q) == RootsLeft(f, t)
  {
  }

  lemma CountedFold(f: Forest, s: Groups, q: seq<Node>)
    requires Tables(s) && Ahead(f, s, q) && s.table.Keys == Chosen(f).Keys
    requires forall t :: t in s.table ==> Total(f, s, t, q) == RootsLeft(f, t)
    ensures Counted(f, s, q)
  {
  }

  lemma CountedAhead(f: Forest, s: Groups, q: seq<Node>)
    requires Tables(s) && Counted(f, s, q)
    ensures Ahead(f, s, q) && s.table.Keys == Chosen(f).Keys
  {
  }

  lemma TableAt(s: Groups, t: string)
    requires Tables(s) && t in s.table
    ensures var e := s.table[t]; Distinct(s.w) && Placed(s.w, e) && e in s.key && s.key[e].subject == Some(t) && Lodged(s, e)
  {
  }

  lemma PassTotal(f: Forest, s: Groups, c: Node, t: string, q: seq<Node>)
    requires Tables(s) && Tables(Pass(s, c)) && q != [] && c == q[0] && Ahead(f, s, q) && t in s.table
    requires s.key[c].subject.None? || Entry(s, c)
    ensures Total(f, Pass(s, c), t, q[1..]) == Total(f, s, t, q)
  {
    hide KeyAt, MsgAt, Later, Tables, Blank, Twin, Ahead, Tops;
    AheadAt(f, s, q, c);
    TableAt(s, t);
    var s', e := Pass(s, c), s.table[t];
    assert Group(s'.seen, s'.key, t) - {e} == Group(s.seen, s.key, t) - {e};
    Elsewhere(f, t, e, s.key[e].re, c);
    LaterSkip(f, t, e, s.key[e].re, e in Tops(s.w), q);
  }

  lemma PassCounts(f: Forest, s: Groups, c: Node, q: seq<Node>)
    requires Tables(s) && Tables(Pass(s, c)) && q != [] && c == q[0] && Counted(f, s, q)
    requires s.key[c].subject.None? || Entry(s, c)
    ensures Counted(f, Pass(s, c), q[1..])
  {
    hide KeyAt, MsgAt, RootsLeft, Tables, Tops, Counted, Total, Entry, Chosen, Ahead;
    CountedAhead(f, s, q);
    forall t | t in s.table ensures Total(f, Pass(s, c), t, q[1..]) == RootsLeft(f, t) {
      CountedAt(f, s, q, t);
      PassTotal(f, s, c, t, q);
    }
    AheadRest(f, s, q);
    forall x | x in q[1..] ensures AsBefore(f, Pass(s, c), x) { AheadAt(f, s, q, x); }
    AheadFold(f, Pass(s, c), q[1..]);
    CountedFold(f, Pass(s, c), q[1..]);
  }

  lemma MergeTotal(f: Forest, s: Groups, c: Node, e: Node, t: string, q: seq<Node>)
    requires Tables(s) && Match(s, c, e) && MayMerge(s, c, e) && Tables(Merge(s, c, e))
    requires q != [] && c == q[0] && Ahead(f, s, q) && t in s.table
    ensures Total(f, Merge(s, c, e), t, q[1..]) == Total(f, s, t, q)
  {
    hide KeyAt, MsgAt, Later, Tables, Ahead, Tops, KidsWith, Detach, SetKids, Lodged;
    var s', x := Merge(s, c, e), s.table[t];
    AheadAt(f, s, q, c);
    TableAt(s, t);
    MatchProps(s, c, e);
    MergeOther(s, c, e, t);
    assert Group(s'.seen, s'.key, t) == Group(s.seen, s.key, t);
    if TreeMsg(s.w, x).Some? {
      LaterSkip(f, t, x, s.key[x].re, x in Tops(s.w), q);
    }
  }

  lemma MergeAhead(f: Forest, s: Groups, c: Node, e: Node, q: seq<Node>)
    requires Tables(s) && Match(s, c, e) && MayMerge(s, c, e)
    requires c !in q && Ahead(f, s, q)
    ensures Ahead(f, Merge(s, c, e), q)
  {
    hide KeyAt, MsgAt, Tables, Ahead, Tops, KidsWith, Detach, SetKids, MayMerge;
    forall x | x in q ensures AsBefore(f, Merge(s, c, e), x) {
      AheadAt(f, s, q, x);
      MergeAt(s, c, e, x);
    }
    AheadFold(f, Merge(s, c, e), q);
  }

  lemma MergeCounts(f: Forest, s: Groups, c: Node, e: Node, q: seq<Node>)
    requires Tables(s) && Match(s, c, e) && MayMerge(s, c, e) && Tables(Merge(s, c, e))
    requires q != [] && c == q[0] && c !in q[1..] && Counted(f, s, q)
    ensures Counted(f, Merge(s, c, e), q[1..])
  {
    hide KeyAt, MsgAt, RootsLeft, Tables, Tops, Counted, Total, Chosen, MayMerge, Ahead;
    CountedAhead(f, s, q);
    AheadRest(f, s, q);
    MergeAhead(f, s, c, e, q[1..]);
    forall t | t in s.table ensures Total(f, Merge(s, c, e), t, q[1..]) == RootsLeft(f, t) {
      CountedAt(f, s, q, t);
      MergeTotal(f, s, c, e, t, q);
    }
    CountedFold(f, Merge(s, c, e), q[1..]);
  }

  /** `e` goes and `c` comes. */
  lemma GroupTurn(seen: set<Node>, key: map<Node, Key>, t: string, e: Node, c: Node)
    requires c !in seen && c != e && c in key && key[c].subject == Some(t)
    ensures |Group(seen - {e} + {c}, key, t) - {e}| == |Group(seen, key, t) - {e}| + 1
  {
    assert Group(seen - {e} + {c}, key, t) - {e} == Group(seen, key, t) - {e} + {c};
  }

  /** `e` goes and the new `x` comes. */
  lemma GroupNew(seen: set<Node>, key: map<Node, Key>, t: string, e: Node, x: Node, k: Key)
    requires x !in seen && x !in key
    ensures |Group(seen - {e} + {x}, key[x := k], t) - {x}| == |Group(seen, key, t) - {e}|
    ensures k.subject != Some(t) && (e !in key || key[e].subject != Some(t)) ==>
              Group(seen - {e} + {x}, key[x := k], t) == Group(seen, key, t)
  {
    assert Group(seen - {e} + {x}, key[x := k], t) - {x} == Group(seen, key, t) - {e};
  }

  lemma LaterBlank(f: Forest, t: string, x: Node, re: bool, top: bool, q: seq<Node>)
    requires q != [] && Blank(f, t, x, q[0])
    ensures Later(f, t, x, re, top, q) == 1 + Later(f, t, x, re, false, q[1..])
  {
  }

  lemma LaterTwin(f: Forest, t: string, x: Node, re: bool, top: bool, q: seq<Node>)
    requires q != [] && Twin(f, t, x, re, q[0])
    ensures Later(f, t, x, re, top, q) == 1
  {
  }

  /** The subject of `c` and `e`: the container is no root any more, and the empty `c` stays. */
  lemma AdoptTotal(f: Forest, s: Groups, c: Node, e: Node, t: string, q: seq<Node>)
    requires Tables(s) && Match(s, c, e) && MsgAt(s.w, c).None? && Placed(s.w, e) && TreeMsg(s.w, e).Some?
    requires Tables(Adopt(s, c, e)) && q != [] && c == q[0] && Ahead(f, s, q) && t in s.table && s.table[t] == e
    ensures Total(f, Adopt(s, c, e), t, Sans(q[1..], e)) == Total(f, s, t, q)
  {
    hide KeyAt, MsgAt, Later, Tables, Ahead, Tops, Detach, SetKids, Lodged, Twin, TreeMsg, TreeKids;
    TableAt(s, t);
    var s', re := Adopt(s, c, e), s.key[e].re;
    AheadAt(f, s, q, c);
    MatchProps(s, c, e);
    AdoptForest(s, c, e);
    GroupTurn(s.seen, s.key, t, e, c);
    LaterBlank(f, t, e, re, e in Tops(s.w), q);
    Elsewhere(f, t, e, re, e);
    LaterSans(f, t, e, re, false, q[1..], e);
  }

  /** For another subject neither `q[0]` nor the container `e` counts. */
  lemma SkipBoth(f: Forest, s: Groups, t: string, x: Node, re: bool, top: bool, e: Node, q: seq<Node>)
    requires q != [] && Ahead(f, s, q) && q[0] in s.key && s.key[q[0]].subject != Some(t)
    requires e in s.key && s.key[e].subject != Some(t)
    ensures Later(f, t, x, re, top, Sans(q[1..], e)) == Later(f, t, x, re, top, q)
  {
    hide KeyAt, MsgAt, Later, Tops, Blank, Twin, Ahead;
    AheadAt(f, s, q, q[0]);
    Elsewhere(f, t, x, re, q[0]);
    LaterSkip(f, t, x, re, top, q);
    if e in q[1..] {
      AheadAt(f, s, q, e);
      Elsewhere(f, t, x, re, e);
      LaterSans(f, t, x, re, top, q[1..], e);
    } else {
      SansNone(q[1..], e);
    }
  }

  lemma AdoptTotalOther(f: Forest, s: Groups, c: Node, e: Node, t: string, q: seq<Node>)
    requires Tables(s) && Match(s, c, e) && MsgAt(s.w, c).None? && Placed(s.w, e) && TreeMsg(s.w, e).Some?
    requires Tables(Adopt(s, c, e)) && q != [] && c == q[0] && Ahead(f, s, q) && t in s.table && s.table[t] != e
    ensures Total(f, Adopt(s, c, e), t, Sans(q[1..], e)) == Total(f, s, t, q)
  {
    hide KeyAt, MsgAt, Later, Tables, Ahead, Tops, Detach, SetKids, Lodged, TreeMsg, TreeKids;
    var s', x := Adopt(s, c, e), s.table[t];
    AheadAt(f, s, q, c);
    TableAt(s, t);
    MatchProps(s, c, e);
    AdoptOther(s, c, e, t);
    assert Group(s'.seen, s'.key, t) == Group(s.seen, s.key, t);
    SkipBoth(f, s, t, x, s.key[x].re, x in Tops(s.w), e, q);
  }

  lemma AdoptAhead(f: Forest, s: Groups, c: Node, e: Node, q: seq<Node>)
    requires Tables(s) && Match(s, c, e) && MsgAt(s.w, c).None? && Placed(s.w, e) && TreeMsg(s.w, e).Some?
    requires c !in q && Ahead(f, s, q)
    ensures Ahead(f, Adopt(s, c, e), Sans(q, e))
  {
    hide KeyAt, MsgAt, Tables, Ahead, Tops, Detach, SetKids, TreeMsg, TreeKids;
    MatchProps(s, c, e);
    forall x | x in Sans(q, e) ensures AsBefore(f, Adopt(s, c, e), x) {
      SansIn(q, e, x);
      AheadAt(f, s, q, x);
      AdoptAt(s, c, e, x);
    }
    AheadFold(f, Adopt(s, c, e), Sans(q, e));
  }

  lemma AdoptCounts(f: Forest, s: Groups, c: Node, e: Node, q: seq<Node>)
    requires Tables(s) && Match(s, c, e) && MsgAt(s.w, c).None? && Placed(s.w, e) && TreeMsg(s.w, e).Some?
    requires Tables(Adopt(s, c, e)) && q != [] && c == q[0] && c !in q[1..] && Counted(f, s, q)
    ensures Counted(f, Adopt(s, c, e), Sans(q[1..], e))
  {
    hide KeyAt, MsgAt, RootsLeft, Tables, Tops, Counted, Total, Chosen, Ahead, TreeMsg, TreeKids, Detach, SetKids;
    CountedAhead(f, s, q);
    AheadRest(f, s, q);
    AdoptAhead(f, s, c, e, q[1..]);
    MatchProps(s, c, e);
    forall t | t in s.table ensures Total(f, Adopt(s, c, e), t, Sans(q[1..], e)) == RootsLeft(f, t) {
      CountedAt(f, s, q, t);
      if s.table[t] == e {
        AdoptTotal(f, s, c, e, t, q);
      } else {
        AdoptTotalOther(f, s, c, e, t, q);
      }
    }
    CountedFold(f, Adopt(s, c, e), Sans(q[1..], e));
  }

  /** The subject of `c` and `e`: the new root `scan` is its empty container from now on. */
  lemma PairTotal(f: Forest, s: Groups, c: Node, e: Node, scan: Node, t: string, q: seq<Node>)
    requires Tables(s) && Match(s, c, e) && MayPair(s, c, e, scan) && Tables(Pair(s, c, e, scan))
    requires q != [] && c == q[0] && Ahead(f, s, q) && t in s.table && s.table[t] == e && s.key[c].re == s.key[e].re
    ensures Total(f, Pair(s, c, e, scan), t, Sans(q[1..], e)) == Total(f, s, t, q)
  {
    hide KeyAt, MsgAt, Later, Tables, Ahead, Tops, Detach, Replace, PairKids, Lodged, Blank, TreeKids;
    TableAt(s, t);
    var s', re := Pair(s, c, e, scan), s.key[e].re;
    AheadAt(f, s, q, c);
    SeenKeys(s, scan);
    MatchProps(s, c, e);
    PairScan(s, c, e, scan);
    TableAt(s', t);
    GroupNew(s.seen, s.key, t, e, scan, s'.key[scan]);
    LaterTwin(f, t, e, re, e in Tops(s.w), q);
  }

  lemma SeenKeys(s: Groups, x: Node)
    requires Tables(s) && x !in s.key
    ensures x !in s.seen && x !in s.table.Values
  {
    hide Tops, Lodged, Placed, Distinct;
  }

  lemma PairTotalOther(f: Forest, s: Groups, c: Node, e: Node, scan: Node, t: string, q: seq<Node>)
    requires Tables(s) && Match(s, c, e) && MayPair(s, c, e, scan) && Tables(Pair(s, c, e, scan))
    requires q != [] && c == q[0] && Ahead(f, s, q) && t in s.table && s.table[t] != e
    ensures Total(f, Pair(s, c, e, scan), t, Sans(q[1..], e)) == Total(f, s, t, q)
  {
    hide KeyAt, MsgAt, Later, Tables, Ahead, Tops, Detach, Replace, PairKids, Lodged, TreeMsg, TreeKids;
    var s', x := Pair(s, c, e, scan), s.table[t];
    AheadAt(f, s, q, c);
    TableAt(s, t);
    SeenKeys(s, scan);
    MatchProps(s, c, e);
    PairOther(s, c, e, scan, t);
    assert Group(s'.seen, s'.key, t) == Group(s.seen, s.key, t);
    SkipBoth(f, s, t, x, s.key[x].re, x in Tops(s.w), e, q);
  }

  lemma PairAhead(f: Forest, s: Groups, c: Node, e: Node, scan: Node, q: seq<Node>)
    requires Tables(s) && Match(s, c, e) && MayPair(s, c, e, scan) && c !in q && Ahead(f, s, q)
    ensures Ahead(f, Pair(s, c, e, scan), Sans(q, e))
  {
    hide KeyAt, MsgAt, Tables, Ahead, Tops, Detach, Replace, PairKids, TreeMsg, TreeKids;
    MatchProps(s, c, e);
    forall x | x in Sans(q, e) ensures AsBefore(f, Pair(s, c, e, scan), x) {
      SansIn(q, e, x);
      AheadAt(f, s, q, x);
      PairAt(s, c, e, scan, x);
    }
    AheadFold(f, Pair(s, c, e, scan), Sans(q, e));
  }

  lemma PairCounts(f: Forest, s: Groups, c: Node, e: Node, scan: Node, q: seq<Node>)
    requires Tables(s) && Match(s, c, e) && MayPair(s, c, e, scan) && Tables(Pair(s, c, e, scan))
    requires s.key[c].re == s.key[e].re && q != [] && c == q[0] && c !in q[1..] && Counted(f, s, q)
    ensures Counted(f, Pair(s, c, e, scan), Sans(q[1..], e))
  {
    hide KeyAt, MsgAt, RootsLeft, Tables, Tops, Counted, Total, Chosen, Ahead, TreeMsg, TreeKids, Detach, Replace, PairKids;
    CountedAhead(f, s, q);
    AheadRest(f, s, q);
    PairAhead(f, s, c, e, scan, q[1..]);
    MatchTable(s, c, e);
    forall t | t in s.table ensures Total(f, Pair(s, c, e, scan), t, Sans(q[1..], e)) == RootsLeft(f, t) {
      CountedAt(f, s, q, t);
      if s.table[t] == e {
        PairTotal(f, s, c, e, scan, t, q);
      } else {
        PairTotalOther(f, s, c, e, scan, t, q);
      }
    }
    CountedFold(f, Pair(s, c, e, scan), Sans(q[1..], e));
  }

  lemma MatchTable(s: Groups, c: Node, e: Node)
    requires Tables(s) && Match(s, c, e)
    ensures s.key[c].subject.value in s.table
  {
  }

  // ---------------------------------------------------------------- the end

  lemma GroupTable(s: Groups, t: string)
    requires Tables(s) && s.seen == Tops(s.w)
    ensures Group(s.seen, s.key, t) != {} ==> t in s.table
    ensures t in s.table && s.table[t] !in Tops(s.w) ==> TreeMsg(s.w, s.table[t]).Some?
  {
    hide Tops, Placed, Distinct;
  }

  /** Every root was passed: `RootsLeft` counts them. */
  lemma EndCounts(f: Forest, s: Groups, t: string)
    requires Tables(s) && Counted(f, s, []) && s.seen == Tops(s.w)
    ensures |Group(Tops(s.w), s.key, t)| == RootsLeft(f, t)
  {
    hide Chosen, Tops, Tables, TreeMsg, Lodged, RootsLeft, Counted;
    GroupTable(s, t);
    CountedAhead(f, s, []);
    CountedAt(f, s, [], t);
    if t in s.table {
      TableAt(s, t);
      var e, group := s.table[t], Group(s.seen, s.key, t);
      if e in Tops(s.w) {
        assert group == group - {e} + {e};
      } else {
        assert group == group - {e};
      }
    } else {
      NoneLeft(f, t);
    }
  }

  lemma NoneLeft(f: Forest, t: string)
    requires t !in Chosen(f)
    ensures RootsLeft(f, t) == 0
  {
  }
}
