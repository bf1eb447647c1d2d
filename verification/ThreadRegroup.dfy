/** What group_root_set does to the root set, as moves on the forest, and what every move keeps.

    A root is filed under its root subject; `table` names one root per subject, the container
    other roots of that subject are merged with.  `key` remembers the subject and the reply bit a
    node was given, `seen` the roots the merging loop has passed. */
module ThreadRegroup {
  import opened Wrappers
  import opened ThreadForest
  import opened ThreadTops
  import opened ThreadMoves

  datatype Key = Key(subject: Option<string>, re: bool)

  /** get_root_subject: an empty root speaks through its first child that has a message. */
  ghost function RootKey(m: Option<Msg>, kids: Forest): Key {
    match m
    case Some(x) => Key(x.item.subject, x.item.re)
    case None => FirstKey(kids)
  }

  ghost function FirstKey(f: Forest): Key {
    match f
    case Nil => Key(None, false)
    case Cons(_, m, _, rest) => if m.Some? then Key(m.value.item.subject, m.value.item.re) else FirstKey(rest)
  }

  ghost function KeyAt(f: Forest, n: Node): Key
    requires n in Tops(f)
  {
    RootKey(MsgAt(f, n), KidsAt(f, n))
  }

  // ---------------------------------------------------------------- the container of a subject

  /** The table after the root `c` of `f` has been offered to it: a message takes the place of an
      empty root, and a root that is no reply that of a reply. */
  ghost function Filing(f: Forest, table: map<string, Node>, c: Node): (r: map<string, Node>)
    requires c in Tops(f) && forall t :: t in table ==> table[t] in Tops(f)
    ensures forall t :: t in r ==> r[t] in Tops(f) && (r[t] == c || (t in table && r[t] == table[t]))
  {
    match KeyAt(f, c).subject
    case None => table
    case Some(t) =>
      if t !in table || (MsgAt(f, table[t]).None? && MsgAt(f, c).Some?) || (KeyAt(f, table[t]).re && !KeyAt(f, c).re)
      then table[t := c] else table
  }

  /** The table after the roots of `q` have been offered to it in turn. */
  ghost function FileAll(f: Forest, q: seq<Node>): (r: map<string, Node>)
    requires forall x :: x in q ==> x in Tops(f)
    ensures forall t :: t in r ==> r[t] in Tops(f) && r[t] in q
  {
    if q == [] then map[]
    else
      assert forall x :: x in q[..|q| - 1] ==> x in q;
      Filing(f, FileAll(f, q[..|q| - 1]), q[|q| - 1])
  }

  lemma FileAllNone(f: Forest)
    ensures FileAll(f, []) == map[]
  {
  }

  lemma FileAllNext(f: Forest, q: seq<Node>, i: nat)
    requires i < |q| && forall x :: x in q ==> x in Tops(f)
    ensures (forall x :: x in q[..i] ==> x in q) && (forall x :: x in q[..i + 1] ==> x in q)
    ensures FileAll(f, q[..i + 1]) == Filing(f, FileAll(f, q[..i]), q[i])
  {
    assert q[..i + 1][..i] == q[..i];
  }

  /** The container of each subject when the merging starts. */
  ghost function Chosen(f: Forest): (r: map<string, Node>)
    ensures forall t :: t in r ==> r[t] in Tops(f)
  {
    OrderTops(f);
    FileAll(f, Order(f))
  }

  lemma ChosenIs(f: Forest)
    ensures (forall x :: x in Order(f) ==> x in Tops(f)) && Chosen(f) == FileAll(f, Order(f))
  {
    OrderTops(f);
  }

  /** The subjects in the table are those of the roots, each with a root of that subject. */
  lemma {:induction false} FileAllFor(f: Forest, q: seq<Node>, t: string)
    requires forall x :: x in q ==> x in Tops(f)
    ensures t in FileAll(f, q) <==> exists x :: x in q && KeyAt(f, x).subject == Some(t)
    ensures t in FileAll(f, q) ==> KeyAt(f, FileAll(f, q)[t]).subject == Some(t)
  {
    hide KeyAt, Tops, MsgAt;
    if q != [] {
      var p := q[..|q| - 1];
      assert forall x :: x in q <==> x in p || x == q[|q| - 1];
      FileAllFor(f, p, t);
    }
  }

  lemma ChosenFor(f: Forest, t: string)
    ensures t in Chosen(f) <==> exists x :: x in Tops(f) && KeyAt(f, x).subject == Some(t)
    ensures t in Chosen(f) ==> KeyAt(f, Chosen(f)[t]).subject == Some(t)
  {
    hide KeyAt, Tops, MsgAt;
    OrderTops(f);
    FileAllFor(f, Order(f), t);
  }

  /** The key of a root: that of its message, or of the message of its first child. */
  lemma RootKeyIs(f: Forest, x: Node)
    requires Pruned(f) && x in Tops(f)
    ensures MsgAt(f, x).Some? ==> KeyAt(f, x) == Key(MsgAt(f, x).value.item.subject, MsgAt(f, x).value.item.re)
    ensures MsgAt(f, x).None? ==>
      && KidsAt(f, x).Cons? && KidsAt(f, x).msg.Some?
      && KeyAt(f, x) == Key(KidsAt(f, x).msg.value.item.subject, KidsAt(f, x).msg.value.item.re)
  {
  }

  /** A root of subject `t`. */
  ghost predicate Of(f: Forest, t: string, x: Node) {
    x in Tops(f) && KeyAt(f, x).subject == Some(t)
  }

  /** A message that is no reply. */
  ghost predicate Plain(f: Forest, t: string, x: Node) {
    Of(f, t, x) && MsgAt(f, x).Some? && !KeyAt(f, x).re
  }

  /** The root of `t` filed last stays if it is a message that is no reply. */
  lemma {:induction false} PlainStays(f: Forest, q: seq<Node>, i: nat, t: string)
    requires i < |q| && forall x :: x in q ==> x in Tops(f)
    requires Plain(f, t, q[i]) && forall j :: 0 <= j < i ==> !Plain(f, t, q[j])
    ensures t in FileAll(f, q) && FileAll(f, q)[t] == q[i]
    decreases |q|
  {
    hide KeyAt, MsgAt, Tops, FileAll;
    var n := |q| - 1;
    var p := q[..n];
    assert forall x :: x in p ==> x in q;
    FileAllNext(f, q, n);
    assert q[..n + 1] == q;
    if i < n {
      PlainStays(f, p, i, t);
    } else {
      FileAllFor(f, p, t);
      if t in FileAll(f, p) {
        var j :| 0 <= j < n && p[j] == FileAll(f, p)[t];
        assert p[j] == q[j];
      }
    }
  }

  /** If a root of the subject is a message and no reply, the first such root is the container. */
  lemma PlainChosen(f: Forest, i: nat, t: string)
    requires i < |Order(f)| && Plain(f, t, Order(f)[i]) && forall j :: 0 <= j < i ==> !Plain(f, t, Order(f)[j])
    ensures t in Chosen(f) && Chosen(f)[t] == Order(f)[i]
  {
    hide KeyAt, MsgAt, Tops, FileAll;
    ChosenIs(f);
    PlainStays(f, Order(f), i, t);
  }

  /** Of roots that are all replies the first message is filed, and if all are empty the first of them. */
  lemma {:induction false} FirstReplyStays(f: Forest, q: seq<Node>, i: nat, t: string)
    requires i < |q| && (forall x :: x in q ==> x in Tops(f)) && Of(f, t, q[i])
    requires forall j :: 0 <= j < |q| && Of(f, t, q[j]) ==> KeyAt(f, q[j]).re
    requires MsgAt(f, q[i]).Some? || forall j :: 0 <= j < |q| && Of(f, t, q[j]) ==> MsgAt(f, q[j]).None?
    requires forall j :: 0 <= j < i && Of(f, t, q[j]) ==> MsgAt(f, q[j]).None? && MsgAt(f, q[i]).Some?
    ensures t in FileAll(f, q) && FileAll(f, q)[t] == q[i]
    decreases |q|
  {
    hide KeyAt, MsgAt, Tops, FileAll;
    var n := |q| - 1;
    var p := q[..n];
    assert forall x :: x in p ==> x in q;
    FileAllNext(f, q, n);
    assert q[..n + 1] == q;
    if i < n {
      FirstReplyStays(f, p, i, t);
    } else {
      FileAllFor(f, p, t);
      if t in FileAll(f, p) {
        var j :| 0 <= j < n && p[j] == FileAll(f, p)[t];
        assert p[j] == q[j];
      }
    }
  }

  lemma FirstReplyChosen(f: Forest, i: nat, t: string)
    requires i < |Order(f)| && Of(f, t, Order(f)[i])
    requires forall j :: 0 <= j < |Order(f)| && Of(f, t, Order(f)[j]) ==> KeyAt(f, Order(f)[j]).re
    requires MsgAt(f, Order(f)[i]).Some? || forall j :: 0 <= j < |Order(f)| && Of(f, t, Order(f)[j]) ==> MsgAt(f, Order(f)[j]).None?
    requires forall j :: 0 <= j < i && Of(f, t, Order(f)[j]) ==> MsgAt(f, Order(f)[j]).None? && MsgAt(f, Order(f)[i]).Some?
    ensures t in Chosen(f) && Chosen(f)[t] == Order(f)[i]
  {
    hide KeyAt, MsgAt, Tops, FileAll;
    ChosenIs(f);
    FirstReplyStays(f, Order(f), i, t);
  }

  datatype Groups = Groups(w: Forest, seen: set<Node>, table: map<string, Node>, key: map<Node, Key>)

  /** `x` is the container of its subject. */
  ghost predicate Entry(s: Groups, x: Node) {
    x in s.key && s.key[x].subject.Some? &&
    s.key[x].subject.value in s.table && s.table[s.key[x].subject.value] == x
  }

  // ---------------------------------------------------------------- the invariant

  /** A container that is no root hangs under an empty root of its own subject, which was passed
      and which can lose it again and still have two children. */
  ghost predicate Lodged(s: Groups, e: Node)
    requires Distinct(s.w) && Placed(s.w, e)
  {
    e !in Tops(s.w) ==>
      TreeMsg(s.w, e).Some? && e in s.key && Holder(s.w, e) in s.seen && Holder(s.w, e) in Tops(s.w) &&
      Holder(s.w, e) in s.key && s.key[Holder(s.w, e)].subject == s.key[e].subject &&
      Length(KidsAt(s.w, Holder(s.w, e))) >= 3
  }

  ghost predicate Tables(s: Groups) {
    && Distinct(s.w) && Pruned(s.w)
    && s.seen <= Tops(s.w) <= s.key.Keys
    && (forall t :: t in s.table ==>
          var e := s.table[t];
          Placed(s.w, e) && e in s.key && s.key[e].subject == Some(t) && Lodged(s, e))
    && (forall x :: x in Tops(s.w) && s.key[x].subject.Some? ==> s.key[x].subject.value in s.table)
  }

  /** A root that is no reply never meets a container that is a message and a reply. */
  ghost predicate NoReplyAbove(s: Groups)
    requires Tables(s)
  {
    forall x :: x in Tops(s.w) && x !in s.seen && s.key[x].subject.Some? && !s.key[x].re && MsgAt(s.w, x).Some? ==>
      var e := s.table[s.key[x].subject.value];
      TreeMsg(s.w, e).None? || !s.key[e].re
  }

  ghost predicate Kept(f: Forest, w: Forest) {
    Msgs(w) == Msgs(f) && forall a, d :: Above(f, a, d) ==> Above(w, a, d)
  }

  /** Root `x` is still the tree it was in `f`. */
  ghost predicate Untouched(f: Forest, s: Groups, x: Node) {
    x in Tops(f) && x in Tops(s.w) && x in s.key &&
    MsgAt(s.w, x) == MsgAt(f, x) && KidsAt(s.w, x) == KidsAt(f, x) && s.key[x] == KeyAt(f, x)
  }

  ghost predicate InTree(f: Forest, y: Node, d: Msg, subject: Option<string>) {
    y in Tops(f) && d in TreeMsgs(f, y) && KeyAt(f, y).subject == subject
  }

  ghost predicate From(f: Forest, d: Msg, subject: Option<string>) {
    exists y :: y in Tops(f) && InTree(f, y, d, subject)
  }

  /** `a` was a root that is no reply, `d` belonged to a root reply of the same subject. */
  ghost predicate NewPairAt(f: Forest, x: Node, y: Node, a: Msg, d: Msg) {
    x in Tops(f) && y in Tops(f) && x != y &&
    KeyAt(f, x).subject.Some? && KeyAt(f, x).subject == KeyAt(f, y).subject &&
    !KeyAt(f, x).re && KeyAt(f, y).re &&
    MsgAt(f, x) == Some(a) && MsgAt(f, y).Some? && d in TreeMsgs(f, y)
  }

  ghost predicate NewPair(f: Forest, a: Msg, d: Msg) {
    exists x, y :: x in Tops(f) && y in Tops(f) && NewPairAt(f, x, y, a, d)
  }

  /** Only roots of one subject have been put together, and messages only below a non-reply. */
  ghost predicate Sound(f: Forest, s: Groups)
    requires Tables(s)
  {
    && (forall x :: x in Tops(s.w) && (s.key[x].subject.None? || (x !in s.seen && !Entry(s, x))) ==>
          Untouched(f, s, x))
    && (forall t :: t in s.table && TreeMsg(s.w, s.table[t]).Some? ==>
          var e := s.table[t];
          e in Tops(f) && MsgAt(f, e) == TreeMsg(s.w, e) && KeyAt(f, e) == s.key[e])
    && (forall x, d :: x in Tops(s.w) && d in TreeMsgs(s.w, x) ==> From(f, d, s.key[x].subject))
    && (forall a, d :: Above(s.w, a, d) ==> Above(f, a, d) || NewPair(f, a, d))
  }

  /** Of the roots passed, a message is the container of its subject, and an empty root that is
      not has left no message of its subject at the root. */
  ghost predicate Complete(s: Groups)
    requires Tables(s)
  {
    forall x :: x in s.seen && s.key[x].subject.Some? ==>
      var e := s.table[s.key[x].subject.value];
      e == x || (MsgAt(s.w, x).None? && (TreeMsg(s.w, e).None? || e !in Tops(s.w)))
  }

  ghost predicate Inv(f: Forest, s: Groups) {
    Tables(s) && NoReplyAbove(s) && Kept(f, s.w) && Sound(f, s) && Complete(s)
  }

  // ---------------------------------------------------------------- the moves

  /** `c` is the next root and is to be merged with the container `e` of its subject. */
  ghost predicate Match(s: Groups, c: Node, e: Node)
    requires Tables(s)
  {
    c in Tops(s.w) && c !in s.seen && c != e &&
    s.key[c].subject.Some? && s.table[s.key[c].subject.value] == e
  }

  lemma MatchProps(s: Groups, c: Node, e: Node)
    requires Tables(s) && Match(s, c, e)
    ensures Placed(s.w, e) && e in s.key && s.key[e].subject == s.key[c].subject && Lodged(s, e)
    ensures e !in Tops(s.w) ==> Holder(s.w, e) != c
    ensures !Entry(s, c) && Entry(s, e)
  {
    var t := s.key[c].subject.value;
    assert t in s.table && s.table[t] == e;
  }

  /** `c` is empty, `e` is not: `e` becomes the first child of `c`. */
  ghost function Adopt(s: Groups, c: Node, e: Node): Groups
    requires Tables(s) && Match(s, c, e)
  {
    MatchProps(s, c, e);
    DetachNodes(s.w, e);
    var w := Detach(s.w, e);
    s.(w := SetKids(w, c, Cons(e, TreeMsg(s.w, e), TreeKids(s.w, e), KidsAt(w, c))), seen := s.seen - {e} + {c})
  }

  /** The children of `e` once the root `c` is merged into it: an empty `c` gives its children,
      to the end of the list, any other becomes the first child. */
  ghost function KidsWith(s: Groups, c: Node, e: Node): Forest
    requires Distinct(s.w) && c in Tops(s.w) && Placed(s.w, e)
  {
    var k := TreeKids(s.w, e);
    if MsgAt(s.w, c).None? then Append(k, KidsAt(s.w, c)) else Cons(c, MsgAt(s.w, c), KidsAt(s.w, c), k)
  }

  /** `c` goes into `e`. */
  ghost function Merge(s: Groups, c: Node, e: Node): Groups
    requires Tables(s) && Match(s, c, e)
  {
    MatchProps(s, c, e);
    DetachNodes(s.w, c);
    DetachPlaced(s.w, c, e);
    s.(w := SetKids(Detach(s.w, c), e, KidsWith(s, c, e)))
  }

  ghost function PairKids(s: Groups, c: Node, e: Node): Forest
    requires Tables(s) && Match(s, c, e)
  {
    MatchProps(s, c, e);
    Cons(e, TreeMsg(s.w, e), TreeKids(s.w, e), Cons(c, MsgAt(s.w, c), KidsAt(s.w, c), Nil))
  }

  /** A new empty root takes the place of `c`, with the children `e` and `c`. */
  ghost function Pair(s: Groups, c: Node, e: Node, scan: Node): Groups
    requires Tables(s) && Match(s, c, e)
  {
    MatchProps(s, c, e);
    DetachNodes(s.w, e);
    Groups(Replace(Detach(s.w, e), c, scan, None, PairKids(s, c, e)),
           s.seen - {e} + {scan},
           s.table[s.key[c].subject.value := scan],
           s.key[scan := Key(s.key[c].subject, s.key[c].re && s.key[e].re)])
  }

  /** `c` stays where it is. */
  ghost function Pass(s: Groups, c: Node): Groups {
    s.(seen := s.seen + {c})
  }
}
