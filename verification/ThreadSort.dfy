/** sort_thread: sort every list of siblings by date, then by input order. */
module ThreadSort {
  import opened Wrappers
  import opened ThreadForest
  import opened ThreadTops

  // ---------------------------------------------------------------- the order

  /** The sent date, or the received date when there is no sent one. */
  function SortTime(item: Item): int {
    if item.dateSent <= 0 then item.dateReceived else item.dateSent
  }

  ghost predicate Less(a: Msg, b: Msg) {
    SortTime(a.item) < SortTime(b.item) || (SortTime(a.item) == SortTime(b.item) && a.order < b.order)
  }

  /** The message a tree is sorted by: its own, or that of the first child of a dummy. */
  ghost function Lead(m: Option<Msg>, kids: Forest): Option<Msg> {
    if m.Some? || kids.Nil? then m else kids.msg
  }

  ghost function LeadAt(f: Forest, n: Node): Option<Msg>
    requires n in Tops(f)
  {
    Lead(MsgAt(f, n), KidsAt(f, n))
  }

  /** No message occurs twice, and no two messages have the same place in the input. */
  ghost predicate Orderly(ms: multiset<Msg>) {
    (forall a :: a in ms ==> ms[a] == 1) && (forall a, b :: a in ms && b in ms && a.order == b.order ==> a == b)
  }

  lemma LeadSome(f: Forest, n: Node)
    requires Pruned(f) && n in Tops(f)
    ensures LeadAt(f, n).Some? && LeadAt(f, n).value in TreeMsgs(f, n)
  {
    if f.node == n { if f.kids.Cons? { assert f.kids.msg.Some? ==> f.kids.msg.value in Msgs(f.kids); } }
  }

  // ---------------------------------------------------------------- the result

  /** Put a tree into a sorted list. */
  ghost function Insert(n: Node, m: Option<Msg>, k: Forest, f: Forest): Forest {
    match f
    case Nil => Cons(n, m, k, Nil)
    case Cons(n', m', k', rest) =>
      if Lead(m, k).Some? && Lead(m', k').Some? && Less(Lead(m, k).value, Lead(m', k').value)
      then Cons(n, m, k, f) else Cons(n', m', k', Insert(n, m, k, rest))
  }

  ghost function SortList(f: Forest): Forest {
    match f
    case Nil => Nil
    case Cons(n, m, k, rest) => Insert(n, m, k, SortList(rest))
  }

  ghost function SortForest(f: Forest): Forest
    decreases f, 1
  {
    SortList(SortKids(f))
  }

  /** The children of every sibling sorted, the siblings themselves not yet. */
  ghost function SortKids(f: Forest): Forest
    decreases f, 0
  {
    match f
    case Nil => Nil
    case Cons(n, m, k, rest) => Cons(n, m, SortForest(k), SortKids(rest))
  }

  /** Each list of siblings is strictly increasing. */
  ghost predicate Increasing(f: Forest) {
    match f
    case Nil => true
    case Cons(_, m, k, rest) =>
      (rest.Cons? && Lead(m, k).Some? && Lead(rest.msg, rest.kids).Some? ==>
         Less(Lead(m, k).value, Lead(rest.msg, rest.kids).value)) && Increasing(rest)
  }

  ghost predicate Sorted(f: Forest)
    decreases f
  {
    Increasing(f) && KidsSorted(f)
  }

  ghost predicate KidsSorted(f: Forest)
    decreases f, 0
  {
    match f
    case Nil => true
    case Cons(_, _, k, rest) => Increasing(k) && KidsSorted(k) && KidsSorted(rest)
  }

  // ---------------------------------------------------------------- what sorting keeps

  lemma InsertKeeps(n: Node, m: Option<Msg>, k: Forest, f: Forest)
    ensures var g := Insert(n, m, k, f);
      && Nodes(g) == {n} + Nodes(k) + Nodes(f) && Tops(g) == {n} + Tops(f)
      && Size(g) == 1 + Size(k) + Size(f)
  {
  }

  lemma {:induction false} InsertMsgs(n: Node, m: Option<Msg>, k: Forest, f: Forest)
    ensures Msgs(Insert(n, m, k, f)) == MsgOf(m) + Msgs(k) + Msgs(f)
  {
    hide Lead, Less;
    if f.Cons? { InsertMsgs(n, m, k, f.rest); }
  }

  lemma InsertDistinct(n: Node, m: Option<Msg>, k: Forest, f: Forest)
    requires Distinct(Cons(n, m, k, f))
    ensures Distinct(Insert(n, m, k, f))
  {
    if f.Cons? { InsertKeeps(n, m, k, f.rest); }
  }

  lemma InsertShape(n: Node, m: Option<Msg>, k: Forest, f: Forest)
    ensures Full(Insert(n, m, k, f)) <==> Full(Cons(n, m, k, f))
    ensures Pruned(Insert(n, m, k, f)) <==> Pruned(Cons(n, m, k, f))
  {
  }

  lemma InsertAbove(n: Node, m: Option<Msg>, k: Forest, f: Forest, a: Msg, d: Msg)
    ensures Above(Insert(n, m, k, f), a, d) <==> Above(Cons(n, m, k, f), a, d)
  {
  }

  lemma SortListKeeps(f: Forest)
    ensures Nodes(SortList(f)) == Nodes(f) && Tops(SortList(f)) == Tops(f) && Size(SortList(f)) == Size(f)
    ensures Msgs(SortList(f)) == Msgs(f)
    ensures Full(SortList(f)) <==> Full(f)
    ensures Pruned(SortList(f)) <==> Pruned(f)
  {
    if f.Cons? {
      SortListKeeps(f.rest);
      InsertKeeps(f.node, f.msg, f.kids, SortList(f.rest));
      InsertMsgs(f.node, f.msg, f.kids, SortList(f.rest));
      InsertShape(f.node, f.msg, f.kids, SortList(f.rest));
    }
  }

  lemma SortListDistinct(f: Forest)
    requires Distinct(f)
    ensures Distinct(SortList(f))
  {
    if f.Cons? {
      SortListKeeps(f.rest);
      SortListDistinct(f.rest);
      InsertDistinct(f.node, f.msg, f.kids, SortList(f.rest));
    }
  }

  lemma SortListAbove(f: Forest, a: Msg, d: Msg)
    ensures Above(SortList(f), a, d) <==> Above(f, a, d)
  {
    if f.Cons? {
      SortListAbove(f.rest, a, d);
      InsertAbove(f.node, f.msg, f.kids, SortList(f.rest), a, d);
    }
  }

  /** Sorting keeps the nodes and the messages. */
  lemma {:induction false} SortKeeps(f: Forest)
    ensures Nodes(SortForest(f)) == Nodes(f) && Msgs(SortForest(f)) == Msgs(f) && Size(SortForest(f)) == Size(f)
    decreases f, 1
  {
    SortKidsKeeps(f);
    SortListKeeps(SortKids(f));
  }

  lemma {:induction false} SortKidsKeeps(f: Forest)
    ensures Nodes(SortKids(f)) == Nodes(f) && Msgs(SortKids(f)) == Msgs(f) && Size(SortKids(f)) == Size(f)
    ensures Tops(SortKids(f)) == Tops(f) && Order(SortKids(f)) == Order(f)
    decreases f, 0
  {
    hide SortForest;
    if f.Cons? {
      SortKeeps(f.kids);
      SortKidsKeeps(f.rest);
    }
  }

  /** Sorting keeps the shape. */
  lemma {:induction false} SortShape(f: Forest)
    ensures Full(SortForest(f)) <==> Full(f)
    ensures Pruned(SortForest(f)) <==> Pruned(f)
    decreases f, 1
  {
    SortKidsShape(f);
    SortListKeeps(SortKids(f));
  }

  lemma {:induction false} SortKidsShape(f: Forest)
    ensures Full(SortKids(f)) <==> Full(f)
    ensures Pruned(SortKids(f)) <==> Pruned(f)
    decreases f, 0
  {
    hide SortForest;
    if f.Cons? {
      SortShape(f.kids);
      SortKidsShape(f.rest);
      SortLength(f.kids);
    }
  }

  lemma SortLength(f: Forest)
    ensures Length(SortForest(f)) == Length(f)
  {
    SortKidsLength(f);
    SortListLength(SortKids(f));
  }

  lemma SortKidsLength(f: Forest)
    ensures Length(SortKids(f)) == Length(f)
  {
    if f.Cons? { SortKidsLength(f.rest); }
  }

  lemma SortListLength(f: Forest)
    ensures Length(SortList(f)) == Length(f)
  {
    if f.Cons? {
      SortListLength(f.rest);
      InsertLength(f.node, f.msg, f.kids, SortList(f.rest));
    }
  }

  lemma InsertLength(n: Node, m: Option<Msg>, k: Forest, f: Forest)
    ensures Length(Insert(n, m, k, f)) == 1 + Length(f)
  {
  }

  lemma SortDistinct(f: Forest)
    requires Distinct(f)
    ensures Distinct(SortForest(f)) && Distinct(SortKids(f))
    decreases f, 1
  {
    SortKidsDistinct(f);
    SortListDistinct(SortKids(f));
  }

  lemma SortKidsDistinct(f: Forest)
    requires Distinct(f)
    ensures Distinct(SortKids(f))
    decreases f, 0
  {
    if f.Cons? {
      SortDistinct(f.kids);
      SortKidsDistinct(f.rest);
      SortKeeps(f.kids);
      SortKidsKeeps(f.rest);
    }
  }

  /** Sorting keeps exactly the same ancestor relation between messages. */
  lemma {:induction false} SortKeepsAncestors(f: Forest, a: Msg, d: Msg)
    ensures Above(SortForest(f), a, d) <==> Above(f, a, d)
    decreases f, 1
  {
    SortKidsAbove(f, a, d);
    SortListAbove(SortKids(f), a, d);
  }

  lemma {:induction false} SortKidsAbove(f: Forest, a: Msg, d: Msg)
    ensures Above(SortKids(f), a, d) <==> Above(f, a, d)
    decreases f, 0
  {
    if f.Cons? {
      SortKeeps(f.kids);
      SortKeepsAncestors(f.kids, a, d);
      SortKidsAbove(f.rest, a, d);
    }
  }

  // ---------------------------------------------------------------- the result is sorted

  /** `a` compares differently with every sibling in `f`. */
  ghost predicate Beside(a: Msg, f: Forest) {
    match f
    case Nil => true
    case Cons(_, m, k, rest) => Lead(m, k).Some? && Lead(m, k).value.order != a.order && Beside(a, rest)
  }

  /** Every sibling has a message to be sorted by, and no two compare equal. */
  ghost predicate Comparable(f: Forest) {
    match f
    case Nil => true
    case Cons(_, m, k, rest) => Lead(m, k).Some? && Beside(Lead(m, k).value, rest) && Comparable(rest)
  }

  lemma OrdersBeside(a: Msg, f: Forest)
    requires Pruned(f) && forall d :: d in Msgs(f) ==> d.order != a.order
    ensures Beside(a, f)
  {
    if f.Cons? {
      LeadSome(f, f.node);
      OrdersBeside(a, f.rest);
    }
  }

  lemma OrderlyComparable(f: Forest)
    requires Pruned(f) && Orderly(Msgs(f))
    ensures Comparable(f)
  {
    if f.Cons? {
      LeadSome(f, f.node);
      var a := Lead(f.msg, f.kids).value;
      OrderlyPart(Msgs(f), Msgs(f.rest));
      OrderlyComparable(f.rest);
      forall d | d in Msgs(f.rest) ensures d.order != a.order {
        assert d == a ==> Msgs(f)[a] >= 2;
      }
      OrdersBeside(a, f.rest);
    }
  }

  lemma InsertBeside(a: Msg, n: Node, m: Option<Msg>, k: Forest, f: Forest)
    ensures Beside(a, Insert(n, m, k, f)) <==> Beside(a, Cons(n, m, k, f))
  {
  }

  lemma SortListBeside(a: Msg, f: Forest)
    ensures Beside(a, SortList(f)) <==> Beside(a, f)
  {
    if f.Cons? { InsertBeside(a, f.node, f.msg, f.kids, SortList(f.rest)); }
  }

  lemma InsertIncreasing(n: Node, m: Option<Msg>, k: Forest, f: Forest)
    requires Increasing(f) && Lead(m, k).Some? && Beside(Lead(m, k).value, f)
    ensures Increasing(Insert(n, m, k, f))
  {
  }

  lemma SortListIncreasing(f: Forest)
    requires Comparable(f)
    ensures Increasing(SortList(f))
  {
    if f.Cons? {
      SortListIncreasing(f.rest);
      SortListBeside(Lead(f.msg, f.kids).value, f.rest);
      InsertIncreasing(f.node, f.msg, f.kids, SortList(f.rest));
    }
  }

  lemma InsertAt(n: Node, m: Option<Msg>, k: Forest, f: Forest, x: Node)
    requires Distinct(Cons(n, m, k, f)) && (x == n || x in Tops(f))
    ensures x in Tops(Insert(n, m, k, f))
    ensures var g := Insert(n, m, k, f);
      MsgAt(g, x) == MsgAt(Cons(n, m, k, f), x) && KidsAt(g, x) == KidsAt(Cons(n, m, k, f), x)
  {
    InsertKeeps(n, m, k, f);
    TopsNodes(f);
    if f.Cons? { InsertKeeps(n, m, k, f.rest); TopsNodes(f.rest); }
  }

  /** Every tree is still there, unchanged. */
  lemma SortListAt(f: Forest, x: Node)
    requires Distinct(f) && x in Tops(f)
    ensures x in Tops(SortList(f)) && MsgAt(SortList(f), x) == MsgAt(f, x) && KidsAt(SortList(f), x) == KidsAt(f, x)
  {
    SortListKeeps(f.rest);
    SortListDistinct(f.rest);
    TopsNodes(f.rest);
    if x != f.node { SortListAt(f.rest, x); }
    InsertAt(f.node, f.msg, f.kids, SortList(f.rest), x);
  }

  lemma OrderlyPart(ms: multiset<Msg>, ns: multiset<Msg>)
    requires Orderly(ms) && ns <= ms
    ensures Orderly(ns)
  {
    forall a | a in ns ensures ns[a] == 1 { assert a in ms; }
  }

  /** Every list of siblings of the result is strictly increasing. */
  lemma {:induction false} SortSorts(f: Forest)
    requires Pruned(f) && Orderly(Msgs(f))
    ensures Sorted(SortForest(f))
    decreases f, 1
  {
    SortKidsSorts(f);
    SortKidsShape(f);
    SortKidsKeeps(f);
    OrderlyComparable(SortKids(f));
    SortListIncreasing(SortKids(f));
    SortListKidsSorted(SortKids(f));
  }

  lemma {:induction false} SortKidsSorts(f: Forest)
    requires Pruned(f) && Orderly(Msgs(f))
    ensures KidsSorted(SortKids(f))
    decreases f, 0
  {
    if f.Cons? {
      FullPruned(f.kids);
      OrderlyPart(Msgs(f), Msgs(f.kids));
      OrderlyPart(Msgs(f), Msgs(f.rest));
      SortSorts(f.kids);
      SortKidsSorts(f.rest);
    }
  }

  lemma FullPruned(f: Forest)
    requires Full(f)
    ensures Pruned(f)
  {
  }

  lemma SortListKidsSorted(f: Forest)
    requires KidsSorted(f)
    ensures KidsSorted(SortList(f))
  {
    if f.Cons? {
      SortListKidsSorted(f.rest);
      InsertKidsSorted(f.node, f.msg, f.kids, SortList(f.rest));
    }
  }

  lemma InsertKidsSorted(n: Node, m: Option<Msg>, k: Forest, f: Forest)
    requires KidsSorted(Cons(n, m, k, f))
    ensures KidsSorted(Insert(n, m, k, f))
  {
  }

  // ---------------------------------------------------------------- the order in terms of the dates

  /** Message `a` comes before `b`: the sent dates decide if both are known, a received date stands in
      for a sent date of 0 or less, and on a tie the place in the input. */
  ghost predicate Earlier(a: Msg, b: Msg) {
    var x, y := a.item, b.item;
    && (x.dateSent > 0 && y.dateSent > 0 ==> x.dateSent <= y.dateSent && (x.dateSent == y.dateSent ==> a.order < b.order))
    && (x.dateSent > 0 && y.dateSent <= 0 ==> x.dateSent <= y.dateReceived && (x.dateSent == y.dateReceived ==> a.order < b.order))
    && (x.dateSent <= 0 && y.dateSent > 0 ==> x.dateReceived <= y.dateSent && (x.dateReceived == y.dateSent ==> a.order < b.order))
    && (x.dateSent <= 0 && y.dateSent <= 0 ==>
          x.dateReceived <= y.dateReceived && (x.dateReceived == y.dateReceived ==> a.order < b.order))
  }

  lemma LessEarlier(a: Msg, b: Msg)
    ensures Less(a, b) <==> Earlier(a, b)
  {
  }

  lemma LessTrans(a: Msg, b: Msg, c: Msg)
    requires Less(a, b) && Less(b, c)
    ensures Less(a, c)
  {
  }

  /** Each root comes before all later ones. */
  ghost predicate RootsByDate(f: Forest) {
    match f
    case Nil => true
    case Cons(_, m, k, rest) =>
      (forall x :: x in Tops(rest) && Lead(m, k).Some? && LeadAt(rest, x).Some? ==>
         Earlier(Lead(m, k).value, LeadAt(rest, x).value)) && RootsByDate(rest)
  }

  /** In every list of siblings each one comes before all later ones. */
  ghost predicate AllByDate(f: Forest) {
    RootsByDate(f) && KidsByDate(f)
  }

  ghost predicate KidsByDate(f: Forest) {
    match f
    case Nil => true
    case Cons(_, _, k, rest) => RootsByDate(k) && KidsByDate(k) && KidsByDate(rest)
  }

  /** What comes before the first comes before all. */
  lemma {:induction false} BeforeAll(a: Msg, f: Forest, x: Node)
    requires Pruned(f) && Increasing(f) && x in Tops(f) && Distinct(f)
    requires Lead(f.msg, f.kids).Some? ==> Less(a, Lead(f.msg, f.kids).value)
    ensures LeadAt(f, x).Some? && Less(a, LeadAt(f, x).value)
  {
    hide Less;
    LeadSome(f, f.node);
    LeadSome(f, x);
    TopsNodes(f.rest);
    if x != f.node {
      LeadSome(f.rest, f.rest.node);
      LessTrans(a, Lead(f.msg, f.kids).value, Lead(f.rest.msg, f.rest.kids).value);
      BeforeAll(a, f.rest, x);
    }
  }

  lemma {:induction false} IncreasingByDate(f: Forest)
    requires Pruned(f) && Distinct(f) && Increasing(f)
    ensures RootsByDate(f)
  {
    if f.Cons? {
      IncreasingByDate(f.rest);
      forall x | x in Tops(f.rest) && Lead(f.msg, f.kids).Some? && LeadAt(f.rest, x).Some?
        ensures Earlier(Lead(f.msg, f.kids).value, LeadAt(f.rest, x).value)
      {
        LeadSome(f.rest, f.rest.node);
        BeforeAll(Lead(f.msg, f.kids).value, f.rest, x);
        LessEarlier(Lead(f.msg, f.kids).value, LeadAt(f.rest, x).value);
      }
    }
  }

  lemma {:induction false} KidsSortedByDate(f: Forest)
    requires Pruned(f) && Distinct(f) && KidsSorted(f)
    ensures KidsByDate(f)
    decreases f
  {
    if f.Cons? {
      FullPruned(f.kids);
      IncreasingByDate(f.kids);
      KidsSortedByDate(f.kids);
      KidsSortedByDate(f.rest);
    }
  }

  /** After sorting all lists of siblings are in the order of the dates. */
  lemma SortByDate(f: Forest)
    requires Pruned(f) && Distinct(f) && Orderly(Msgs(f))
    ensures AllByDate(SortForest(f))
  {
    hide Pruned, Distinct, Increasing, KidsSorted, SortKids, SortList, Msgs, Orderly, RootsByDate, KidsByDate;
    SortSorts(f);
    SortShape(f);
    SortDistinct(f);
    IncreasingByDate(SortForest(f));
    KidsSortedByDate(SortForest(f));
  }
}
