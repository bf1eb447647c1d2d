/** The last pass of thread_items: no empty root stays, its first child takes its place. */
module ThreadPhantom {
  import opened Wrappers
  import opened ThreadForest
  import opened ThreadTops
  import opened ThreadSort

  /** The date that decides which message goes on top. */
  function SwapTime(item: Item): int {
    if item.dateSent == 0 || item.dateSent == -1 then item.dateReceived else item.dateSent
  }

  /** `t` is a known date and before `curr`, or there is no `curr` yet. */
  predicate Older(t: int, curr: int) {
    t != 0 && t != -1 && (t < curr || curr == 0 || curr == -1)
  }

  ghost predicate Elected(x: Option<Msg>, curr: int) {
    x.Some? && Older(SwapTime(x.value.item), curr)
  }

  ghost function StartTime(m: Option<Msg>): int {
    if m.Some? then SwapTime(m.value.item) else 0
  }

  /** The message that ends on top of the siblings `s` when `m` starts there. */
  ghost function Top(m: Option<Msg>, curr: int, s: Forest): Option<Msg>
    decreases s
  {
    match s
    case Nil => m
    case Cons(_, x, _, rest) =>
      if Elected(x, curr) then Top(x, SwapTime(x.value.item), rest) else Top(m, curr, rest)
  }

  /** The siblings after the swaps: each message elected leaves its place to the one before it. */
  ghost function Swapped(m: Option<Msg>, curr: int, s: Forest): Forest
    decreases s
  {
    match s
    case Nil => Nil
    case Cons(n, x, k, rest) =>
      if Elected(x, curr) then Cons(n, m, k, Swapped(x, SwapTime(x.value.item), rest))
      else Cons(n, x, k, Swapped(m, curr, rest))
  }

  /** What one root becomes: a message stays, an empty root gives its place to its first child. */
  ghost function PromoteRoot(m: Option<Msg>, k: Forest, swap: bool): (Option<Msg>, Forest) {
    if m.Some? || k.Nil? then (m, k)
    else if swap then
      (Top(k.msg, StartTime(k.msg), k.rest), Append(k.kids, Swapped(k.msg, StartTime(k.msg), k.rest)))
    else (k.msg, Append(k.kids, k.rest))
  }

  ghost function Promote(f: Forest, swap: bool): Forest {
    match f
    case Nil => Nil
    case Cons(n, m, k, rest) =>
      var (m', k') := PromoteRoot(m, k, swap);
      Cons(if m.Some? || k.Nil? then n else k.node, m', k', Promote(rest, swap))
  }

  // ---------------------------------------------------------------- what it keeps

  lemma SwappedKeeps(m: Option<Msg>, curr: int, s: Forest)
    ensures Nodes(Swapped(m, curr, s)) == Nodes(s) && Tops(Swapped(m, curr, s)) == Tops(s)
    ensures Distinct(Swapped(m, curr, s)) <==> Distinct(s)
    decreases s
  {
  }

  lemma {:induction false} SwappedMsgs(m: Option<Msg>, curr: int, s: Forest)
    ensures MsgOf(Top(m, curr, s)) + Msgs(Swapped(m, curr, s)) == MsgOf(m) + Msgs(s)
    decreases s
  {
    hide Msgs, MsgOf, SwapTime, Older;
    match s
    case Nil => NilParts();
    case Cons(n, x, k, rest) =>
      MsgsCons(n, x, k, rest);
      if Elected(x, curr) {
        ElectedSome(x, curr);
        SwappedMsgs(x, SwapTime(x.value.item), rest);
        var r := Swapped(x, SwapTime(x.value.item), rest);
        MsgsCons(n, m, k, r);
        Regroup(MsgOf(Top(x, SwapTime(x.value.item), rest)), Msgs(r), MsgOf(m), Msgs(k), MsgOf(x), Msgs(rest));
      } else {
        SwappedMsgs(m, curr, rest);
        var r := Swapped(m, curr, rest);
        MsgsCons(n, x, k, r);
        Regroup(MsgOf(Top(m, curr, rest)), Msgs(r), MsgOf(x), Msgs(k), MsgOf(m), Msgs(rest));
      }
  }

  lemma Regroup(t: multiset<Msg>, s: multiset<Msg>, m: multiset<Msg>, k: multiset<Msg>, x: multiset<Msg>, r: multiset<Msg>)
    requires t + s == x + r
    ensures t + (m + k + s) == m + (x + k + r) && t + (m + k + s) == x + (m + k + r)
    ensures t + (k + s) == x + k + r
  {
    assert t + (m + k + s) == m + k + (t + s);
    assert t + (k + s) == k + (t + s);
  }

  lemma ElectedSome(x: Option<Msg>, curr: int)
    requires Elected(x, curr)
    ensures x.Some?
  {
  }

  lemma SwappedFull(m: Option<Msg>, curr: int, s: Forest)
    requires m.Some? && Full(s)
    ensures Top(m, curr, s).Some? && Full(Swapped(m, curr, s))
    decreases s
  {
  }

  lemma {:induction false} PromoteNodes(f: Forest, swap: bool)
    requires Distinct(f)
    ensures Distinct(Promote(f, swap)) && Nodes(Promote(f, swap)) <= Nodes(f)
  {
    if f.Cons? {
      PromoteNodes(f.rest, swap);
      var k := f.kids;
      if f.msg.None? && k.Cons? {
        SwappedKeeps(k.msg, StartTime(k.msg), k.rest);
        var s := if swap then Swapped(k.msg, StartTime(k.msg), k.rest) else k.rest;
        AppendNodes(k.kids, s);
        AppendDistinct(k.kids, s);
      }
    }
  }

  lemma {:induction false} PromoteRootMsgs(m: Option<Msg>, k: Forest, swap: bool)
    ensures var (m', k') := PromoteRoot(m, k, swap); MsgOf(m') + Msgs(k') == MsgOf(m) + Msgs(k)
  {
    hide Top, Swapped, Append, Msgs, MsgOf;
    NilParts();
    if m.None? && k.Cons? {
      MsgsCons(k.node, k.msg, k.kids, k.rest);
      SwappedMsgs(k.msg, StartTime(k.msg), k.rest);
      var r := Swapped(k.msg, StartTime(k.msg), k.rest);
      AppendMsgs(k.kids, r);
      AppendMsgs(k.kids, k.rest);
      Regroup(MsgOf(Top(k.msg, StartTime(k.msg), k.rest)), Msgs(r), multiset{}, Msgs(k.kids), MsgOf(k.msg), Msgs(k.rest));
      assert MsgOf(m) + Msgs(k) == Msgs(k);
    }
  }

  /** No message is lost or duplicated. */
  lemma {:induction false} PromoteKeepsMessages(f: Forest, swap: bool)
    ensures Msgs(Promote(f, swap)) == Msgs(f)
  {
    if f.Cons? {
      PromoteKeepsMessages(f.rest, swap);
      PromoteRootMsgs(f.msg, f.kids, swap);
    }
  }

  /** No empty node is left. */
  lemma {:induction false} PromoteFull(f: Forest, swap: bool)
    requires Pruned(f)
    ensures Full(Promote(f, swap))
  {
    if f.Cons? {
      PromoteFull(f.rest, swap);
      var k := f.kids;
      if f.msg.None? && k.Cons? {
        SwappedFull(k.msg, StartTime(k.msg), k.rest);
        AppendShape(k.kids, Swapped(k.msg, StartTime(k.msg), k.rest));
        AppendShape(k.kids, k.rest);
      }
    }
  }

  // ---------------------------------------------------------------- which message comes on top

  predicate Known(date: int) {
    date != 0 && date != -1
  }

  /** If `y` has a date, so has `x`, and not a later one: the sent dates decide if both are known, and a
      received date stands in for a sent date of 0 or -1. */
  predicate NoLater(x: Item, y: Item) {
    && (Known(y.dateSent) || Known(y.dateReceived) ==> Known(x.dateSent) || Known(x.dateReceived))
    && (Known(x.dateSent) && Known(y.dateSent) ==> x.dateSent <= y.dateSent)
    && (Known(x.dateSent) && !Known(y.dateSent) && Known(y.dateReceived) ==> x.dateSent <= y.dateReceived)
    && (!Known(x.dateSent) && Known(y.dateSent) ==> x.dateReceived <= y.dateSent)
    && (!Known(x.dateSent) && !Known(y.dateSent) && Known(y.dateReceived) ==> x.dateReceived <= y.dateReceived)
  }

  lemma NoLaterIs(x: Item, y: Item)
    ensures NoLater(x, y) <==> !Older(SwapTime(y), SwapTime(x))
  {
  }

  lemma OlderTrans(a: int, b: int, c: int)
    requires !Older(b, a) && !Older(c, b)
    ensures !Older(c, a)
  {
  }

  lemma {:induction false} TopOldest(m: Msg, s: Forest, x: Node)
    requires Full(s)
    ensures Top(Some(m), SwapTime(m.item), s).Some?
    ensures var top := Top(Some(m), SwapTime(m.item), s).value.item;
      !Older(SwapTime(m.item), SwapTime(top)) && (x in Tops(s) ==> MsgAt(s, x).Some? && !Older(SwapTime(MsgAt(s, x).value.item), SwapTime(top)))
    decreases s
  {
    hide Older, SwapTime;
    NoLaterIs(m.item, m.item);
    if s.Cons? {
      var y := s.msg.value;
      OldestStep(m, y);
      if Elected(s.msg, SwapTime(m.item)) {
        TopOldest(y, s.rest, x);
        OlderTrans(SwapTime(Top(s.msg, SwapTime(y.item), s.rest).value.item), SwapTime(y.item), SwapTime(m.item));
      } else {
        TopOldest(m, s.rest, x);
        OlderTrans(SwapTime(Top(Some(m), SwapTime(m.item), s.rest).value.item), SwapTime(m.item), SwapTime(y.item));
      }
    }
  }

  lemma OldestStep(m: Msg, y: Msg)
    ensures !Older(SwapTime(m.item), SwapTime(m.item))
    ensures Elected(Some(y), SwapTime(m.item)) <==> Older(SwapTime(y.item), SwapTime(m.item))
    ensures Older(SwapTime(y.item), SwapTime(m.item)) ==> !Older(SwapTime(m.item), SwapTime(y.item))
  {
  }

  lemma {:induction false} TopStays(m: Msg, s: Forest)
    requires Full(s) && forall x :: x in Tops(s) ==> MsgAt(s, x).Some? && !Older(SwapTime(MsgAt(s, x).value.item), SwapTime(m.item))
    requires Distinct(s)
    ensures Top(Some(m), SwapTime(m.item), s) == Some(m)
    decreases s
  {
    hide Older, SwapTime;
    if s.Cons? {
      OldestStep(m, s.msg.value);
      TopsNodes(s.rest);
      assert s.node in Tops(s) && MsgAt(s, s.node) == s.msg;
      assert forall x :: x in Tops(s.rest) ==> x in Tops(s) && MsgAt(s, x) == MsgAt(s.rest, x);
      TopStays(m, s.rest);
    }
  }

  /** The message on top of the children of an empty root is no later than any of them. */
  lemma OldestOnTop(k: Forest, x: Node)
    requires k.Cons? && Full(k) && x in Tops(k)
    ensures var top := PromoteRoot(None, k, true).0;
      top.Some? && MsgAt(k, x).Some? && NoLater(top.value.item, MsgAt(k, x).value.item)
  {
    hide Older, SwapTime, NoLater;
    var m := k.msg.value;
    TopOldest(m, k.rest, x);
    MsgAtFull(k, x);
    NoLaterIs(Top(k.msg, SwapTime(m.item), k.rest).value.item, MsgAt(k, x).value.item);
  }

  /** The first child stays on top if it is no later than the others already. */
  lemma FirstStays(k: Forest)
    requires k.Cons? && Full(k) && Distinct(k)
    requires forall x :: x in Tops(k) ==> MsgAt(k, x).Some? && NoLater(k.msg.value.item, MsgAt(k, x).value.item)
    ensures PromoteRoot(None, k, true).0 == k.msg
  {
    hide Older, SwapTime, NoLater;
    var m := k.msg.value;
    TopsNodes(k.rest);
    forall x | x in Tops(k.rest)
      ensures MsgAt(k.rest, x).Some? && !Older(SwapTime(MsgAt(k.rest, x).value.item), SwapTime(m.item))
    {
      MsgAtFull(k, x);
      NoLaterIs(m.item, MsgAt(k, x).value.item);
    }
    TopStays(m, k.rest);
  }

  lemma MsgAtFull(f: Forest, n: Node)
    requires Full(f) && n in Tops(f)
    ensures MsgAt(f, n).Some?
  {
  }

  // ---------------------------------------------------------------- when ancestors survive

  /** No message with replies is swapped away: `free` says the message now on top was placed in a
      node without children. */
  ghost predicate SafeSwaps(free: bool, curr: int, s: Forest)
    decreases s
  {
    match s
    case Nil => true
    case Cons(_, x, k, rest) =>
      if Elected(x, curr) then free && SafeSwaps(k.Nil?, SwapTime(x.value.item), rest)
      else SafeSwaps(free, curr, rest)
  }

  /** The condition, read off the dates before the pass: under no empty root does a message that
      has replies give up its place to an older one. */
  ghost predicate Safe(f: Forest) {
    match f
    case Nil => true
    case Cons(_, m, k, rest) =>
      (m.None? && k.Cons? ==> SafeSwaps(k.kids.Nil?, StartTime(k.msg), k.rest)) && Safe(rest)
  }

  lemma SafeTop(m: Option<Msg>, free: bool, curr: int, s: Forest)
    requires SafeSwaps(free, curr, s) && !free
    ensures Top(m, curr, s) == m
    decreases s
  {
  }

  /** Safe swaps lose no pair: the message displaced last is on top of all of them. */
  lemma {:induction false} SafeKeeps(m: Option<Msg>, free: bool, curr: int, s: Forest, a: Msg, d: Msg)
    requires SafeSwaps(free, curr, s) && Above(s, a, d)
    ensures Above(Swapped(m, curr, s), a, d) ||
            (Top(m, curr, s) == Some(a) && d in Msgs(Swapped(m, curr, s)))
    decreases s
  {
    var Cons(n, x, k, rest) := s;
    if Elected(x, curr) {
      var t := SwapTime(x.value.item);
      if x == Some(a) && d in Msgs(k) {
        SafeTop(x, false, t, rest);
      } else if Above(rest, a, d) {
        SafeKeeps(x, k.Nil?, t, rest, a, d);
      }
    } else if Above(rest, a, d) {
      SafeKeeps(m, free, curr, rest, a, d);
    }
  }

  lemma {:induction false} SafeRoot(m: Option<Msg>, k: Forest, swap: bool, a: Msg, d: Msg)
    requires swap && m.None? && k.Cons? ==> SafeSwaps(k.kids.Nil?, StartTime(k.msg), k.rest)
    requires (m == Some(a) && d in Msgs(k)) || Above(k, a, d)
    ensures var (m', k') := PromoteRoot(m, k, swap); (m' == Some(a) && d in Msgs(k')) || Above(k', a, d)
  {
    if m.None? && k.Cons? {
      var c := StartTime(k.msg);
      var s := if swap then Swapped(k.msg, c, k.rest) else k.rest;
      AppendAbove(k.kids, s, a, d);
      AppendMsgs(k.kids, s);
      if swap {
        if Above(k.rest, a, d) {
          SafeKeeps(k.msg, k.kids.Nil?, c, k.rest, a, d);
        } else if k.msg == Some(a) && d in Msgs(k.kids) {
          SafeTop(k.msg, false, c, k.rest);
        }
      }
    }
  }

  lemma {:induction false} SafePromote(f: Forest, swap: bool, a: Msg, d: Msg)
    requires (swap ==> Safe(f)) && Above(f, a, d)
    ensures Above(Promote(f, swap), a, d)
  {
    if Above(f.rest, a, d) {
      SafePromote(f.rest, swap, a, d);
    } else {
      SafeRoot(f.msg, f.kids, swap, a, d);
    }
  }

  /** A message displaced for good, with a message `d` that was below it. */
  ghost predicate Lost(m: Option<Msg>, curr: int, s: Forest, a: Msg, d: Msg) {
    Above(s, a, d) && !Above(Swapped(m, curr, s), a, d) && Top(m, curr, s) != Some(a)
  }

  /** The messages of the siblings and of the node they are swapped with, each once. */
  lemma {:induction false} OrderlyParts(m: Msg, k: Forest, x: Msg, rest: Forest)
    requires Orderly(multiset{m} + multiset{x} + Msgs(k) + Msgs(rest))
    ensures m != x && m !in Msgs(k) && m !in Msgs(rest) && x !in Msgs(k) && x !in Msgs(rest)
    ensures forall d :: d in Msgs(k) ==> d !in Msgs(rest)
    ensures Orderly(multiset{m} + Msgs(rest)) && Orderly(multiset{x} + Msgs(rest))
  {
    var all := multiset{m} + multiset{x} + Msgs(k) + Msgs(rest);
    assert all[m] == 1 by { assert m in all; }
    assert all[x] == 1 by { assert x in all; }
    forall d | d in Msgs(k) ensures d !in Msgs(rest) { assert all[d] == 1 by { assert d in all; } }
    OrderlyPart(all, multiset{m} + Msgs(rest));
    OrderlyPart(all, multiset{x} + Msgs(rest));
  }

  lemma FirstMsg(k: Forest) returns (d: Msg)
    requires Full(k) && k.Cons?
    ensures d in Msgs(k)
  {
    d := k.msg.value;
  }

  /** An unsafe swap loses a pair. */
  lemma {:induction false} UnsafeLoses(m: Msg, curr: int, s: Forest) returns (a: Msg, d: Msg)
    requires !SafeSwaps(true, curr, s) && Full(s) && Orderly(multiset{m} + Msgs(s))
    ensures Lost(Some(m), curr, s, a, d)
    decreases s
  {
    hide Msgs, Orderly, Elected, Above;
    var Cons(n, x, k, rest) := s;
    var t := SwapTime(x.value.item);
    MsgsCons(n, x, k, rest);
    assert multiset{m} + Msgs(s) == multiset{m} + multiset{x.value} + Msgs(k) + Msgs(rest);
    OrderlyParts(m, k, x.value, rest);
    if Elected(x, curr) && SafeSwaps(true, t, rest) {
      a := x.value;
      d := FirstMsg(k);
      UnsafeTop(a, t, rest);
      SwappedMsgs(x, t, rest);
      assert (MsgOf(x) + Msgs(rest))[d] == 0;
      NotAboveOutside(Swapped(x, t, rest), a, d);
      AboveCons(n, Some(m), k, Swapped(x, t, rest), a, d);
    } else {
      var y, c := if Elected(x, curr) then x.value else m, if Elected(x, curr) then t else curr;
      a, d := UnsafeLoses(y, c, rest);
      AboveIn(rest, a, d);
      AboveCons(n, if Elected(x, curr) then Some(m) else x, k, Swapped(Some(y), c, rest), a, d);
    }
    NotAboveOutside(k, a, d);
    AboveCons(n, x, k, rest, a, d);
  }

  lemma {:induction false} AboveIn(f: Forest, a: Msg, d: Msg)
    ensures Above(f, a, d) ==> a in Msgs(f) && d in Msgs(f)
  {
    if Above(f, a, d) { AboveMsgs(f, a, d); }
  }

  /** A pair needs both its messages. */
  lemma NotAboveOutside(f: Forest, a: Msg, d: Msg)
    requires a !in Msgs(f) || d !in Msgs(f)
    ensures !Above(f, a, d)
  {
    if Above(f, a, d) { AboveMsgs(f, a, d); }
  }

  /** A swap that only `free` makes safe moves the message off the top for good. */
  lemma {:induction false} UnsafeTop(m: Msg, curr: int, s: Forest)
    requires !SafeSwaps(false, curr, s) && Orderly(multiset{m} + Msgs(s)) && Full(s)
    ensures Top(Some(m), curr, s) != Some(m)
    decreases s
  {
    var Cons(n, x, k, rest) := s;
    assert multiset{m} + Msgs(s) == multiset{m} + multiset{x.value} + Msgs(k) + Msgs(rest);
    OrderlyParts(m, k, x.value, rest);
    if Elected(x, curr) {
      TopIn(x.value, SwapTime(x.value.item), rest);
    } else {
      UnsafeTop(m, curr, rest);
    }
  }

  lemma TopIn(m: Msg, curr: int, s: Forest)
    ensures var t := Top(Some(m), curr, s); t.Some? && (t == Some(m) || t.value in Msgs(s))
    decreases s
  {
  }

  /** An unsafe root loses an ancestor. */
  lemma UnsafeRoot(k: Forest) returns (a: Msg, d: Msg)
    requires Full(k) && k.Cons? && Orderly(Msgs(k)) && !SafeSwaps(k.kids.Nil?, StartTime(k.msg), k.rest)
    ensures Above(k, a, d)
    ensures var (m', k') := PromoteRoot(None, k, true); m' != Some(a) && !Above(k', a, d)
  {
    hide Msgs, Orderly, Elected, Above;
    var m, c := k.msg.value, StartTime(k.msg);
    MsgsCons(k.node, k.msg, k.kids, k.rest);
    OrderlyRoot(k);
    if !SafeSwaps(true, c, k.rest) {
      a, d := UnsafeLoses(m, c, k.rest);
      AboveIn(k.rest, a, d);
    } else {
      a := m;
      d := FirstMsg(k.kids);
      UnsafeTop(m, c, k.rest);
      SwappedMsgs(k.msg, c, k.rest);
      assert (MsgOf(k.msg) + Msgs(k.rest))[d] == 0;
      NotAboveOutside(Swapped(k.msg, c, k.rest), a, d);
    }
    NotAboveOutside(k.kids, a, d);
    AboveCons(k.node, k.msg, k.kids, k.rest, a, d);
    AppendAbove(k.kids, Swapped(k.msg, c, k.rest), a, d);
  }

  lemma OrderlyRoot(k: Forest)
    requires Full(k) && k.Cons? && Orderly(Msgs(k))
    ensures var m := k.msg.value; m !in Msgs(k.kids) && m !in Msgs(k.rest) && Orderly(multiset{m} + Msgs(k.rest))
    ensures forall d :: d in Msgs(k.kids) ==> d !in Msgs(k.rest)
  {
    var all, m := Msgs(k), k.msg.value;
    assert all[m] == 1 by { assert m in all; }
    forall d | d in Msgs(k.kids) ensures d !in Msgs(k.rest) { assert all[d] == 1 by { assert d in all; } }
    OrderlyPart(all, multiset{m} + Msgs(k.rest));
  }

  lemma {:induction false} UnsafePromote(f: Forest) returns (a: Msg, d: Msg)
    requires Pruned(f) && Orderly(Msgs(f)) && !Safe(f)
    ensures Above(f, a, d) && !Above(Promote(f, true), a, d)
  {
    hide Msgs, Orderly, Above, SafeSwaps, PromoteRoot, Full;
    var Cons(n, m, k, rest) := f;
    MsgsCons(n, m, k, rest);
    OrderlySplit(Msgs(f), MsgOf(m), Msgs(k), Msgs(rest));
    PromoteKeepsMessages(rest, true);
    PromoteRootMsgs(m, k, true);
    var (m', k') := PromoteRoot(m, k, true);
    if m.None? && k.Cons? && !SafeSwaps(k.kids.Nil?, StartTime(k.msg), k.rest) {
      a, d := UnsafeRoot(k);
      AboveIn(k, a, d);
      NotAboveOutside(Promote(rest, true), a, d);
    } else {
      a, d := UnsafePromote(rest);
      AboveIn(rest, a, d);
      assert (MsgOf(m) + Msgs(k))[a] == 0;
      NotAboveOutside(k', a, d);
    }
    AboveCons(n, m, k, rest, a, d);
    AboveCons(if m.Some? || k.Nil? then n else k.node, m', k', Promote(rest, true), a, d);
  }

  lemma OrderlySplit(all: multiset<Msg>, m: multiset<Msg>, k: multiset<Msg>, r: multiset<Msg>)
    requires Orderly(all) && all == m + k + r
    ensures Orderly(k) && Orderly(r)
    ensures forall a :: a in r ==> a !in m && a !in k
  {
    forall a | a in r ensures a !in m && a !in k { assert all[a] == 1 by { assert a in all; } }
    OrderlyPart(all, k);
    OrderlyPart(all, r);
  }

  /** Every ancestor survives the pass if and only if no swap is made or the swaps are safe. */
  lemma AncestorsSurvive(f: Forest, swap: bool)
    requires Pruned(f) && Orderly(Msgs(f))
    ensures (forall a, d :: Above(f, a, d) ==> Above(Promote(f, swap), a, d)) <==> (!swap || Safe(f))
  {
    if !swap || Safe(f) {
      forall a, d | Above(f, a, d) ensures Above(Promote(f, swap), a, d) { SafePromote(f, swap, a, d); }
    } else {
      var a, d := UnsafePromote(f);
    }
  }

  ghost function Dated(date: int, received: int, order: nat): Msg {
    Msg(Item(order, 0, [], None, false, date, received), order)
  }

  /** An empty root over a message of day 20 that has a reply, and one of day 10, which came in later:
      the older one goes to the top, and the reply is no longer below the message it answers. */
  lemma OlderSibling(n0: Node, n1: Node, n2: Node, n3: Node)
    ensures var a, d, b := Dated(20, 40, 1), Dated(30, 50, 2), Dated(10, 60, 3);
      var reply, older := Cons(n2, Some(d), Nil, Nil), Cons(n3, Some(b), Nil, Nil);
      var f := Cons(n0, None, Cons(n1, Some(a), reply, older), Nil);
      Pruned(f) && !Safe(f) && Above(f, a, d) && !Above(Promote(f, true), a, d)
  {
    var a, d, b := Dated(20, 40, 1), Dated(30, 50, 2), Dated(10, 60, 3);
    var reply, older := Cons(n2, Some(d), Nil, Nil), Cons(n3, Some(b), Nil, Nil);
    var kids := Cons(n1, Some(a), reply, older);
    var f := Cons(n0, None, kids, Nil);
    assert Msgs(reply) == multiset{d} && Above(kids, a, d);
    assert Elected(Some(b), 20) && SwapTime(b.item) == 10;
    assert Swapped(Some(b), 10, Nil) == Nil && Top(Some(b), 10, Nil) == Some(b);
    var swapped := Cons(n3, Some(a), Nil, Nil);
    assert Top(Some(a), 20, older) == Some(b) && Swapped(Some(a), 20, older) == swapped;
    var below := Cons(n2, Some(d), Nil, swapped);
    assert Append(reply, swapped) == below;
    assert Promote(f, true) == Cons(n1, Some(b), below, Nil);
    NilParts();
    AboveCons(n3, Some(a), Nil, Nil, a, d);
    AboveCons(n2, Some(d), Nil, swapped, a, d);
    AboveCons(n1, Some(b), below, Nil, a, d);
    SafeOrNot(f, a, d);
  }

  lemma SafeOrNot(f: Forest, a: Msg, d: Msg)
    requires Above(f, a, d) && !Above(Promote(f, true), a, d)
    ensures !Safe(f)
  {
    if Safe(f) { SafePromote(f, true, a, d); }
  }

  /** `a` is the first child of an empty root and `d` in the tree of a later one. */
  ghost predicate PromotedOver(f: Forest, a: Msg, d: Msg) {
    f.Cons? &&
    ((f.msg.None? && f.kids.Cons? && f.kids.msg == Some(a) && d in Msgs(f.kids.rest)) || PromotedOver(f.rest, a, d))
  }

  /** Without swaps the only new ancestor is the child that takes the place of an empty root. */
  lemma {:induction false} PromoteAncestors(f: Forest, a: Msg, d: Msg)
    ensures Above(Promote(f, false), a, d) <==> Above(f, a, d) || PromotedOver(f, a, d)
  {
    hide Msgs;
    if f.Cons? {
      PromoteAncestors(f.rest, a, d);
      if f.msg.None? && f.kids.Cons? {
        AppendAbove(f.kids.kids, f.kids.rest, a, d);
        AppendMsgs(f.kids.kids, f.kids.rest);
      } else if f.msg.None? {
        AboveIn(f.kids, a, d);
      }
    }
  }

  /** A sorted root list stays sorted: an empty root was filed under the message promoted. */
  lemma {:induction false} PromoteIncreasing(f: Forest)
    requires Pruned(f) && Increasing(f)
    ensures Increasing(Promote(f, false))
  {
    if f.Cons? && f.rest.Cons? {
      PromoteIncreasing(f.rest);
      PromoteLead(f);
      PromoteLead(f.rest);
    }
  }

  lemma PromoteLead(f: Forest)
    requires Pruned(f) && f.Cons?
    ensures var g := Promote(f, false); Lead(g.msg, g.kids) == Lead(f.msg, f.kids) && g.msg == Lead(f.msg, f.kids) && g.msg.Some?
  {
  }

  // ---------------------------------------------------------------- the order of the messages

  /** The messages as they are listed: each before what is below it, siblings in their order. */
  ghost function Listing(f: Forest): seq<Msg> {
    match f
    case Nil => []
    case Cons(_, m, kids, rest) => (if m.Some? then [m.value] else []) + Listing(kids) + Listing(rest)
  }

  lemma {:induction false} ListingAppend(f: Forest, g: Forest)
    ensures Listing(Append(f, g)) == Listing(f) + Listing(g)
  {
    match f
    case Nil =>
    case Cons(n, m, kids, rest) =>
      ListingAppend(rest, g);
      var h := if m.Some? then [m.value] else [];
      assert h + Listing(kids) + (Listing(rest) + Listing(g)) == h + Listing(kids) + Listing(rest) + Listing(g);
  }

  /** Without swaps the last pass does not change the order in which the messages are listed. */
  lemma {:induction false} PromoteListing(f: Forest)
    ensures Listing(Promote(f, false)) == Listing(f)
  {
    hide Append;
    match f
    case Nil =>
    case Cons(n, m, k, rest) =>
      PromoteListing(rest);
      if m.None? && k.Cons? {
        ListingAppend(k.kids, k.rest);
        var h := if k.msg.Some? then [k.msg.value] else [];
        assert h + (Listing(k.kids) + Listing(k.rest)) == h + Listing(k.kids) + Listing(k.rest);
        assert [] + Listing(k) == Listing(k);
      }
  }
}
