/** camel-folder-summary.c: the counts of messages are kept up to date from the change of one message's
    flags, instead of being computed again over all messages. */
module SummaryCounts {
  const WORD: nat := 0x1_0000_0000

  type Word = w: nat | w < 0x1_0000_0000

  /** The flags of a message; `rest` are the bits that no count depends on. */
  datatype Flags = Flags(seen: bool, deleted: bool, junk: bool, folderFlagged: bool, rest: set<nat>)

  /** The bits of one that are not in the other. */
  function Minus(a: Flags, b: Flags): Flags {
    Flags(a.seen && !b.seen, a.deleted && !b.deleted, a.junk && !b.junk, a.folderFlagged && !b.folderFlagged, a.rest - b.rest)
  }

  // ---------------------------------------------------------------- counting over all messages

  /** The messages each count is for; some folders count junk or deleted messages as unread too. */
  datatype Kind = Deleted | Junk | JunkNotDeleted | Visible | Unread(junkToo: bool, deletedToo: bool)

  predicate Is(kind: Kind, f: Flags) {
    match kind
    case Deleted => f.deleted
    case Junk => f.junk
    case JunkNotDeleted => f.junk && !f.deleted
    case Visible => !f.junk && !f.deleted
    case Unread(junkToo, deletedToo) => !f.seen && (f.junk ==> junkToo) && (f.deleted ==> deletedToo)
  }

  function Members(uids: map<string, Flags>, kind: Kind): set<string> {
    set u | u in uids && Is(kind, uids[u])
  }

  function Count(uids: map<string, Flags>, kind: Kind): nat {
    |Members(uids, kind)|
  }

  /** What is counted, in terms of the flags. */
  lemma CountMeans(uids: map<string, Flags>, junkToo: bool, deletedToo: bool)
    ensures Count(uids, Deleted) == |set u | u in uids && uids[u].deleted|
    ensures Count(uids, Junk) == |set u | u in uids && uids[u].junk|
    ensures Count(uids, JunkNotDeleted) == |set u | u in uids && uids[u].junk && !uids[u].deleted|
    ensures Count(uids, Visible) == |set u | u in uids && !uids[u].junk && !uids[u].deleted|
    ensures Count(uids, Unread(junkToo, deletedToo)) ==
      |set u | u in uids && !uids[u].seen && (junkToo || !uids[u].junk) && (deletedToo || !uids[u].deleted)|
  {
    assert Members(uids, Deleted) == set u | u in uids && uids[u].deleted;
    assert Members(uids, Junk) == set u | u in uids && uids[u].junk;
    assert Members(uids, JunkNotDeleted) == set u | u in uids && uids[u].junk && !uids[u].deleted;
    assert Members(uids, Visible) == set u | u in uids && !uids[u].junk && !uids[u].deleted;
    assert Members(uids, Unread(junkToo, deletedToo)) ==
      set u | u in uids && !uids[u].seen && (junkToo || !uids[u].junk) && (deletedToo || !uids[u].deleted);
  }

  lemma {:induction false} SubsetSize<T>(a: set<T>, b: set<T>)
    requires a <= b
    ensures |a| <= |b|
  {
    if a != {} {
      var x :| x in a;
      SubsetSize(a - {x}, b - {x});
    }
  }

  lemma CountBound(uids: map<string, Flags>, kind: Kind)
    ensures Count(uids, kind) <= |uids|
    ensures forall u :: u in uids && Is(kind, uids[u]) ==> Count(uids, kind) > 0
  {
    SubsetSize(Members(uids, kind), uids.Keys);
    forall u | u in uids && Is(kind, uids[u]) ensures Count(uids, kind) > 0 {
      assert u in Members(uids, kind);
    }
  }

  function One(b: bool): int {
    if b then 1 else 0
  }

  lemma SizeWithout<T>(s: set<T>, x: T)
    ensures |s| == |s - {x}| + One(x in s)
  {
    assert x in s ==> s == (s - {x}) + {x};
    assert x !in s ==> s == s - {x};
  }

  lemma MembersPut(uids: map<string, Flags>, u: string, f: Flags, kind: Kind)
    ensures Members(uids[u := f], kind) - {u} == Members(uids, kind) - {u}
  {
  }

  lemma CountPut(uids: map<string, Flags>, u: string, f: Flags, kind: Kind)
    ensures Count(uids[u := f], kind) == Count(uids, kind) - One(u in uids && Is(kind, uids[u])) + One(Is(kind, f))
  {
    hide Is;
    MembersPut(uids, u, f, kind);
    SizeWithout(Members(uids, kind), u);
    SizeWithout(Members(uids[u := f], kind), u);
  }

  lemma CountDrop(uids: map<string, Flags>, u: string, kind: Kind)
    requires u in uids
    ensures Count(uids - {u}, kind) == Count(uids, kind) - One(Is(kind, uids[u]))
  {
    hide Is;
    var a, b := Members(uids, kind), Members(uids - {u}, kind);
    assert b == a - {u};
    SizeWithout(a, u);
  }

  /** The count after one message has changed, come or gone, is right if it was right and has been
      stepped by the difference. */
  predicate Moved(before: map<string, Flags>, after: map<string, Flags>, kind: Kind, d: int) {
    Count(after, kind) == Count(before, kind) + d && Count(before, kind) <= |before| && Count(after, kind) <= |after|
  }

  lemma MovedPut(uids: map<string, Flags>, u: string, f: Flags, kind: Kind)
    ensures Moved(uids, uids[u := f], kind, One(Is(kind, f)) - One(u in uids && Is(kind, uids[u])))
    ensures u in uids && Is(kind, uids[u]) ==> Count(uids, kind) > 0
  {
    CountPut(uids, u, f, kind);
    CountBound(uids, kind);
    CountBound(uids[u := f], kind);
  }

  lemma MovedDrop(uids: map<string, Flags>, u: string, kind: Kind)
    requires u in uids
    ensures Moved(uids, uids - {u}, kind, -One(Is(kind, uids[u])))
    ensures Is(kind, uids[u]) ==> Count(uids, kind) > 0
  {
    CountDrop(uids, u, kind);
    CountBound(uids, kind);
    CountBound(uids - {u}, kind);
  }

  function Elements(s: seq<string>): set<string> {
    set u | u in s
  }

  lemma DropNone(uids: map<string, Flags>, gone: seq<string>)
    ensures uids - Elements(gone[..0]) == uids
  {
  }

  lemma DropMore(uids: map<string, Flags>, gone: seq<string>, i: nat)
    requires i < |gone|
    ensures uids - Elements(gone[..i + 1]) == uids - Elements(gone[..i]) - {gone[i]}
  {
    assert gone[..i + 1] == gone[..i] + [gone[i]];
    assert Elements(gone[..i + 1]) == Elements(gone[..i]) + {gone[i]};
  }

  // ---------------------------------------------------------------- the steps that go wrong

  /** One of junk and deleted changes while the other stays set. */
  predicate FlipsOne(a: Flags, b: Flags) {
    (a.junk && b.junk && a.deleted != b.deleted) || (a.deleted && b.deleted && a.junk != b.junk)
  }

  predicate Hidden(f: Flags) {
    f.junk || f.deleted
  }

  /** A message becomes hidden, or ceases to be, and stays unseen. */
  predicate HidesUnseen(a: Flags, b: Flags) {
    !a.seen && !b.seen && Hidden(a) != Hidden(b)
  }

  // ---------------------------------------------------------------- the summary

  /** A counter of 32 bits. */
  function Step(w: Word, d: int): Word
    requires -1 <= d <= 1
  {
    var x := w + d;
    if x < 0 then x + WORD else if x >= WORD then x - WORD else x
  }

  /** One step down, one step up, or both. */
  function Stepped(w: Word, off: bool, on: bool): Word {
    Step(Step(w, -One(off)), One(on))
  }

  /** A counter that was right is right afterwards exactly if it was stepped by the difference. */
  lemma SteppedRight(w: Word, off: bool, on: bool, after: nat)
    requires after < WORD && -1 <= after - w <= 1
    ensures Stepped(w, off, on) == after <==> after - w == One(on) - One(off)
  {
  }

  lemma SteppedStill(w: Word, off: bool, on: bool)
    ensures Stepped(w, off, on) == w <==> off == on
  {
  }

  /** The same for the count of one kind of message, when a message's flags change. */
  lemma CounterRight(uids: map<string, Flags>, u: string, b: Flags, kind: Kind, w: Word, off: bool, on: bool)
    requires u in uids && |uids| < WORD
    ensures w == Count(uids, kind) && Is(kind, uids[u]) ==> w > 0
    ensures w == Count(uids, kind) ==>
      (Stepped(w, off, on) == Count(uids[u := b], kind) <==> One(on) - One(off) == One(Is(kind, b)) - One(Is(kind, uids[u])))
  {
    hide Is, Count, Stepped;
    MovedPut(uids, u, b, kind);
    assert uids[u := b].Keys == uids.Keys;
    if w == Count(uids, kind) { SteppedRight(w, off, on, Count(uids[u := b], kind)); }
  }

  /** A counter that was right, stepped down for a message that goes. */
  lemma CounterDrop(uids: map<string, Flags>, u: string, kind: Kind, w: Word)
    requires u in uids && |uids| < WORD
    ensures w == Count(uids, kind) ==>
      Count(uids - {u}, kind) == (if Is(kind, uids[u]) then Step(w, -1) else w) && (Is(kind, uids[u]) ==> w > 0)
  {
    hide Is, Count;
    MovedDrop(uids, u, kind);
  }

  /** A counter that was right and is left alone while a message is put again. */
  lemma CounterStays(uids: map<string, Flags>, u: string, f: Flags, kind: Kind, w: Word)
    ensures u in uids && w == Count(uids, kind) ==>
      (w == Count(uids[u := f], kind) <==> Is(kind, uids[u]) == Is(kind, f))
  {
    hide Is, Count;
    CountPut(uids, u, f, kind);
  }

  /** And stepped up for a message that comes. */
  lemma CounterAdd(uids: map<string, Flags>, u: string, f: Flags, kind: Kind, w: Word)
    requires |uids| + 1 < WORD
    ensures u !in uids && w == Count(uids, kind) ==> Count(uids[u := f], kind) == if Is(kind, f) then Step(w, 1) else w
  {
    hide Is, Count;
    MovedPut(uids, u, f, kind);
  }

  lemma StepPlain(w: Word)
    ensures (w > 0 ==> Step(w, -1) == w - 1) && (w + 1 < WORD ==> Step(w, 1) == w + 1)
  {
  }

  lemma KindsSame(f: Flags, g: Flags, kind: Kind)
    requires f.seen == g.seen && f.junk == g.junk && f.deleted == g.deleted
    ensures Is(kind, f) == Is(kind, g)
  {
  }

  lemma KindsOf(f: Flags)
    ensures Is(Deleted, f) == f.deleted && Is(Junk, f) == f.junk
    ensures Is(JunkNotDeleted, f) == (f.junk && !f.deleted) && Is(Visible, f) == (!f.junk && !f.deleted)
  {
  }

  lemma PlainRight(a: Flags, b: Flags, removed: Flags, added: Flags)
    requires removed.deleted == (a.deleted && !b.deleted) && removed.junk == (a.junk && !b.junk)
    requires added.deleted == (b.deleted && !a.deleted) && added.junk == (b.junk && !a.junk)
    ensures One(added.deleted) - One(removed.deleted) == One(Is(Deleted, b)) - One(Is(Deleted, a))
    ensures One(added.junk) - One(removed.junk) == One(Is(Junk, b)) - One(Is(Junk, a))
  {
  }

  /** Two differences are right exactly if not one of junk and deleted changes while the other stays
      set. */
  lemma ShownRight(a: Flags, b: Flags, removed: Flags, added: Flags)
    requires removed.deleted == (a.deleted && !b.deleted) && removed.junk == (a.junk && !b.junk)
    requires added.deleted == (b.deleted && !a.deleted) && added.junk == (b.junk && !a.junk)
    ensures One(Is(Visible, added)) - One(Is(Visible, removed)) == One(Is(Visible, b)) - One(Is(Visible, a)) <==> !FlipsOne(a, b)
    ensures One(Is(JunkNotDeleted, added)) - One(Is(JunkNotDeleted, removed)) == One(Is(JunkNotDeleted, b)) - One(Is(JunkNotDeleted, a))
      <==> !FlipsOne(a, b)
  {
  }

  class Summary {
    const isJunkFolder: bool
    const isTrashFolder: bool
    var uids: map<string, Flags>
    var saved: Word
    var unread: Word
    var deleted: Word
    var junk: Word
    var junkNotDeleted: Word
    var visible: Word
    var touched: bool

    /** A hash table holds fewer than 2^32 messages. */
    ghost predicate Valid()
      reads this`uids
    {
      |uids| < WORD
    }

    /** The counts that are right in every folder. */
    ghost predicate Totals()
      reads this`uids, this`saved, this`deleted, this`junk
    {
      saved == |uids| && deleted == Count(uids, Deleted) && junk == Count(uids, Junk)
    }

    ghost predicate Shown()
      reads this`uids, this`visible, this`junkNotDeleted
    {
      visible == Count(uids, Visible) && junkNotDeleted == Count(uids, JunkNotDeleted)
    }

    ghost predicate UnreadRight()
      reads this`uids, this`unread
    {
      unread == Count(uids, Unread(isJunkFolder, isTrashFolder))
    }

    ghost function Counters(): (Word, Word, Word, Word, Word, Word)
      reads this`saved, this`unread, this`deleted, this`junk, this`junkNotDeleted, this`visible
    {
      (saved, unread, deleted, junk, junkNotDeleted, visible)
    }

    constructor (isJunkFolder: bool, isTrashFolder: bool)
      ensures Valid() && uids == map[] && Totals() && Shown() && UnreadRight()
      ensures this.isJunkFolder == isJunkFolder && this.isTrashFolder == isTrashFolder
    {
      this.isJunkFolder, this.isTrashFolder := isJunkFolder, isTrashFolder;
      uids, touched := map[], false;
      saved, unread, deleted, junk, junkNotDeleted, visible := 0, 0, 0, 0, 0, 0;
    }

    /** Whether a message with these flags is one of the unread ones. */
    predicate IsUnread(f: Flags) {
      Is(Unread(isJunkFolder, isTrashFolder), f)
    }

    /** folder_summary_update_counts_by_flags. The unread count does not go below 0. It always reports a
        change, as a message that is neither deleted nor junk is visible. */
    method UpdateCounts(f: Flags, subtract: bool, withoutTotal: bool) returns (changed: bool)
      modifies this`saved, this`unread, this`deleted, this`junk, this`junkNotDeleted, this`visible, this`touched
      ensures var s := if subtract then -1 else 1;
        && deleted == (if f.deleted then Step(old(deleted), s) else old(deleted))
        && junk == (if f.junk then Step(old(junk), s) else old(junk))
        && junkNotDeleted == (if f.junk && !f.deleted then Step(old(junkNotDeleted), s) else old(junkNotDeleted))
        && visible == (if !f.junk && !f.deleted then Step(old(visible), s) else old(visible))
        && saved == (if withoutTotal then old(saved) else Step(old(saved), s))
        && unread == (if !IsUnread(f) || (subtract && old(unread) == 0) then old(unread) else Step(old(unread), s))
      ensures changed && touched
    {
      var s := if subtract then -1 else 1;
      var unreadBy := if !f.seen then s else 0;
      changed := false;
      if f.deleted {
        deleted := Step(deleted, s);
        changed := true;
      }
      if f.junk {
        junk := Step(junk, s);
        changed := true;
      }
      if f.junk && !f.deleted {
        junkNotDeleted := Step(junkNotDeleted, s);
        changed := true;
      }
      if !f.junk && !f.deleted {
        visible := Step(visible, s);
        changed := true;
      }
      if f.junk && !isJunkFolder { unreadBy := 0; }
      if f.deleted && !isTrashFolder { unreadBy := 0; }
      if unreadBy != 0 {
        if unreadBy > 0 || unread != 0 {
          unread := Step(unread, unreadBy);
        }
        changed := true;
      }
      if !withoutTotal {
        saved := Step(saved, s);
        changed := true;
      }
      if changed { touched := true; }
    }

    /** camel_folder_summary_add, with the uid the message has in the end. A known uid gets the new
        flags, but no count changes: each count stays right exactly if the message counts as before. */
    method Add(uid: string, f: Flags)
      requires Valid() && |uids| + 1 < WORD && uid != ""
      modifies this
      ensures Valid() && uids == old(uids)[uid := f.(folderFlagged := true)]
      ensures uid !in old(uids) && old(Totals()) ==> Totals()
      ensures uid !in old(uids) && old(Shown()) ==> Shown()
      ensures uid !in old(uids) && old(UnreadRight()) ==> UnreadRight()
      ensures uid in old(uids) ==>
        && saved == old(saved) && deleted == old(deleted) && junk == old(junk)
        && visible == old(visible) && junkNotDeleted == old(junkNotDeleted) && unread == old(unread)
      ensures uid in old(uids) && old(Totals()) ==>
        (Totals() <==> old(uids)[uid].deleted == f.deleted && old(uids)[uid].junk == f.junk)
      ensures uid in old(uids) && old(Shown()) ==>
        (Shown() <==> Is(Visible, old(uids)[uid]) == Is(Visible, f) && Is(JunkNotDeleted, old(uids)[uid]) == Is(JunkNotDeleted, f))
      ensures uid in old(uids) && old(UnreadRight()) ==>
        (UnreadRight() <==> IsUnread(old(uids)[uid]) == IsUnread(f))
    {
      hide Count, Is, Step;
      ghost var g := f.(folderFlagged := true);
      CounterStays(uids, uid, g, Deleted, deleted);
      CounterStays(uids, uid, g, Junk, junk);
      CounterStays(uids, uid, g, JunkNotDeleted, junkNotDeleted);
      CounterStays(uids, uid, g, Visible, visible);
      CounterStays(uids, uid, g, Unread(isJunkFolder, isTrashFolder), unread);
      if uid in uids {
        KindsOf(uids[uid]);
        assert uids[uid := g].Keys == uids.Keys;
      }
      CounterAdd(uids, uid, g, Deleted, deleted);
      CounterAdd(uids, uid, g, Junk, junk);
      CounterAdd(uids, uid, g, JunkNotDeleted, junkNotDeleted);
      CounterAdd(uids, uid, g, Visible, visible);
      CounterAdd(uids, uid, g, Unread(isJunkFolder, isTrashFolder), unread);
      StepPlain(|uids|);
      KindsOf(f);
      KindsOf(g);
      KindsSame(f, g, Unread(isJunkFolder, isTrashFolder));
      if uid !in uids {
        var changed := UpdateCounts(f, false, false);
      }
      uids := uids[uid := f.(folderFlagged := true)];
      touched := true;
    }

    /** The part of camel_folder_summary_remove_uid that is about the summary itself. */
    method RemoveUid(uid: string) returns (found: bool)
      requires Valid()
      modifies this
      ensures Valid() && found == (uid in old(uids)) && uids == old(uids) - {uid}
      ensures old(Totals()) ==> Totals()
      ensures old(Shown()) ==> Shown()
      ensures old(UnreadRight()) ==> UnreadRight()
    {
      hide Count, Is, Step;
      if uid !in uids { return false; }
      CounterDrop(uids, uid, Deleted, deleted);
      CounterDrop(uids, uid, Junk, junk);
      CounterDrop(uids, uid, JunkNotDeleted, junkNotDeleted);
      CounterDrop(uids, uid, Visible, visible);
      CounterDrop(uids, uid, Unread(isJunkFolder, isTrashFolder), unread);
      StepPlain(|uids|);
      assert |uids - {uid}| == |uids| - 1;
      KindsOf(uids[uid]);
      var changed := UpdateCounts(uids[uid], true, false);
      uids := uids - {uid};
      touched := true;
      found := true;
    }

    /** The loop of camel_folder_summary_remove_uids. */
    method RemoveUids(gone: seq<string>)
      requires Valid()
      modifies this
      ensures Valid() && uids == old(uids) - Elements(gone)
      ensures old(Totals()) ==> Totals()
      ensures old(Shown()) ==> Shown()
      ensures old(UnreadRight()) ==> UnreadRight()
    {
      hide Totals, Shown, UnreadRight, Elements;
      DropNone(uids, gone);
      for i := 0 to |gone|
        invariant Valid() && uids == old(uids) - Elements(gone[..i])
        invariant old(Totals()) ==> Totals()
        invariant old(Shown()) ==> Shown()
        invariant old(UnreadRight()) ==> UnreadRight()
      {
        var found := RemoveUid(gone[i]);
        DropMore(old(uids), gone, i);
      }
      assert gone[..|gone|] == gone;
      touched := true;
    }

    /** The SEEN bit did not change, or changed on a message that is not counted before or after. */
    predicate SeenIgnored(a: Flags, b: Flags) {
      a.seen == b.seen || (!isJunkFolder && b.junk && a.junk) || (!isTrashFolder && b.deleted && a.deleted)
    }

    /** The bits that go and the bits that come; SEEN in both if its change is to be ignored. */
    method SeenChange(a: Flags, b: Flags) returns (removed: Flags, added: Flags)
      ensures removed.deleted == (a.deleted && !b.deleted) && removed.junk == (a.junk && !b.junk)
      ensures added.deleted == (b.deleted && !a.deleted) && added.junk == (b.junk && !a.junk)
      ensures removed.seen == (SeenIgnored(a, b) || (a.seen && !b.seen))
      ensures added.seen == (SeenIgnored(a, b) || (b.seen && !a.seen))
    {
      removed, added := Minus(a, b), Minus(b, a);
      if a.seen == b.seen {
        removed, added := removed.(seen := true), added.(seen := true);
      } else if (!isJunkFolder && b.junk && a.junk == b.junk) || (!isTrashFolder && b.deleted && a.deleted == b.deleted) {
        removed, added := removed.(seen := true), added.(seen := true);
      }
    }

    /** When the unread count goes wrong: in a folder that is neither for junk nor for trash, a message
        is hidden or shown while it stays unseen; in one that is for both, a message is deleted or
        undeleted while it stays unseen, or its SEEN bit changes while it stays deleted. */
    predicate UnreadDrifts(a: Flags, b: Flags) {
      if isJunkFolder && isTrashFolder then
        (a.deleted && b.deleted && a.seen != b.seen) || (a.deleted != b.deleted && !a.seen && !b.seen)
      else
        !isJunkFolder && !isTrashFolder && HidesUnseen(a, b)
    }

    /** The SEEN bit changes on a message that counts for the unread ones, in a folder that is for junk
        and for trash unless it is deleted. */
    predicate SeenMoves(a: Flags, b: Flags) {
      a.seen != b.seen && !(a.junk && !isJunkFolder) && !(a.deleted && (!isTrashFolder || isJunkFolder))
    }

    /** The flags to count off and to count on when a message's flags change from `a` to `b`. A set SEEN
        bit in both keeps the unread count as it is. */
    method Changes(a: Flags, b: Flags) returns (removed: Flags, added: Flags)
      ensures removed.deleted == (a.deleted && !b.deleted) && removed.junk == (a.junk && !b.junk)
      ensures added.deleted == (b.deleted && !a.deleted) && added.junk == (b.junk && !a.junk)
      ensures IsUnread(removed) ==> IsUnread(a)
      ensures a.deleted == b.deleted && a.junk == b.junk ==>
        IsUnread(removed) == (SeenMoves(a, b) && b.seen) && IsUnread(added) == (SeenMoves(a, b) && !b.seen)
      ensures One(IsUnread(added)) - One(IsUnread(removed)) == One(IsUnread(b)) - One(IsUnread(a)) <==> !UnreadDrifts(a, b)
    {
      removed, added := SeenChange(a, b);
      if isJunkFolder {
        if a.deleted && b.deleted {
          removed, added := removed.(seen := true), added.(seen := true);
        } else if added.deleted && !a.seen && !b.seen {
          removed := removed.(seen := false);
        } else if removed.deleted && !b.seen {
          added := added.(seen := false);
        }
      } else if isTrashFolder {
        if a.junk && b.junk {
          removed, added := removed.(seen := true), added.(seen := true);
        } else if added.junk && !a.seen && !b.seen {
          removed := removed.(seen := false);
        } else if removed.junk && !b.seen {
          added := added.(seen := false);
        }
      }
    }

    /** Count the removed flags off and the added ones on. */
    method UpdateTwice(removed: Flags, added: Flags) returns (changed: bool)
      modifies this`saved, this`unread, this`deleted, this`junk, this`junkNotDeleted, this`visible, this`touched
      ensures saved == old(saved)
      ensures deleted == Stepped(old(deleted), removed.deleted, added.deleted)
      ensures junk == Stepped(old(junk), removed.junk, added.junk)
      ensures junkNotDeleted == Stepped(old(junkNotDeleted), Is(JunkNotDeleted, removed), Is(JunkNotDeleted, added))
      ensures visible == Stepped(old(visible), Is(Visible, removed), Is(Visible, added))
      ensures unread == Stepped(old(unread), IsUnread(removed) && old(unread) > 0, IsUnread(added))
      ensures changed && touched
    {
      var off := UpdateCounts(removed, true, true);
      var on := UpdateCounts(added, false, true);
      changed := off || on;
    }

    /** The counts and the table after a change that is not ignored. */
    method Replace(uid: string, a: Flags, b: Flags, removed: Flags, added: Flags) returns (changed: bool)
      requires Valid() && uid in uids && uids[uid] == a
      requires removed.deleted == (a.deleted && !b.deleted) && removed.junk == (a.junk && !b.junk)
      requires added.deleted == (b.deleted && !a.deleted) && added.junk == (b.junk && !a.junk)
      requires IsUnread(removed) ==> IsUnread(a)
      modifies this
      ensures Valid() && uids == old(uids)[uid := b]
      ensures old(Totals()) ==> Totals()
      ensures old(Shown()) ==> (Shown() <==> !FlipsOne(a, b))
      ensures changed && touched && (Counters() == old(Counters()) <==>
        a.deleted == b.deleted && a.junk == b.junk &&
        Stepped(old(unread), IsUnread(removed) && old(unread) > 0, IsUnread(added)) == old(unread))
      ensures old(UnreadRight()) ==>
        (UnreadRight() <==> One(IsUnread(added)) - One(IsUnread(removed)) == One(IsUnread(b)) - One(IsUnread(a)))
    {
      hide Count, Stepped, Is, FlipsOne;
      var after := uids[uid := b];
      assert after.Keys == uids.Keys;
      PlainRight(a, b, removed, added);
      ShownRight(a, b, removed, added);
      CounterRight(uids, uid, b, Deleted, deleted, removed.deleted, added.deleted);
      CounterRight(uids, uid, b, Junk, junk, removed.junk, added.junk);
      CounterRight(uids, uid, b, Visible, visible, Is(Visible, removed), Is(Visible, added));
      CounterRight(uids, uid, b, JunkNotDeleted, junkNotDeleted, Is(JunkNotDeleted, removed), Is(JunkNotDeleted, added));
      CounterRight(uids, uid, b, Unread(isJunkFolder, isTrashFolder), unread, IsUnread(removed), IsUnread(added));
      KindsOf(removed);
      KindsOf(added);
      SteppedStill(deleted, removed.deleted, added.deleted);
      SteppedStill(junk, removed.junk, added.junk);
      SteppedStill(visible, Is(Visible, removed), Is(Visible, added));
      SteppedStill(junkNotDeleted, Is(JunkNotDeleted, removed), Is(JunkNotDeleted, added));
      changed := UpdateTwice(removed, added);
      uids := after;
    }

    /** When a change of flags moves a count; `w` is the unread count, which stays at 0. */
    predicate CountsMove(a: Flags, b: Flags, w: Word) {
      a.deleted != b.deleted || a.junk != b.junk || (SeenMoves(a, b) && (b.seen ==> w > 0))
    }

    /** camel_folder_summary_replace_flags. The totals stay right; the counts of visible messages and
        of junk that is not deleted stay right exactly if not one of junk and deleted changes while
        the other stays set; and the unread count exactly if not `UnreadDrifts`, so that in a folder
        that is for junk or for trash, but not both, it always stays right.

        What it returns says that the flags differ in more than FOLDER_FLAGGED; whether any count has
        moved is another matter. */
    method ReplaceFlags(uid: string, b: Flags) returns (changed: bool)
      requires Valid()
      modifies this
      ensures Valid() && (uid !in old(uids) ==> uids == old(uids))
      ensures changed <==> uid in old(uids) && old(uids)[uid].(folderFlagged := false) != b.(folderFlagged := false)
      ensures Counters() != old(Counters()) <==> uid in old(uids) && CountsMove(old(uids)[uid], b, old(unread))
      ensures uid in old(uids) ==> var a := old(uids)[uid];
        uids == if a.(folderFlagged := false) == b.(folderFlagged := false) then old(uids) else old(uids)[uid := b]
      ensures old(Totals()) ==> Totals()
      ensures old(Shown()) ==> (Shown() <==> uid in old(uids) ==> !FlipsOne(old(uids)[uid], b))
      ensures old(UnreadRight()) ==>
        (UnreadRight() <==> uid in old(uids) ==> !UnreadDrifts(old(uids)[uid], b))
    {
      if uid !in uids { return false; }
      var a := uids[uid];
      if a.(folderFlagged := false) == b.(folderFlagged := false) { return false; }
      hide Count, Is, FlipsOne, HidesUnseen, Stepped;
      var removed, added := Changes(a, b);
      SteppedStill(unread, IsUnread(removed) && unread > 0, IsUnread(added));
      changed := Replace(uid, a, b, removed, added);
    }

    /** camel_folder_summary_clear. */
    method Clear()
      modifies this
      ensures Valid() && uids == map[] && Totals() && Shown() && UnreadRight() && touched
    {
      uids := map[];
      saved, unread, deleted, junk, junkNotDeleted, visible := 0, 0, 0, 0, 0, 0;
      touched := true;
    }
  }

  // ---------------------------------------------------------------- inputs for which counts drift

  /** A junk message that becomes deleted: visible messages, or junk that is not deleted, are counted
      wrongly. */
  method DeletedJunk() returns (s: Summary)
    ensures fresh(s) && !s.Shown() && s.Totals()
  {
    var junk := Flags(false, false, true, false, {});
    s := new Summary(false, false);
    s.Add("1", junk);
    var changed := s.ReplaceFlags("1", junk.(deleted := true));
  }

  /** An unseen message that becomes deleted is still counted as unread. */
  method DeletedUnseen() returns (s: Summary)
    ensures fresh(s) && !s.UnreadRight() && s.Totals() && s.Shown()
  {
    var unseen := Flags(false, false, false, false, {});
    s := new Summary(false, false);
    s.Add("1", unseen);
    var changed := s.ReplaceFlags("1", unseen.(deleted := true));
  }
}
