/** camel-block-file.c: the allocator. The free blocks form a chain: the root block names the first,
    and the first word of each the next. */
module BlockAlloc {
  import opened BlockDisk
  import opened BlockCache

  /** The offset of a block between the root block and the end of the file. */
  ghost predicate Offset(f: BlockFile, id: nat)
    reads f.root`data
  {
    IsId(id) && 0 < id < RootLast(f.root.data)
  }

  ghost predicate Allocated(f: BlockFile, id: nat)
    reads f.root`data, f`free
  {
    Offset(f, id) && id !in f.free
  }

  function Next(free: seq<nat>, i: int): nat {
    if -1 <= i < |free| - 1 then free[i + 1] else 0
  }

  /** Each free block links to the next one. */
  ghost predicate Linked(f: BlockFile)
    reads f`disk, f`blocks, f`free, f.root`data, f.blocks.Values`data
  {
    forall i :: 0 <= i < |f.free| ==> f.View(f.free[i])[0] == Next(f.free, i)
  }

  /** The free chain is finite, without duplicates, and stays inside the file; with the allocated
      blocks it makes up all blocks after the root block. */
  ghost predicate Chained(f: BlockFile)
    reads f`disk, f`blocks, f`free, f.root`data, f.blocks.Values`data
  {
    && IsId(RootLast(f.root.data)) && RootLast(f.root.data) != 0
    && (forall i :: 0 <= i < |f.free| ==> Offset(f, f.free[i]))
    && (forall i, j :: 0 <= i < j < |f.free| ==> f.free[i] != f.free[j])
    && RootFree(f.root.data) == Next(f.free, -1)
    && Linked(f)
  }

  /** The fixed words of the root block. */
  ghost predicate Headed(f: BlockFile)
    reads f.root`data
  {
    RootVersion(f.root.data) == f.version && RootBlockSize(f.root.data) == BLOCK_SIZE
  }

  /** What all operations keep. */
  ghost predicate Ready(f: BlockFile)
    reads f, f.cache, f.root, f.blocks.Values
  {
    f.Valid() && f.Tidy() && f.Covered() && f.Settled(f.root) && Headed(f) && Chained(f)
  }

  // ---------------------------------------------------------------- what the predicates mean

  lemma OffsetIs(f: BlockFile, id: nat)
    ensures Offset(f, id) <==> IsId(id) && 0 < id < RootLast(f.root.data)
    ensures Allocated(f, id) <==> Offset(f, id) && id !in f.free
  {
  }

  lemma ChainParts(f: BlockFile)
    requires Chained(f)
    ensures IsId(RootLast(f.root.data)) && RootLast(f.root.data) != 0 && RootFree(f.root.data) == Next(f.free, -1)
    ensures forall i :: 0 <= i < |f.free| ==>
      IsId(f.free[i]) && 0 < f.free[i] < RootLast(f.root.data) && f.View(f.free[i])[0] == Next(f.free, i)
    ensures forall i :: 0 <= i < |f.free| ==> Offset(f, f.free[i])
    ensures forall i, j :: 0 <= i < j < |f.free| ==> f.free[i] != f.free[j]
    ensures if RootFree(f.root.data) != 0 then f.free != [] && f.free[0] == RootFree(f.root.data) else f.free == []
  {
    hide IsId, RootLast, BlockFile.View;
    forall i | 0 <= i < |f.free| ensures IsId(f.free[i]) && 0 < f.free[i] < RootLast(f.root.data) {
      assert Offset(f, f.free[i]);
    }
  }

  lemma AllocatedAre(f: BlockFile)
    ensures forall i: nat :: Offset(f, i) <==> IsId(i) && 0 < i < RootLast(f.root.data)
    ensures forall i: nat :: Allocated(f, i) <==> IsId(i) && 0 < i < RootLast(f.root.data) && i !in f.free
  {
  }

  lemma HeldParts(f: BlockFile, bl: Block)
    requires Held(f, bl)
    ensures bl in f.cache && bl != f.root && bl.id in f.blocks && f.blocks[bl.id] == bl && bl.refcount > 0
    ensures bl.id != 0 ==> f.View(bl.id) == bl.data
  {
  }

  lemma HeldOf(f: BlockFile, bl: Block)
    requires f.Valid() && bl in f.cache && bl.id in f.blocks && f.blocks[bl.id] == bl && bl.refcount > 0
    ensures Held(f, bl)
  {
  }

  lemma RootSettled(f: BlockFile)
    requires f.Valid()
    ensures f.root !in f.cache && (f.Settled(f.root) <==> f.root.dirty || f.root.data == f.RootOnDisk())
  {
  }

  /** A dirty block and a set SYNC flag in the file do not go together. */
  lemma DirtyHonest(f: BlockFile, bl: Block)
    requires Held(f, bl) && bl.dirty
    ensures f.Honest() <==> !RootSync(f.RootOnDisk())
  {
    assert f.DirtyAt(bl.id);
  }

  /** The chain depends only on the root block and on what the free blocks hold. */
  lemma ChainOf(f: BlockFile)
    requires IsId(RootLast(f.root.data)) && RootLast(f.root.data) != 0 && RootFree(f.root.data) == Next(f.free, -1)
    requires forall i :: 0 <= i < |f.free| ==>
      IsId(f.free[i]) && 0 < f.free[i] < RootLast(f.root.data) && f.View(f.free[i])[0] == Next(f.free, i)
    requires forall i, j :: 0 <= i < j < |f.free| ==> f.free[i] != f.free[j]
    ensures Chained(f)
  {
  }

  // ---------------------------------------------------------------- the operations

  /** camel_block_file_get_block keeps the chain: it changes what no block holds. */
  method Get(f: BlockFile, id: nat, io: Io) returns (bl: Block?)
    requires Ready(f)
    modifies f`disk, f`blocks, f`cache, f`count, f.cache`dirty, f.cache`refcount
    ensures Ready(f) && f.RootOnDisk() == old(f.RootOnDisk()) && (old(f.Honest()) ==> f.Honest())
    ensures (bl != null) == old(f.Gettable(id, io))
    ensures bl == null ==> f.disk == old(f.disk) && f.blocks == old(f.blocks) && f.cache == old(f.cache)
    ensures bl != null ==> bl.id == id && Held(f, bl) && (bl in old(f.cache) || fresh(bl))
    ensures forall i :: IsId(i) ==> f.View(i) == old(f.View(i))
  {
    hide BlockFile.View, BlockFile.Valid, BlockFile.Indexed, BlockFile.Tidy, BlockFile.Covered, BlockFile.Settled, BlockFile.DirtyAt,
      BlockFile.Honest, BlockFile.RootOnDisk, BlockFile.Gettable, Agree, IsId, DiskAt, Chained, Linked, Offset, Allocated, Held, Headed, Next,
      RootLast, RootFree, RootSync, RootVersion, RootBlockSize, SetFree, SetLast, Zero;
    ghost var kept;
    ChainParts(f);
    RootSettled(f);
    bl, kept := f.GetBlock(id, io);
    RootSettled(f);
    ChainOf(f);
    if bl != null { HeldOf(f, bl); }
  }

  /** Somebody holds the cached block. */
  ghost predicate Held(f: BlockFile, bl: Block)
    reads f`cache, f`blocks, bl`refcount
  {
    bl in f.cache && bl != f.root && bl.id in f.blocks && f.blocks[bl.id] == bl && bl.refcount > 0
  }

  /** Zero a block and mark it dirty, with the root block changed to `root`: the view changes there
      and nowhere else. */
  method Claim(f: BlockFile, bl: Block, data: Data, root: Data)
    requires f.Valid() && f.Tidy() && f.Covered() && Headed(f) && Held(f, bl)
    requires RootVersion(root) == f.version && RootBlockSize(root) == BLOCK_SIZE
    requires IsId(RootLast(root)) && RootLast(root) >= RootLast(f.root.data) && bl.id < RootLast(root)
    requires RootLast(root) > RootLast(f.root.data) ==> bl.id == RootLast(f.root.data) == RootLast(root) - BLOCK_SIZE
    modifies f.root`data, f.root`dirty, bl`data, bl`dirty
    ensures f.Valid() && f.Tidy() && f.Covered() && f.Settled(f.root) && Headed(f)
    ensures f.root.data == root && f.root.dirty && bl.data == data && bl.dirty
    ensures forall id :: id != 0 ==> f.View(id) == if id == bl.id then data else old(f.View(id))
  {
    hide Agree, IsId, DiskAt, RootLast, RootVersion, RootBlockSize, Reaches;
    ghost var last, dirty := RootLast(f.root.data), f.Dirty();
    ReachesMore(Size(f.disk), last, dirty, RootLast(root), bl.id);
    f.root.data := root;
    f.root.dirty := true;
    bl.dirty := true;
    bl.data := data;
    assert [] + f.cache == f.cache;
    forall id | id in f.blocks ensures (f.blocks[id] == bl ==> id == bl.id) && f.blocks[id] != f.root {
      AgreeId(f.blocks, [] + f.cache, id);
    }
    forall id: nat ensures f.DirtyAt(id) == (old(f.DirtyAt(id)) || id == bl.id) {
      if id in f.blocks { AgreeId(f.blocks, [] + f.cache, id); }
    }
    assert f.Dirty() == dirty + iset{bl.id};
  }

  /** A list of free blocks with its first block taken off. */
  lemma TailChained(f: BlockFile, free: seq<nat>)
    requires free != [] && f.free == free[1..]
    requires IsId(RootLast(f.root.data)) && RootLast(f.root.data) != 0 && RootFree(f.root.data) == Next(free, 0)
    requires forall i :: 0 <= i < |free| ==> Offset(f, free[i])
    requires forall i, j :: 0 <= i < j < |free| ==> free[i] != free[j]
    requires forall i :: 1 <= i < |free| ==> f.View(free[i])[0] == Next(free, i)
    ensures Chained(f)
    ensures forall i: nat :: Allocated(f, i) == ((Offset(f, i) && i !in free) || i == free[0])
  {
    hide Offset, BlockFile.View, IsId, RootLast, RootFree;
    assert forall i :: 0 <= i < |f.free| ==> f.free[i] == free[i + 1] && Next(f.free, i) == Next(free, i + 1);
    forall i: nat ensures Allocated(f, i) == ((Offset(f, i) && i !in free) || i == free[0]) {
      assert i in free <==> i == free[0] || i in free[1..];
    }
  }

  /** The first free block leaves the chain. */
  method Pop(f: BlockFile, bl: Block)
    requires Ready(f) && Held(f, bl) && f.free != [] && bl.id == f.free[0]
    modifies f`free, f.root`data, f.root`dirty, bl`data, bl`dirty
    ensures Ready(f) && Held(f, bl) && bl.dirty && bl.data == Zero() && !old(Allocated(f, bl.id))
    ensures forall i: nat :: Allocated(f, i) == (old(Allocated(f, i)) || i == bl.id)
    ensures forall i :: i != 0 ==> f.View(i) == if i == bl.id then Zero() else old(f.View(i))
  {
    hide BlockFile.View, BlockFile.Valid, BlockFile.Indexed, BlockFile.Tidy, BlockFile.Covered, BlockFile.Settled, BlockFile.DirtyAt,
      BlockFile.Honest, BlockFile.RootOnDisk, BlockFile.Gettable, Agree, IsId, DiskAt, Chained, Linked, Offset, Allocated, Held, Headed, Next,
      RootLast, RootFree, RootSync, RootVersion, RootBlockSize, SetFree, SetLast, Zero;
    ghost var free := f.free;
    AllocatedAre(f);
    ChainParts(f);
    OffsetIs(f, bl.id);
    HeldParts(f, bl);
    HeadedWords(f, bl.data[0]);
    Claim(f, bl, Zero(), SetFree(f.root.data, bl.data[0]));
    f.free := f.free[1..];
    HeldOf(f, bl);
    AllocatedAre(f);
    TailChained(f, free);
  }

  lemma HeadedWords(f: BlockFile, id: nat)
    requires Headed(f) && id < 0x1_0000_0000
    ensures id < WORD
    ensures var d := SetFree(f.root.data, id);
      RootLast(d) == RootLast(f.root.data) && RootFree(d) == id && RootVersion(d) == f.version && RootBlockSize(d) == BLOCK_SIZE
    ensures var d := SetLast(f.root.data, id);
      RootLast(d) == id && RootFree(d) == RootFree(f.root.data) && RootVersion(d) == f.version && RootBlockSize(d) == BLOCK_SIZE
  {
  }

  /** A list of free blocks with one more put in front. */
  lemma HeadChained(f: BlockFile, id: nat, free: seq<nat>)
    requires f.free == [id] + free && Offset(f, id) && id !in free
    requires IsId(RootLast(f.root.data)) && RootLast(f.root.data) != 0 && RootFree(f.root.data) == id
    requires forall i :: 0 <= i < |free| ==> Offset(f, free[i])
    requires forall i, j :: 0 <= i < j < |free| ==> free[i] != free[j]
    requires forall i :: 0 <= i < |free| ==> f.View(free[i])[0] == Next(free, i)
    requires f.View(id)[0] == Next(free, -1)
    ensures Chained(f)
    ensures forall i: nat :: Allocated(f, i) == (Offset(f, i) && i !in free && i != id)
  {
    hide Offset, BlockFile.View, IsId, RootLast, RootFree, Next;
    NextHead(id, free);
    assert forall i :: 1 <= i < |f.free| ==> f.free[i] == free[i - 1];
    assert forall i :: 1 <= i < |f.free| ==> f.View(f.free[i])[0] == Next(f.free, i);
  }

  lemma NextHead(id: nat, free: seq<nat>)
    ensures Next([id] + free, -1) == id && Next([id] + free, 0) == Next(free, -1)
    ensures forall i :: 1 <= i <= |free| ==> Next([id] + free, i) == Next(free, i - 1)
  {
  }

  /** The block becomes the first of the chain. */
  method Push(f: BlockFile, bl: Block)
    requires Ready(f) && Held(f, bl) && Allocated(f, bl.id)
    modifies f`free, f.root`data, f.root`dirty, bl`data, bl`dirty
    ensures Ready(f) && Held(f, bl) && bl.dirty && bl.refcount == old(bl.refcount)
    ensures f.free == [bl.id] + old(f.free) && RootLast(f.root.data) == old(RootLast(f.root.data))
    ensures forall i: nat :: Allocated(f, i) == (old(Allocated(f, i)) && i != bl.id)
    ensures forall i :: i != 0 && i != bl.id ==> f.View(i) == old(f.View(i))
  {
    hide BlockFile.View, BlockFile.Valid, BlockFile.Indexed, BlockFile.Tidy, BlockFile.Covered, BlockFile.Settled, BlockFile.DirtyAt,
      BlockFile.Honest, BlockFile.RootOnDisk, BlockFile.Gettable, Agree, IsId, DiskAt, Chained, Linked, Offset, Allocated, Held, Headed, Next,
      RootLast, RootFree, RootSync, RootVersion, RootBlockSize, SetFree, SetLast, Zero;
    ghost var free := f.free;
    AllocatedAre(f);
    ChainParts(f);
    OffsetIs(f, bl.id);
    HeldParts(f, bl);
    IdFits(f.root.data, bl.id);
    HeadedWords(f, bl.id);
    var link := LinkTo(bl.data, f.root.data);
    Claim(f, bl, link, SetFree(f.root.data, bl.id));
    f.free := [bl.id] + f.free;
    HeldOf(f, bl);
    AllocatedAre(f);
    HeadChained(f, bl.id, free);
  }

  lemma IdFits(root: Data, id: nat)
    requires id < RootLast(root)
    ensures id < 0x1_0000_0000
  {
  }

  /** A block linked to the first free one. */
  function LinkTo(data: Data, root: Data): (link: Data)
    ensures link[0] == RootFree(root) && link[1..] == data[1..]
  {
    data[0 := RootFree(root)]
  }

  /** A new block at the end of the file. */
  method Extend(f: BlockFile, bl: Block)
    requires Ready(f) && Held(f, bl) && f.free == [] && bl.id == RootLast(f.root.data) < WORD - BLOCK_SIZE
    modifies f.root`data, f.root`dirty, bl`data, bl`dirty
    ensures Ready(f) && Held(f, bl) && bl.dirty && bl.data == Zero() && !old(Allocated(f, bl.id))
    ensures forall i: nat :: Allocated(f, i) == (old(Allocated(f, i)) || i == bl.id)
    ensures forall i :: i != 0 ==> f.View(i) == if i == bl.id then Zero() else old(f.View(i))
  {
    hide BlockFile.View, BlockFile.Valid, BlockFile.Indexed, BlockFile.Tidy, BlockFile.Covered, BlockFile.Settled, BlockFile.DirtyAt,
      BlockFile.Honest, BlockFile.RootOnDisk, BlockFile.Gettable, Agree, IsId, DiskAt, Chained, Linked, Offset, Allocated, Held, Headed, Next,
      RootLast, RootFree, RootSync, RootVersion, RootBlockSize, SetFree, SetLast, Zero;
    var last := bl.id + BLOCK_SIZE;
    AllocatedAre(f);
    ChainParts(f);
    HeldParts(f, bl);
    IdStep(bl.id, bl.id);
    HeadedWords(f, last);
    Claim(f, bl, Zero(), SetLast(f.root.data, last));
    HeldOf(f, bl);
    ChainOf(f);
    AllocatedAre(f);
    forall i: nat ensures Allocated(f, i) == (old(Allocated(f, i)) || i == bl.id) {
      if IsId(i) { IdStep(i, bl.id); }
    }
  }

  /** The block to be allocated next: the first free one, or one at the end of the file. */
  ghost function FirstFree(f: BlockFile): nat
    reads f.root`data
  {
    if RootFree(f.root.data) != 0 then RootFree(f.root.data) else RootLast(f.root.data)
  }

  lemma ZeroWords()
    ensures forall i :: 0 <= i < WORDS ==> Zero()[i] == 0
  {
  }

  /** It can be had whenever the file can be read. */
  lemma FirstFreeGettable(f: BlockFile, io: Io)
    requires Chained(f)
    ensures io.open && io.read ==> f.Gettable(FirstFree(f), io)
  {
    ChainParts(f);
  }

  /** camel_block_file_new_block. The block it returns was free, or is a new one at the end of the
      file; it is zeroed. */
  method NewBlock(f: BlockFile, io: Io) returns (bl: Block?)
    requires Ready(f) && RootLast(f.root.data) + BLOCK_SIZE < WORD
    modifies f`disk, f`blocks, f`cache, f`count, f`free, f.cache, f.root`data, f.root`dirty
    ensures Ready(f)
    ensures (bl != null) == old(f.Gettable(FirstFree(f), io)) && (io.open && io.read ==> bl != null)
    ensures bl == null ==> f.free == old(f.free) && f.blocks == old(f.blocks) && f.disk == old(f.disk) && f.root.data == old(f.root.data)
    ensures bl != null ==> Held(f, bl) && bl.data == Zero() && forall i :: 0 <= i < WORDS ==> bl.data[i] == 0
    ensures if bl != null then f.Honest() <==> !RootSync(f.RootOnDisk()) else old(f.Honest()) ==> f.Honest()
    ensures bl != null ==> forall i: nat :: Allocated(f, i) == (old(Allocated(f, i)) || i == bl.id)
    ensures bl != null ==> forall i: nat :: i == bl.id ==> !old(Allocated(f, i))
    ensures forall i :: IsId(i) && i != 0 ==> f.View(i) == if bl != null && i == bl.id then Zero() else old(f.View(i))
    ensures f.RootOnDisk() == old(f.RootOnDisk())
  {
    hide BlockFile.View, BlockFile.Valid, BlockFile.Indexed, BlockFile.Tidy, BlockFile.Covered, BlockFile.Settled, BlockFile.DirtyAt,
      BlockFile.Honest, BlockFile.RootOnDisk, BlockFile.Gettable, Agree, IsId, DiskAt, Chained, Linked, Offset, Allocated, Held, Headed, Next,
      RootLast, RootFree, RootSync, RootVersion, RootBlockSize, SetFree, SetLast, Zero;
    ChainParts(f);
    ZeroWords();
    FirstFreeGettable(f, io);
    var id := if RootFree(f.root.data) != 0 then RootFree(f.root.data) else RootLast(f.root.data);
    bl := Get(f, id, io);
    if bl == null { return; }
    if RootFree(f.root.data) != 0 {
      Pop(f, bl);
    } else {
      Extend(f, bl);
    }
    DirtyHonest(f, bl);
  }

  /** camel_block_file_unref_block, for a cached block. Its last holder must have marked it dirty if
      he changed it. */
  method Unref(f: BlockFile, bl: Block)
    requires f.Valid() && f.Tidy() && Held(f, bl) && (bl.refcount == 1 ==> f.Settled(bl))
    modifies bl`refcount
    ensures f.Valid() && f.Tidy() && bl.refcount == old(bl.refcount) - 1
  {
    bl.refcount := bl.refcount - 1;
  }

  /** A holder changes an allocated block. */
  method Change(f: BlockFile, bl: Block, data: Data)
    requires Ready(f) && Held(f, bl) && Allocated(f, bl.id)
    modifies bl`data
    ensures Ready(f) && forall id :: f.View(id) == if id == bl.id then data else old(f.View(id))
  {
    hide Agree, IsId, DiskAt, Chained, Linked, Headed, BlockFile.Covered, BlockFile.DirtyAt, RootLast, RootFree, Zero;
    assert [] + f.cache == f.cache;
    OffsetIs(f, bl.id);
    forall id | id in f.blocks ensures (f.blocks[id] == bl ==> id == bl.id) && f.blocks[id] != f.root {
      AgreeId(f.blocks, f.cache, id);
    }
    ChainParts(f);
    bl.data := data;
    ChainOf(f);
  }

  /** camel_block_file_free_block, for an allocated block: it becomes the first free one. */
  method FreeBlock(f: BlockFile, id: nat, io: Io) returns (ok: bool)
    requires Ready(f) && Allocated(f, id)
    modifies f`disk, f`blocks, f`cache, f`count, f`free, f.cache, f.root`data, f.root`dirty
    ensures Ready(f)
    ensures ok == old(f.Gettable(id, io))
    ensures if ok then f.Honest() <==> !RootSync(f.RootOnDisk()) else old(f.Honest()) ==> f.Honest()
    ensures f.free == if ok then [id] + old(f.free) else old(f.free)
    ensures RootLast(f.root.data) == old(RootLast(f.root.data))
    ensures forall i: nat :: Allocated(f, i) == (old(Allocated(f, i)) && (ok ==> i != id))
    ensures forall i :: IsId(i) && i != 0 && (ok ==> i != id) ==> f.View(i) == old(f.View(i))
    ensures f.RootOnDisk() == old(f.RootOnDisk())
  {
    hide BlockFile.View, BlockFile.Valid, BlockFile.Indexed, BlockFile.Tidy, BlockFile.Covered, BlockFile.Settled, BlockFile.DirtyAt,
      BlockFile.Honest, BlockFile.RootOnDisk, BlockFile.Gettable, Agree, IsId, DiskAt, Chained, Linked, Offset, Allocated, Held, Headed, Next,
      RootLast, RootFree, RootSync, RootVersion, RootBlockSize, SetFree, SetLast, Zero;
    var bl := Get(f, id, io);
    if bl == null { return false; }
    ok := true;
    Push(f, bl);
    HeldParts(f, bl);
    DirtyHonest(f, bl);
    Unref(f, bl);
  }
}
