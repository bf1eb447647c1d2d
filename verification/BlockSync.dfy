/** camel-block-file.c: marking blocks dirty, writing everything out, and opening the file again. */
module BlockSync {
  import opened BlockDisk
  import opened BlockCache
  import opened BlockAlloc

  /** A free chain gives the root block a free offset that passes the check. */
  lemma ChainHeads(f: BlockFile)
    requires Chained(f)
    ensures IsId(RootFree(f.root.data)) && RootFree(f.root.data) <= RootLast(f.root.data)
  {
    assert f.free == [] || Offset(f, f.free[0]);
  }

  /** Setting the SYNC flag changes nothing else. */
  lemma SyncBit(d: Data, on: bool)
    ensures RootSync(SetSync(d, on)) == on
    ensures RootLast(SetSync(d, on)) == RootLast(d) && RootFree(SetSync(d, on)) == RootFree(d)
    ensures RootVersion(SetSync(d, on)) == RootVersion(d) && RootBlockSize(SetSync(d, on)) == RootBlockSize(d)
  {
    assert (d[2] - d[2] % 2 + if on then 1 else 0) % 2 == if on then 1 else 0;
  }

  lemma SameSync(d: Data, e: Data)
    requires e == d || e == SetSync(d, true) || e == SetSync(d, false)
    ensures RootLast(e) == RootLast(d) && RootFree(e) == RootFree(d)
    ensures RootVersion(e) == RootVersion(d) && RootBlockSize(e) == RootBlockSize(d)
  {
  }

  /** The state of a file that is open. */
  ghost predicate Open(f: BlockFile)
    reads f, f.root, f.cache, f.blocks.Values
  {
    f.Valid() && f.Tidy() && f.Settled(f.root)
  }

  /** The DIRTY flag of a block: the file still ends where the root block says, unless the block lies
      behind that. */
  method Mark(f: BlockFile, bl: Block)
    requires Open(f) && (bl == f.root || bl in f.cache)
    modifies bl`dirty
    ensures Open(f) && bl.dirty
    ensures old(f.Covered()) ==> (f.Covered() <==> bl == f.root || bl.id < RootLast(f.root.data))
    ensures forall id: nat :: f.DirtyAt(id) == (old(f.DirtyAt(id)) || (bl != f.root && id == bl.id))
  {
    hide Agree, IsId, DiskAt, RootLast, Size, Reaches;
    ghost var dirty := f.Dirty();
    bl.dirty := true;
    assert [] + f.cache == f.cache;
    forall id: nat ensures f.DirtyAt(id) == (old(f.DirtyAt(id)) || (bl != f.root && id == bl.id)) {
      if id in f.blocks { AgreeId(f.blocks, f.cache, id); }
      if bl != f.root { AgreeAt(f.blocks, f.cache, bl); }
    }
    var last := RootLast(f.root.data);
    if bl == f.root || bl.id < last {
      if old(f.Covered()) { ReachesStill(Size(f.disk), last, dirty, Size(f.disk), f.Dirty()); }
    } else {
      BehindEnd(f, bl.id);
    }
  }

  lemma BehindEnd(f: BlockFile, id: nat)
    requires f.DirtyAt(id) && id >= RootLast(f.root.data)
    ensures !f.Covered()
  {
    assert id in f.Dirty();
  }

  /** Nobody is in the middle of changing a block. */
  ghost predicate Quiet(f: BlockFile)
    reads f`disk, f`cache, f.cache`dirty, f.cache`data
  {
    forall b: Block :: b in f.cache ==> f.Settled(b)
  }

  /** Set or clear the SYNC flag in memory. */
  method FlagRoot(f: BlockFile, on: bool)
    requires Open(f)
    modifies f.root`data, f.root`dirty
    ensures Open(f) && (old(f.Covered()) ==> f.Covered()) && (old(Quiet(f)) ==> Quiet(f))
    ensures f.root.data == SetSync(old(f.root.data), on) && f.root.dirty
    ensures forall id :: id != 0 ==> f.View(id) == old(f.View(id))
    ensures forall id: nat :: f.DirtyAt(id) == old(f.DirtyAt(id))
  {
    hide Agree, IsId, DiskAt, Size, RootLast, RootFree, RootVersion, RootBlockSize, SetSync, Reaches;
    assert [] + f.cache == f.cache;
    forall id | id in f.blocks ensures f.blocks[id] != f.root { AgreeId(f.blocks, f.cache, id); }
    ghost var dirty := f.Dirty();
    SyncBit(f.root.data, on);
    f.root.data := SetSync(f.root.data, on);
    f.root.dirty := true;
    assert forall id: nat :: f.DirtyAt(id) == old(f.DirtyAt(id));
    assert f.Dirty() == dirty;
  }

  /** Write the root block. */
  method PutRoot(f: BlockFile, io: Io) returns (ok: bool)
    requires Open(f) && f.root.dirty
    modifies f`disk, f.root`dirty
    ensures Open(f) && (old(f.Covered()) ==> f.Covered()) && (old(Quiet(f)) ==> Quiet(f))
    ensures ok == io.write(0) && f.root.dirty == !ok
    ensures f.RootOnDisk() == if ok then f.root.data else old(f.RootOnDisk())
    ensures forall id :: IsId(id) && id != 0 ==> f.View(id) == old(f.View(id))
    ensures forall id: nat :: f.DirtyAt(id) == old(f.DirtyAt(id))
  {
    hide BlockFile.View, BlockFile.Covered, BlockFile.DirtyAt, BlockFile.Honest, Agree, IsId, DiskAt, Size, RootLast,
      RootFree, RootSync, RootVersion, RootBlockSize, SetSync, Chained, Linked, Offset, Headed, Ready, ValidateRoot;
    assert [] + f.cache == f.cache;
    ZeroId();
    NotDirty(f);
    ok := f.SyncBlockNolock(f.root, f.cache, io);
    forall b | b in f.cache ensures b.id != 0 && IsId(b.id) && b != f.root { AgreeAt(f.blocks, f.cache, b); }
  }

  /** The root block is not among the cached ones. */
  lemma NotDirty(f: BlockFile)
    requires f.Valid()
    ensures !f.DirtyAt(0)
  {
    hide Agree;
    if 0 in f.blocks { AgreeId(f.blocks, [] + f.cache, 0); }
  }

  /** Clear the SYNC flag, in memory and, if that works, in the file. */
  method Unsync(f: BlockFile, io: Io) returns (ok: bool)
    requires Open(f)
    modifies f`disk, f.root`data, f.root`dirty
    ensures Open(f) && (old(f.Covered()) ==> f.Covered())
    ensures ok == (io.open && io.write(0))
    ensures f.root.data == SetSync(old(f.root.data), false)
    ensures forall id: nat :: f.DirtyAt(id) == old(f.DirtyAt(id))
    ensures f.RootOnDisk() == if ok then f.root.data else old(f.RootOnDisk())
    ensures forall id :: IsId(id) && id != 0 ==> f.View(id) == old(f.View(id))
  {
    hide BlockFile.View, BlockFile.Valid, BlockFile.Indexed, BlockFile.Tidy, BlockFile.Covered, BlockFile.Settled, BlockFile.DirtyAt, BlockFile.Honest, BlockFile.RootOnDisk,
      Agree, IsId, DiskAt, Size, RootLast, RootFree, RootSync, RootVersion, RootBlockSize, SetSync, Chained, Linked, Offset, Headed, Ready, Quiet, ValidateRoot;
    FlagRoot(f, false);
    ok := io.open;
    if ok {
      ok := PutRoot(f, io);
    }
  }

  /** camel_block_file_touch_block. The first block touched after a sync clears the SYNC flag, in
      memory and in the file; the file stays honest unless just that write fails. It still ends where
      the root block says, unless the block lies behind that. */
  method TouchBlock(f: BlockFile, bl: Block, io: Io)
    requires Open(f) && (bl == f.root || bl in f.cache)
    modifies f`disk, f.root`data, f.root`dirty, bl`dirty
    ensures Open(f) && bl.dirty
    ensures old(f.Covered()) ==> (f.Covered() <==> bl == f.root || bl.id < RootLast(f.root.data))
    ensures bl == f.root || !old(RootSync(f.root.data)) ==> f.disk == old(f.disk) && f.root.data == old(f.root.data)
    ensures bl != f.root ==> f.root.data == SetSync(old(f.root.data), false)
    ensures forall id :: IsId(id) && id != 0 ==> f.View(id) == old(f.View(id))
    ensures old(Ready(f)) && (bl == f.root || bl.id < RootLast(f.root.data)) ==> Ready(f)
    ensures old(f.Honest()) && bl != f.root ==> (f.Honest() <==> !old(RootSync(f.RootOnDisk())) || (io.open && io.write(0)))
  {
    hide BlockFile.View, BlockFile.Valid, BlockFile.Indexed, BlockFile.Tidy, BlockFile.Covered, BlockFile.Settled, BlockFile.DirtyAt, BlockFile.Honest, BlockFile.RootOnDisk,
      Agree, IsId, DiskAt, Size, RootLast, RootFree, RootSync, RootVersion, RootBlockSize, SetSync, Chained, Linked, Offset, Quiet, ValidateRoot;
    HonestIs(f);
    if Ready(f) { ChainParts(f); }
    Mark(f, bl);
    SyncBit(f.root.data, false);
    SyncSame(f.root.data);
    if RootSync(f.root.data) && bl != f.root {
      var ok := Unsync(f, io);
    }
    SameSync(old(f.root.data), f.root.data);
    if old(Ready(f)) { ChainOf(f); }
    if bl != f.root {
      assert f.DirtyAt(bl.id);
      if bl.id >= RootLast(f.root.data) { BehindEnd(f, bl.id); }
      HonestIs(f);
      SyncBit(old(f.root.data), false);
    }
  }

  lemma SyncSame(d: Data)
    ensures SetSync(d, RootSync(d)) == d
  {
  }

  lemma HonestIs(f: BlockFile)
    ensures f.Honest() <==> (RootSync(f.RootOnDisk()) ==> RootSync(f.root.data) && forall id: nat :: !f.DirtyAt(id))
  {
  }

  lemma DirtyBlocks(f: BlockFile)
    requires Open(f)
    ensures forall b: Block :: b in f.cache ==> f.DirtyAt(b.id) == b.dirty
    ensures forall id: nat :: f.DirtyAt(id) ==> id in f.blocks && f.blocks[id] in f.cache && f.blocks[id].dirty
  {
    hide Agree;
    assert [] + f.cache == f.cache;
    forall b: Block | b in f.cache ensures f.DirtyAt(b.id) == b.dirty { AgreeAt(f.blocks, f.cache, b); }
    forall id: nat | f.DirtyAt(id) ensures f.blocks[id] in f.cache { AgreeId(f.blocks, f.cache, id); }
  }

  /** Write out one cached block. */
  method SyncOne(f: BlockFile, k: nat, bl: Block, io: Io) returns (ok: bool)
    requires Open(f) && k < |f.cache| && bl == f.cache[k]
    modifies f`disk, bl`dirty
    ensures Open(f) && (old(f.Covered()) ==> f.Covered()) && (old(Quiet(f)) ==> Quiet(f))
    ensures ok == (!old(bl.dirty) || io.write(bl.id)) && (ok ==> !bl.dirty)
    ensures !old(bl.dirty) ==> f.disk == old(f.disk)
    ensures forall id :: IsId(id) ==> f.View(id) == old(f.View(id))
    ensures f.RootOnDisk() == old(f.RootOnDisk())
    ensures forall id: nat :: f.DirtyAt(id) ==> old(f.DirtyAt(id))
  {
    hide BlockFile.View, BlockFile.Covered, BlockFile.DirtyAt, BlockFile.Honest, Agree, IsId, DiskAt, Size, RootLast,
      RootFree, RootSync, RootVersion, RootBlockSize, SetSync, Chained, Linked, Offset, Headed, Ready, ValidateRoot;
    assert [] + f.cache == f.cache;
    AgreeAt(f.blocks, f.cache, bl);
    ZeroId();
    ok := f.SyncBlockNolock(bl, f.cache, io);
    forall b: Block | b in f.cache ensures IsId(b.id) && b.id != 0 && (b != bl ==> b.id != bl.id) {
      AgreeAt(f.blocks, f.cache, b);
    }
  }

  /** The loop of sync_nolock: write out the dirty blocks, until that fails. */
  method SyncBlocks(f: BlockFile, io: Io) returns (ok: bool, work: bool, ghost first: nat)
    requires Open(f)
    modifies f`disk, f.cache`dirty
    ensures Open(f) && (old(f.Covered()) ==> f.Covered()) && (old(Quiet(f)) ==> Quiet(f))
    ensures ok ==> forall id: nat :: !f.DirtyAt(id)
    ensures !work ==> ok && f.disk == old(f.disk)
    ensures if work then old(f.DirtyAt(first)) else forall id: nat :: !old(f.DirtyAt(id))
    ensures (forall id: nat :: io.write(id)) ==> ok
    ensures forall id :: IsId(id) ==> f.View(id) == old(f.View(id))
    ensures f.RootOnDisk() == old(f.RootOnDisk())
  {
    hide *;
    work, first := false, 0;
    var k := 0;
    while k < |f.cache|
      invariant 0 <= k <= |f.cache| && Open(f) && (old(f.Covered()) ==> f.Covered()) && (old(Quiet(f)) ==> Quiet(f))
      invariant forall j :: 0 <= j < k ==> !f.cache[j].dirty
      invariant !work ==> f.disk == old(f.disk) && forall id: nat :: f.DirtyAt(id) == old(f.DirtyAt(id))
      invariant forall id: nat :: f.DirtyAt(id) ==> old(f.DirtyAt(id))
      invariant work ==> old(f.DirtyAt(first))
      invariant forall id :: IsId(id) ==> f.View(id) == old(f.View(id))
      invariant f.RootOnDisk() == old(f.RootOnDisk())
    {
      var bl := f.cache[k];
      if bl.dirty {
        DirtyBlocks(f);
        work, first := true, bl.id;
        ok := SyncOne(f, k, bl, io);
        if !ok { return; }
      }
      k := k + 1;
    }
    ok := true;
    DirtyBlocks(f);
  }

  /** Set the SYNC flag and write the root block. */
  method WriteRoot(f: BlockFile, io: Io) returns (ok: bool)
    requires Open(f)
    modifies f`disk, f.root`data, f.root`dirty
    ensures Open(f) && (old(f.Covered()) ==> f.Covered()) && (old(Quiet(f)) ==> Quiet(f))
    ensures f.root.data == SetSync(old(f.root.data), true)
    ensures ok == io.write(0) && f.root.dirty == !ok
    ensures f.RootOnDisk() == if ok then f.root.data else old(f.RootOnDisk())
    ensures forall id :: IsId(id) && id != 0 ==> f.View(id) == old(f.View(id))
    ensures forall id: nat :: f.DirtyAt(id) == old(f.DirtyAt(id))
  {
    hide BlockFile.View, BlockFile.Valid, BlockFile.Indexed, BlockFile.Tidy, BlockFile.Covered, BlockFile.Settled, BlockFile.DirtyAt, BlockFile.Honest, BlockFile.RootOnDisk,
      Agree, IsId, DiskAt, Size, RootLast, RootFree, RootSync, RootVersion, RootBlockSize, SetSync, Chained, Linked, Offset, Headed, Ready, Open, Quiet, ValidateRoot;
    FlagRoot(f, true);
    ok := PutRoot(f, io);
  }

  /** sync_nolock: the dirty blocks, and then the root block with the SYNC flag set. */
  method SyncNolock(f: BlockFile, io: Io) returns (ok: bool)
    requires Open(f)
    modifies f`disk, f.cache`dirty, f.root`data, f.root`dirty
    ensures Open(f) && (old(f.Covered()) ==> f.Covered()) && (old(Quiet(f)) ==> Quiet(f))
    ensures (old(f.Honest()) ==> f.Honest())
    ensures ok ==> f.root.data == f.RootOnDisk() == SetSync(old(f.root.data), true) && forall id: nat :: !f.DirtyAt(id)
    ensures f.root.data in {old(f.root.data), SetSync(old(f.root.data), true)}
    ensures (forall id: nat :: io.write(id)) ==> ok
    ensures forall id :: IsId(id) && id != 0 ==> f.View(id) == old(f.View(id))
  {
    hide BlockFile.View, BlockFile.Valid, BlockFile.Indexed, BlockFile.Tidy, BlockFile.Covered, BlockFile.Settled, BlockFile.DirtyAt, BlockFile.Honest, BlockFile.RootOnDisk,
      Agree, IsId, DiskAt, Size, RootLast, RootFree, RootSync, RootVersion, RootBlockSize, SetSync, Chained, Linked, Offset, Headed, Ready, Open, Quiet, ValidateRoot;
    SyncBit(f.root.data, true);
    SyncSame(f.root.data);
    HonestIs(f);
    var work;
    ghost var first;
    ok, work, first := SyncBlocks(f, io);
    if ok {
      if !work && !f.root.dirty && RootSync(f.root.data) {
        OpenSettled(f);
      } else {
        ok := WriteRoot(f, io);
      }
    }
    HonestIs(f);
  }

  lemma OpenSettled(f: BlockFile)
    requires Open(f) && !f.root.dirty
    ensures f.root.data == f.RootOnDisk()
  {
  }

  /** camel_block_file_sync. */
  method Sync(f: BlockFile, io: Io) returns (ok: bool)
    requires Open(f)
    modifies f`disk, f.cache`dirty, f.root`data, f.root`dirty
    ensures Open(f) && (old(f.Covered()) ==> f.Covered()) && (old(Quiet(f)) ==> Quiet(f))
    ensures (old(f.Honest()) ==> f.Honest())
    ensures old(Ready(f)) ==> Ready(f)
    ensures ok ==> f.root.data == f.RootOnDisk() == SetSync(old(f.root.data), true) && forall id: nat :: !f.DirtyAt(id)
    ensures f.root.data in {old(f.root.data), SetSync(old(f.root.data), true)}
    ensures io.open && (forall id: nat :: io.write(id)) ==> ok
    ensures forall id :: IsId(id) && id != 0 ==> f.View(id) == old(f.View(id))
  {
    hide BlockFile.View, BlockFile.Valid, BlockFile.Indexed, BlockFile.Tidy, BlockFile.Covered, BlockFile.Settled, BlockFile.DirtyAt, BlockFile.Honest, BlockFile.RootOnDisk,
      Agree, IsId, DiskAt, Size, RootLast, RootFree, RootSync, RootVersion, RootBlockSize, SetSync, Chained, Linked, Offset, Quiet, ValidateRoot;
    if !io.open { return false; }
    if Ready(f) { ChainParts(f); }
    ok := SyncNolock(f, io);
    SameSync(old(f.root.data), f.root.data);
    if old(Ready(f)) { ChainOf(f); }
  }

  /** A block allocated right after a sync: the new block and the root block are dirty, and the file
      says that it was shut down cleanly. */
  method AllocateAfterSync(f: BlockFile, io: Io) returns (synced: bool, bl: Block?)
    requires Ready(f) && RootLast(f.root.data) + BLOCK_SIZE < WORD
    modifies f`disk, f`blocks, f`cache, f`count, f`free, f.cache, f.root`data, f.root`dirty
    ensures Ready(f) && (synced && bl != null ==> Held(f, bl) && !f.Honest() && RootSync(f.RootOnDisk()))
    ensures io.open && io.read && (forall id: nat :: io.write(id)) ==> synced && bl != null
  {
    hide BlockFile.View, BlockFile.Valid, BlockFile.Indexed, BlockFile.Tidy, BlockFile.Covered, BlockFile.Settled, BlockFile.DirtyAt, BlockFile.Honest, BlockFile.RootOnDisk,
      Agree, IsId, DiskAt, Size, RootLast, RootFree, RootSync, RootVersion, RootBlockSize, SetSync, Chained, Linked, Offset, Headed, Quiet, ValidateRoot;
    SyncBit(f.root.data, true);
    SyncBit(f.root.data, RootSync(f.root.data));
    SyncSame(f.root.data);
    synced := Sync(f, io);
    bl := null;
    if synced {
      bl := NewBlock(f, io);
    }
  }

  /** The block just behind the end of the file, fetched and touched: the file does not end any more
      where the root block says. */
  method TouchBehindEnd(f: BlockFile, io: Io) returns (bl: Block?)
    requires Ready(f)
    modifies f`disk, f`blocks, f`cache, f`count, f.cache, f.root`data, f.root`dirty
    ensures io.open && io.read ==> bl != null
    ensures bl != null ==> Open(f) && bl.id == old(RootLast(f.root.data)) && bl.dirty && !f.Covered()
  {
    hide BlockFile.View, BlockFile.Valid, BlockFile.Indexed, BlockFile.Tidy, BlockFile.Covered, BlockFile.Settled, BlockFile.DirtyAt, BlockFile.Honest, BlockFile.RootOnDisk,
      Agree, IsId, DiskAt, Size, RootLast, RootFree, RootSync, RootVersion, RootBlockSize, SetSync, Chained, Linked, Offset, Headed, Quiet, ValidateRoot;
    ChainParts(f);
    bl := Get(f, RootLast(f.root.data), io);
    if bl != null {
      HeldParts(f, bl);
      SyncBit(f.root.data, false);
      TouchBlock(f, bl, io);
    }
  }

  /** After a successful sync the file passes the check of its root block: it is as long as the root
      block says, and the SYNC flag is set. */
  lemma SyncedValid(f: BlockFile)
    requires Open(f) && f.Covered() && Headed(f) && Chained(f)
    requires f.root.data == f.RootOnDisk() && RootSync(f.root.data) && forall id: nat :: !f.DirtyAt(id)
    ensures ValidateRoot(f.RootOnDisk(), f.version, Size(f.disk))
  {
    hide BlockFile.View, BlockFile.Valid, BlockFile.Indexed, BlockFile.Tidy, BlockFile.Covered, BlockFile.Settled, BlockFile.DirtyAt, BlockFile.Honest, Agree,
      DiskAt, Size, RootLast, RootFree, RootSync, RootVersion, RootBlockSize, SetSync, Chained, Linked, Offset, Ready, Quiet;
    ChainHeads(f);
    ChainParts(f);
    CoveredEnd(f);
  }

  /** With no dirty block left the file is as long as the root block says. */
  lemma CoveredEnd(f: BlockFile)
    requires f.Covered() && forall id: nat :: !f.DirtyAt(id)
    ensures Size(f.disk) == RootLast(f.root.data)
  {
    hide IsId, Size, RootLast, BlockFile.DirtyAt;
    var last := RootLast(f.root.data);
    SizeId(f.disk);
    LastBlock(last, Size(f.disk));
    assert last - BLOCK_SIZE !in f.Dirty();
  }

  lemma LastBlock(last: nat, size: nat)
    requires IsId(last) && 0 < size <= last && IsId(size)
    ensures last >= BLOCK_SIZE && IsId(last - BLOCK_SIZE)
    ensures last - BLOCK_SIZE < last && (last - BLOCK_SIZE < size ==> size == last)
  {
  }

  /** After a successful sync the file holds all blocks, unless somebody is in the middle of changing
      one. */
  lemma SyncedBlocks(f: BlockFile, id: nat)
    requires Open(f) && Quiet(f) && IsId(id)
    requires f.root.data == f.RootOnDisk() && forall id: nat :: !f.DirtyAt(id)
    ensures DiskAt(f.disk, id) == f.View(id)
  {
    hide Agree, DiskAt;
    assert [] + f.cache == f.cache;
    if id != 0 && id in f.blocks {
      AgreeId(f.blocks, f.cache, id);
      assert !f.DirtyAt(id);
    }
  }

  /** A root block for a new file, which goes to the file at once. */
  method InitFile(f: BlockFile, io: Io, truncates: bool) returns (ok: bool)
    requires f.blocks == map[] && f.cache == [] && f.free == [] && f.root.id == 0 && f.count == 1
    requires f.version.0 < WORD && f.version.1 < WORD
    modifies f`disk, f.root`data, f.root`dirty
    ensures ok == (io.write(0) && truncates)
    ensures ok ==> f.disk == [InitRoot(f.version)] && f.View(0) == InitRoot(f.version) && Open(f) && f.Covered() && Headed(f) && Chained(f)
    ensures ok ==> f.Honest()
  {
    hide DiskAt, Open, Chained, Headed;
    f.root.data := InitRoot(f.version);
    f.root.dirty := true;
    assert Agree(f.blocks, []);
    ok := f.SyncBlockNolock(f.root, [], io);
    if !ok || !truncates { return false; }
    assert f.disk[0] == InitRoot(f.version);
    f.disk := f.disk[..1];
    InitOk(f);
  }

  /** A file with nothing but a new root block. */
  lemma InitOk(f: BlockFile)
    requires f.blocks == map[] && f.cache == [] && f.free == [] && f.root.id == 0 && f.count == 1 && !f.root.dirty
    requires f.version.0 < WORD && f.version.1 < WORD
    requires f.root.data == InitRoot(f.version) && f.disk == [f.root.data]
    ensures Open(f) && f.Covered() && Headed(f) && Chained(f) && f.Honest()
  {
    assert [] + f.cache == [] && Size(f.disk) == BLOCK_SIZE == RootLast(f.root.data);
  }

  /** The root block of a file that was shut down cleanly, word by word: the version; SYNC, the lowest of
      the flags; the block size; the head of the free chain; and the end of the file. */
  ghost predicate CleanRoot(d: Data, version: (nat, nat), size: nat) {
    && d[0] == version.0 && d[1] == version.1
    && d[2] % 2 == 1
    && d[3] == 1024
    && d[4] % 1024 == 0 && d[4] <= size
    && d[5] == size && 0 < size
  }

  lemma CleanRootIs(disk: seq<Data>, version: (nat, nat))
    ensures ValidateRoot(DiskAt(disk, 0), version, Size(disk)) <==> CleanRoot(DiskAt(disk, 0), version, Size(disk))
  {
  }

  lemma InitRootClean(version: (nat, nat))
    requires version.0 < WORD && version.1 < WORD
    ensures CleanRoot(InitRoot(version), version, BLOCK_SIZE)
    ensures forall i :: 6 <= i < WORDS ==> InitRoot(version)[i] == 0
    ensures InitRoot(version)[2] == 1 && InitRoot(version)[4] == 0
  {
  }

  /** camel_block_file_new. A file is kept as it is exactly if its root block says that it was shut down
      cleanly; any other starts anew, with a root block only. */
  method New(disk: seq<Data>, version: (nat, nat), io: Io, truncates: bool, ghost free: seq<nat>) returns (f: BlockFile?)
    requires version.0 < WORD && version.1 < WORD
    ensures f != null ==> fresh(f)
    ensures var valid := ValidateRoot(DiskAt(disk, 0), version, Size(disk));
      (f != null) == (io.open && io.read && (valid || (io.write(0) && truncates)))
    ensures f != null ==> f.version == version && fresh(f.root) && f.cache == [] && Open(f) && f.Covered() && Quiet(f) && Headed(f) && f.Honest()
    ensures f != null ==> (f.disk == disk <==> CleanRoot(DiskAt(disk, 0), version, Size(disk)))
    ensures f != null && f.disk != disk ==> f.disk == [InitRoot(version)] && CleanRoot(f.RootOnDisk(), version, BLOCK_SIZE)
    ensures var valid := ValidateRoot(DiskAt(disk, 0), version, Size(disk));
      f != null && valid ==> f.disk == disk && f.free == free && forall id :: f.View(id) == DiskAt(disk, id)
    ensures var valid := ValidateRoot(DiskAt(disk, 0), version, Size(disk));
      f != null && !valid ==> f.disk == [InitRoot(version)] && f.free == [] && Chained(f) && f.View(0) == InitRoot(version)
  {
    hide DiskAt, InitRoot;
    CleanRootIs(disk, version);
    InitRootClean(version);
    OneBlock(InitRoot(version));
    if !io.open || !io.read { return null; }
    var root := new Block(0, DiskAt(disk, 0));
    root.refcount := 1;
    f := new BlockFile(disk, version, root);
    if !ValidateRoot(root.data, version, Size(disk)) {
      var ok := InitFile(f, io, truncates);
      if !ok { return null; }
    } else {
      f.free := free;
      assert [] + f.cache == [];
    }
  }

  lemma OneBlock(d: Data)
    ensures DiskAt([d], 0) == d && Size([d]) == BLOCK_SIZE
  {
  }

  /** A block is touched after a sync, the cleared SYNC flag reaches the file, and then the file is opened
      again without another sync: it starts anew, with a root block only. */
  method TouchAndReopen(f: BlockFile, bl: Block, io: Io, again: Io, truncates: bool) returns (g: BlockFile?)
    requires Open(f) && bl in f.cache && bl != f.root && RootSync(f.root.data) && f.Honest()
    requires io.open && io.write(0) && f.version.0 < WORD && f.version.1 < WORD
    modifies f`disk, f.root`data, f.root`dirty, bl`dirty
    ensures again.open && again.read && again.write(0) && truncates ==> g != null
    ensures !CleanRoot(f.RootOnDisk(), f.version, Size(f.disk))
    ensures g != null ==> fresh(g) && g.disk == [InitRoot(f.version)] && g.free == []
  {
    hide BlockFile.View, BlockFile.Valid, BlockFile.Indexed, BlockFile.Tidy, BlockFile.Covered, BlockFile.Settled, BlockFile.DirtyAt, BlockFile.RootOnDisk,
      Agree, IsId, DiskAt, Size, RootLast, RootFree, RootVersion, RootBlockSize, SetSync, Chained, Linked, Offset, Headed, Quiet;
    TouchBlock(f, bl, io);
    TouchedDirty(f, bl);
    RootOnDiskIs(f);
    CleanRootIs(f.disk, f.version);
    g := New(f.disk, f.version, again, truncates, []);
  }

  lemma TouchedDirty(f: BlockFile, bl: Block)
    requires Open(f) && bl in f.cache && bl.dirty
    ensures f.DirtyAt(bl.id)
  {
    DirtyBlocks(f);
  }

  lemma RootOnDiskIs(f: BlockFile)
    ensures f.RootOnDisk() == DiskAt(f.disk, 0)
  {
  }

  lemma SameChain(f: BlockFile, g: BlockFile)
    requires Chained(f) && g.free == f.free && g.root.data == f.root.data
    requires forall id: nat :: IsId(id) ==> g.View(id) == f.View(id)
    ensures Chained(g)
  {
    hide BlockFile.View, IsId;
    forall i | 0 <= i < |f.free| ensures g.View(f.free[i]) == f.View(f.free[i]) {
      assert Offset(f, f.free[i]);
    }
  }

  /** Writing everything out and opening the file again gives the same blocks and the same free
      chain. */
  method SyncAndReopen(f: BlockFile, io: Io, again: Io, truncates: bool) returns (g: BlockFile?)
    requires Ready(f) && Quiet(f) && f.version.0 < WORD && f.version.1 < WORD
    modifies f`disk, f.cache`dirty, f.root`data, f.root`dirty
    ensures io.open && (forall id: nat :: io.write(id)) && again.open && again.read ==> g != null
    ensures g != null ==> fresh(g) && Ready(g) && Open(g) && g.Honest() && g.disk == f.disk && g.free == old(f.free)
    ensures g != null ==> g.root.data == SetSync(old(f.root.data), true)
    ensures g != null ==> forall id: nat :: IsId(id) && id != 0 ==> g.View(id) == old(f.View(id))
  {
    hide BlockFile.View, BlockFile.Valid, BlockFile.Indexed, BlockFile.Tidy, BlockFile.Covered, BlockFile.Settled, BlockFile.DirtyAt, BlockFile.Honest, Agree,
      IsId, DiskAt, Size, RootLast, RootFree, RootSync, RootVersion, RootBlockSize, SetSync, Chained, Linked, Offset, Headed, Quiet, ValidateRoot;
    var ok := Sync(f, io);
    if !ok { return null; }
    SyncBit(old(f.root.data), true);
    SyncedValid(f);
    g := New(f.disk, f.version, again, truncates, f.free);
    forall id: nat | IsId(id) ensures DiskAt(f.disk, id) == f.View(id) { SyncedBlocks(f, id); }
    if g != null {
      ZeroId();
      RootView(f);
      RootView(g);
      SameChain(f, g);
    }
  }

  lemma RootView(f: BlockFile)
    ensures f.View(0) == f.root.data
  {
  }
}
