/** camel-block-file.c: a write-back cache of blocks that evicts the least recently used. */
module BlockCache {
  import opened BlockDisk

  class Block {
    const id: nat
    var dirty: bool
    var refcount: nat
    var data: Data

    constructor (id: nat, data: Data)
      ensures this.id == id && this.data == data && !dirty && refcount == 0
    {
      this.id, this.data, dirty, refcount := id, data, false, 0;
    }
  }

  /** What the system does during one call: whether the file opens, can be read, and which blocks
      can be written. */
  datatype Io = Io(open: bool, read: bool, write: nat -> bool)

  // ---------------------------------------------------------------- the table and the queue

  /** The hash table holds exactly the blocks of the queue, under their ids, and not the root. */
  ghost predicate Agree(blocks: map<nat, Block>, queue: seq<Block>) {
    && (forall id :: id in blocks ==> id != 0 && IsId(id) && blocks[id].id == id && blocks[id] in queue)
    && (forall k :: 0 <= k < |queue| ==> queue[k].id in blocks && blocks[queue[k].id] == queue[k])
    && (forall i, j :: 0 <= i < j < |queue| ==> queue[i] != queue[j])
  }

  // ---------------------------------------------------------------- how far the file reaches

  /** A file of `size` bytes and the blocks to be written reach exactly as far as `last`. */
  ghost predicate Reaches(size: nat, last: nat, dirty: iset<nat>) {
    && IsId(last) && 0 < size <= last
    && (forall i: nat :: i in dirty ==> i < last)
    && (forall i: nat {:trigger i in dirty} :: IsId(i) && i < last ==> i < size || i in dirty)
  }

  /** Blocks are written and others come to be written. */
  lemma ReachesStill(size: nat, last: nat, dirty: iset<nat>, size': nat, dirty': iset<nat>)
    requires Reaches(size, last, dirty) && (size' == size || size < size' <= last)
    requires forall i: nat :: i in dirty' ==> i in dirty || i < last
    requires forall i: nat :: IsId(i) && i in dirty ==> i in dirty' || i < size'
    ensures Reaches(size', last, dirty')
  {
    hide IsId;
    forall i: nat | IsId(i) && i < last ensures i < size' || i in dirty' {
      assert i in dirty || i !in dirty;
    }
  }

  /** The root block and the blocks to be written fit. */
  lemma ReachesRoom(size: nat, last: nat, dirty: iset<nat>, id: nat)
    requires Reaches(size, last, dirty) && IsId(id) && (id == 0 || id in dirty)
    ensures id + BLOCK_SIZE <= last
  {
    ZeroId();
    IdStep(id, last);
  }

  /** A block more, at the old end if the root block moves it. */
  lemma ReachesMore(size: nat, last: nat, dirty: iset<nat>, more: nat, id: nat)
    requires Reaches(size, last, dirty) && IsId(more) && more >= last && id < more
    requires more > last ==> id == last == more - BLOCK_SIZE
    ensures Reaches(size, more, dirty + iset{id})
  {
    hide IsId;
    forall i: nat | IsId(i) && i < more ensures i < size || i in dirty + iset{id} {
      IdStep(i, last);
      assert i in dirty || i !in dirty;
    }
  }

  function Without(queue: seq<Block>, k: nat): (r: seq<Block>)
    requires k < |queue|
    ensures |r| == |queue| - 1
    ensures forall b :: b in r ==> b in queue
    ensures forall b :: b in queue && b != queue[k] ==> b in r
  {
    var r := queue[..k] + queue[k + 1..];
    assert forall b :: b in queue && b != queue[k] ==> b in queue[..k] || b in queue[k + 1..];
    r
  }

  lemma WithoutAppend(front: seq<Block>, queue: seq<Block>, k: nat)
    requires k < |queue|
    ensures front + Without(queue, k) == Without(front + queue, |front| + k)
    ensures Without(queue, k)[..k] == queue[..k] && Without(queue, k)[k..] == queue[k + 1..]
  {
  }

  lemma Distinct(blocks: map<nat, Block>, front: seq<Block>, queue: seq<Block>, k: nat)
    requires Agree(blocks, front + queue) && k < |queue|
    ensures forall j :: 0 <= j < |queue| && j != k ==> queue[j] != queue[k]
  {
    forall j | 0 <= j < |queue| && j != k ensures queue[j] != queue[k] {
      assert (front + queue)[|front| + j] != (front + queue)[|front| + k];
    }
  }

  lemma AgreeAt(blocks: map<nat, Block>, queue: seq<Block>, b: Block)
    requires Agree(blocks, queue) && b in queue
    ensures b.id != 0 && IsId(b.id) && b.id in blocks && blocks[b.id] == b
  {
  }

  lemma AgreeId(blocks: map<nat, Block>, queue: seq<Block>, id: nat)
    requires Agree(blocks, queue) && id in blocks
    ensures blocks[id].id == id && blocks[id] in queue && id != 0 && IsId(id)
  {
  }

  lemma AgreePush(blocks: map<nat, Block>, queue: seq<Block>, b: Block)
    requires Agree(blocks, queue) && b.id !in blocks && b.id != 0 && IsId(b.id)
    ensures Agree(blocks[b.id := b], [b] + queue)
  {
    var q := [b] + queue;
    forall id | id in blocks || id == b.id ensures blocks[b.id := b][id] in q {
      if id == b.id {
        assert q[0] == b;
      } else {
        var k :| 0 <= k < |queue| && queue[k] == blocks[id];
        assert q[k + 1] == blocks[id];
      }
    }
  }

  lemma AgreeDrop(blocks: map<nat, Block>, queue: seq<Block>, k: nat)
    requires Agree(blocks, queue) && k < |queue|
    ensures Agree(blocks - {queue[k].id}, Without(queue, k))
    ensures queue[k] !in Without(queue, k)
  {
    var q := Without(queue, k);
    forall b | b in queue && b != queue[k] ensures b.id != queue[k].id {
      AgreeAt(blocks, queue, b);
    }
  }

  lemma AgreeFront(blocks: map<nat, Block>, queue: seq<Block>, k: nat)
    requires Agree(blocks, queue) && k < |queue|
    ensures Agree(blocks, [queue[k]] + Without(queue, k)) && queue[k] !in Without(queue, k)
  {
    var b := queue[k];
    AgreeDrop(blocks, queue, k);
    AgreePush(blocks - {b.id}, Without(queue, k), b);
    assert (blocks - {b.id})[b.id := b] == blocks;
  }

  lemma AgreeHead(blocks: map<nat, Block>, b: Block, queue: seq<Block>)
    requires Agree(blocks, [b] + queue)
    ensures b !in queue && b.id in blocks && blocks[b.id] == b && b.id != 0 && IsId(b.id)
  {
    var q := [b] + queue;
    assert q[0] == b;
    forall k | 0 <= k < |queue| ensures queue[k] != b {
      assert q[k + 1] == queue[k];
    }
  }

  class BlockFile {
    const version: (nat, nat)
    /** The content of the file. */
    var disk: seq<Data>
    /** The root block, detached from the cache. */
    const root: Block
    /** The hash table and the queue of cached blocks, most recently used first. */
    var blocks: map<nat, Block>
    var cache: seq<Block>
    var count: int
    var limit: int
    /** The free blocks, in the order of the chain that runs through them. */
    ghost var free: seq<nat>

    constructor (disk: seq<Data>, version: (nat, nat), root: Block)
      requires root.id == 0
      ensures this.disk == disk && this.version == version && this.root == root
      ensures Valid() && Tidy() && cache == [] && limit == 256
      ensures blocks == map[] && free == []
    {
      this.disk, this.version, this.root := disk, version, root;
      blocks, cache, count, limit := map[], [], 1, 256;
      free := [];
    }

    /** What block `id` holds: the cached block, or else the file. */
    ghost function View(id: nat): Data
      reads this`disk, this`blocks, root`data, blocks.Values`data
    {
      if id == 0 then root.data else if id in blocks then blocks[id].data else DiskAt(disk, id)
    }

    /** Hash table and queue hold the same blocks; the count includes the detached root, and what
        `pending` is to go in front of the queue. */
    ghost predicate Indexed(pending: seq<Block>)
      reads this`blocks, this`cache, this`count
    {
      root.id == 0 && root !in pending && root !in cache && Agree(blocks, pending + cache) && count == |pending| + |cache| + 1
    }

    ghost predicate Valid()
      reads this`blocks, this`cache, this`count
    {
      Indexed([])
    }

    /** Block `b` is marked dirty, or is as it is in the file. */
    ghost predicate Settled(b: Block)
      reads this`disk, b`dirty, b`data
    {
      b.dirty || b.data == DiskAt(disk, b.id)
    }

    /** Nobody dropped a block he had changed without marking it dirty. */
    ghost predicate Tidy()
      reads this`disk, this`cache, cache`refcount, cache`dirty, cache`data
    {
      forall b: Block :: b in cache && b.refcount == 0 ==> Settled(b)
    }

    /** The cached block `id` is marked dirty. */
    ghost predicate DirtyAt(id: nat)
      reads this`blocks, blocks.Values`dirty
    {
      id in blocks && blocks[id].dirty
    }

    ghost function Dirty(): iset<nat>
      reads this`blocks, blocks.Values`dirty
    {
      iset id: nat | DirtyAt(id)
    }

    /** The file and the dirty blocks together reach exactly as far as the root block says. */
    ghost predicate Covered()
      reads this`disk, this`blocks, root`data, blocks.Values`dirty
    {
      Reaches(Size(disk), RootLast(root.data), Dirty())
    }

    /** The root block as it is in the file. */
    ghost function RootOnDisk(): Data
      reads this`disk
    {
      DiskAt(disk, 0)
    }

    /** When the file says that it was shut down cleanly, no cached block is dirty. */
    ghost predicate Honest()
      reads this`disk, this`blocks, root`data, blocks.Values`dirty
    {
      RootSync(RootOnDisk()) ==> RootSync(root.data) && forall id: nat :: !DirtyAt(id)
    }

    /** sync_block_nolock. */
    method SyncBlockNolock(b: Block, ghost queue: seq<Block>, io: Io) returns (ok: bool)
      requires root.id == 0 && root !in queue && Agree(blocks, queue) && (b == root || b in queue)
      modifies this`disk, b`dirty
      ensures ok == (!old(b.dirty) || io.write(b.id))
      ensures b.dirty == (old(b.dirty) && !ok)
      ensures disk == if old(b.dirty) && ok then WriteAt(old(disk), b.id, b.data) else old(disk)
      ensures IsId(b.id) && forall id :: IsId(id) ==>
        DiskAt(disk, id) == (if old(b.dirty) && ok && id == b.id then b.data else old(DiskAt(disk, id)))
      ensures forall id :: IsId(id) ==> View(id) == old(View(id))
      ensures forall id: nat :: DirtyAt(id) == (old(DirtyAt(id)) && (id == b.id ==> !ok))
      ensures old(Covered()) ==> Covered()
    {
      hide DiskAt, WriteAt, Agree, Reaches, RootLast, Size;
      ghost var size, dirty := Size(disk), Dirty();
      if b != root { AgreeAt(blocks, queue, b); }
      if 0 in blocks { AgreeId(blocks, queue, 0); }
      if b.dirty {
        if !io.write(b.id) { return false; }
        if Covered() { ReachesRoom(size, RootLast(root.data), dirty, b.id); }
        disk := WriteAt(disk, b.id, b.data);
        b.dirty := false;
        forall id | IsId(id) ensures DiskAt(disk, id) == if id == b.id then b.data else old(DiskAt(disk, id)) {
          WriteRead(old(disk), b.id, b.data, id);
        }
        WriteRead(old(disk), b.id, b.data, 0);
        forall id ensures DirtyAt(id) == (id != b.id && old(DirtyAt(id))) {
          if id in blocks { AgreeId(blocks, queue, id); }
        }
        if old(Covered()) { ReachesStill(size, RootLast(root.data), dirty, Size(disk), Dirty()); }
      }
      return true;
    }

    /** Take the block at `k`, which is as it is in the file, out of the table and the queue. */
    method Drop(k: nat, flush: Block, ghost pending: seq<Block>)
      requires Indexed(pending) && Tidy() && k < |cache| && flush == cache[k]
      requires flush.data == DiskAt(disk, flush.id) && !flush.dirty
      modifies this`blocks, this`cache, this`count
      ensures Indexed(pending) && Tidy()
      ensures cache == Without(old(cache), k) && flush !in cache && count == old(count) - 1
      ensures forall id :: View(id) == old(View(id))
      ensures old(Covered()) ==> Covered()
      ensures RootOnDisk() == old(RootOnDisk()) && (old(Honest()) ==> Honest())
    {
      hide Reaches, Agree, DiskAt, IsId, Without;
      ghost var queue := pending + cache;
      assert queue[|pending| + k] == flush;
      AgreeAt(blocks, queue, flush);
      AgreeDrop(blocks, queue, |pending| + k);
      WithoutAppend(pending, cache, k);
      blocks := blocks - {flush.id};
      cache := Without(cache, k);
      count := count - 1;
      assert forall id: nat :: DirtyAt(id) == old(DirtyAt(id));
      assert Dirty() == old(Dirty());
    }

    /** One step of the eviction loop: write the block at `k` out and drop it, unless it is in use
        or cannot be written. */
    method Flush(k: nat, flush: Block, ghost pending: seq<Block>, io: Io) returns (gone: bool)
      requires Indexed(pending) && Tidy() && k < |cache| && flush == cache[k]
      modifies this`disk, this`blocks, this`cache, this`count, flush`dirty
      ensures Indexed(pending) && Tidy()
      ensures gone == (flush.refcount == 0 && (!old(flush.dirty) || io.write(flush.id)))
      ensures gone ==> cache == Without(old(cache), k) && flush !in cache
      ensures !gone ==> cache == old(cache) && flush.dirty == old(flush.dirty) && disk == old(disk)
      ensures count == old(count) - if gone then 1 else 0
      ensures forall id :: IsId(id) ==> View(id) == old(View(id))
      ensures old(Covered()) ==> Covered()
      ensures RootOnDisk() == old(RootOnDisk()) && (old(Honest()) ==> Honest())
    {
      hide Covered, Agree, DiskAt, WriteAt, IsId, Without;
      assert flush in pending + cache by { assert (pending + cache)[|pending| + k] == flush; }
      AgreeAt(blocks, pending + cache, flush);
      gone := flush.refcount == 0;
      if gone {
        gone := SyncBlockNolock(flush, pending + cache, io);
        ZeroId();
        forall b: Block | b in cache && b.refcount == 0 ensures Settled(b) {
          assert b in pending + cache;
          AgreeAt(blocks, pending + cache, b);
        }
        if gone {
          Drop(k, flush, pending);
        }
      }
    }

    /** A block the eviction cannot drop: in use, or changed and not writable. */
    ghost predicate Stuck(b: Block, io: Io)
      reads b`dirty, b`refcount
    {
      b.refcount != 0 || (b.dirty && !io.write(b.id))
    }

    /** What an eviction leaves of a queue: the first `kept` blocks, and of the others only those it
        cannot drop. */
    ghost predicate Evicted(now: seq<Block>, before: seq<Block>, kept: nat, io: Io)
      reads now`dirty, now`refcount
    {
      && kept <= |now| && kept <= |before| && now[..kept] == before[..kept]
      && forall j :: kept <= j < |now| ==> now[j] in before && Stuck(now[j], io)
    }

    /** The flush loop of camel_block_file_get_block: from the least recently used block on, until
        the count is within the limit. It stops at `kept`: the blocks used more recently stay, and
        of the others only those it cannot drop. */
    method Evict(ghost pending: seq<Block>, io: Io) returns (ghost kept: nat)
      requires Indexed(pending) && Tidy()
      modifies this`disk, this`blocks, this`cache, this`count, cache`dirty
      ensures Indexed(pending) && Tidy()
      ensures forall id :: IsId(id) ==> View(id) == old(View(id))
      ensures forall b: Block :: b in cache ==> b in old(cache)
      ensures forall b: Block :: b in old(cache) && b !in cache ==> b.refcount == 0
      ensures Evicted(cache, old(cache), kept, io)
      ensures kept == 0 || count <= limit
      ensures if old(count) <= limit then cache == old(cache) && disk == old(disk) else count >= limit
      ensures old(Covered()) ==> Covered()
      ensures RootOnDisk() == old(RootOnDisk()) && (old(Honest()) ==> Honest())
    {
      hide Covered, Agree, IsId, Without, DiskAt;
      kept := |cache|;
      var k := |cache|;
      while k > 0 && count > limit
        invariant 0 <= k <= |cache| && k <= |old(cache)| && Indexed(pending) && Tidy()
        invariant forall id :: IsId(id) ==> View(id) == old(View(id))
        invariant cache[..k] == old(cache)[..k]
        invariant forall j :: k <= j < |cache| ==> cache[j] in old(cache) && Stuck(cache[j], io)
        invariant forall b: Block :: b in cache ==> b in old(cache)
        invariant forall b: Block :: b in old(cache) && b !in cache ==> b.refcount == 0
        invariant if old(count) <= limit then cache == old(cache) && disk == old(disk) else count >= limit
        invariant old(Covered()) ==> Covered()
        invariant RootOnDisk() == old(RootOnDisk()) && (old(Honest()) ==> Honest())
      {
        k := k - 1;
        ghost var before := cache;
        var flush := cache[k];
        Distinct(blocks, pending, cache, k);
        WithoutAppend(pending, cache, k);
        var gone := Flush(k, flush, pending, io);
        forall j | k <= j < |cache| ensures cache[j] in old(cache) && Stuck(cache[j], io) {
          if gone { assert cache[j] == cache[k..][j - k] == before[k + 1..][j - k]; }
        }
      }
      kept := k;
    }

    /** A block read from the file goes into the table; it is not in the queue yet. */
    method Insert(id: nat) returns (bl: Block)
      requires Valid() && Tidy() && id != 0 && IsId(id) && id !in blocks
      modifies this`blocks, this`count
      ensures Indexed([bl]) && Tidy() && fresh(bl)
      ensures bl.id == id && bl.data == old(View(id)) && bl.refcount == 0 && !bl.dirty
      ensures blocks == old(blocks)[id := bl] && count == old(count) + 1
      ensures forall i :: View(i) == old(View(i))
      ensures old(Covered()) ==> Covered()
      ensures RootOnDisk() == old(RootOnDisk()) && (old(Honest()) ==> Honest())
    {
      hide Reaches, Agree, IsId, DiskAt;
      bl := new Block(id, DiskAt(disk, id));
      assert [] + cache == cache;
      AgreePush(blocks, cache, bl);
      blocks := blocks[id := bl];
      count := count + 1;
      assert forall id: nat :: DirtyAt(id) == old(DirtyAt(id));
      assert Dirty() == old(Dirty());
    }

    /** The part of camel_block_file_get_block that reads the block, and flushes old ones. */
    method Miss(id: nat, io: Io) returns (bl: Block, ghost kept: nat)
      requires Valid() && Tidy() && id != 0 && IsId(id) && id !in blocks
      modifies this`disk, this`blocks, this`cache, this`count, cache`dirty
      ensures Indexed([bl]) && Tidy() && (old(Covered()) ==> Covered())
      ensures RootOnDisk() == old(RootOnDisk()) && (old(Honest()) ==> Honest())
      ensures fresh(bl) && bl.id == id && bl.data == old(View(id)) && bl.refcount == 0 && bl !in cache
      ensures Evicted(cache, old(cache), kept, io) && (kept == 0 || |cache| + 2 <= limit)
      ensures forall b: Block :: b in cache ==> b in old(cache)
      ensures forall b: Block :: b in old(cache) && b !in cache ==> b.refcount == 0
      ensures forall i :: IsId(i) ==> View(i) == old(View(i))
    {
      hide Covered, Agree, IsId, DiskAt, Evicted;
      bl := Insert(id);
      kept := Evict([bl], io);
    }

    /** A cached block leaves the queue, but not the table. */
    method Unlink(bl: Block) returns (ghost at: nat)
      requires Valid() && Tidy() && bl in cache
      modifies this`cache
      ensures Indexed([bl]) && Tidy()
      ensures at < |old(cache)| && old(cache)[at] == bl && cache == Without(old(cache), at) && |cache| == |old(cache)| - 1
      ensures bl !in cache
    {
      hide Agree, IsId, Without, DiskAt;
      var k :| 0 <= k < |cache| && cache[k] == bl;
      assert [] + cache == cache;
      AgreeFront(blocks, cache, k);
      cache := Without(cache, k);
      at := k;
    }

    /** The block goes to the front of the queue, with one more reference. */
    method PushFront(bl: Block)
      requires Indexed([bl]) && Tidy()
      modifies this`cache, bl`refcount
      ensures Valid() && Tidy()
      ensures cache == [bl] + old(cache) && bl !in old(cache) && bl.id in blocks && blocks[bl.id] == bl
      ensures bl.refcount == old(bl.refcount) + 1
    {
      hide Agree, IsId, DiskAt;
      AgreeHead(blocks, bl, cache);
      cache := [bl] + cache;
      bl.refcount := bl.refcount + 1;
      assert [] + cache == cache;
    }

    /** Whether camel_block_file_get_block can deliver block `id`. */
    ghost predicate Gettable(id: nat, io: Io)
      reads this`blocks, root`data
    {
      id != 0 && IsId(id) && id <= RootLast(root.data) && (id in blocks || (io.open && io.read))
    }

    /** camel_block_file_get_block, once there is a root block: `kept` is where a hit was in the
        queue, or what a miss kept of it. What any block holds does not
        change, whatever is written out or fails to be; a block in use stays in the cache; and after
        a miss the cache is within its limit or holds, of the old blocks, only such as it cannot
        drop. */
    method GetBlock(id: nat, io: Io) returns (bl: Block?, ghost kept: nat)
      requires Valid() && Tidy()
      modifies this`disk, this`blocks, this`cache, this`count, cache`dirty, cache`refcount
      ensures Valid() && Tidy() && (old(Covered()) ==> Covered())
      ensures (bl != null) == old(Gettable(id, io))
      ensures bl == null ==> disk == old(disk) && blocks == old(blocks) && cache == old(cache)
      ensures bl != null ==>
        bl.id == id && id in blocks && blocks[id] == bl && |cache| > 0 && cache[0] == bl && bl.data == old(View(id))
      ensures bl != null ==> if id in old(blocks)
        then bl == old(blocks[id]) && bl.refcount == old(blocks[id].refcount) + 1 && kept < |old(cache)|
          && bl == old(cache)[kept] && cache[1..] == Without(old(cache), kept)
        else fresh(bl) && bl.refcount == 1 && Evicted(cache[1..], old(cache), kept, io) && (kept == 0 || count <= limit)
      ensures forall b: Block :: b in old(cache) && b != bl ==> b.refcount == old(b.refcount)
      ensures forall b: Block :: b in old(cache) && b !in cache ==> old(b.refcount) == 0
      ensures forall i :: IsId(i) ==> View(i) == old(View(i))
      ensures RootOnDisk() == old(RootOnDisk()) && (old(Honest()) ==> Honest())
    {
      hide Covered, Agree, IsId, DiskAt, Evicted;
      kept := 0;
      IdIs(id);
      if id > RootLast(root.data) || id == 0 || id % BLOCK_SIZE != 0 { return null, 0; }
      assert [] + cache == cache;
      if id in blocks {
        bl := blocks[id];
        assert bl in cache && bl.id == id by { AgreeId(blocks, cache, id); }
        kept := Unlink(bl);
      } else {
        if !io.open || !io.read { return null, 0; }
        bl, kept := Miss(id, io);
      }
      ghost var rest := cache;
      PushFront(bl);
      assert cache[1..] == rest;
    }
  }
}
