/** The file under a block file: whole blocks of 1024 bytes, seen as 256 words of 32 bits.

    A read past the end finds zeros, as the block it goes into is allocated zeroed; a write past the
    end fills the gap with zeros. */
module BlockDisk {
  const BLOCK_SIZE: nat := 1024
  const WORDS: nat := 256
  const WORD: nat := 0x1_0000_0000

  type Data = d: seq<nat> | |d| == 256 && forall i :: 0 <= i < 256 ==> d[i] < 0x1_0000_0000 witness seq(256, _ => 0)

  function Zero(): Data {
    seq(WORDS, _ => 0)
  }

  /** A block id is the offset of the block. */
  predicate IsId(id: nat) {
    id % BLOCK_SIZE == 0
  }

  function DiskAt(disk: seq<Data>, id: nat): Data {
    if id / BLOCK_SIZE < |disk| then disk[id / BLOCK_SIZE] else Zero()
  }

  function WriteAt(disk: seq<Data>, id: nat, d: Data): seq<Data> {
    var i := id / BLOCK_SIZE;
    if i < |disk| then disk[i := d] else disk + seq(i - |disk|, _ => Zero()) + [d]
  }

  function Size(disk: seq<Data>): nat {
    |disk| * BLOCK_SIZE
  }

  lemma IdStep(id: nat, last: nat)
    requires IsId(id) && IsId(last)
    ensures IsId(last + BLOCK_SIZE)
    ensures id < last + BLOCK_SIZE <==> id <= last
    ensures id < last <==> id + BLOCK_SIZE <= last
  {
  }

  lemma IdIs(id: nat)
    ensures IsId(id) <==> id % BLOCK_SIZE == 0
  {
  }

  lemma ZeroId()
    ensures IsId(0)
  {
  }

  lemma SizeId(disk: seq<Data>)
    ensures IsId(Size(disk))
  {
  }

  /** A write is read back, and nothing else changes. */
  lemma WriteRead(disk: seq<Data>, id: nat, d: Data, j: nat)
    requires IsId(id) && IsId(j)
    ensures DiskAt(WriteAt(disk, id, d), j) == if j == id then d else DiskAt(disk, j)
    ensures Size(WriteAt(disk, id, d)) == if id + BLOCK_SIZE > Size(disk) then id + BLOCK_SIZE else Size(disk)
  {
    var i := id / BLOCK_SIZE;
    if i >= |disk| {
      var g := disk + seq(i - |disk|, _ => Zero());
      assert |g| == i && WriteAt(disk, id, d) == g + [d];
    }
  }

  // ---------------------------------------------------------------- the root block

  function RootSync(d: Data): bool { d[2] % 2 == 1 }
  function RootBlockSize(d: Data): nat { d[3] }
  function RootFree(d: Data): nat { d[4] }
  function RootLast(d: Data): nat { d[5] }

  function SetSync(d: Data, on: bool): Data {
    d[2 := d[2] - d[2] % 2 + if on then 1 else 0]
  }

  function SetFree(d: Data, id: nat): Data
    requires id < WORD
  {
    d[4 := id]
  }

  function SetLast(d: Data, id: nat): Data
    requires id < WORD
  {
    d[5 := id]
  }

  /** The version string is two words. */
  function RootVersion(d: Data): (nat, nat) { (d[0], d[1]) }

  /** block_file_validate_root, with the size of the file. */
  predicate ValidateRoot(d: Data, version: (nat, nat), size: nat) {
    && RootLast(d) != 0
    && RootVersion(d) == version
    && RootBlockSize(d) == BLOCK_SIZE
    && RootFree(d) % BLOCK_SIZE == 0
    && RootLast(d) % BLOCK_SIZE == 0
    && size == RootLast(d)
    && RootFree(d) <= size
    && RootSync(d)
  }

  /** block_file_init_root. */
  function InitRoot(version: (nat, nat)): Data
    requires version.0 < WORD && version.1 < WORD
  {
    Zero()[0 := version.0][1 := version.1][2 := 1][3 := BLOCK_SIZE][5 := BLOCK_SIZE]
  }
}
