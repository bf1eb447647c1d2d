/** camel-block-file.c: a file to which lists of keys are only ever appended, each with the offset of
    the list it continues. */
module KeyFile {
  const WORD: nat := 0x1_0000_0000
  const HEADER: nat := 8
  /** The longest list that is read back. */
  const MOST: nat := 1024

  type Byte = b: nat | b < 0x100
  type Key = k: nat | k < 0x1_0000_0000

  // ---------------------------------------------------------------- words in a file of bytes

  function Bytes(w: Key): (s: seq<Byte>)
    ensures |s| == 4
  {
    [Low(w), Low(w / 0x100), Low(w / 0x100 / 0x100), Low(w / 0x100 / 0x100 / 0x100)]
  }

  function Low(w: nat): (b: Byte)
    ensures b == w % 0x100
  {
    w % 0x100
  }

  function Word(s: seq<Byte>): Key
    requires |s| == 4
  {
    (s[0] as nat) + (s[1] as nat) * 0x100 + (s[2] as nat) * 0x1_0000 + (s[3] as nat) * 0x100_0000
  }

  lemma WordBytes(w: Key)
    ensures Word(Bytes(w)) == w
  {
    var a, b, c := w / 0x100, w / 0x100 / 0x100, w / 0x100 / 0x100 / 0x100;
    assert w == a * 0x100 + Low(w) && a == b * 0x100 + Low(a) && b == c * 0x100 + Low(b) && c < 0x100;
  }

  function AllBytes(ws: seq<Key>): (s: seq<Byte>)
    ensures |s| == 4 * |ws|
  {
    if ws == [] then [] else Bytes(ws[0]) + AllBytes(ws[1..])
  }

  /** fread of `n` words; there must be that many. */
  function Words(s: seq<Byte>, at: nat, n: nat): (ws: seq<Key>)
    requires at + 4 * n <= |s|
    ensures |ws| == n
    decreases n
  {
    if n == 0 then [] else [Word(s[at..at + 4])] + Words(s, at + 4, n - 1)
  }

  lemma {:induction false} WordsAllBytes(ws: seq<Key>, before: seq<Byte>, after: seq<Byte>)
    ensures Words(before + AllBytes(ws) + after, |before|, |ws|) == ws
    decreases |ws|
  {
    if ws != [] {
      var s := before + AllBytes(ws) + after;
      var front := before + Bytes(ws[0]);
      assert s == front + AllBytes(ws[1..]) + after;
      assert s[|before|..|before| + 4] == Bytes(ws[0]);
      WordBytes(ws[0]);
      WordsAllBytes(ws[1..], front, after);
      assert |front| == |before| + 4;
    }
  }

  lemma AllBytesTwo(v: Key, w: Key)
    ensures AllBytes([v, w]) == AllBytes([v]) + AllBytes([w])
  {
    assert [v, w][1..] == [w] && [v][1..] == [];
  }

  // ---------------------------------------------------------------- what has been written

  datatype Batch = Batch(parent: Key, keys: seq<Key>)

  /** The lists written so far, by offset. */
  type Log = map<nat, Batch>

  /** Each list continues an older one, or none. */
  predicate Linked(log: Log) {
    forall off :: off in log ==> off > 0 && (log[off].parent == 0 || (log[off].parent in log && log[off].parent < off))
  }

  predicate IsHead(log: Log, off: nat) {
    off == 0 || off in log
  }

  /** The chain that begins at `off`, the list written last first. */
  function Chain(log: Log, off: nat): (c: seq<seq<Key>>)
    requires Linked(log) && IsHead(log, off)
    ensures c == [] <==> off == 0
    decreases off
  {
    if off == 0 then [] else [log[off].keys] + Chain(log, log[off].parent)
  }

  /** A list more becomes the head of a longer chain, and does not change the other chains. */
  lemma {:induction false} ChainKept(log: Log, next: nat, b: Batch, off: nat)
    requires Linked(log) && IsHead(log, b.parent) && b.parent < next && next !in log && IsHead(log, off)
    ensures Linked(log[next := b]) && IsHead(log[next := b], off)
    ensures Chain(log[next := b], off) == Chain(log, off)
    decreases off
  {
    if off != 0 {
      ChainKept(log, next, b, log[off].parent);
    }
  }

  lemma ChainLonger(log: Log, next: nat, b: Batch)
    requires Linked(log) && IsHead(log, b.parent) && b.parent < next && next !in log
    ensures Linked(log[next := b]) && Chain(log[next := b], next) == [b.keys] + Chain(log, b.parent)
  {
    ChainKept(log, next, b, b.parent);
  }

  predicate Readable(chain: seq<seq<Key>>) {
    forall i :: 0 <= i < |chain| ==> |chain[i]| <= MOST
  }

  // ---------------------------------------------------------------- the file

  datatype Result = Failed | Done(next: Key, keys: seq<Key>)

  /** camel_key_file_read at an offset that is not 0. */
  function ReadAt(s: seq<Byte>, pos: nat, wanted: bool): Result {
    if pos + 8 > |s| then Failed
    else
      var size := Words(s, pos + 4, 1)[0];
      if size > MOST then Failed
      else if !wanted then Done(Words(s, pos, 1)[0], [])
      else if pos + 8 + 4 * size > |s| then Failed
      else Done(Words(s, pos, 1)[0], Words(s, pos + 8, size))
  }

  /** The bytes of one list. */
  function Encode(b: Batch): seq<Byte>
    requires |b.keys| < WORD
  {
    AllBytes([b.parent, |b.keys|]) + AllBytes(b.keys)
  }

  lemma EncodeLong(b: Batch)
    requires |b.keys| < WORD
    ensures Encode(b) == AllBytes([b.parent, |b.keys|]) + AllBytes(b.keys) && |Encode(b)| >= 8
  {
  }

  /** A list is read back, whatever was written before and after, exactly if it is not too long. */
  lemma ReadEncode(before: seq<Byte>, b: Batch, after: seq<Byte>, wanted: bool)
    requires |b.keys| < WORD
    ensures ReadAt(before + Encode(b) + after, |before|, wanted) ==
      if |b.keys| > MOST then Failed else Done(b.parent, if wanted then b.keys else [])
  {
    hide Words, AllBytes;
    var s := before + Encode(b) + after;
    var size: Key := |b.keys|;
    WordsAllBytes([b.parent], before, AllBytes([size]) + AllBytes(b.keys) + after);
    WordsAllBytes([size], before + AllBytes([b.parent]), AllBytes(b.keys) + after);
    WordsAllBytes(b.keys, before + AllBytes([b.parent]) + AllBytes([size]), after);
    AllBytesTwo(b.parent, size);
    assert s == before + AllBytes([b.parent]) + (AllBytes([size]) + AllBytes(b.keys) + after);
    assert s == (before + AllBytes([b.parent])) + AllBytes([size]) + (AllBytes(b.keys) + after);
    assert s == (before + AllBytes([b.parent]) + AllBytes([size])) + AllBytes(b.keys) + after;
  }

  /** A list of 1025 keys can be written and not be read back. */
  lemma OneTooMany(parent: Key)
    ensures var b := Batch(parent, seq(1025, _ => 7)); ReadAt(Encode(b), 0, true) == Failed
  {
    hide Encode, ReadAt;
    var b := Batch(parent, seq(1025, _ => 7));
    ReadEncode([], b, [], true);
    assert [] + Encode(b) + [] == Encode(b);
  }

  class KeyFile {
    var bytes: seq<Byte>
    var last: nat
    ghost var log: Log

    /** What the file holds at `off`. */
    ghost predicate Holds(off: nat)
      requires off in log
      reads this
    {
      && |log[off].keys| < WORD
      && off + |Encode(log[off])| <= |bytes|
      && bytes[off..off + |Encode(log[off])|] == Encode(log[off])
    }

    ghost predicate Valid()
      reads this
    {
      last == |bytes| > 0 && Linked(log) && forall off {:trigger Holds(off)} :: off in log ==> Holds(off)
    }

    /** camel_key_file_new, on a file that is empty or was written before. */
    constructor (bytes: seq<Byte>, version: seq<Byte>)
      requires |version| == HEADER
      ensures Valid() && log == map[] && this.bytes == if bytes == [] then version else bytes
    {
      this.bytes := if bytes == [] then version else bytes;
      last := if bytes == [] then HEADER else |bytes|;
      log := map[];
    }

    /** camel_key_file_write, when the file opens and the offset of the new list fits a word. */
    method Write(parent: Key, keys: seq<Key>, opens: bool) returns (ret: int, head: Key)
      requires Valid() && IsHead(log, parent) && |keys| < WORD && last < WORD
      modifies this
      ensures Valid() && old(bytes) <= bytes
      ensures ret == if keys == [] then 0 else if !opens then -1 else |keys|
      ensures ret <= 0 ==> head == parent && bytes == old(bytes) && log == old(log)
      ensures ret > 0 ==> head == old(last) && head !in old(log) && log == old(log)[head := Batch(parent, keys)]
      ensures ret > 0 ==> Chain(log, head) == [keys] + old(Chain(log, parent))
      ensures forall off: nat :: old(IsHead(log, off)) ==> IsHead(log, off) && Chain(log, off) == old(Chain(log, off))
    {
      hide AllBytes, Chain, Linked, Encode;
      head := parent;
      if |keys| == 0 { return 0, head; }
      if !opens { return -1, head; }
      var size: Key := |keys|;
      var next: Key := last;
      ghost var b := Batch(parent, keys);
      forall off | off in log ensures off < next {
        assert Holds(off);
        EncodeLong(log[off]);
      }
      ChainLonger(log, next, b);
      forall off: nat | IsHead(log, off) ensures IsHead(log[next := b], off) && Chain(log[next := b], off) == Chain(log, off) {
        ChainKept(log, next, b, off);
      }
      EncodeLong(b);
      Add(AllBytes([parent, size]) + AllBytes(keys), b);
      head := next;
      ret := |keys|;
    }

    /** The bytes of a list at the end of the file. */
    method Add(more: seq<Byte>, ghost b: Batch)
      requires Valid() && last !in log && |b.keys| < WORD && more == Encode(b) && Linked(log[last := b])
      modifies this
      ensures Valid() && bytes == old(bytes) + more && log == old(log)[old(last) := b]
    {
      hide AllBytes, Linked, Encode;
      var next := last;
      bytes := bytes + more;
      log := log[next := b];
      last := |bytes|;
      forall off | off in log ensures Holds(off) {
        if off != next { assert old(Holds(off)); }
      }
    }

    /** camel_key_file_read, when the file opens. A list that was written is read back exactly if it
        has at most 1024 keys. */
    method Read(start: Key, wanted: bool, opens: bool) returns (ret: int, next: Key, keys: seq<Key>)
      requires Valid()
      ensures start == 0 ==> ret == 0 && next == 0 && keys == []
      ensures start in log ==> ret == if opens && |log[start].keys| <= MOST then 0 else -1
      ensures start in log && ret == 0 ==> next == log[start].parent < start && (wanted ==> keys == log[start].keys)
      ensures ret != 0 ==> next == start && keys == []
    {
      ret, next, keys := -1, start, [];
      if start == 0 { return 0, 0, []; }
      if !opens { return; }
      if start in log {
        assert Holds(start);
        var end := start + |Encode(log[start])|;
        ReadEncode(bytes[..start], log[start], bytes[end..], wanted);
        assert bytes == bytes[..start] + Encode(log[start]) + bytes[end..];
      }
      match ReadAt(bytes, start, wanted)
      case Failed =>
      case Done(n, ks) =>
        ret, next, keys := 0, n, ks;
    }

    /** Following a chain from its head gives its lists, the newest first, and comes to its end. */
    method ReadChain(start: Key) returns (lists: seq<seq<Key>>, ok: bool)
      requires Valid() && IsHead(log, start)
      ensures ok == Readable(Chain(log, start))
      ensures ok ==> lists == Chain(log, start)
    {
      lists := [];
      var off := start;
      while off != 0
        invariant IsHead(log, off) && Chain(log, start) == lists + Chain(log, off) && Readable(lists)
        decreases off
      {
        var ret, next, keys := Read(off, true, true);
        if ret != 0 {
          assert !Readable(Chain(log, start)) by {
            assert Chain(log, start)[|lists|] == log[off].keys;
          }
          return lists, false;
        }
        lists := lists + [keys];
        off := next;
      }
      ok := true;
    }
  }
}
