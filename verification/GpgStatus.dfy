/** camel-gpg-context.c: the status stream of gpg comes in pieces, goes into a buffer that grows, and
    is taken out of it line by line. */
module GpgStatus {
  type Byte = b: nat | b < 0x100
  type Line = seq<Byte>

  const NEWLINE: Byte := 10

  // ---------------------------------------------------------------- the lines of a stream

  /** The place of the first newline, or the length. */
  function Newline(s: seq<Byte>): (i: nat)
    ensures i <= |s| && NEWLINE !in s[..i] && (i < |s| ==> s[i] == NEWLINE)
  {
    if s == [] || s[0] == NEWLINE then 0
    else
      var i := 1 + Newline(s[1..]);
      assert s[..i] == [s[0]] + s[1..][..i - 1];
      i
  }

  /** The lines that end with a newline. */
  function Lines(s: seq<Byte>): seq<Line>
    decreases |s|
  {
    var i := Newline(s);
    if i == |s| then [] else [s[..i]] + Lines(s[i + 1..])
  }

  /** What comes after the last newline. */
  function Rest(s: seq<Byte>): seq<Byte>
    decreases |s|
  {
    var i := Newline(s);
    if i == |s| then s else Rest(s[i + 1..])
  }

  /** Lines with their newlines. */
  function Join(lines: seq<Line>): seq<Byte>
    decreases |lines|
  {
    if lines == [] then [] else lines[0] + [NEWLINE] + Join(lines[1..])
  }

  lemma NewlineAt(s: seq<Byte>, i: nat)
    requires i < |s| && s[i] == NEWLINE && NEWLINE !in s[..i]
    ensures Newline(s) == i
  {
    var j := Newline(s);
    forall k | 0 <= k < i ensures s[k] != NEWLINE { assert s[..i][k] == s[k]; }
    forall k | 0 <= k < j ensures s[k] != NEWLINE { assert s[..j][k] == s[k]; }
  }

  /** The first line of a stream that starts with one. */
  lemma LinesFirst(s: seq<Byte>, l: Line, t: seq<Byte>)
    requires s == l + [NEWLINE] + t && NEWLINE !in l
    ensures Lines(s) == [l] + Lines(t) && Rest(s) == Rest(t)
  {
    assert s[..|l|] == l && s[|l|] == NEWLINE && s[|l| + 1..] == t;
    NewlineAt(s, |l|);
  }

  /** A stream starts with a line, or has none. */
  lemma LinesCases(s: seq<Byte>) returns (l: Line, t: seq<Byte>)
    ensures if NEWLINE in s then s == l + [NEWLINE] + t && NEWLINE !in l else Lines(s) == [] && Rest(s) == s
  {
    var i := Newline(s);
    assert s[..|s|] == s;
    if i < |s| {
      l, t := s[..i], s[i + 1..];
    } else {
      l, t := [], [];
    }
  }

  lemma JoinNone(s: seq<Byte>)
    ensures Join([]) + s == s
  {
  }

  lemma JoinFirst(l: Line, lines: seq<Line>)
    ensures Join([l] + lines) == l + [NEWLINE] + Join(lines)
  {
    assert ([l] + lines)[1..] == lines;
  }

  /** Lines and rest are the one way to cut the stream at its newlines. */
  lemma {:induction false} LinesUnique(lines: seq<Line>, rest: seq<Byte>)
    requires (forall l :: l in lines ==> NEWLINE !in l) && NEWLINE !in rest
    ensures Lines(Join(lines) + rest) == lines && Rest(Join(lines) + rest) == rest
    decreases |lines|
  {
    hide Lines, Rest, Join;
    var s := Join(lines) + rest;
    if lines == [] {
      JoinNone(rest);
      var l, t := LinesCases(s);
    } else {
      assert lines == [lines[0]] + lines[1..] && lines[0] in lines;
      JoinFirst(lines[0], lines[1..]);
      LinesUnique(lines[1..], rest);
      assert s == lines[0] + [NEWLINE] + (Join(lines[1..]) + rest);
      LinesFirst(s, lines[0], Join(lines[1..]) + rest);
    }
  }

  lemma {:induction false} LinesJoin(s: seq<Byte>)
    ensures Join(Lines(s)) + Rest(s) == s
    ensures (forall l :: l in Lines(s) ==> NEWLINE !in l) && NEWLINE !in Rest(s)
    decreases |s|
  {
    hide Lines, Rest, Join;
    var l, t := LinesCases(s);
    if NEWLINE in s {
      LinesFirst(s, l, t);
      LinesJoin(t);
      JoinFirst(l, Lines(t));
      assert l + [NEWLINE] + Join(Lines(t)) + Rest(t) == l + [NEWLINE] + (Join(Lines(t)) + Rest(t));
    } else {
      JoinNone(s);
    }
  }

  /** The lines of a longer stream begin with the same lines. */
  lemma {:induction false} LinesAppend(s: seq<Byte>, t: seq<Byte>)
    ensures Lines(s + t) == Lines(s) + Lines(Rest(s) + t)
    ensures Rest(s + t) == Rest(Rest(s) + t)
    decreases |s|
  {
    hide Lines, Rest;
    var l, u := LinesCases(s);
    if NEWLINE in s {
      LinesFirst(s, l, u);
      LinesAppend(u, t);
      assert s + t == l + [NEWLINE] + (u + t);
      LinesFirst(s + t, l, u + t);
    }
  }

  // ---------------------------------------------------------------- handling lines

  /** Whether a line can be handled, after those handled before. */
  type Handler = (seq<Line>, Line) -> bool

  /** How many of the lines are handled, up to the first that cannot be. */
  function Good(ok: Handler, done: seq<Line>, lines: seq<Line>): (n: nat)
    ensures n <= |lines|
    decreases |lines|
  {
    if lines == [] || !ok(done, lines[0]) then 0 else 1 + Good(ok, done + [lines[0]], lines[1..])
  }

  lemma {:induction false} GoodAppend(ok: Handler, done: seq<Line>, a: seq<Line>, b: seq<Line>)
    ensures Good(ok, done, a + b) == if Good(ok, done, a) < |a| then Good(ok, done, a) else |a| + Good(ok, done + a, b)
    decreases |a|
  {
    if a == [] {
      assert a + b == b && done + a == done;
    } else {
      assert (a + b)[0] == a[0] && (a + b)[1..] == a[1..] + b;
      assert done + [a[0]] + a[1..] == done + a;
      GoodAppend(ok, done + [a[0]], a[1..], b);
    }
  }

  // ---------------------------------------------------------------- the buffer

  const LIMIT: nat := 0x8000_0000

  class Status {
    var buf: array<Byte>
    /** statusptr, as an offset into the buffer. */
    var fill: nat
    var left: nat
    /** The lines that were handled; what handling one more does may depend on them. */
    var done: seq<Line>

    ghost predicate Valid()
      reads this
    {
      fill + left <= buf.Length
    }

    /** The bytes not handled yet. */
    ghost function Content(): seq<Byte>
      requires Valid()
      reads this, buf
    {
      buf[..fill]
    }

    constructor ()
      ensures Valid() && fresh(buf) && Content() == [] && left == 128 && done == []
    {
      buf := new Byte[128](_ => 0);
      fill, left, done := 0, 128, [];
    }

    /** The buffer is made larger, by doubling, when more is to come than is free or just as much. */
    method Grow(len: nat)
      requires Valid() && left <= len && fill + len <= LIMIT
      modifies this
      ensures Valid() && fresh(buf) && fill == old(fill) && done == old(done) && Content() == old(Content())
      ensures len <= left && old(fill + left) <= fill + left < buf.Length && fill + left <= 2 * LIMIT
    {
      var size := if fill == 0 then 1 else fill;
      while size < fill + len
        invariant 0 < size < 2 * LIMIT && fill <= size
        decreases fill + len - size
      {
        size := size * 2;
      }
      var bigger := new Byte[size + 1](_ => 0);
      forall k | 0 <= k < fill {
        bigger[k] := buf[k];
      }
      assert bigger[..fill] == old(buf[..fill]);
      buf := bigger;
      left := size - fill;
    }

    /** status_backup. The room used and free together changes only when the buffer grows, and then
        does not become less. */
    method Backup(chunk: seq<Byte>)
      requires Valid() && fill + |chunk| <= LIMIT
      modifies this, buf
      ensures Valid() && (buf == old(buf) || fresh(buf)) && done == old(done)
      ensures Content() == old(Content()) + chunk
      ensures old(left) > |chunk| ==> buf == old(buf) && fill + left == old(fill + left)
      ensures old(fill + left) <= fill + left
    {
      if left <= |chunk| {
        Grow(|chunk|);
      }
      forall k | 0 <= k < |chunk| {
        buf[fill + k] := chunk[k];
      }
      fill := fill + |chunk|;
      left := left - |chunk|;
    }

    /** Take the first line, which ends before `i`, out of the buffer. */
    method Recycle(i: nat)
      requires Valid() && 0 < i <= fill
      modifies this`fill, this`left, buf
      ensures Valid() && Content() == old(Content())[i..] && fill == old(fill) - i && fill + left == old(fill + left)
    {
      var len := fill - i;
      forall k | 0 <= k < len {
        buf[k] := buf[i + k];
      }
      left := left + i;
      fill := fill - i;
    }

    /** The first newline in the buffer. */
    method FindNewline() returns (i: nat)
      requires Valid()
      ensures i <= fill && NEWLINE !in Content()[..i] && (i < fill ==> Content()[i] == NEWLINE)
    {
      i := 0;
      while i < fill && buf[i] != NEWLINE
        invariant i <= fill && NEWLINE !in buf[..i]
      {
        i := i + 1;
      }
      assert Content()[..i] == buf[..i];
    }

    /** One round of gpg_ctx_parse_status: 1 if a line was handled and taken out of the buffer, 0 if
        there is no whole line, -1 if the line cannot be handled. */
    method ParseLine(ok: Handler) returns (ret: int, line: Line)
      requires Valid()
      modifies this`fill, this`left, this`done, buf
      ensures Valid() && fill + left == old(fill + left) && ret in {-1, 0, 1}
      ensures ret == 0 ==> NEWLINE !in Content() && Content() == old(Content())
      ensures ret != 0 ==> NEWLINE !in line && line + [NEWLINE] <= old(Content()) && (ok(old(done), line) <==> ret == 1)
      ensures ret == 1 ==> Content() == old(Content())[|line| + 1..] && fill < old(fill)
      ensures done == if ret == 1 then old(done) + [line] else old(done)
      ensures fill <= old(fill)
    {
      ghost var content := Content();
      var i := FindNewline();
      if i >= fill || buf[i] != NEWLINE {
        assert content[..i] == content;
        return 0, [];
      }
      buf[i] := 0;
      i := i + 1;
      line := buf[..i - 1];
      assert line == content[..i - 1] && line + [NEWLINE] == content[..i];
      if !ok(done, line) { return -1, line; }
      done := done + [line];
      Recycle(i);
      assert Content() == content[i..];
      ret := 1;
    }

    /** The buffering in gpg_ctx_parse_status: handle the lines in the buffer, up to the first that
        cannot be handled. */
    method ParseStatus(ok: Handler) returns (ret: int)
      requires Valid()
      modifies this`fill, this`left, this`done, buf
      ensures Valid() && fill + left == old(fill + left) && fill <= old(fill)
      ensures var lines := old(Lines(Content())); var n := old(Good(ok, done, Lines(Content())));
        done == old(done) + lines[..n] && ret == (if n == |lines| then 0 else -1)
        && (ret == 0 ==> Content() == old(Rest(Content())))
    {
      hide Lines, Rest, Good, Newline;
      ghost var all, before := Lines(Content()), done;
      while true
        invariant Valid() && fill + left == old(fill + left) && fill <= old(fill)
        invariant Between(ok, before, all, done, Lines(Content())) && Rest(Content()) == old(Rest(Content()))
        decreases fill
      {
        ghost var content, was := Content(), done;
        var got, line := ParseLine(ok);
        if got == 0 {
          NoLine(content, ok, was);
          Stopped(ok, before, all, was, Lines(content));
          return 0;
        }
        Advance(ok, before, all, was, content, line);
        if got == -1 {
          Stopped(ok, before, all, was, Lines(content));
          return -1;
        }
        if fill == 0 {
          NoLine(Content(), ok, done);
          Stopped(ok, before, all, done, Lines(Content()));
          return 0;
        }
      }
    }
  }

  /** Of `all` lines, those up to `rest` have been handled after those `before`. */
  ghost predicate Between(ok: Handler, before: seq<Line>, all: seq<Line>, done: seq<Line>, rest: seq<Line>) {
    && |before| <= |done| && done + rest == before + all
    && Good(ok, before, all) == |done| - |before| + Good(ok, done, rest)
  }

  /** When no further line can be handled. */
  lemma Stopped(ok: Handler, before: seq<Line>, all: seq<Line>, done: seq<Line>, rest: seq<Line>)
    requires Between(ok, before, all, done, rest) && Good(ok, done, rest) == 0
    ensures var n := Good(ok, before, all); done == before + all[..n] && (n == |all| <==> rest == [])
  {
    hide Good;
    var n := |done| - |before|;
    assert |done| + |rest| == |before| + |all|;
    assert done == (done + rest)[..|done|] == (before + all)[..|before| + n] == before + all[..n];
  }

  /** The first line of what is in the buffer is handled, or stops the rest. */
  lemma Advance(ok: Handler, before: seq<Line>, all: seq<Line>, done: seq<Line>, content: seq<Byte>, line: Line)
    requires Between(ok, before, all, done, Lines(content))
    requires NEWLINE !in line && line + [NEWLINE] <= content
    ensures var rest := content[|line| + 1..];
      if ok(done, line) then Between(ok, before, all, done + [line], Lines(rest)) && Rest(content) == Rest(rest)
      else Good(ok, done, Lines(content)) == 0 && Lines(content) != []
  {
    hide Lines, Rest, Good;
    var rest := content[|line| + 1..];
    assert content == line + [NEWLINE] + rest;
    LinesFirst(content, line, rest);
    GoodFirst(ok, done, line, Lines(rest));
    assert done + [line] + Lines(rest) == done + ([line] + Lines(rest));
  }

  lemma NoLine(s: seq<Byte>, ok: Handler, done: seq<Line>)
    requires NEWLINE !in s
    ensures Lines(s) == [] && Rest(s) == s && Good(ok, done, []) == 0
  {
    var l, t := LinesCases(s);
  }

  lemma GoodFirst(ok: Handler, done: seq<Line>, line: Line, lines: seq<Line>)
    ensures Good(ok, done, [line] + lines) == if ok(done, line) then 1 + Good(ok, done + [line], lines) else 0
  {
    assert ([line] + lines)[1..] == lines;
  }

  // ---------------------------------------------------------------- a whole stream

  function Concat(chunks: seq<seq<Byte>>): seq<Byte> {
    if chunks == [] then [] else Concat(chunks[..|chunks| - 1]) + chunks[|chunks| - 1]
  }

  lemma ConcatNone(chunks: seq<seq<Byte>>)
    ensures Concat(chunks[..0]) == []
  {
  }

  lemma {:induction false} ConcatPrefix(chunks: seq<seq<Byte>>, k: nat)
    requires k <= |chunks|
    ensures Concat(chunks[..k]) <= Concat(chunks)
    decreases |chunks|
  {
    if k < |chunks| {
      ConcatPrefix(chunks[..|chunks| - 1], k);
      assert chunks[..|chunks| - 1][..k] == chunks[..k];
    } else {
      assert chunks[..k] == chunks;
    }
  }

  /** However the stream is cut into reads, the lines handled are those of the whole stream up to the
      first that cannot be handled, and the buffer keeps just what comes after the last newline. An
      unfinished line and the read after it must fit the 32 bits of the buffer's size. */
  method Feed(st: Status, chunks: seq<seq<Byte>>, ok: Handler) returns (ret: int)
    requires st.Valid() && st.done == [] && st.Content() == []
    requires forall k :: 0 <= k < |chunks| ==> |Rest(Concat(chunks[..k]))| + |chunks[k]| <= LIMIT
    modifies st, st.buf
    ensures st.Valid() && old(st.fill + st.left) <= st.fill + st.left
    ensures var lines := Lines(Concat(chunks)); var n := Good(ok, [], lines);
      st.done == lines[..n] && ret == (if n == |lines| then 0 else -1)
    ensures ret == 0 ==> st.Content() == Rest(Concat(chunks))
  {
    hide Lines, Rest, Good, Newline, Concat;
    ret := 0;
    var k := 0;
    NoLine([], ok, []);
    ConcatNone(chunks);
    while k < |chunks|
      invariant 0 <= k <= |chunks| && st.Valid() && (st.buf == old(st.buf) || fresh(st.buf))
      invariant old(st.fill + st.left) <= st.fill + st.left
      invariant st.done == Lines(Concat(chunks[..k])) && st.Content() == Rest(Concat(chunks[..k]))
      invariant Good(ok, [], st.done) == |st.done|
    {
      ghost var before, done, content := Concat(chunks[..k]), st.done, st.Content();
      FeedStep(chunks, k, ok);
      st.Backup(chunks[k]);
      ret := st.ParseStatus(ok);
      assert [] + done == done;
      if ret != 0 { return; }
      k := k + 1;
    }
    assert chunks[..k] == chunks;
  }

  /** What one more chunk does to the lines of the stream so far. */
  lemma FeedStep(chunks: seq<seq<Byte>>, k: nat, ok: Handler)
    requires k < |chunks|
    requires Good(ok, [], Lines(Concat(chunks[..k]))) == |Lines(Concat(chunks[..k]))|
    ensures var s := Concat(chunks[..k]); var t := Concat(chunks[..k + 1]);
      var lines := Lines(s); var more := Lines(Rest(s) + chunks[k]); var m := Good(ok, lines, more);
      && Lines(t) == lines + more && Rest(t) == Rest(Rest(s) + chunks[k])
      && (m == |more| ==> Good(ok, [], Lines(t)) == |Lines(t)|)
      && (m < |more| ==>
        var all := Lines(Concat(chunks)); var n := Good(ok, [], all);
        n == |lines| + m < |all| && all[..n] == lines + more[..m])
  {
    hide Lines, Rest, Good;
    var s, t, whole := Concat(chunks[..k]), Concat(chunks[..k + 1]), Concat(chunks);
    assert chunks[..k + 1][..k] == chunks[..k];
    assert t == s + chunks[k];
    LinesAppend(s, chunks[k]);
    ConcatPrefix(chunks, k + 1);
    var lines, more := Lines(s), Lines(Rest(s) + chunks[k]);
    GoodAppend(ok, [], lines, more);
    assert [] + lines == lines;
    assert whole == t + whole[|t|..];
    LinesAppend(t, whole[|t|..]);
    GoodAppend(ok, [], Lines(t), Lines(Rest(t) + whole[|t|..]));
  }
}
