/** camel-file-utils.c: numbers and strings in a file. */
module FileCodec {
  import opened Wrappers

  type Byte = b: nat | b < 0x100
  type Uint32 = v: nat | v < 0x1_0000_0000
  type Int64 = v: int | -0x8000_0000_0000_0000 <= v < 0x8000_0000_0000_0000

  const WORD: nat := 0x1_0000_0000
  const LONG: nat := 0x1_0000_0000_0000_0000
  /** The longest string that is written. */
  const MOST: nat := 65536

  /** What a reader gets, and what it leaves unread. */
  datatype Read<T> = Failed | Got(value: T, rest: seq<Byte>)

  // ---------------------------------------------------------------- seven bits at a time

  /** The digits of a number to the base 128. */
  function Digits(v: nat): seq<Byte> {
    if v == 0 then [] else Digits(v / 128) + [v % 128]
  }

  /** The seven-bit form: digits, the last one flagged. */
  function Uint32Bytes(v: nat): seq<Byte> {
    Digits(v / 128) + [v % 128 + 128]
  }

  function ReadUint32From(s: seq<Byte>, acc: Uint32): Read<Uint32>
    decreases |s|
  {
    if s == [] then Failed
    else if s[0] >= 128 then Got((acc + s[0] - 128) % WORD, s[1..])
    else ReadUint32From(s[1..], (acc + s[0]) * 128 % WORD)
  }

  /** The value that the seven-bit form at the start of `s` stands for. */
  function ReadUint32(s: seq<Byte>): Read<Uint32> {
    ReadUint32From(s, 0)
  }

  lemma {:induction false} DigitsSmall(v: nat)
    ensures forall i :: 0 <= i < |Digits(v)| ==> Digits(v)[i] < 128
  {
    if v != 0 { DigitsSmall(v / 128); }
  }

  /** Reading the digits of a number leads to its 128-fold. */
  lemma {:induction false} ReadDigits(v: nat, t: seq<Byte>)
    requires v < WORD / 128
    ensures ReadUint32From(Digits(v) + t, 0) == ReadUint32From(t, v * 128)
  {
    if v == 0 {
      assert Digits(v) + t == t;
    } else {
      var u := [v % 128] + t;
      assert Digits(v) + t == Digits(v / 128) + u;
      ReadDigits(v / 128, u);
      assert u[1..] == t;
    }
  }

  /** Every 32-bit value is read back, and nothing behind it is read. */
  lemma Uint32RoundTrip(v: Uint32, rest: seq<Byte>)
    ensures ReadUint32(Uint32Bytes(v) + rest) == Got(v, rest)
  {
    var t := [v % 128 + 128] + rest;
    assert Uint32Bytes(v) + rest == Digits(v / 128) + t;
    ReadDigits(v / 128, t);
    assert t[1..] == rest;
  }

  function Power(n: nat): (p: nat)
    ensures p > 0
  {
    if n == 0 then 1 else 128 * Power(n - 1)
  }

  lemma {:induction false} DigitsLength(v: nat)
    ensures v < Power(|Digits(v)|) && (v > 0 ==> v >= Power(|Digits(v)| - 1))
  {
    if v != 0 { DigitsLength(v / 128); }
  }

  /** One digit more. */
  lemma DigitBound(p: nat, b: Byte, n: nat)
    requires p < Power(n) && b < 128
    ensures 128 * p + b < Power(n + 1)
  {
  }

  /** The shift by seven bits leaves a multiple of 128, not above the number without the wrap. */
  lemma ShiftBound(x: nat)
    ensures var y := x * 128 % WORD; y % 128 == 0 && y / 128 <= x
  {
  }

  /** What is read from `n` bytes is below the n-th power of 128. */
  lemma {:induction false} ReadBound(s: seq<Byte>, p: nat, n: nat)
    requires p < Power(n) && 128 * p < WORD && ReadUint32From(s, 128 * p).Got?
    ensures var r := ReadUint32From(s, 128 * p);
      |r.rest| < |s| && r.value < Power(n + |s| - |r.rest|)
    decreases |s|
  {
    hide Power;
    if s[0] < 128 {
      DigitBound(p, s[0], n);
      ShiftBound(128 * p + s[0]);
      var next := (128 * p + s[0]) * 128 % WORD;
      ReadBound(s[1..], next / 128, n + 1);
    } else {
      DigitBound(p, s[0] - 128, n);
    }
  }

  /** No other bytes for the same value are fewer. */
  lemma Uint32Shortest(v: Uint32, s: seq<Byte>)
    requires ReadUint32(s) == Got(v, [])
    ensures |Uint32Bytes(v)| <= |s|
  {
    ReadBound(s, 0, 0);
    DigitsLength(v / 128);
    PowerGrows(|s|, |Digits(v / 128)|);
  }

  lemma {:induction false} PowerGrows(m: nat, n: nat)
    ensures m <= n ==> Power(m) <= Power(n)
  {
    if m < n { PowerGrows(m, n - 1); }
  }

  // ---------------------------------------------------------------- fixed numbers of bytes

  /** The last `n` bytes of a number, the highest first. */
  function BigEndian(u: nat, n: nat): (s: seq<Byte>)
    ensures |s| == n
  {
    if n == 0 then [] else BigEndian(u / 0x100, n - 1) + [u % 0x100]
  }

  function Value(s: seq<Byte>): nat {
    if s == [] then 0 else Value(s[..|s| - 1]) * 0x100 + s[|s| - 1]
  }

  function Bytes(n: nat): (p: nat)
    ensures p > 0
  {
    if n == 0 then 1 else 0x100 * Bytes(n - 1)
  }

  lemma {:induction false} ValueBigEndian(u: nat, n: nat)
    requires u < Bytes(n)
    ensures Value(BigEndian(u, n)) == u
  {
    if n > 0 {
      ValueBigEndian(u / 0x100, n - 1);
      assert BigEndian(u, n)[..n - 1] == BigEndian(u / 0x100, n - 1);
    }
  }

  lemma {:induction false} ValueBound(s: seq<Byte>)
    ensures Value(s) < Bytes(|s|)
  {
    if s != [] { ValueBound(s[..|s| - 1]); }
  }

  lemma LongBytes()
    ensures Bytes(8) == LONG
  {
    assert Bytes(4) == 0x1_0000_0000;
  }

  /** Two's complement. */
  function Unsigned(v: Int64): (u: nat)
    ensures u < LONG
  {
    if v < 0 then v + LONG else v
  }

  function Signed(u: nat): (v: Int64)
    requires u < LONG
    ensures Unsigned(v) == u
  {
    if u >= LONG / 2 then u - LONG else u
  }

  function Int64Bytes(v: Int64): seq<Byte> {
    BigEndian(Unsigned(v), 8)
  }

  function ReadInt64(s: seq<Byte>): Read<Int64> {
    if |s| < 8 then Failed
    else
      LongBytes(); ValueBound(s[..8]);
      Got(Signed(Value(s[..8])), s[8..])
  }

  lemma Int64RoundTrip(v: Int64, rest: seq<Byte>)
    ensures ReadInt64(Int64Bytes(v) + rest) == Got(v, rest)
  {
    LongBytes();
    ValueBigEndian(Unsigned(v), 8);
    assert (Int64Bytes(v) + rest)[..8] == Int64Bytes(v) && (Int64Bytes(v) + rest)[8..] == rest;
  }

  // ---------------------------------------------------------------- strings

  /** A string may be missing. */
  type Text = Option<seq<Byte>>

  /** What comes back of a string: a missing one is empty, a long one is cut. */
  function Kept(t: Text): (s: seq<Byte>)
    ensures |s| <= MOST
  {
    if t == None then [] else if |t.value| > MOST then t.value[..MOST] else t.value
  }

  function TextBytes(t: Text): seq<Byte> {
    Uint32Bytes(|Kept(t)| + 1) + Kept(t)
  }

  function ReadText(s: seq<Byte>): Read<seq<Byte>> {
    match ReadUint32(s)
    case Failed => Failed
    case Got(n, rest) =>
      var len := if n == 0 then WORD - 1 else n - 1;
      if len > MOST || len > |rest| then Failed else Got(rest[..len], rest[len..])
  }

  lemma TextRoundTrip(t: Text, rest: seq<Byte>)
    ensures ReadText(TextBytes(t) + rest) == Got(Kept(t), rest)
  {
    var s := Kept(t);
    assert TextBytes(t) + rest == Uint32Bytes(|s| + 1) + (s + rest);
    Uint32RoundTrip(|s| + 1, s + rest);
    assert (s + rest)[..|s|] == s && (s + rest)[|s|..] == rest;
  }

  // ---------------------------------------------------------------- the bytes themselves

  /** The number that bytes stand for, seven bits of each, the highest first. */
  function Sevens(s: seq<Byte>): nat {
    if s == [] then 0 else Sevens(s[..|s| - 1]) * 128 + s[|s| - 1] % 128
  }

  lemma {:induction false} DigitsSevens(v: nat)
    ensures Sevens(Digits(v)) == v
    ensures v > 0 ==> Digits(v) != [] && Digits(v)[0] != 0
  {
    if v != 0 {
      DigitsSevens(v / 128);
      DigitsSmall(v);
      assert Digits(v)[..|Digits(v)| - 1] == Digits(v / 128);
    }
  }

  /** The seven-bit form: the highest digits come first, only the last byte has the highest bit, and no
      form of several bytes begins with zero. */
  lemma Uint32Form(v: nat)
    ensures var s := Uint32Bytes(v);
      && Sevens(s) == v && |s| > 0 && s[|s| - 1] >= 128
      && (forall i :: 0 <= i < |s| - 1 ==> s[i] < 128)
      && (|s| > 1 ==> s[0] != 0)
  {
    hide Digits, Sevens;
    DigitsSevens(v / 128);
    DigitsSmall(v / 128);
    SevensLast(Digits(v / 128), v % 128 + 128);
    DigitsNone();
  }

  lemma SevensLast(s: seq<Byte>, b: Byte)
    ensures Sevens(s + [b]) == Sevens(s) * 128 + b % 128
  {
    assert (s + [b])[..|s|] == s;
  }

  lemma DigitsNone()
    ensures Digits(0) == []
  {
  }

  /** Some numbers and strings in their bytes. */
  lemma Uint32Examples()
    ensures Uint32Bytes(0) == [128] && Uint32Bytes(127) == [255] && Uint32Bytes(128) == [1, 128]
    ensures Uint32Bytes(0xFFFF_FFFF) == [15, 127, 127, 127, 255]
    ensures TextBytes(None) == TextBytes(Some([])) == [129] && TextBytes(Some([65])) == [130, 65]
  {
    assert Digits(0) == [] && Digits(1) == [1];
    DigitsStep(15);
    DigitsStep(2047);
    DigitsStep(262143);
    DigitsStep(33554431);
    assert Digits(33554431) == [15, 127, 127, 127];
  }

  lemma DigitsStep(v: nat)
    requires v > 0
    ensures Digits(v) == Digits(v / 128) + [v % 128]
  {
  }

  lemma BigEndianStep(u: nat, n: nat)
    requires n > 0
    ensures BigEndian(u, n) == BigEndian(u / 0x100, n - 1) + [u % 0x100]
  {
  }

  lemma Int64Examples()
    ensures Int64Bytes(0x0102_0304_0506_0708) == [1, 2, 3, 4, 5, 6, 7, 8]
    ensures Int64Bytes(-2) == [255, 255, 255, 255, 255, 255, 255, 254]
  {
    hide BigEndian;
    BigEndianNone(0);
    BigEndianStep(0x1, 1);
    BigEndianStep(0x102, 2);
    BigEndianStep(0x10203, 3);
    BigEndianStep(0x1020304, 4);
    BigEndianStep(0x102030405, 5);
    BigEndianStep(0x10203040506, 6);
    BigEndianStep(0x1020304050607, 7);
    BigEndianStep(0x102030405060708, 8);
    BigEndianStep(0xFF, 1);
    BigEndianStep(0xFFFF, 2);
    BigEndianStep(0xFFFFFF, 3);
    BigEndianStep(0xFFFFFFFF, 4);
    BigEndianStep(0xFFFFFFFFFF, 5);
    BigEndianStep(0xFFFFFFFFFFFF, 6);
    BigEndianStep(0xFFFFFFFFFFFFFF, 7);
    BigEndianStep(0xFFFFFFFFFFFFFFFE, 8);
  }

  lemma BigEndianNone(u: nat)
    ensures BigEndian(u, 0) == []
  {
  }

  // ---------------------------------------------------------------- the functions of the library

  /** A file that is written at its end, or read from `at` on. */
  class Stream {
    var data: seq<Byte>
    var at: nat

    constructor (data: seq<Byte>)
      ensures Valid() && this.data == data && at == 0 && Ahead() == data
    {
      this.data, at := data, 0;
    }

    ghost predicate Valid()
      reads this
    {
      at <= |data|
    }

    /** What is still to be read. */
    ghost function Ahead(): seq<Byte>
      requires Valid()
      reads this
    {
      data[at..]
    }

    method Put(b: Byte)
      modifies this`data
      ensures data == old(data) + [b]
    {
      data := data + [b];
    }

    /** -1 at the end of the file. */
    method Get() returns (v: int)
      requires Valid()
      modifies this`at
      ensures Valid()
      ensures if old(Ahead()) == [] then v == -1 && at == old(at) else v == old(Ahead()[0]) && Ahead() == old(Ahead()[1..])
    {
      if at < |data| {
        v := data[at];
        at := at + 1;
      } else {
        v := -1;
      }
    }

    function Unit(i: nat): (u: nat)
      requires i <= 28 && i % 7 == 0
      ensures u > 0
    {
      if i == 28 then 0x1000_0000 else if i == 21 then 0x20_0000 else if i == 14 then 0x4000 else if i == 7 then 0x80 else 1
    }

    /** camel_file_util_encode_uint32. */
    method EncodeUint32(value: Uint32)
      modifies this`data
      ensures data == old(data) + Uint32Bytes(value)
    {
      var i := 28;
      assert value / 0x1000_0000 / 128 == 0;
      while i > 0
        invariant 0 <= i <= 28 && i % 7 == 0
        invariant data == old(data) + Digits(value / Unit(i) / 128)
        decreases i
      {
        if value >= Unit(i) {
          Put(value / Unit(i) % 128);
        }
        UnitStep(value, i);
        i := i - 7;
      }
      Put(value % 128 + 128);
      assert old(data) + Digits(value / 128) + [value % 128 + 128] == old(data) + Uint32Bytes(value);
    }

    lemma UnitStep(value: Uint32, i: nat)
      requires 0 < i <= 28 && i % 7 == 0
      ensures value / Unit(i - 7) / 128 == value / Unit(i)
      ensures value >= Unit(i) ==> value / Unit(i) > 0
      ensures value < Unit(i) ==> value / Unit(i) == 0
    {
    }

    /** camel_file_util_decode_uint32. */
    method DecodeUint32() returns (ret: int, dest: Uint32)
      requires Valid()
      modifies this`at
      ensures Valid()
      ensures var r := old(ReadUint32(Ahead()));
        ret == (if r.Got? then 0 else -1) && (r.Got? ==> dest == r.value && Ahead() == r.rest)
    {
      var value: Uint32 := 0;
      var v := Get();
      while v != -1 && v < 128
        invariant -1 <= v < 0x100 && Valid()
        invariant if v == -1 then old(ReadUint32(Ahead())) == Failed
          else ReadUint32From([v] + Ahead(), value) == old(ReadUint32(Ahead()))
        decreases if v == -1 then 0 else |Ahead()| + 1
      {
        ghost var ahead := [v] + Ahead();
        assert ahead[1..] == Ahead();
        value := (value + v) * 128 % WORD;
        v := Get();
        if v != -1 { assert [v] + Ahead() == ahead[1..]; }
      }
      if v == -1 { return -1, value / 128; }
      assert ([v] + Ahead())[1..] == Ahead();
      return 0, (value + v - 128) % WORD;
    }

    /** camel_file_util_encode_gint64. */
    method EncodeInt64(value: Int64)
      modifies this`data
      ensures data == old(data) + Int64Bytes(value)
    {
      var u := Unsigned(value);
      var i := 8;
      assert u / Place(8) == 0;
      while i > 0
        invariant 0 <= i <= 8 && data == old(data) + BigEndian(u / Place(i), 8 - i)
      {
        i := i - 1;
        PlaceStep(u, i);
        Put(u / Place(i) % 0x100);
      }
    }

    /** What a shift by `i` bytes divides by. */
    function Place(i: nat): (p: nat)
      requires i <= 8
      ensures p > 0
    {
      if i == 0 then 1 else if i == 1 then 0x100 else if i == 2 then 0x1_0000 else if i == 3 then 0x100_0000
      else if i == 4 then 0x1_0000_0000 else if i == 5 then 0x100_0000_0000 else if i == 6 then 0x1_0000_0000_0000
      else if i == 7 then 0x100_0000_0000_0000 else LONG
    }

    lemma PlaceStep(u: nat, i: nat)
      requires i < 8
      ensures u / Place(i) / 0x100 == u / Place(i + 1)
    {
    }

    /** camel_file_util_decode_gint64: the bytes go to their places one by one. */
    method DecodeInt64() returns (ret: int, dest: Int64)
      requires Valid()
      modifies this`at
      ensures Valid()
      ensures var r := old(ReadInt64(Ahead()));
        ret == (if r.Got? then 0 else -1) && (r.Got? ==> dest == r.value && Ahead() == r.rest)
    {
      ghost var ahead := Ahead();
      var save, i, v := 0, 8, -1;
      while i > 0
        invariant 0 <= i <= 8 && (i < 8 ==> v != -1) && Valid()
        invariant 8 - i <= |ahead| && Ahead() == ahead[8 - i..]
        invariant save == Value(ahead[..8 - i]) * Place(i)
      {
        v := Get();
        if v == -1 { return -1, 0; }
        i := i - 1;
        assert ahead[..8 - i][..7 - i] == ahead[..7 - i];
        save := save + v * Place(i);
        PlaceSplit(Value(ahead[..7 - i]), v, i);
      }
      assert Value(ahead[..8]) < LONG by { LongBytes(); ValueBound(ahead[..8]); }
      assert save == Value(ahead[..8]);
      return 0, Signed(save);
    }

    lemma PlaceSplit(x: nat, v: nat, i: nat)
      requires i < 8
      ensures x * Place(i + 1) + v * Place(i) == (x * 0x100 + v) * Place(i)
    {
    }

    /** camel_file_util_encode_string. */
    method EncodeString(str: Text)
      modifies this`data
      ensures data == old(data) + TextBytes(str)
    {
      if str == None {
        EncodeUint32(1);
        assert TextBytes(str) == Uint32Bytes(1);
        return;
      }
      var len := |str.value|;
      if len > MOST { len := MOST; }
      EncodeUint32(len + 1);
      if len != 0 {
        data := data + str.value[..len];
      }
      assert Kept(str) == str.value[..len];
      assert data == old(data) + (Uint32Bytes(len + 1) + Kept(str));
    }

    /** camel_file_util_decode_string. */
    method DecodeString() returns (ret: int, str: Text)
      requires Valid()
      modifies this`at
      ensures Valid()
      ensures var r := old(ReadText(Ahead()));
        && ret == (if r.Got? then 0 else -1)
        && (if r.Got? then str == Some(r.value) && Ahead() == r.rest else str == None)
    {
      var got, n := DecodeUint32();
      if got == -1 { return -1, None; }
      var len := if n == 0 then WORD - 1 else n - 1;
      if len > MOST { return -1, None; }
      if len > 0 && at + len > |data| { return -1, None; }
      str := Some(data[at..at + len]);
      assert Ahead()[..len] == data[at..at + len] && Ahead()[len..] == data[at + len..];
      at := at + len;
      ret := 0;
    }
  }
}
