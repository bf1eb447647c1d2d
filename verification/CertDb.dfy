/** camel-certdb.c: the certificates that were accepted, in a list and in a hash table, and in a file. */
module CertDb {
  import opened Wrappers
  import opened FileCodec

  const TRUST_UNKNOWN: Uint32 := 0
  const TRUST_TEMPORARY: Uint32 := 5
  const VERSION: Uint32 := 0x100

  datatype Cert = Cert(issuer: Text, subject: Text, hostname: Text, fingerprint: Text, trust: Uint32)

  // ---------------------------------------------------------------- keys

  function Lower(b: Byte): Byte {
    if 65 <= b <= 90 then b + 32 else b
  }

  /** A string as g_ascii_strcasecmp sees it. */
  function Fold(s: seq<Byte>): (f: seq<Byte>)
    ensures |f| == |s|
  {
    seq(|s|, i requires 0 <= i < |s| => Lower(s[i]))
  }

  function FoldText(t: Text): Text {
    if t == None then None else Some(Fold(t.value))
  }

  /** What the hash table tells keys apart by: both strings without regard to case, but also the hash
      code of the fingerprint, which depends on case. */
  datatype Key = Key(hostname: Text, fingerprint: Text, code: nat)

  type Hash = seq<Byte> -> nat

  function KeyFor(hash: Hash, hostname: Text, fingerprint: Text): Key
    requires fingerprint.Some?
  {
    Key(FoldText(hostname), FoldText(fingerprint), hash(fingerprint.value))
  }

  function KeyOf(hash: Hash, c: Cert): Key
    requires c.fingerprint.Some?
  {
    KeyFor(hash, c.hostname, c.fingerprint)
  }

  predicate Keyed(certs: seq<Cert>) {
    forall i :: 0 <= i < |certs| ==> certs[i].fingerprint.Some?
  }

  /** One certificate per key. */
  predicate OnePerKey(hash: Hash, certs: seq<Cert>)
    requires Keyed(certs)
  {
    forall i, j :: 0 <= i < j < |certs| ==> KeyOf(hash, certs[i]) != KeyOf(hash, certs[j])
  }

  /** The list without the certificates of a key. */
  function Without(hash: Hash, certs: seq<Cert>, k: Key): (r: seq<Cert>)
    requires Keyed(certs)
    ensures Keyed(r)
    ensures forall c :: c in r <==> c in certs && KeyOf(hash, c) != k
  {
    if certs == [] then []
    else
      assert certs == certs[..|certs| - 1] + [certs[|certs| - 1]];
      var rest := Without(hash, certs[..|certs| - 1], k);
      if KeyOf(hash, certs[|certs| - 1]) == k then rest else rest + [certs[|certs| - 1]]
  }

  /** The list after a certificate has been put: at the end, in place of the one with its key. */
  function Putting(hash: Hash, certs: seq<Cert>, c: Cert): (r: seq<Cert>)
    requires Keyed(certs) && c.fingerprint.Some?
    ensures Keyed(r)
  {
    Without(hash, certs, KeyOf(hash, c)) + [c]
  }

  lemma {:induction false} WithoutOnePerKey(hash: Hash, certs: seq<Cert>, k: Key)
    requires Keyed(certs) && OnePerKey(hash, certs)
    ensures OnePerKey(hash, Without(hash, certs, k))
  {
    if certs != [] {
      var init, last := certs[..|certs| - 1], certs[|certs| - 1];
      WithoutOnePerKey(hash, init, k);
      forall c | c in Without(hash, init, k) ensures KeyOf(hash, c) != KeyOf(hash, last) {
        var i :| 0 <= i < |init| && init[i] == c;
        assert certs[i] == c;
      }
    }
  }

  lemma PuttingOnePerKey(hash: Hash, certs: seq<Cert>, c: Cert)
    requires Keyed(certs) && OnePerKey(hash, certs) && c.fingerprint.Some?
    ensures OnePerKey(hash, Putting(hash, certs, c))
  {
    WithoutOnePerKey(hash, certs, KeyOf(hash, c));
  }

  lemma {:induction false} WithoutAbsent(hash: Hash, certs: seq<Cert>, k: Key)
    requires Keyed(certs)
    ensures Without(hash, certs, k) == certs <==> forall i :: 0 <= i < |certs| ==> KeyOf(hash, certs[i]) != k
    ensures |Without(hash, certs, k)| <= |certs|
  {
    if certs != [] {
      var init, last := certs[..|certs| - 1], certs[|certs| - 1];
      WithoutAbsent(hash, init, k);
      assert certs == init + [last];
      if KeyOf(hash, last) != k && Without(hash, init, k) != init {
        assert Without(hash, certs, k)[..|Without(hash, certs, k)| - 1] == Without(hash, init, k);
        assert certs[..|certs| - 1] == init;
      }
    }
  }

  predicate NoneHas(hash: Hash, certs: seq<Cert>, k: Key) {
    forall i :: 0 <= i < |certs| ==> certs[i].fingerprint.Some? && KeyOf(hash, certs[i]) != k
  }

  lemma WithoutLast(hash: Hash, certs: seq<Cert>, d: Cert, k: Key)
    requires Keyed(certs) && d.fingerprint.Some?
    ensures Keyed(certs + [d])
    ensures Without(hash, certs + [d], k) == Without(hash, certs, k) + if KeyOf(hash, d) == k then [] else [d]
  {
    assert (certs + [d])[..|certs|] == certs;
  }

  /** The others stay in their order. */
  lemma {:induction false} WithoutSplit(hash: Hash, x: seq<Cert>, c: Cert, y: seq<Cert>)
    requires c.fingerprint.Some? && NoneHas(hash, x, KeyOf(hash, c)) && NoneHas(hash, y, KeyOf(hash, c))
    ensures Keyed(x + [c] + y) && Without(hash, x + [c] + y, KeyOf(hash, c)) == x + y
    decreases |y|
  {
    hide KeyOf, Without;
    if y == [] {
      WithoutAbsent(hash, x, KeyOf(hash, c));
      WithoutLast(hash, x, c, KeyOf(hash, c));
      assert x + [c] + y == x + [c] && x + y == x;
    } else {
      var z, d := y[..|y| - 1], y[|y| - 1];
      WithoutSplit(hash, x, c, z);
      WithoutLast(hash, x + [c] + z, d, KeyOf(hash, c));
      assert x + [c] + y == x + [c] + z + [d] && x + y == x + z + [d];
    }
  }

  // ---------------------------------------------------------------- the file

  /** A certificate after it has been written and read: missing strings are empty, long ones are cut,
      and temporary trust is gone. */
  function Reload(c: Cert): (r: Cert)
    ensures r.fingerprint.Some?
  {
    Cert(Some(Kept(c.issuer)), Some(Kept(c.subject)), Some(Kept(c.hostname)), Some(Kept(c.fingerprint)),
         if c.trust == TRUST_TEMPORARY then TRUST_UNKNOWN else c.trust)
  }

  function CertBytes(c: Cert): seq<Byte> {
    TextBytes(c.issuer) + TextBytes(c.subject) + TextBytes(c.hostname) + TextBytes(c.fingerprint) + Uint32Bytes(c.trust)
  }

  function ReadCert(s: seq<Byte>): (r: Read<Cert>)
    ensures r.Got? ==> r.value.fingerprint.Some?
  {
    var issuer := ReadText(s);
    if issuer.Failed? then Failed else
    var subject := ReadText(issuer.rest);
    if subject.Failed? then Failed else
    var hostname := ReadText(subject.rest);
    if hostname.Failed? then Failed else
    var fingerprint := ReadText(hostname.rest);
    if fingerprint.Failed? then Failed else
    var trust := ReadUint32(fingerprint.rest);
    if trust.Failed? then Failed else
    Got(Cert(Some(issuer.value), Some(subject.value), Some(hostname.value), Some(fingerprint.value),
             if trust.value == TRUST_TEMPORARY then TRUST_UNKNOWN else trust.value), trust.rest)
  }

  lemma CertRoundTrip(c: Cert, rest: seq<Byte>)
    ensures ReadCert(CertBytes(c) + rest) == Got(Reload(c), rest)
  {
    hide TextBytes, ReadText, ReadUint32, Uint32Bytes, Kept;
    var e := Uint32Bytes(c.trust) + rest;
    var d := TextBytes(c.fingerprint) + e;
    var b := TextBytes(c.hostname) + d;
    var a := TextBytes(c.subject) + b;
    assert CertBytes(c) + rest == TextBytes(c.issuer) + a;
    TextRoundTrip(c.issuer, a);
    TextRoundTrip(c.subject, b);
    TextRoundTrip(c.hostname, d);
    TextRoundTrip(c.fingerprint, e);
    Uint32RoundTrip(c.trust, rest);
  }

  function AllBytes(certs: seq<Cert>): seq<Byte> {
    if certs == [] then [] else CertBytes(certs[0]) + AllBytes(certs[1..])
  }

  function FileBytes(version: Uint32, certs: seq<Cert>): seq<Byte>
    requires |certs| < WORD
  {
    Uint32Bytes(version) + Uint32Bytes(|certs|) + AllBytes(certs)
  }

  /** Reading `n` certificates and putting each: the list in the end, and whether all could be read. */
  function LoadInto(hash: Hash, certs: seq<Cert>, s: seq<Byte>, n: nat): (r: (seq<Cert>, bool))
    requires Keyed(certs)
    decreases n
  {
    if n == 0 then (certs, true)
    else
      match ReadCert(s)
      case Failed => (certs, false)
      case Got(c, rest) => LoadInto(hash, Putting(hash, certs, c), rest, n - 1)
  }

  function Reloaded(certs: seq<Cert>): (r: seq<Cert>)
    ensures |r| == |certs| && Keyed(r)
    ensures forall i :: 0 <= i < |certs| ==> r[i] == Reload(certs[i])
  {
    if certs == [] then [] else [Reload(certs[0])] + Reloaded(certs[1..])
  }

  /** Putting one certificate after the other. */
  function PutAll(hash: Hash, certs: seq<Cert>, more: seq<Cert>): (r: seq<Cert>)
    requires Keyed(certs) && Keyed(more)
    ensures Keyed(r)
    decreases |more|
  {
    if more == [] then certs else PutAll(hash, Putting(hash, certs, more[0]), more[1..])
  }

  lemma {:induction false} LoadAllBytes(hash: Hash, certs: seq<Cert>, more: seq<Cert>, rest: seq<Byte>)
    requires Keyed(certs)
    ensures LoadInto(hash, certs, AllBytes(more) + rest, |more|) == (PutAll(hash, certs, Reloaded(more)), true)
    decreases |more|
  {
    if more != [] {
      var s := AllBytes(more[1..]) + rest;
      assert AllBytes(more) + rest == CertBytes(more[0]) + s;
      CertRoundTrip(more[0], s);
      assert Reloaded(more)[1..] == Reloaded(more[1..]);
      LoadAllBytes(hash, Putting(hash, certs, Reload(more[0])), more[1..], rest);
    }
  }

  /** A certificate whose key is new goes to the end. */
  lemma PuttingNew(hash: Hash, certs: seq<Cert>, c: Cert, more: seq<Cert>)
    requires Keyed(certs) && c.fingerprint.Some? && Keyed(more) && Keyed(certs + [c] + more)
    requires OnePerKey(hash, certs + [c] + more)
    ensures Putting(hash, certs, c) == certs + [c]
  {
    WithoutAbsent(hash, certs, KeyOf(hash, c));
    var all := certs + [c] + more;
    forall i | 0 <= i < |certs| ensures KeyOf(hash, certs[i]) != KeyOf(hash, c) {
      assert all[i] == certs[i] && all[|certs|] == c;
    }
  }

  lemma {:induction false} PutAllOnePerKey(hash: Hash, certs: seq<Cert>, more: seq<Cert>)
    requires Keyed(certs) && Keyed(more) && OnePerKey(hash, certs)
    ensures OnePerKey(hash, PutAll(hash, certs, more))
    decreases |more|
  {
    if more != [] {
      PuttingOnePerKey(hash, certs, more[0]);
      PutAllOnePerKey(hash, Putting(hash, certs, more[0]), more[1..]);
    }
  }

  lemma {:induction false} PutAllNew(hash: Hash, certs: seq<Cert>, more: seq<Cert>)
    requires Keyed(certs) && Keyed(more) && Keyed(certs + more) && OnePerKey(hash, certs + more)
    ensures PutAll(hash, certs, more) == certs + more
    decreases |more|
  {
    hide OnePerKey, Putting;
    if more == [] {
      assert certs + more == certs;
    } else {
      assert certs + [more[0]] + more[1..] == certs + more;
      PuttingNew(hash, certs, more[0], more[1..]);
      PutAllNew(hash, certs + [more[0]], more[1..]);
    }
  }

  /** Putting certificates into an empty list gives just them, in their order, exactly if no two have
      the same key. */
  lemma PutAllKeeps(hash: Hash, more: seq<Cert>)
    requires Keyed(more)
    ensures PutAll(hash, [], more) == more <==> OnePerKey(hash, more)
  {
    assert [] + more == more;
    PutAllOnePerKey(hash, [], more);
    if OnePerKey(hash, more) { PutAllNew(hash, [], more); }
  }

  /** camel_certdb_load: the list in the end, and whether the whole file could be read. */
  function LoadFile(hash: Hash, certs: seq<Cert>, file: seq<Byte>): (r: (seq<Cert>, bool))
    requires Keyed(certs)
  {
    match ReadUint32(file)
    case Failed => (certs, false)
    case Got(_, rest) =>
      match ReadUint32(rest)
      case Failed => (certs, false)
      case Got(n, body) => LoadInto(hash, certs, body, n)
  }

  /** Loading a file that was saved puts its certificates one after the other, as they are after
      reloading. */
  lemma {:induction false} LoadSaved(hash: Hash, certs: seq<Cert>, v: Uint32, saved: seq<Cert>)
    requires Keyed(certs) && |saved| < WORD
    ensures LoadFile(hash, certs, FileBytes(v, saved)) == (PutAll(hash, certs, Reloaded(saved)), true)
    ensures var r := ReadUint32(FileBytes(v, saved)); r.Got? && r.value == v
  {
    hide Uint32Bytes, ReadUint32, AllBytes, LoadInto, PutAll, Reloaded;
    var tail := Uint32Bytes(|saved|) + AllBytes(saved);
    assert FileBytes(v, saved) == Uint32Bytes(v) + tail;
    Uint32RoundTrip(v, tail);
    Uint32RoundTrip(|saved|, AllBytes(saved));
    LoadAllBytes(hash, certs, saved, []);
    assert AllBytes(saved) + [] == AllBytes(saved);
  }

  /** The string as it comes back: cut to 65536 bytes, and empty if it was missing. */
  predicate StringBack(was: Text, now: Text) {
    && now.Some? && |now.value| <= 65536
    && (was.None? ==> now.value == [])
    && (was.Some? ==> now.value <= was.value && (|now.value| < |was.value| ==> |now.value| == 65536))
  }

  /** `now` is what comes back of the certificate `was`. */
  predicate CameBack(was: Cert, now: Cert) {
    && StringBack(was.issuer, now.issuer) && StringBack(was.subject, now.subject)
    && StringBack(was.hostname, now.hostname) && StringBack(was.fingerprint, now.fingerprint)
    && now.trust == if was.trust == TRUST_TEMPORARY then TRUST_UNKNOWN else was.trust
  }

  lemma ReloadFields(c: Cert)
    ensures CameBack(c, Reload(c)) && Reload(c).trust != TRUST_TEMPORARY
  {
  }

  lemma AllCameBack(hash: Hash, saved: seq<Cert>)
    ensures forall c :: c in PutAll(hash, [], Reloaded(saved)) ==>
      c.trust != TRUST_TEMPORARY && exists d :: d in saved && CameBack(d, c)
  {
    hide CameBack, PutAll, Reload;
    forall c | c in PutAll(hash, [], Reloaded(saved))
      ensures c.trust != TRUST_TEMPORARY && exists d :: d in saved && CameBack(d, c)
    {
      PutAllKeys(hash, [], Reloaded(saved), KeyFor(hash, None, Some([])));
      var i :| 0 <= i < |saved| && Reloaded(saved)[i] == c;
      ReloadFields(saved[i]);
    }
  }

  /** A certificate and an empty store in their bytes: issuer, subject, host name, fingerprint and trust;
      and the version and the number of certificates. */
  lemma FileExamples()
    ensures CertBytes(Cert(Some([1]), Some([2]), Some([3]), Some([4]), 5)) == [130, 1, 130, 2, 130, 3, 130, 4, 133]
    ensures FileBytes(VERSION, []) == [2, 128, 128]
  {
    hide Uint32Bytes, TextBytes, Digits;
    OneByte(1);
    OneByte(2);
    OneByte(3);
    OneByte(4);
    SmallBytes();
  }

  lemma OneByte(b: Byte)
    ensures TextBytes(Some([b])) == [130, b]
  {
    assert Digits(0) == [];
  }

  lemma SmallBytes()
    ensures Uint32Bytes(5) == [133] && Uint32Bytes(0x100) == [2, 128] && Uint32Bytes(0) == [128]
  {
    assert Digits(0) == [] && Digits(2) == [2];
  }

  /** The strings of the certificate are there and fit. */
  predicate Fits(c: Cert) {
    c.hostname.Some? && |c.hostname.value| <= MOST && c.fingerprint.Some? && |c.fingerprint.value| <= MOST
  }

  lemma ReloadKey(hash: Hash, c: Cert)
    requires Fits(c)
    ensures KeyOf(hash, Reload(c)) == KeyOf(hash, c)
  {
  }

  lemma ReloadedOnePerKey(hash: Hash, certs: seq<Cert>)
    requires Keyed(certs) && OnePerKey(hash, certs) && forall i :: 0 <= i < |certs| ==> Fits(certs[i])
    ensures OnePerKey(hash, Reloaded(certs))
  {
    forall i, j | 0 <= i < j < |certs| ensures KeyOf(hash, Reloaded(certs)[i]) != KeyOf(hash, Reloaded(certs)[j]) {
      ReloadKey(hash, certs[i]);
      ReloadKey(hash, certs[j]);
    }
  }

  // ---------------------------------------------------------------- two spellings

  /** Host name and fingerprint are equal up to case: one key as its equality function has it. */
  predicate SameStrings(c: Cert, d: Cert) {
    FoldText(c.hostname) == FoldText(d.hostname) && FoldText(c.fingerprint) == FoldText(d.fingerprint)
  }

  /** Every certificate with the same strings has the same hash code. */
  predicate CodesAgree(hash: Hash, certs: seq<Cert>)
    requires Keyed(certs)
  {
    forall c, d :: c in certs && d in certs && SameStrings(c, d) ==> hash(c.fingerprint.value) == hash(d.fingerprint.value)
  }

  /** One certificate for each host name and fingerprint, whatever their case. */
  predicate OnePerStrings(certs: seq<Cert>) {
    forall i, j :: 0 <= i < j < |certs| ==> !SameStrings(certs[i], certs[j])
  }

  /** Putting a certificate replaces one with the same strings exactly if their hash codes agree. */
  lemma PutReplaces(hash: Hash, certs: seq<Cert>, c: Cert, d: Cert)
    requires Keyed(certs) && c in certs && d.fingerprint.Some? && SameStrings(c, d) && c != d
    ensures c !in Putting(hash, certs, d) <==> hash(c.fingerprint.value) == hash(d.fingerprint.value)
  {
    assert c.fingerprint.Some?;
    var w := Without(hash, certs, KeyOf(hash, d));
    assert c in Putting(hash, certs, d) <==> c in w || c == d;
  }

  predicate HasKey(hash: Hash, certs: seq<Cert>, k: Key)
    requires Keyed(certs)
  {
    exists i :: 0 <= i < |certs| && KeyOf(hash, certs[i]) == k
  }

  lemma PuttingKeys(hash: Hash, certs: seq<Cert>, m: Cert, k: Key)
    requires Keyed(certs) && m.fingerprint.Some?
    ensures HasKey(hash, certs, k) || KeyOf(hash, m) == k ==> HasKey(hash, Putting(hash, certs, m), k)
    ensures forall c :: c in Putting(hash, certs, m) ==> c in certs || c == m
  {
    var w, r := Without(hash, certs, KeyOf(hash, m)), Putting(hash, certs, m);
    assert r[|w|] == m;
    if i :| 0 <= i < |certs| && KeyOf(hash, certs[i]) == k && k != KeyOf(hash, m) {
      assert certs[i] in w;
      var j :| 0 <= j < |w| && w[j] == certs[i];
      assert r[j] == certs[i];
    }
  }

  /** Nothing comes from elsewhere, and every key that was put stays. */
  lemma {:induction false} PutAllKeys(hash: Hash, certs: seq<Cert>, more: seq<Cert>, k: Key)
    requires Keyed(certs) && Keyed(more)
    ensures HasKey(hash, certs, k) || HasKey(hash, more, k) ==> HasKey(hash, PutAll(hash, certs, more), k)
    ensures forall c :: c in PutAll(hash, certs, more) ==> c in certs || c in more
    decreases |more|
  {
    hide Putting, KeyOf;
    if more != [] {
      PuttingKeys(hash, certs, more[0], k);
      PutAllKeys(hash, Putting(hash, certs, more[0]), more[1..], k);
      assert HasKey(hash, more, k) ==> KeyOf(hash, more[0]) == k || HasKey(hash, more[1..], k) by {
        if i :| 0 < i < |more| && KeyOf(hash, more[i]) == k { assert more[1..][i - 1] == more[i]; }
      }
    }
  }

  lemma OnePerStringsKey(hash: Hash, r: seq<Cert>, c: Cert, d: Cert)
    requires Keyed(r) && OnePerStrings(r) && c.fingerprint.Some? && d.fingerprint.Some? && SameStrings(c, d)
    requires HasKey(hash, r, KeyOf(hash, c)) && HasKey(hash, r, KeyOf(hash, d))
    ensures hash(c.fingerprint.value) == hash(d.fingerprint.value)
  {
    hide FoldText;
    var i :| 0 <= i < |r| && KeyOf(hash, r[i]) == KeyOf(hash, c);
    var j :| 0 <= j < |r| && KeyOf(hash, r[j]) == KeyOf(hash, d);
    assert SameStrings(r[i], r[j]) && SameStrings(r[j], r[i]);
  }

  /** Certificates put one after the other leave one for each host name and fingerprint, whatever
      their case, exactly if those put with the same strings have the same hash code. */
  lemma PutAllOnePerStrings(hash: Hash, more: seq<Cert>)
    requires Keyed(more)
    ensures OnePerStrings(PutAll(hash, [], more)) <==> CodesAgree(hash, more)
  {
    hide PutAll, FoldText, HasKey;
    var r := PutAll(hash, [], more);
    PutAllOnePerKey(hash, [], more);
    if CodesAgree(hash, more) {
      forall i, j | 0 <= i < j < |r| ensures !SameStrings(r[i], r[j]) {
        PutAllKeys(hash, [], more, KeyOf(hash, r[i]));
        assert r[i] in more && r[j] in more;
        assert KeyOf(hash, r[i]) != KeyOf(hash, r[j]);
      }
    }
    if OnePerStrings(r) {
      forall c, d | c in more && d in more && SameStrings(c, d)
        ensures hash(c.fingerprint.value) == hash(d.fingerprint.value)
      {
        MemberKey(hash, more, c);
        MemberKey(hash, more, d);
        PutAllKeys(hash, [], more, KeyOf(hash, c));
        PutAllKeys(hash, [], more, KeyOf(hash, d));
        OnePerStringsKey(hash, r, c, d);
      }
    }
  }

  lemma MemberKey(hash: Hash, certs: seq<Cert>, c: Cert)
    requires Keyed(certs) && c in certs
    ensures c.fingerprint.Some? && HasKey(hash, certs, KeyOf(hash, c))
  {
  }

  /** The hash function of the fingerprints, which starts from 5381 and takes `char` as signed. */
  function StrHash(s: seq<Byte>): nat {
    if s == [] then 5381
    else
      var b: int := s[|s| - 1];
      (StrHash(s[..|s| - 1]) * 33 + if b < 128 then b else b - 256) % 0x1_0000_0000
  }

  /** The fingerprints "A" and "a" of one host are both stored. */
  lemma TwoSpellings(host: Text)
    ensures var c, d := Cert(None, None, host, Some([65]), 0), Cert(None, None, host, Some([97]), 0);
      && SameStrings(c, d) && StrHash([65]) != StrHash([97])
      && PutAll(StrHash, [], [c, d]) == [c, d] && !OnePerStrings([c, d])
  {
    var c, d := Cert(None, None, host, Some([65]), 0), Cert(None, None, host, Some([97]), 0);
    assert Fold([65]) == Fold([97]);
    assert StrHash([65]) == 177638 && StrHash([97]) == 177670;
    PutAllKeeps(StrHash, [c, d]);
    assert SameStrings([c, d][0], [c, d][1]);
  }

  /** A missing host name and an empty one are two keys, until the file is loaded again. */
  lemma MissingHost(hash: Hash, fingerprint: seq<Byte>)
    ensures var certs := [Cert(None, None, None, Some(fingerprint), 0), Cert(None, None, Some([]), Some(fingerprint), 0)];
      && Keyed(certs) && OnePerKey(hash, certs) && !OnePerKey(hash, Reloaded(certs))
  {
    var certs := [Cert(None, None, None, Some(fingerprint), 0), Cert(None, None, Some([]), Some(fingerprint), 0)];
    assert KeyOf(hash, Reloaded(certs)[0]) == KeyOf(hash, Reloaded(certs)[1]);
  }

  // ---------------------------------------------------------------- the store

  class CertDb {
    const hash: Hash
    var version: Uint32
    var savedCerts: Uint32
    var certs: seq<Cert>
    var table: map<Key, Cert>
    var dirty: bool

    /** List and table hold the same certificates, one for each key. */
    ghost predicate Valid()
      reads this
    {
      && Keyed(certs) && OnePerKey(hash, certs)
      && (forall c :: c in certs ==> KeyOf(hash, c) in table && table[KeyOf(hash, c)] == c)
      && (forall k :: k in table ==> table[k] in certs && KeyOf(hash, table[k]) == k)
    }

    constructor (hash: Hash)
      ensures Valid() && this.hash == hash && certs == [] && version == VERSION && !dirty
    {
      this.hash := hash;
      version, savedCerts, certs, table, dirty := VERSION, 0, [], map[], false;
    }

    /** camel_certdb_get_host. */
    method GetHost(hostname: Text, fingerprint: Text) returns (cert: Option<Cert>)
      requires Valid() && fingerprint.Some?
      ensures cert.Some? ==> cert.value in certs && KeyOf(hash, cert.value) == KeyFor(hash, hostname, fingerprint)
      ensures cert.None? ==> forall c :: c in certs ==> KeyOf(hash, c) != KeyFor(hash, hostname, fingerprint)
    {
      var key := KeyFor(hash, hostname, fingerprint);
      cert := if key in table then Some(table[key]) else None;
    }

    /** camel_certdb_put. */
    method Put(cert: Cert)
      requires Valid() && cert.fingerprint.Some?
      modifies this`certs, this`table, this`dirty
      ensures Valid() && certs == Putting(hash, old(certs), cert) && dirty
    {
      var key := KeyOf(hash, cert);
      if key in table {
        Drop(key);
      } else {
        WithoutAbsent(hash, certs, key);
      }
      PuttingOnePerKey(hash, certs, cert);
      WithoutAbsent(hash, certs, key);
      certs := certs + [cert];
      table := table[key := cert];
      dirty := true;
    }

    /** The certificate of the key leaves the table and the list. */
    method Drop(key: Key)
      requires Valid() && key in table
      modifies this`certs, this`table
      ensures Valid() && certs == Without(hash, old(certs), key) && key !in table
      ensures forall c :: c in certs ==> KeyOf(hash, c) != key
    {
      WithoutOnePerKey(hash, certs, key);
      table := table - {key};
      certs := Without(hash, certs, key);
    }

    /** camel_certdb_remove_host. */
    method RemoveHost(hostname: Text, fingerprint: Text)
      requires Valid() && fingerprint.Some?
      modifies this`certs, this`table, this`dirty
      ensures Valid() && certs == Without(hash, old(certs), KeyFor(hash, hostname, fingerprint))
      ensures dirty == (old(dirty) || certs != old(certs))
    {
      var key := KeyFor(hash, hostname, fingerprint);
      WithoutAbsent(hash, certs, key);
      if key in table {
        assert exists i :: 0 <= i < |certs| && certs[i] == table[key];
        Drop(key);
        dirty := true;
      }
    }

    /** camel_certdb_clear. */
    method Clear()
      modifies this`certs, this`table, this`dirty, this`savedCerts
      ensures Valid() && certs == [] && table == map[] && savedCerts == 0 && dirty
    {
      certs, table, savedCerts, dirty := [], map[], 0, true;
    }

    /** certdb_cert_load. */
    method CertLoad(input: Stream) returns (cert: Option<Cert>)
      requires input.Valid()
      modifies input`at
      ensures input.Valid()
      ensures var r := old(ReadCert(input.Ahead()));
        if r.Got? then cert == Some(r.value) && input.Ahead() == r.rest else cert == None
    {
      hide ReadText, ReadUint32;
      var ret, issuer := input.DecodeString();
      if ret == -1 { return None; }
      var subject, hostname, fingerprint;
      ret, subject := input.DecodeString();
      if ret == -1 { return None; }
      ret, hostname := input.DecodeString();
      if ret == -1 { return None; }
      ret, fingerprint := input.DecodeString();
      if ret == -1 { return None; }
      var trust;
      ret, trust := input.DecodeUint32();
      if ret == -1 { return None; }
      if trust == TRUST_TEMPORARY { trust := TRUST_UNKNOWN; }
      cert := Some(Cert(issuer, subject, hostname, fingerprint, trust));
    }

    /** certdb_cert_save. */
    method CertSave(cert: Cert, output: Stream)
      modifies output`data
      ensures output.data == old(output.data) + CertBytes(cert)
    {
      hide TextBytes, Uint32Bytes;
      output.EncodeString(cert.issuer);
      output.EncodeString(cert.subject);
      output.EncodeString(cert.hostname);
      output.EncodeString(cert.fingerprint);
      output.EncodeUint32(cert.trust);
    }

    /** The loop of camel_certdb_load. */
    method LoadCerts(input: Stream) returns (ok: bool)
      requires Valid() && input.Valid()
      modifies input`at, this`certs, this`table, this`dirty
      ensures Valid() && (certs, ok) == LoadInto(hash, old(certs), old(input.Ahead()), savedCerts)
    {
      hide ReadCert, Putting, OnePerKey;
      var i := 0;
      while i < savedCerts
        invariant 0 <= i <= savedCerts && Valid() && input.Valid()
        invariant LoadInto(hash, certs, input.Ahead(), savedCerts - i) == LoadInto(hash, old(certs), old(input.Ahead()), savedCerts)
      {
        var cert := CertLoad(input);
        if cert == None { return false; }
        Put(cert.value);
        i := i + 1;
      }
      ok := true;
    }

    /** camel_certdb_load, of a file that can be opened. */
    method Load(file: seq<Byte>) returns (ret: int)
      requires Valid()
      modifies this
      ensures Valid() && (ret == 0 || ret == -1) && (certs, ret == 0) == LoadFile(hash, old(certs), file)
      ensures ret == 0 ==> !dirty && ReadUint32(file).Got? && version == ReadUint32(file).value
    {
      hide ReadUint32, LoadInto, OnePerKey;
      var input := new Stream(file);
      var got;
      got, version := input.DecodeUint32();
      if got == -1 { return -1; }
      got, savedCerts := input.DecodeUint32();
      if got == -1 { return -1; }
      var ok := LoadCerts(input);
      if !ok { return -1; }
      dirty := false;
      ret := 0;
    }

    /** The loop of camel_certdb_save. */
    method SaveCerts(output: Stream)
      requires savedCerts == |certs|
      modifies output`data
      ensures output.data == old(output.data) + AllBytes(certs)
    {
      hide CertBytes;
      var i := 0;
      while i < savedCerts
        invariant 0 <= i <= savedCerts == |certs|
        invariant output.data + AllBytes(certs[i..]) == old(output.data) + AllBytes(certs)
      {
        CertSave(certs[i], output);
        assert certs[i..][0] == certs[i] && certs[i..][1..] == certs[i + 1..];
        i := i + 1;
      }
      assert certs[i..] == [];
    }

    /** camel_certdb_save, when the file can be written; `written` is its new content, if any. */
    method Save() returns (ret: int, written: Option<seq<Byte>>)
      requires Valid() && |certs| < WORD
      modifies this`savedCerts, this`dirty
      ensures Valid() && ret == 0 && !dirty
      ensures written == if old(dirty) then Some(FileBytes(version, certs)) else None
    {
      hide Uint32Bytes, AllBytes, OnePerKey;
      if !dirty { return 0, None; }
      var output := new Stream([]);
      savedCerts := |certs|;
      output.EncodeUint32(version);
      output.EncodeUint32(savedCerts);
      SaveCerts(output);
      dirty := false;
      assert output.data == FileBytes(version, certs);
      return 0, Some(output.data);
    }
  }

  /** Saving a store and loading the file into an empty one gives the same certificates in the same
      order, as they are after reloading, exactly if their keys are still different then; they are
      when all strings are there and fit. */
  method SaveAndLoad(from: CertDb, into: CertDb) returns (ret: int)
    requires from != into && from.hash == into.hash
    requires from.Valid() && from.dirty && |from.certs| < WORD && into.Valid() && into.certs == []
    modifies from`savedCerts, from`dirty, into
    ensures from.Valid() && into.Valid() && ret == 0 && into.version == from.version
    ensures into.certs == Reloaded(from.certs) <==> OnePerKey(from.hash, Reloaded(from.certs))
    ensures (forall i :: 0 <= i < |from.certs| ==> Fits(from.certs[i])) ==> into.certs == Reloaded(from.certs)
    ensures forall c :: c in into.certs ==> c.trust != TRUST_TEMPORARY && exists d :: d in from.certs && CameBack(d, c)
  {
    hide CameBack, OnePerKey, PutAll, Putting;
    var saved, written := from.Save();
    ret := into.Load(written.value);
    LoadSaved(from.hash, [], from.version, from.certs);
    PutAllKeeps(from.hash, Reloaded(from.certs));
    AllCameBack(from.hash, from.certs);
    if forall i :: 0 <= i < |from.certs| ==> Fits(from.certs[i]) {
      ReloadedOnePerKey(from.hash, from.certs);
    }
  }
}
