/**
 * The record-2 codec for memory images and deltas. Containers are maps, written in key
 * order; decoding accepts only the bytes encoding would have written, so accepted bytes are
 * reproduced exactly, through nested members, metadata and provenance.
 */
module MemoryFormat {
  import opened Crc
  import opened Format
  import opened Log

  datatype Scalar = Blobbed(bytes: Bytes) | Whole(value: int) | Truth(truth: bool)

  datatype Descriptor = Descriptor(dimension: nat, provider: Bytes, model: Bytes, revision: Bytes, transform: Bytes)

  datatype Member = Member(
    id: Bytes, namespace: Bytes, content: Bytes, vector: Bytes, deadline: Option<int>,
    metadata: map<Bytes, Scalar>, provenance: map<Bytes, Bytes>)

  datatype Edit = Upsert(member: Member) | Remove(id: Bytes)

  datatype Change =
    | Image(key: Bytes, descriptor: Descriptor, members: map<Bytes, Member>, deadline: Option<int>)
    | Delta(key: Bytes, descriptor: Descriptor, edits: seq<Edit>, deadline: Option<int>)

  /** Validation that the container types do on their own: of a member, and of a whole image. */
  datatype Rules = Rules(
    member: (Member, Descriptor) -> bool,
    image: (Descriptor, map<Bytes, Member>, Bytes) -> bool)

  // ---------- Keys in order ----------

  ghost predicate IsLeast(k: Bytes, keys: set<Bytes>) {
    k in keys && forall j :: j in keys && j != k ==> Less(k, j)
  }

  lemma {:induction false} LeastExists(keys: set<Bytes>)
    requires keys != {}
    ensures exists k :: IsLeast(k, keys)
  {
    var a :| a in keys;
    var rest := keys - {a};
    assert forall j :: j in keys ==> j == a || j in rest;
    if rest == {} {
      assert IsLeast(a, keys);
    } else {
      LeastExists(rest);
      var b :| IsLeast(b, rest);
      LessTotal(a, b);
      var least := if Less(a, b) then a else b;
      forall j | j in keys && j != least ensures Less(least, j) {
        if Less(a, b) && j != b { LessTransitive(a, b, j); }
      }
      assert IsLeast(least, keys);
    }
  }

  /** The keys of a map in ascending order. */
  ghost function Sorted(keys: set<Bytes>): (s: seq<Bytes>)
    ensures |s| == |keys|
  {
    if keys == {} then []
    else
      LeastExists(keys);
      var k :| IsLeast(k, keys);
      [k] + Sorted(keys - {k})
  }

  function Elements(s: seq<Bytes>): set<Bytes> { set k | k in s }

  /** An ascending list is the ordering of its elements. */
  lemma {:induction false} SortedIs(s: seq<Bytes>)
    requires Ascending(s)
    ensures Sorted(Elements(s)) == s
  {
    if s == [] {
      assert Elements(s) == {};
    } else {
      var keys := Elements(s);
      assert s[0] in keys;
      var k := Sorted(keys)[0];
      assert IsLeast(k, keys) by { SortedHead(keys); }
      if k != s[0] {
        var i :| 0 < i < |s| && s[i] == k;
        LessAsymmetric(s[0], s[i]);
      }
      TailOf(s);
      SortedIs(s[1..]);
      assert Sorted(keys) == [k] + Sorted(keys - {k}) by { SortedTail(keys); }
    }
  }

  lemma SortedHead(keys: set<Bytes>)
    requires keys != {}
    ensures |Sorted(keys)| > 0 && IsLeast(Sorted(keys)[0], keys)
  {
    LeastExists(keys);
  }

  lemma SortedTail(keys: set<Bytes>)
    requires keys != {}
    ensures Sorted(keys) == [Sorted(keys)[0]] + Sorted(keys - {Sorted(keys)[0]})
  {
    LeastExists(keys);
  }

  lemma TailOf(s: seq<Bytes>)
    requires Ascending(s) && s != []
    ensures Ascending(s[1..]) && Elements(s[1..]) == Elements(s) - {s[0]}
  {
    forall k | k in Elements(s) - {s[0]} ensures k in s[1..] {
      var i :| 0 <= i < |s| && s[i] == k;
      assert s[1..][i - 1] == k;
    }
    forall k | k in s[1..] ensures k in Elements(s) - {s[0]} {
      var i :| 0 <= i < |s[1..]| && s[1..][i] == k;
      LessAsymmetric(s[0], s[i + 1]);
    }
  }

  lemma {:induction false} SortedAscending(keys: set<Bytes>)
    ensures Ascending(Sorted(keys)) && Elements(Sorted(keys)) == keys
  {
    hide Sorted, Elements, Ascending, Less;
    if keys == {} {
      SortedNone();
    } else {
      SortedHead(keys);
      SortedTail(keys);
      var k := Sorted(keys)[0];
      SortedAscending(keys - {k});
      ConsElements(k, Sorted(keys - {k}));
      ConsAscending(k, Sorted(keys - {k}));
    }
  }

  lemma SortedNone()
    ensures Sorted({}) == [] && Ascending([]) && Elements([]) == {}
  {
  }

  lemma ConsAscending(k: Bytes, s: seq<Bytes>)
    requires Ascending(s) && forall j :: j in Elements(s) ==> Less(k, j)
    ensures Ascending([k] + s)
  {
    hide Less;
    forall i, j | 0 <= i < j < |s| + 1 ensures Less(([k] + s)[i], ([k] + s)[j]) {
      assert s[j - 1] in Elements(s);
    }
  }

  lemma SnocAscending(s: seq<Bytes>, k: Bytes)
    requires Ascending(s) && forall j :: j in Elements(s) ==> Less(j, k)
    ensures Ascending(s + [k])
  {
    hide Less;
    forall i, j | 0 <= i < j < |s| + 1 ensures Less((s + [k])[i], (s + [k])[j]) {
      assert s[i] in Elements(s);
    }
  }

  lemma ConsElements(k: Bytes, s: seq<Bytes>)
    ensures Elements([k] + s) == {k} + Elements(s)
  {
    forall j | j in s ensures j in [k] + s {
      var i :| 0 <= i < |s| && s[i] == j;
      assert ([k] + s)[i + 1] == j;
    }
  }

  lemma SnocElements(s: seq<Bytes>, k: Bytes)
    ensures Elements(s + [k]) == Elements(s) + {k}
  {
    assert (s + [k])[|s|] == k;
    forall j | j in s ensures j in s + [k] {
      var i :| 0 <= i < |s| && s[i] == j;
      assert (s + [k])[i] == j;
    }
  }

  /** A key beyond the last goes to the end. */
  lemma SortedPush(keys: set<Bytes>, k: Bytes)
    requires forall j :: j in keys ==> Less(j, k)
    ensures k !in keys && Sorted(keys + {k}) == Sorted(keys) + [k]
  {
    hide Sorted, Less, Elements, Ascending;
    var s := Sorted(keys);
    SortedAscending(keys);
    if k in keys { LessAsymmetric(k, k); }
    SnocAscending(s, k);
    SnocElements(s, k);
    SortedIs(s + [k]);
  }

  // ---------- Maps on the wire ----------

  datatype Entry<T> = Entry(key: Bytes, value: T)

  datatype Gathered<T> = Gathered(entries: map<Bytes, T>, previous: Option<Bytes>)

  ghost function EncodeKeys<T(!new)>(keys: seq<Bytes>, m: map<Bytes, T>, enc: (Bytes, T) -> Bytes): Bytes {
    if keys == [] then []
    else
      var k := keys[|keys| - 1];
      EncodeKeys(keys[..|keys| - 1], m, enc) + if k in m then enc(k, m[k]) else []
  }

  ghost function EncodeMap<T(!new)>(m: map<Bytes, T>, enc: (Bytes, T) -> Bytes): Bytes {
    EncodeKeys(Sorted(m.Keys), m, enc)
  }

  /** Reads n entries, each key beyond the one before. */
  function ReadMap<T>(s: Bytes, n: nat, dec: Bytes -> Parse<Entry<T>>): Parse<Gathered<T>> {
    if n == 0 then Good(Gathered(map[], None), s)
    else
      var (acc, rest) :- ReadMap(s, n - 1, dec);
      var (e, rest) :- dec(rest);
      if acc.previous.Some? && !Less(acc.previous.value, e.key) then Bad
      else Good(Gathered(acc.entries[e.key := e.value], Some(e.key)), rest)
  }

  lemma {:induction false} KeysUnchanged<T(!new)>(keys: seq<Bytes>, m: map<Bytes, T>, k: Bytes, v: T,
        enc: (Bytes, T) -> Bytes)
    requires k !in keys
    ensures EncodeKeys(keys, m[k := v], enc) == EncodeKeys(keys, m, enc)
  {
    if keys != [] { KeysUnchanged(keys[..|keys| - 1], m, k, v, enc); }
  }

  /** A map with one more key at the end is written with one more entry at the end. */
  lemma EncodePush<T(!new)>(m: map<Bytes, T>, k: Bytes, v: T, enc: (Bytes, T) -> Bytes)
    requires forall j :: j in m ==> Less(j, k)
    ensures EncodeMap(m[k := v], enc) == EncodeMap(m, enc) + enc(k, v)
  {
    hide Sorted, Less;
    var keys := Sorted(m.Keys);
    SortedPush(m.Keys, k);
    SortedAscending(m.Keys);
    assert m[k := v].Keys == m.Keys + {k};
    assert (keys + [k])[..|keys|] == keys;
    assert k in keys <==> k in Elements(keys);
    KeysUnchanged(keys, m, k, v, enc);
  }

  ghost predicate Canonical<T(!new)>(dec: Bytes -> Parse<Entry<T>>, enc: (Bytes, T) -> Bytes) {
    forall s :: dec(s).Good? ==> s == enc(dec(s).value.key, dec(s).value.value) + dec(s).rest
  }

  /** What a map is read from is what it is written as. */
  lemma {:induction false} ReadMapCanonical<T(!new)>(s: Bytes, n: nat, dec: Bytes -> Parse<Entry<T>>,
        enc: (Bytes, T) -> Bytes)
    requires Canonical(dec, enc) && ReadMap(s, n, dec).Good?
    ensures var r := ReadMap(s, n, dec);
            && s == EncodeMap(r.value.entries, enc) + r.rest && |r.value.entries| == n
            && (n > 0 ==> r.value.previous.Some? && r.value.previous.value in r.value.entries)
            && (r.value.previous.Some? ==>
                  forall j :: j in r.value.entries ==> j == r.value.previous.value || Less(j, r.value.previous.value))
  {
    hide Less, EncodeMap, Canonical;
    var r := ReadMap(s, n, dec);
    if n == 0 {
      EncodeNone(enc);
      assert [] + s == s;
    } else {
      ReadMapCanonical(s, n - 1, dec, enc);
      var before := ReadMap(s, n - 1, dec);
      OneEntry(before.rest, dec, enc);
      var e := dec(before.rest).value;
      Beyond(before.value, e.key);
      EncodePush(before.value.entries, e.key, e.value, enc);
      Associate(EncodeMap(before.value.entries, enc), enc(e.key, e.value), r.rest);
    }
  }

  lemma Associate(a: Bytes, b: Bytes, c: Bytes)
    ensures a + (b + c) == (a + b) + c
  {
  }

  lemma OneEntry<T(!new)>(s: Bytes, dec: Bytes -> Parse<Entry<T>>, enc: (Bytes, T) -> Bytes)
    requires Canonical(dec, enc) && dec(s).Good?
    ensures s == enc(dec(s).value.key, dec(s).value.value) + dec(s).rest
  {
  }

  /** A key beyond the previous one is beyond them all, and new. */
  lemma Beyond<T(!new)>(acc: Gathered<T>, k: Bytes)
    requires acc.previous.Some? ==> Less(acc.previous.value, k)
    requires acc.entries != map[] ==> acc.previous.Some?
    requires acc.previous.Some? ==>
               forall j :: j in acc.entries ==> j == acc.previous.value || Less(j, acc.previous.value)
    ensures k !in acc.entries && forall j :: j in acc.entries ==> Less(j, k)
  {
    hide Less;
    forall j | j in acc.entries ensures Less(j, k) {
      if j != acc.previous.value { LessTransitive(j, acc.previous.value, k); }
    }
    if k in acc.entries { LessAsymmetric(k, k); }
  }

  lemma EncodeNone<T(!new)>(enc: (Bytes, T) -> Bytes)
    ensures var none: map<Bytes, T> := map[]; EncodeMap(none, enc) == []
  {
  }

  ghost predicate Reads<T(!new)>(m: map<Bytes, T>, dec: Bytes -> Parse<Entry<T>>, enc: (Bytes, T) -> Bytes) {
    forall k, t :: k in m ==> dec(enc(k, m[k]) + t) == Good(Entry(k, m[k]), t)
  }

  ghost function Only<T>(m: map<Bytes, T>, keys: seq<Bytes>): map<Bytes, T> {
    map k | k in keys && k in m :: m[k]
  }

  lemma {:induction false} KeysBack<T(!new)>(keys: seq<Bytes>, m: map<Bytes, T>, t: Bytes,
        dec: Bytes -> Parse<Entry<T>>, enc: (Bytes, T) -> Bytes)
    requires Ascending(keys) && Reads(m, dec, enc) && forall k :: k in keys ==> k in m
    ensures ReadMap(EncodeKeys(keys, m, enc) + t, |keys|, dec)
            == Good(Gathered(Only(m, keys), if keys == [] then None else Some(keys[|keys| - 1])), t)
  {
    hide Less;
    if keys == [] {
      assert Only(m, keys) == map[] && EncodeKeys(keys, m, enc) + t == t;
    } else {
      var n := |keys| - 1;
      var k, front := keys[n], keys[..n];
      assert k in m;
      var tail := enc(k, m[k]) + t;
      forall j | j in front ensures j in m { assert j in keys; }
      KeysBack(front, m, tail, dec, enc);
      Associate(EncodeKeys(front, m, enc), enc(k, m[k]), t);
      assert keys == front + [k];
      assert Only(m, front)[k := m[k]] == Only(m, keys);
      if n > 0 { assert Less(keys[n - 1], k); }
    }
  }

  /** Every map is read back from what it is written as. */
  lemma MapBack<T(!new)>(m: map<Bytes, T>, t: Bytes, dec: Bytes -> Parse<Entry<T>>, enc: (Bytes, T) -> Bytes)
    requires Reads(m, dec, enc)
    ensures var r := ReadMap(EncodeMap(m, enc) + t, |m|, dec); r.Good? && r.value.entries == m && r.rest == t
  {
    hide Less, ReadMap, EncodeKeys, Ascending, Reads, Sorted;
    var keys := Sorted(m.Keys);
    SortedAscending(m.Keys);
    forall k | k in keys ensures k in m { assert k in Elements(keys); }
    KeysBack(keys, m, t, dec, enc);
    forall k | k in m ensures k in keys { assert k in Elements(keys); }
    assert Only(m, keys) == m;
    assert |m| == |m.Keys|;
  }

  // ---------- Fields ----------

  lemma UintCanonical(s: Bytes, k: nat)
    requires Uint(s, k).Good?
    ensures s == LE(Uint(s, k).value, k) + Uint(s, k).rest && Uint(s, k).value < Pow256(k)
  {
    var b := s[..k];
    LERoundTrip(FromLE(b), k);
    FromLEInjective(LE(FromLE(b), k), b);
    assert s == b + s[k..];
  }

  function Bounded(s: Bytes, least: nat, most: nat): Parse<Bytes> {
    var (n, rest) :- Uint(s, 4);
    if n < least || n > most then Bad else Take(rest, n)
  }

  lemma BoundedCanonical(s: Bytes, least: nat, most: nat)
    requires Bounded(s, least, most).Good?
    ensures var r := Bounded(s, least, most);
            s == EncodeBlob(r.value) + r.rest && least <= |r.value| <= most
  {
    hide LE, Uint;
    UintCanonical(s, 4);
    var u, r := Uint(s, 4), Bounded(s, least, most);
    assert u.rest == r.value + r.rest;
    Associate(LE(u.value, 4), r.value, r.rest);
  }

  lemma BoundedBack(b: Bytes, least: nat, most: nat, t: Bytes)
    requires least <= |b| <= most < WORD
    ensures Bounded(EncodeBlob(b) + t, least, most) == Good(b, t)
  {
    hide LE, FromLE, Uint;
    Widths();
    assert EncodeBlob(b) + t == LE(|b|, 4) + (b + t);
    UintBack(|b|, 4, b + t);
    TakePrefix(b, t);
  }

  /** A deadline with its flag; a member's is positive. */
  function ReadDeadline(s: Bytes, member: bool): Parse<Option<int>> {
    var (flag, rest) :- Uint(s, 1);
    var (raw, rest) :- Uint(rest, 8);
    if flag == 0 && raw == 0 then Good(None, rest)
    else if flag == 1 && (!member || Signed(raw) > 0) then Good(Some(Signed(raw)), rest)
    else Bad
  }

  predicate DeadlineOk(d: Option<int>, member: bool) {
    d.Some? ==> -(LONG / 2) <= d.value < LONG / 2 && (!member || d.value > 0)
  }

  lemma SignedUnsigned(n: nat)
    requires n < LONG
    ensures Unsigned(Signed(n)) == n && -(LONG / 2) <= Signed(n) < LONG / 2
  {
  }

  lemma DeadlineCanonical(s: Bytes, member: bool)
    requires ReadDeadline(s, member).Good?
    ensures var r := ReadDeadline(s, member); s == EncodeDeadline(r.value) + r.rest && DeadlineOk(r.value, member)
  {
    hide LE, Uint, Unsigned, Signed;
    UintCanonical(s, 1);
    var flag := Uint(s, 1);
    UintCanonical(flag.rest, 8);
    Widths();
    var raw, r := Uint(flag.rest, 8), ReadDeadline(s, member);
    SignedUnsigned(raw.value);
    assert LE(flag.value, 1) == [flag.value] by { OneByte(flag.value); }
    Associate(LE(flag.value, 1), LE(raw.value, 8), raw.rest);
  }

  lemma OneByte(n: nat)
    requires n < 256
    ensures LE(n, 1) == [n]
  {
  }

  lemma SignedBack(v: int)
    requires -(LONG / 2) <= v < LONG / 2
    ensures Signed(Unsigned(v)) == v
  {
  }

  lemma ReadDeadlineBack(d: Option<int>, member: bool, t: Bytes)
    requires DeadlineOk(d, member)
    ensures ReadDeadline(EncodeDeadline(d) + t, member) == Good(d, t)
  {
    hide LE, FromLE, Uint, Unsigned, Signed;
    var raw := if d.None? then 0 else Unsigned(d.value);
    var flag: byte := if d.None? then 0 else 1;
    assert EncodeDeadline(d) + t == [flag] + (LE(raw, 8) + t);
    ByteBack(flag, LE(raw, 8) + t);
    Widths();
    UintBack(raw, 8, t);
    if d.Some? { SignedBack(d.value); }
  }

  /** A count, refused beyond a maximum or when that many entries could not follow. */
  function Announced(s: Bytes, most: nat, unit: nat): Parse<nat>
    requires unit > 0
  {
    var (n, rest) :- Uint(s, 4);
    if n > most || n > |rest| / unit then Bad else Good(n, rest)
  }

  lemma CountedCanonical(s: Bytes, most: nat, unit: nat)
    requires unit > 0 && Announced(s, most, unit).Good?
    ensures var r := Announced(s, most, unit); s == LE(r.value, 4) + r.rest && r.value <= most
  {
    hide LE, Uint;
    UintCanonical(s, 4);
  }

  lemma CountedBack(n: nat, most: nat, unit: nat, t: Bytes)
    requires unit > 0 && n <= most < WORD && n * unit <= |t|
    ensures Announced(LE(n, 4) + t, most, unit) == Good(n, t)
  {
    hide LE, FromLE, Uint;
    Widths();
    UintBack(n, 4, t);
    AtMostQuotient(n, unit, |t|);
  }

  lemma AtMostQuotient(n: nat, unit: nat, size: nat)
    requires unit > 0 && n * unit <= size
    ensures n <= size / unit
  {
    var q := size / unit;
    Remainder(size, unit);
    if q < n { AtLeastTimes(q + 1, n, unit); }
  }

  lemma Remainder(size: nat, unit: nat)
    requires unit > 0
    ensures size < (size / unit + 1) * unit
  {
    assert (size / unit + 1) * unit == size / unit * unit + unit;
  }

  lemma AtLeastTimes(a: nat, b: nat, unit: nat)
    requires a <= b
    ensures a * unit <= b * unit
  {
  }

  // ---------- Metadata and provenance ----------

  function EncodeScalar(v: Scalar): Bytes {
    match v
    case Blobbed(b) => [1] + EncodeBlob(b)
    case Whole(n) => [2] + LE(Unsigned(n), 8)
    case Truth(t) => [3] + [if t then 1 else 0]
  }

  function ReadScalar(s: Bytes): Parse<Scalar> {
    var (tag, rest) :- Uint(s, 1);
    if tag == 1 then
      var (b, rest) :- Bounded(rest, 0, 4096);
      Good(Blobbed(b), rest)
    else if tag == 2 then
      var (n, rest) :- Uint(rest, 8);
      Good(Whole(Signed(n)), rest)
    else if tag == 3 then
      var (b, rest) :- Uint(rest, 1);
      if b == 0 then Good(Truth(false), rest) else if b == 1 then Good(Truth(true), rest) else Bad
    else Bad
  }

  predicate ScalarOk(v: Scalar) {
    match v
    case Blobbed(b) => |b| <= 4096
    case Whole(n) => -(LONG / 2) <= n < LONG / 2
    case Truth(_) => true
  }

  lemma ByteCanonical(s: Bytes)
    requires Uint(s, 1).Good?
    ensures Uint(s, 1).value < 256 && s == [Uint(s, 1).value] + Uint(s, 1).rest
  {
    hide LE, Uint;
    UintCanonical(s, 1);
    Widths();
    OneByte(Uint(s, 1).value);
  }

  lemma ScalarCanonical(s: Bytes)
    requires ReadScalar(s).Good?
    ensures var r := ReadScalar(s); s == EncodeScalar(r.value) + r.rest && ScalarOk(r.value)
  {
    hide LE, Uint, Bounded, Signed, Unsigned;
    ByteCanonical(s);
    var tag, r := Uint(s, 1), ReadScalar(s);
    if tag.value == 1 {
      BoundedCanonical(tag.rest, 0, 4096);
    } else if tag.value == 2 {
      UintCanonical(tag.rest, 8);
      Widths();
      SignedUnsigned(Uint(tag.rest, 8).value);
    } else {
      ByteCanonical(tag.rest);
    }
    assert tag.rest == EncodeScalar(r.value)[1..] + r.rest;
    assert EncodeScalar(r.value) == [tag.value] + EncodeScalar(r.value)[1..];
    Associate([tag.value], EncodeScalar(r.value)[1..], r.rest);
  }

  lemma ScalarBack(v: Scalar, t: Bytes)
    requires ScalarOk(v)
    ensures ReadScalar(EncodeScalar(v) + t) == Good(v, t)
  {
    hide LE, FromLE, Uint, Bounded, Signed, Unsigned;
    match v
    case Blobbed(b) =>
      assert EncodeScalar(v) + t == [1] + (EncodeBlob(b) + t);
      ByteBack(1, EncodeBlob(b) + t);
      BoundedBack(b, 0, 4096, t);
    case Whole(n) =>
      assert EncodeScalar(v) + t == [2] + (LE(Unsigned(n), 8) + t);
      ByteBack(2, LE(Unsigned(n), 8) + t);
      Widths();
      UintBack(Unsigned(n), 8, t);
      SignedBack(n);
    case Truth(b) =>
      var flag: byte := if b then 1 else 0;
      assert EncodeScalar(v) + t == [3] + ([flag] + t);
      ByteBack(3, [flag] + t);
      ByteBack(flag, t);
  }

  function EncodeTag(k: Bytes, v: Scalar): Bytes { EncodeBlob(k) + EncodeScalar(v) }

  function ReadTag(s: Bytes): Parse<Entry<Scalar>> {
    var (k, rest) :- Bounded(s, 1, 64);
    var (v, rest) :- ReadScalar(rest);
    Good(Entry(k, v), rest)
  }

  function EncodeSource(k: Bytes, v: Bytes): Bytes { EncodeBlob(k) + EncodeBlob(v) }

  function ReadSource(s: Bytes): Parse<Entry<Bytes>> {
    var (k, rest) :- Bounded(s, 1, 64);
    var (v, rest) :- Bounded(rest, 0, 4096);
    Good(Entry(k, v), rest)
  }

  predicate TagsOk(m: map<Bytes, Scalar>) {
    |m| <= 32 && forall k :: k in m ==> 1 <= |k| <= 64 && ScalarOk(m[k])
  }

  predicate SourcesOk(m: map<Bytes, Bytes>) {
    |m| <= 16 && forall k :: k in m ==> 1 <= |k| <= 64 && |m[k]| <= 4096
  }

  lemma TagCanonical()
    ensures Canonical(ReadTag, EncodeTag) && Canonical(ReadSource, EncodeSource)
  {
    hide Bounded, ReadScalar, EncodeScalar, EncodeBlob;
    forall s | ReadTag(s).Good? ensures s == EncodeTag(ReadTag(s).value.key, ReadTag(s).value.value) + ReadTag(s).rest {
      BoundedCanonical(s, 1, 64);
      var k := Bounded(s, 1, 64);
      ScalarCanonical(k.rest);
      Associate(EncodeBlob(k.value), EncodeScalar(ReadTag(s).value.value), ReadTag(s).rest);
    }
    forall s | ReadSource(s).Good?
      ensures s == EncodeSource(ReadSource(s).value.key, ReadSource(s).value.value) + ReadSource(s).rest {
      BoundedCanonical(s, 1, 64);
      var k := Bounded(s, 1, 64);
      BoundedCanonical(k.rest, 0, 4096);
      Associate(EncodeBlob(k.value), EncodeBlob(ReadSource(s).value.value), ReadSource(s).rest);
    }
  }

  lemma TagsRead(m: map<Bytes, Scalar>)
    requires TagsOk(m)
    ensures Reads(m, ReadTag, EncodeTag)
  {
    hide Bounded, ReadScalar, EncodeScalar, EncodeBlob, ScalarOk;
    forall k, t | k in m ensures ReadTag(EncodeTag(k, m[k]) + t) == Good(Entry(k, m[k]), t) {
      Associate(EncodeBlob(k), EncodeScalar(m[k]), t);
      BoundedBack(k, 1, 64, EncodeScalar(m[k]) + t);
      ScalarBack(m[k], t);
    }
  }

  lemma SourcesRead(m: map<Bytes, Bytes>)
    requires SourcesOk(m)
    ensures Reads(m, ReadSource, EncodeSource)
  {
    hide Bounded, EncodeBlob;
    forall k, t | k in m ensures ReadSource(EncodeSource(k, m[k]) + t) == Good(Entry(k, m[k]), t) {
      Associate(EncodeBlob(k), EncodeBlob(m[k]), t);
      BoundedBack(k, 1, 64, EncodeBlob(m[k]) + t);
      BoundedBack(m[k], 0, 4096, t);
    }
  }

  /** What entries of at least this size add up to. */
  lemma {:induction false} KeysLength<T(!new)>(keys: seq<Bytes>, m: map<Bytes, T>, enc: (Bytes, T) -> Bytes, unit: nat)
    requires forall k :: k in keys ==> k in m && |enc(k, m[k])| >= unit
    ensures |EncodeKeys(keys, m, enc)| >= |keys| * unit
  {
    if keys != [] {
      var n := |keys| - 1;
      assert keys[n] in keys;
      forall k | k in keys[..n] ensures k in m && |enc(k, m[k])| >= unit { assert k in keys; }
      KeysLength(keys[..n], m, enc, unit);
      assert (n + 1) * unit == n * unit + unit;
    }
  }

  lemma MapLength<T(!new)>(m: map<Bytes, T>, enc: (Bytes, T) -> Bytes, unit: nat)
    requires forall k :: k in m ==> |enc(k, m[k])| >= unit
    ensures |EncodeMap(m, enc)| >= |m| * unit
  {
    hide Sorted, EncodeKeys;
    var keys := Sorted(m.Keys);
    SortedAscending(m.Keys);
    forall k | k in keys ensures k in m { assert k in Elements(keys); }
    KeysLength(keys, m, enc, unit);
    assert |m| == |m.Keys|;
  }

  /** Metadata and provenance: each a count and its entries in key order. */
  datatype Notes = Notes(metadata: map<Bytes, Scalar>, provenance: map<Bytes, Bytes>)

  ghost function EncodeNotes(n: Notes): Bytes {
    LE(|n.metadata|, 4) + EncodeMap(n.metadata, EncodeTag)
        + (LE(|n.provenance|, 4) + EncodeMap(n.provenance, EncodeSource))
  }

  function ReadNotes(s: Bytes): Parse<Notes> {
    var (tags, rest) :- Announced(s, 32, 6);
    var (metadata, rest) :- ReadMap(rest, tags, ReadTag);
    var (sources, rest) :- Announced(rest, 16, 9);
    var (provenance, rest) :- ReadMap(rest, sources, ReadSource);
    Good(Notes(metadata.entries, provenance.entries), rest)
  }

  lemma NotesCanonical(s: Bytes)
    requires ReadNotes(s).Good?
    ensures s == EncodeNotes(ReadNotes(s).value) + ReadNotes(s).rest
  {
    hide LE, Announced, ReadMap, EncodeMap, Canonical;
    TagCanonical();
    CountedCanonical(s, 32, 6);
    var a := Announced(s, 32, 6);
    ReadMapCanonical(a.rest, a.value, ReadTag, EncodeTag);
    var b := ReadMap(a.rest, a.value, ReadTag);
    CountedCanonical(b.rest, 16, 9);
    var c := Announced(b.rest, 16, 9);
    ReadMapCanonical(c.rest, c.value, ReadSource, EncodeSource);
    var d := ReadMap(c.rest, c.value, ReadSource);
    var x, y := EncodeMap(b.value.entries, EncodeTag), EncodeMap(d.value.entries, EncodeSource);
    Associate(LE(a.value, 4), x, b.rest);
    Associate(LE(c.value, 4), y, d.rest);
    Associate(LE(a.value, 4) + x, LE(c.value, 4) + y, d.rest);
  }

  lemma NotesBack(n: Notes, t: Bytes)
    requires TagsOk(n.metadata) && SourcesOk(n.provenance)
    ensures ReadNotes(EncodeNotes(n) + t) == Good(n, t)
  {
    hide LE, Announced, ReadMap, EncodeMap, Reads, EncodeTag, EncodeSource;
    TagsRead(n.metadata);
    SourcesRead(n.provenance);
    var x, y := EncodeMap(n.metadata, EncodeTag), EncodeMap(n.provenance, EncodeSource);
    var a, b := LE(|n.metadata|, 4), LE(|n.provenance|, 4);
    NotesLength(n);
    Associate(a + x, b + y, t);
    Associate(a, x, b + y + t);
    Associate(b, y, t);
    assert b + y + t == (b + y) + t;
    CountedBack(|n.metadata|, 32, 6, x + (b + y + t));
    MapBack(n.metadata, b + y + t, ReadTag, EncodeTag);
    CountedBack(|n.provenance|, 16, 9, y + t);
    MapBack(n.provenance, t, ReadSource, EncodeSource);
  }

  lemma NotesLength(n: Notes)
    requires TagsOk(n.metadata) && SourcesOk(n.provenance)
    ensures |EncodeMap(n.metadata, EncodeTag)| >= |n.metadata| * 6
    ensures |EncodeMap(n.provenance, EncodeSource)| >= |n.provenance| * 9
    ensures |EncodeNotes(n)| >= 8
  {
    hide EncodeMap;
    forall k | k in n.metadata ensures |EncodeTag(k, n.metadata[k])| >= 6 {}
    MapLength(n.metadata, EncodeTag, 6);
    MapLength(n.provenance, EncodeSource, 9);
  }

  // ---------- Members ----------

  datatype Text = Text(id: Bytes, namespace: Bytes, content: Bytes, vector: Bytes, deadline: Option<int>)

  function EncodeText(m: Text, dimension: nat): Bytes {
    EncodeBlob(m.id) + (EncodeBlob(m.namespace) + (EncodeBlob(m.content)
      + (LE(dimension, 4) + (m.vector + EncodeDeadline(m.deadline)))))
  }

  function ReadText(s: Bytes, dimension: nat): Parse<Text> {
    var (id, rest) :- Bounded(s, 1, 256);
    var (namespace, rest) :- Bounded(rest, 0, 256);
    var (content, rest) :- Bounded(rest, 0, 65536);
    var (d, rest) :- Uint(rest, 4);
    if d != dimension then Bad
    else
      var (vector, rest) :- Take(rest, dimension * 4);
      var (deadline, rest) :- ReadDeadline(rest, true);
      Good(Text(id, namespace, content, vector, deadline), rest)
  }

  predicate TextOk(m: Text, dimension: nat) {
    && 1 <= |m.id| <= 256 && |m.namespace| <= 256 && |m.content| <= 65536
    && |m.vector| == dimension * 4 && DeadlineOk(m.deadline, true)
  }

  lemma TextCanonical(s: Bytes, dimension: nat)
    requires ReadText(s, dimension).Good?
    ensures var r := ReadText(s, dimension); s == EncodeText(r.value, dimension) + r.rest && TextOk(r.value, dimension)
  {
    hide LE, Uint, Bounded, ReadDeadline, EncodeDeadline, EncodeBlob;
    BoundedCanonical(s, 1, 256);
    var a := Bounded(s, 1, 256);
    BoundedCanonical(a.rest, 0, 256);
    var b := Bounded(a.rest, 0, 256);
    BoundedCanonical(b.rest, 0, 65536);
    var c := Bounded(b.rest, 0, 65536);
    UintCanonical(c.rest, 4);
    var u := Uint(c.rest, 4);
    var v := Take(u.rest, dimension * 4);
    assert u.rest == v.value + v.rest;
    DeadlineCanonical(v.rest, true);
    var r := ReadText(s, dimension);
    var e := EncodeDeadline(r.value.deadline);
    Associate(v.value, e, r.rest);
    Associate(LE(dimension, 4), v.value + e, r.rest);
    Associate(EncodeBlob(c.value), LE(dimension, 4) + (v.value + e), r.rest);
    Associate(EncodeBlob(b.value), EncodeBlob(c.value) + (LE(dimension, 4) + (v.value + e)), r.rest);
    Associate(EncodeBlob(a.value), EncodeBlob(b.value) + (EncodeBlob(c.value) + (LE(dimension, 4) + (v.value + e))),
        r.rest);
  }

  lemma TextBack(m: Text, dimension: nat, t: Bytes)
    requires TextOk(m, dimension) && dimension <= 4096
    ensures ReadText(EncodeText(m, dimension) + t, dimension) == Good(m, t)
  {
    hide LE, FromLE, Uint, Bounded, ReadDeadline, EncodeDeadline, EncodeBlob, Take;
    var e := EncodeDeadline(m.deadline) + t;
    var d := m.vector + e;
    var c := LE(dimension, 4) + d;
    var b := EncodeBlob(m.content) + c;
    var a := EncodeBlob(m.namespace) + b;
    assert EncodeText(m, dimension) + t == EncodeBlob(m.id) + a;
    BoundedBack(m.id, 1, 256, a);
    BoundedBack(m.namespace, 0, 256, b);
    BoundedBack(m.content, 0, 65536, c);
    Widths();
    UintBack(dimension, 4, d);
    TakePrefix(m.vector, e);
    ReadDeadlineBack(m.deadline, true, t);
  }

  function TextOf(m: Member): Text { Text(m.id, m.namespace, m.content, m.vector, m.deadline) }

  function NotesOf(m: Member): Notes { Notes(m.metadata, m.provenance) }

  function MemberOf(t: Text, n: Notes): Member {
    Member(t.id, t.namespace, t.content, t.vector, t.deadline, n.metadata, n.provenance)
  }

  ghost function EncodeMember(m: Member, dimension: nat): Bytes {
    EncodeText(TextOf(m), dimension) + EncodeNotes(NotesOf(m))
  }

  function ReadMember(s: Bytes, d: Descriptor, rules: Rules): Parse<Member> {
    var (text, rest) :- ReadText(s, d.dimension);
    var (notes, rest) :- ReadNotes(rest);
    var m := MemberOf(text, notes);
    if rules.member(m, d) then Good(m, rest) else Bad
  }

  predicate MemberOk(m: Member, d: Descriptor, rules: Rules) {
    TextOk(TextOf(m), d.dimension) && TagsOk(m.metadata) && SourcesOk(m.provenance) && rules.member(m, d)
  }

  lemma MemberCanonical(s: Bytes, d: Descriptor, rules: Rules)
    requires ReadMember(s, d, rules).Good?
    ensures s == EncodeMember(ReadMember(s, d, rules).value, d.dimension) + ReadMember(s, d, rules).rest
    ensures |ReadMember(s, d, rules).value.id| >= 1
  {
    hide ReadText, ReadNotes, EncodeText, EncodeNotes;
    TextCanonical(s, d.dimension);
    var a := ReadText(s, d.dimension);
    NotesCanonical(a.rest);
    var b := ReadNotes(a.rest);
    Associate(EncodeText(a.value, d.dimension), EncodeNotes(b.value), b.rest);
  }

  lemma MemberBack(m: Member, d: Descriptor, rules: Rules, t: Bytes)
    requires MemberOk(m, d, rules) && d.dimension <= 4096
    ensures ReadMember(EncodeMember(m, d.dimension) + t, d, rules) == Good(m, t)
  {
    hide ReadText, ReadNotes, EncodeText, EncodeNotes, TagsOk, SourcesOk, TextOk;
    var n := EncodeNotes(NotesOf(m));
    Associate(EncodeText(TextOf(m), d.dimension), n, t);
    TextBack(TextOf(m), d.dimension, n + t);
    NotesBack(NotesOf(m), t);
  }

  lemma MemberLength(m: Member, d: Descriptor, rules: Rules)
    requires MemberOk(m, d, rules) && d.dimension >= 1
    ensures |EncodeMember(m, d.dimension)| >= 38
  {
    hide EncodeMap, TagsOk, SourcesOk, LE;
    NotesLength(NotesOf(m));
  }

  ghost function MemberEnc(dimension: nat): (Bytes, Member) -> Bytes { (id, m) => EncodeMember(m, dimension) }

  function MemberDec(d: Descriptor, rules: Rules): Bytes -> Parse<Entry<Member>> {
    s => ReadEntry(s, d, rules)
  }

  function ReadEntry(s: Bytes, d: Descriptor, rules: Rules): Parse<Entry<Member>> {
    var (m, rest) :- ReadMember(s, d, rules);
    Good(Entry(m.id, m), rest)
  }

  lemma MembersCanonical(d: Descriptor, rules: Rules)
    ensures Canonical(MemberDec(d, rules), MemberEnc(d.dimension))
  {
    hide ReadMember, EncodeMember;
    forall s | ReadEntry(s, d, rules).Good?
      ensures s == EncodeMember(ReadEntry(s, d, rules).value.value, d.dimension) + ReadEntry(s, d, rules).rest
    {
      MemberCanonical(s, d, rules);
    }
  }

  predicate MembersOk(ms: map<Bytes, Member>, d: Descriptor, rules: Rules) {
    forall id :: id in ms ==> ms[id].id == id && MemberOk(ms[id], d, rules)
  }

  lemma MembersRead(ms: map<Bytes, Member>, d: Descriptor, rules: Rules)
    requires MembersOk(ms, d, rules) && d.dimension <= 4096
    ensures Reads(ms, MemberDec(d, rules), MemberEnc(d.dimension))
  {
    hide ReadMember, EncodeMember, MemberOk;
    forall id, t | id in ms
      ensures ReadEntry(EncodeMember(ms[id], d.dimension) + t, d, rules) == Good(Entry(id, ms[id]), t) {
      MemberBack(ms[id], d, rules, t);
    }
  }

  // ---------- Descriptors and edits ----------

  function EncodeDescriptor(d: Descriptor): Bytes {
    LE(1, 4) + (LE(d.dimension, 4) + ([1, 1] + (EncodeBlob(d.provider) + (EncodeBlob(d.model)
      + (EncodeBlob(d.revision) + EncodeBlob(d.transform))))))
  }

  function ReadDescriptor(s: Bytes): Parse<Descriptor> {
    var (version, rest) :- Uint(s, 4);
    if version != 1 then Bad
    else
      var (dimension, rest) :- Uint(rest, 4);
      if !(1 <= dimension <= 4096) then Bad
      else
        var (encoding, rest) :- Uint(rest, 1);
        var (metric, rest) :- Uint(rest, 1);
        if encoding != 1 || metric != 1 then Bad
        else
          var (provider, rest) :- Bounded(rest, 1, 256);
          var (model, rest) :- Bounded(rest, 1, 256);
          var (revision, rest) :- Bounded(rest, 1, 256);
          var (transform, rest) :- Bounded(rest, 1, 256);
          Good(Descriptor(dimension, provider, model, revision, transform), rest)
  }

  predicate DescriptorOk(d: Descriptor) {
    && 1 <= d.dimension <= 4096 && 1 <= |d.provider| <= 256 && 1 <= |d.model| <= 256
    && 1 <= |d.revision| <= 256 && 1 <= |d.transform| <= 256
  }

  lemma NamesCanonical(s: Bytes, d: Descriptor, rest: Bytes)
    requires var a := Bounded(s, 1, 256);
             && a.Good? && var b := Bounded(a.rest, 1, 256);
             && b.Good? && var c := Bounded(b.rest, 1, 256);
             && c.Good? && var e := Bounded(c.rest, 1, 256);
             && e == Good(d.transform, rest) && a.value == d.provider && b.value == d.model && c.value == d.revision
    ensures s == (EncodeBlob(d.provider) + (EncodeBlob(d.model) + (EncodeBlob(d.revision) + EncodeBlob(d.transform))))
             + rest
    ensures 1 <= |d.provider| <= 256 && 1 <= |d.model| <= 256 && 1 <= |d.revision| <= 256 && 1 <= |d.transform| <= 256
  {
    hide Bounded, EncodeBlob;
    var a := Bounded(s, 1, 256);
    var b := Bounded(a.rest, 1, 256);
    var c := Bounded(b.rest, 1, 256);
    BoundedCanonical(s, 1, 256);
    BoundedCanonical(a.rest, 1, 256);
    BoundedCanonical(b.rest, 1, 256);
    BoundedCanonical(c.rest, 1, 256);
    var w, x, y, z := EncodeBlob(d.provider), EncodeBlob(d.model), EncodeBlob(d.revision), EncodeBlob(d.transform);
    Associate(y, z, rest);
    Associate(x, y + z, rest);
    Associate(w, x + (y + z), rest);
  }

  lemma DescriptorCanonical(s: Bytes)
    requires ReadDescriptor(s).Good?
    ensures var r := ReadDescriptor(s); s == EncodeDescriptor(r.value) + r.rest && DescriptorOk(r.value)
  {
    hide LE, Uint, Bounded, EncodeBlob;
    UintCanonical(s, 4);
    var a := Uint(s, 4);
    UintCanonical(a.rest, 4);
    var b := Uint(a.rest, 4);
    ByteCanonical(b.rest);
    var c := Uint(b.rest, 1);
    ByteCanonical(c.rest);
    var e := Uint(c.rest, 1);
    var r := ReadDescriptor(s);
    NamesCanonical(e.rest, r.value, r.rest);
    var names := EncodeBlob(r.value.provider)
        + (EncodeBlob(r.value.model) + (EncodeBlob(r.value.revision) + EncodeBlob(r.value.transform)));
    assert b.rest == [1, 1] + (names + r.rest);
    Associate([1, 1], names, r.rest);
    Associate(LE(b.value, 4), [1, 1] + names, r.rest);
    Associate(LE(1, 4), LE(b.value, 4) + ([1, 1] + names), r.rest);
  }

  lemma DescriptorBack(d: Descriptor, t: Bytes)
    requires DescriptorOk(d)
    ensures ReadDescriptor(EncodeDescriptor(d) + t) == Good(d, t)
  {
    hide LE, FromLE, Uint, Bounded, EncodeBlob;
    var z := EncodeBlob(d.transform) + t;
    var y := EncodeBlob(d.revision) + z;
    var x := EncodeBlob(d.model) + y;
    var w := EncodeBlob(d.provider) + x;
    var v := [1] + w;
    var u := [1] + v;
    var n := LE(d.dimension, 4) + u;
    assert EncodeDescriptor(d) + t == LE(1, 4) + n;
    Widths();
    UintBack(1, 4, n);
    UintBack(d.dimension, 4, u);
    ByteBack(1, v);
    ByteBack(1, w);
    BoundedBack(d.provider, 1, 256, x);
    BoundedBack(d.model, 1, 256, y);
    BoundedBack(d.revision, 1, 256, z);
    BoundedBack(d.transform, 1, 256, t);
  }

  function IdOf(e: Edit): Bytes { if e.Upsert? then e.member.id else e.id }

  ghost function EncodeEdit(e: Edit, dimension: nat): Bytes {
    if e.Upsert? then [1] + EncodeMember(e.member, dimension) else [2] + EncodeBlob(e.id)
  }

  function ReadEdit(s: Bytes, d: Descriptor, rules: Rules): Parse<Edit> {
    var (tag, rest) :- Uint(s, 1);
    if tag == 1 then
      var (m, rest) :- ReadMember(rest, d, rules);
      Good(Upsert(m), rest)
    else if tag == 2 then
      var (id, rest) :- Bounded(rest, 1, 256);
      Good(Remove(id), rest)
    else Bad
  }

  predicate EditOk(e: Edit, d: Descriptor, rules: Rules) {
    if e.Upsert? then MemberOk(e.member, d, rules) else 1 <= |e.id| <= 256
  }

  lemma EditCanonical(s: Bytes, d: Descriptor, rules: Rules)
    requires ReadEdit(s, d, rules).Good?
    ensures s == EncodeEdit(ReadEdit(s, d, rules).value, d.dimension) + ReadEdit(s, d, rules).rest
  {
    hide Uint, ReadMember, EncodeMember, Bounded, EncodeBlob;
    ByteCanonical(s);
    var tag, r := Uint(s, 1), ReadEdit(s, d, rules);
    if tag.value == 1 {
      MemberCanonical(tag.rest, d, rules);
      Associate([1], EncodeMember(r.value.member, d.dimension), r.rest);
    } else {
      BoundedCanonical(tag.rest, 1, 256);
      Associate([2], EncodeBlob(r.value.id), r.rest);
    }
  }

  lemma EditBack(e: Edit, d: Descriptor, rules: Rules, t: Bytes)
    requires EditOk(e, d, rules) && 1 <= d.dimension <= 4096
    ensures ReadEdit(EncodeEdit(e, d.dimension) + t, d, rules) == Good(e, t)
    ensures |EncodeEdit(e, d.dimension)| >= 6
  {
    hide Uint, ReadMember, EncodeMember, Bounded, MemberOk;
    if e.Upsert? {
      Associate([1], EncodeMember(e.member, d.dimension), t);
      ByteBack(1, EncodeMember(e.member, d.dimension) + t);
      MemberBack(e.member, d, rules, t);
      MemberLength(e.member, d, rules);
    } else {
      Associate([2], EncodeBlob(e.id), t);
      ByteBack(2, EncodeBlob(e.id) + t);
      BoundedBack(e.id, 1, 256, t);
    }
  }

  ghost function EncodeEdits(es: seq<Edit>, dimension: nat): Bytes {
    if es == [] then [] else EncodeEdits(es[..|es| - 1], dimension) + EncodeEdit(es[|es| - 1], dimension)
  }

  function ReadEdits(s: Bytes, n: nat, d: Descriptor, rules: Rules): Parse<seq<Edit>> {
    if n == 0 then Good([], s)
    else
      var (es, rest) :- ReadEdits(s, n - 1, d, rules);
      var (e, rest) :- ReadEdit(rest, d, rules);
      if es != [] && !Less(IdOf(es[|es| - 1]), IdOf(e)) then Bad else Good(es + [e], rest)
  }

  lemma {:induction false} EditsCanonical(s: Bytes, n: nat, d: Descriptor, rules: Rules)
    requires ReadEdits(s, n, d, rules).Good?
    ensures var r := ReadEdits(s, n, d, rules); s == EncodeEdits(r.value, d.dimension) + r.rest && |r.value| == n
  {
    hide ReadEdit, EncodeEdit, Less;
    var r := ReadEdits(s, n, d, rules);
    if n == 0 {
      assert [] + s == s;
    } else {
      EditsCanonical(s, n - 1, d, rules);
      var before := ReadEdits(s, n - 1, d, rules);
      EditCanonical(before.rest, d, rules);
      assert r.value[..n - 1] == before.value;
      Associate(EncodeEdits(before.value, d.dimension), EncodeEdit(r.value[n - 1], d.dimension), r.rest);
    }
  }

  predicate EditsOk(es: seq<Edit>, d: Descriptor, rules: Rules) {
    && (forall i :: 0 <= i < |es| ==> EditOk(es[i], d, rules))
    && (forall i :: 0 < i < |es| ==> Less(IdOf(es[i - 1]), IdOf(es[i])))
  }

  lemma {:induction false} EditsBack(es: seq<Edit>, d: Descriptor, rules: Rules, t: Bytes)
    requires EditsOk(es, d, rules) && 1 <= d.dimension <= 4096
    ensures ReadEdits(EncodeEdits(es, d.dimension) + t, |es|, d, rules) == Good(es, t)
    ensures |EncodeEdits(es, d.dimension)| >= |es| * 6
  {
    hide ReadEdit, EncodeEdit, Less, EditOk;
    if es == [] {
      assert EncodeEdits(es, d.dimension) + t == t;
    } else {
      var n := |es| - 1;
      var e := EncodeEdit(es[n], d.dimension);
      EditsBack(es[..n], d, rules, e + t);
      EditBack(es[n], d, rules, t);
      Associate(EncodeEdits(es[..n], d.dimension), e, t);
      assert es == es[..n] + [es[n]];
    }
  }

  // ---------- Images and deltas ----------

  const MAX_MEMBERS: nat := 1024
  const MAX_COMPONENTS: nat := 1_048_576
  const MAX_EDITS: nat := 64

  ghost function EncodeContents(c: Change): Bytes {
    match c
    case Image(_, d, members, _) => LE(|members|, 4) + EncodeMap(members, MemberEnc(d.dimension))
    case Delta(_, d, edits, _) => LE(|edits|, 4) + EncodeEdits(edits, d.dimension)
  }

  ghost function EncodeChange(c: Change): Bytes {
    [if c.Image? then 7 else 8]
    + (EncodeBlob(c.key) + (EncodeDescriptor(c.descriptor) + (EncodeContents(c) + EncodeDeadline(c.deadline))))
  }

  /** Tags 7 and 8 of the record-2 cursor. */
  function ReadChange(s: Bytes, rules: Rules): Parse<Change> {
    var (tag, rest) :- Uint(s, 1);
    if tag != 7 && tag != 8 then Bad
    else
      var (key, rest) :- Bounded(rest, 1, 256);
      var (d, rest) :- ReadDescriptor(rest);
      if tag == 7 then
        var (n, rest) :- Announced(rest, MAX_MEMBERS, 38);
        if n * d.dimension > MAX_COMPONENTS then Bad
        else
          var (members, rest) :- ReadMap(rest, n, MemberDec(d, rules));
          var (deadline, rest) :- ReadDeadline(rest, false);
          if rules.image(d, members.entries, key) then Good(Image(key, d, members.entries, deadline), rest) else Bad
      else
        var (n, rest) :- Announced(rest, MAX_EDITS, 6);
        var (edits, rest) :- ReadEdits(rest, n, d, rules);
        var (deadline, rest) :- ReadDeadline(rest, false);
        Good(Delta(key, d, edits, deadline), rest)
  }

  lemma ContentsJoin(tag: byte, key: Bytes, d: Descriptor, contents: Bytes, deadline: Option<int>, rest: Bytes)
    ensures [tag] + (EncodeBlob(key) + (EncodeDescriptor(d) + (contents + (EncodeDeadline(deadline) + rest))))
            == ([tag] + (EncodeBlob(key) + (EncodeDescriptor(d) + (contents + EncodeDeadline(deadline))))) + rest
  {
    hide EncodeBlob, EncodeDescriptor, EncodeDeadline;
    Associate(contents, EncodeDeadline(deadline), rest);
    Associate(EncodeDescriptor(d), contents + EncodeDeadline(deadline), rest);
    Associate(EncodeBlob(key), EncodeDescriptor(d) + (contents + EncodeDeadline(deadline)), rest);
    Associate([tag], EncodeBlob(key) + (EncodeDescriptor(d) + (contents + EncodeDeadline(deadline))), rest);
  }

  /**
   * Canonical decoding: any bytes accepted as a memory image or delta are exactly the bytes
   * encoding the result would write, whatever the containers' own validation accepts.
   */
  lemma ChangeCanonical(s: Bytes, rules: Rules)
    requires ReadChange(s, rules).Good?
    ensures s == EncodeChange(ReadChange(s, rules).value) + ReadChange(s, rules).rest
  {
    hide Uint, Bounded, ReadDescriptor, Announced, ReadMap, ReadEdits, ReadDeadline, EncodeBlob, EncodeDescriptor;
    hide EncodeMap, EncodeEdits, EncodeDeadline, LE, Canonical, MemberDec, MemberEnc;
    ByteCanonical(s);
    var tag, r := Uint(s, 1), ReadChange(s, rules);
    BoundedCanonical(tag.rest, 1, 256);
    var k := Bounded(tag.rest, 1, 256);
    DescriptorCanonical(k.rest);
    var e := ReadDescriptor(k.rest);
    var d := e.value;
    if tag.value == 7 {
      CountedCanonical(e.rest, MAX_MEMBERS, 38);
      var n := Announced(e.rest, MAX_MEMBERS, 38);
      MembersCanonical(d, rules);
      ReadMapCanonical(n.rest, n.value, MemberDec(d, rules), MemberEnc(d.dimension));
      var m := ReadMap(n.rest, n.value, MemberDec(d, rules));
      DeadlineCanonical(m.rest, false);
      Associate(LE(n.value, 4), EncodeMap(m.value.entries, MemberEnc(d.dimension)), m.rest);
    } else {
      CountedCanonical(e.rest, MAX_EDITS, 6);
      var n := Announced(e.rest, MAX_EDITS, 6);
      EditsCanonical(n.rest, n.value, d, rules);
      var m := ReadEdits(n.rest, n.value, d, rules);
      DeadlineCanonical(m.rest, false);
      Associate(LE(n.value, 4), EncodeEdits(m.value, d.dimension), m.rest);
    }
    ContentsJoin(tag.value, k.value, d, EncodeContents(r.value), r.value.deadline, r.rest);
  }

  predicate ChangeOk(c: Change, rules: Rules) {
    && 1 <= |c.key| <= 256 && DescriptorOk(c.descriptor) && DeadlineOk(c.deadline, false)
    && match c
       case Image(key, d, members, _) =>
         && |members| <= MAX_MEMBERS && |members| * d.dimension <= MAX_COMPONENTS
         && MembersOk(members, d, rules) && rules.image(d, members, key)
       case Delta(_, d, edits, _) => |edits| <= MAX_EDITS && EditsOk(edits, d, rules)
  }

  lemma MembersLength(ms: map<Bytes, Member>, d: Descriptor, rules: Rules)
    requires MembersOk(ms, d, rules) && d.dimension >= 1
    ensures |EncodeMap(ms, MemberEnc(d.dimension))| >= |ms| * 38
  {
    hide EncodeMap, MemberOk, EncodeMember;
    forall id | id in ms ensures |MemberEnc(d.dimension)(id, ms[id])| >= 38 {
      MemberLength(ms[id], d, rules);
    }
    MapLength(ms, MemberEnc(d.dimension), 38);
  }

  /** Every well-formed image or delta is accepted and read back. */
  lemma ChangeBack(c: Change, rules: Rules, t: Bytes)
    requires ChangeOk(c, rules)
    ensures ReadChange(EncodeChange(c) + t, rules) == Good(c, t)
  {
    hide Uint, Bounded, ReadDescriptor, Announced, ReadMap, ReadEdits, ReadDeadline, EncodeBlob, EncodeDescriptor;
    hide EncodeMap, EncodeEdits, EncodeDeadline, LE, FromLE, Reads, MemberDec, MemberEnc, MembersOk, EditsOk;
    var tag: byte := if c.Image? then 7 else 8;
    var d := c.descriptor;
    var end := EncodeDeadline(c.deadline) + t;
    var contents := EncodeContents(c);
    ContentsJoin(tag, c.key, d, contents, c.deadline, t);
    ByteBack(tag, EncodeBlob(c.key) + (EncodeDescriptor(d) + (contents + end)));
    BoundedBack(c.key, 1, 256, EncodeDescriptor(d) + (contents + end));
    DescriptorBack(d, contents + end);
    ReadDeadlineBack(c.deadline, false, t);
    if c.Image? {
      var ms := EncodeMap(c.members, MemberEnc(d.dimension));
      Associate(LE(|c.members|, 4), ms, end);
      MembersLength(c.members, d, rules);
      CountedBack(|c.members|, MAX_MEMBERS, 38, ms + end);
      MembersRead(c.members, d, rules);
      MapBack(c.members, end, MemberDec(d, rules), MemberEnc(d.dimension));
    } else {
      var es := EncodeEdits(c.edits, d.dimension);
      Associate(LE(|c.edits|, 4), es, end);
      EditsBack(c.edits, d, rules, end);
      CountedBack(|c.edits|, MAX_EDITS, 6, es + end);
    }
  }
}
