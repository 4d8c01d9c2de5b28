/**
 * What the record codec guarantees: sizes are exact, every encodable record reads back,
 * a log cut at any byte reads back as the records wholly before the cut, and a change
 * confined to one byte of a record is always refused.
 */
module Log {
  import opened Crc
  import opened Format

  // ---------- The size computed first is the length written ----------

  lemma {:induction false} BlobsLength(bs: seq<Bytes>)
    ensures BlobsSize(bs).Ok? ==> |EncodeBlobs(bs)| + 4 == BlobsSize(bs).value
    ensures |EncodeBlobs(bs)| >= 4 * |bs|
  {
    if bs != [] {
      BlobsLength(bs[..|bs| - 1]);
    }
  }

  lemma {:induction false} PairsLength(ps: seq<Field>)
    ensures PairsSize(ps).Ok? ==> |EncodePairs(ps)| + 4 == PairsSize(ps).value
    ensures |EncodePairs(ps)| >= 8 * |ps|
  {
    if ps != [] {
      PairsLength(ps[..|ps| - 1]);
    }
  }

  lemma {:induction false} ScoredLength(es: seq<Scored>)
    ensures ScoredSize(es).Ok? ==> |EncodeScored(es)| + 4 == ScoredSize(es).value
    ensures |EncodeScored(es)| >= 12 * |es|
  {
    if es != [] {
      ScoredLength(es[..|es| - 1]);
    }
  }

  lemma MutationLength(m: Mutation)
    ensures MutationSize(m).Ok? ==> |EncodeMutation(m)| == MutationSize(m).value
    ensures |EncodeMutation(m)| >= 5
  {
    if m.Put? {
      match m.value
      case String(_) =>
      case Hash(fields) => PairsLength(fields);
      case List(values) => BlobsLength(values);
      case Set(members) => BlobsLength(members);
      case SortedSet(entries) => ScoredLength(entries);
    }
  }

  lemma {:induction false} MutationsLength(ms: seq<Mutation>)
    ensures MutationsSize(ms).Ok? ==> |EncodeMutations(ms)| + 14 == MutationsSize(ms).value
    ensures |EncodeMutations(ms)| >= 5 * |ms|
  {
    if ms != [] {
      MutationsLength(ms[..|ms| - 1]);
      MutationLength(ms[|ms| - 1]);
    }
  }

  /** The precomputed size always equals the emitted body length. */
  lemma SizeExact(r: Record, limits: Limits)
    requires BodySize(r, limits).Ok?
    ensures |Body(r)| == BodySize(r, limits).value > 0
  {
    match r
    case Snapshot(m) => MutationLength(m);
    case Seal(_, _, _) =>
    case Batch(_, _, ms) => MutationsLength(ms);
  }

  // ---------- Reading back what was written ----------

  lemma TakePrefix(a: Bytes, t: Bytes)
    ensures Take(a + t, |a|) == Good(a, t)
  {
    assert (a + t)[..|a|] == a && (a + t)[|a|..] == t;
  }

  lemma UintBack(n: nat, k: nat, t: Bytes)
    requires n < Pow256(k)
    ensures Uint(LE(n, k) + t, k) == Good(n, t)
  {
    TakePrefix(LE(n, k), t);
    LERoundTrip(n, k);
  }

  lemma ByteBack(b: byte, t: Bytes)
    ensures Uint([b] + t, 1) == Good(b, t)
  {
    TakePrefix([b], t);
    assert FromLE([b]) == b + 256 * FromLE([]);
  }

  lemma BlobBack(b: Bytes, t: Bytes)
    requires |b| < WORD
    ensures Blob(EncodeBlob(b) + t) == Good(b, t)
  {
    Widths();
    assert EncodeBlob(b) + t == LE(|b|, 4) + (b + t);
    UintBack(|b|, 4, b + t);
    TakePrefix(b, t);
  }

  lemma SmallBlob(b: Bytes)
    requires BlobSize(b).Ok?
    ensures |b| < WORD
  {
  }

  lemma BlobsSizes(bs: seq<Bytes>)
    requires BlobsSize(bs).Ok? && bs != []
    ensures BlobsSize(bs[..|bs| - 1]).Ok? && |bs[|bs| - 1]| < WORD
  {
    hide BlobSize;
    assert |bs[|bs| - 1]| < WORD by { SmallBlob(bs[|bs| - 1]); }
  }

  lemma {:induction false} BlobsBack(bs: seq<Bytes>, t: Bytes)
    requires BlobsSize(bs).Ok?
    ensures Blobs(EncodeBlobs(bs) + t, |bs|) == Good(bs, t)
  {
    hide LE, FromLE, Uint, Take, Blob, EncodeBlob, BlobSize, BlobsSize;
    if bs == [] {
      assert EncodeBlobs(bs) + t == t;
    } else {
      var n := |bs| - 1;
      var last := EncodeBlob(bs[n]);
      BlobsSizes(bs);
      BlobsBack(bs[..n], last + t);
      BlobBack(bs[n], t);
      assert EncodeBlobs(bs) + t == EncodeBlobs(bs[..n]) + (last + t);
      assert bs[..n] + [bs[n]] == bs;
    }
  }

  lemma PairBack(p: Field, t: Bytes)
    requires |p.name| < WORD && |p.value| < WORD
    ensures Pair(EncodePair(p) + t) == Good(p, t)
  {
    hide LE, FromLE, Uint, Take, Blob, EncodeBlob;
    assert EncodePair(p) + t == EncodeBlob(p.name) + (EncodeBlob(p.value) + t);
    BlobBack(p.name, EncodeBlob(p.value) + t);
    BlobBack(p.value, t);
  }

  lemma PairsSizes(ps: seq<Field>)
    requires PairsSize(ps).Ok? && ps != []
    ensures PairsSize(ps[..|ps| - 1]).Ok?
    ensures |ps[|ps| - 1].name| < WORD && |ps[|ps| - 1].value| < WORD
  {
  }

  lemma {:induction false} PairsBack(ps: seq<Field>, t: Bytes)
    requires PairsSize(ps).Ok?
    ensures Pairs(EncodePairs(ps) + t, |ps|) == Good(ps, t)
  {
    hide Pair, EncodePair, PairsSize;
    if ps == [] {
      assert EncodePairs(ps) + t == t;
    } else {
      var n := |ps| - 1;
      var last := EncodePair(ps[n]);
      PairsSizes(ps);
      PairsBack(ps[..n], last + t);
      PairBack(ps[n], t);
      assert EncodePairs(ps) + t == EncodePairs(ps[..n]) + (last + t);
      assert ps[..n] + [ps[n]] == ps;
    }
  }

  lemma EntryBack(e: Scored, t: Bytes)
    requires |e.member| < WORD && CanonicalScore(e.score)
    ensures Entry(EncodeEntry(e) + t) == Good(e, t)
  {
    hide LE, FromLE, Uint, Take, Blob, EncodeBlob;
    assert EncodeEntry(e) + t == EncodeBlob(e.member) + (LE(e.score, 8) + t);
    BlobBack(e.member, LE(e.score, 8) + t);
    Widths();
    UintBack(e.score, 8, t);
  }

  lemma {:induction false} ScoredBack(es: seq<Scored>, t: Bytes)
    requires ScoredSize(es).Ok? && forall e :: e in es ==> CanonicalScore(e.score)
    ensures ScoredList(EncodeScored(es) + t, |es|) == Good(es, t)
  {
    hide Entry, EncodeEntry, CanonicalScore;
    if es == [] {
      assert EncodeScored(es) + t == t;
    } else {
      var n := |es| - 1;
      var last := EncodeEntry(es[n]);
      assert es[n] in es;
      ScoredBack(es[..n], last + t);
      EntryBack(es[n], t);
      assert EncodeScored(es) + t == EncodeScored(es[..n]) + (last + t);
      assert es[..n] + [es[n]] == es;
    }
  }

  lemma {:induction false} AscendingInserts(keys: seq<Bytes>)
    requires Ascending(keys)
    ensures InsertAll(keys) == Some(keys)
  {
    if keys != [] {
      var n := |keys| - 1;
      AscendingInserts(keys[..n]);
      if n > 0 { LessAsymmetric(keys[n - 1], keys[n]); }
      assert keys[..n] + [keys[n]] == keys;
    }
  }

  lemma {:induction false} AscendingInsertsPairs(pairs: seq<Field>)
    requires Ascending(Fields(pairs))
    ensures InsertAllPairs(pairs) == Some(pairs)
  {
    if pairs != [] {
      var n := |pairs| - 1;
      AscendingInsertsPairs(pairs[..n]);
      if n > 0 {
        assert Less(Fields(pairs)[n - 1], Fields(pairs)[n]);
        LessAsymmetric(pairs[n - 1].name, pairs[n].name);
      }
      assert pairs[..n] + [pairs[n]] == pairs;
    }
  }

  lemma {:induction false} AscendingInsertsScored(es: seq<Scored>)
    requires AscendingScored(es)
    ensures InsertAllScored(es) == Some(es)
  {
    if es != [] {
      var n := |es| - 1;
      AscendingInsertsScored(es[..n]);
      assert es[..n] + [es[n]] == es;
    }
  }

  lemma CountBack(n: nat, unit: nat, t: Bytes)
    requires 0 < n < WORD && n * unit <= |t| && (unit == 4 || unit == 8 || unit == 12)
    ensures Count(LE(n, 4) + t, unit) == Good(n, t)
  {
    Widths();
    UintBack(n, 4, t);
    assert n <= |t| / unit;
  }

  lemma ValueBack(m: Mutation, t: Bytes)
    requires m.Put? && ValidValue(m.value) && ValueSize(m.value).Ok?
    ensures DecodeValue(Tag(m), EncodeValue(m.value) + t) == Good(m.value, t)
  {
    hide LE, FromLE, Uint, Take, Blob, Blobs, Pairs, ScoredList, EncodeBlobs, EncodePairs;
    hide EncodeScored, InsertAll, InsertAllPairs, InsertAllScored, BlobsSize, PairsSize, ScoredSize, Count, Fields;
    match m.value
    case String(b) => BlobBack(b, t);
    case Hash(fields) =>
      assert EncodeValue(m.value) + t == LE(|fields|, 4) + (EncodePairs(fields) + t);
      PairsLength(fields);
      CountBack(|fields|, 8, EncodePairs(fields) + t);
      PairsBack(fields, t);
      AscendingInsertsPairs(fields);
    case List(values) =>
      assert EncodeValue(m.value) + t == LE(|values|, 4) + (EncodeBlobs(values) + t);
      BlobsLength(values);
      CountBack(|values|, 4, EncodeBlobs(values) + t);
      BlobsBack(values, t);
    case Set(members) =>
      assert EncodeValue(m.value) + t == LE(|members|, 4) + (EncodeBlobs(members) + t);
      BlobsLength(members);
      CountBack(|members|, 4, EncodeBlobs(members) + t);
      BlobsBack(members, t);
      AscendingInserts(members);
    case SortedSet(entries) =>
      assert EncodeValue(m.value) + t == LE(|entries|, 4) + (EncodeScored(entries) + t);
      ScoredLength(entries);
      CountBack(|entries|, 12, EncodeScored(entries) + t);
      ScoredBack(entries, t);
      AscendingInsertsScored(entries);
  }

  lemma DeadlineBack(d: Option<int>, t: Bytes)
    requires d.Some? ==> -(LONG / 2) <= d.value < LONG / 2
    ensures DecodeDeadline(EncodeDeadline(d) + t) == Good(d, t)
  {
    var raw := if d.None? then 0 else Unsigned(d.value);
    var flag: byte := if d.None? then 0 else 1;
    assert EncodeDeadline(d) + t == [flag] + (LE(raw, 8) + t);
    ByteBack(flag, LE(raw, 8) + t);
    Widths();
    UintBack(raw, 8, t);
  }

  lemma MutationBack(m: Mutation, t: Bytes)
    requires ValidMutation(m) && MutationSize(m).Ok?
    ensures DecodeMutation(EncodeMutation(m) + t) == Good(m, t)
  {
    hide LE, FromLE, Uint, Take, Blob, EncodeBlob;
    hide EncodeValue, DecodeValue, EncodeDeadline, DecodeDeadline, ValueSize, ValidValue;
    var tail := (if m.Put? then EncodeValue(m.value) + EncodeDeadline(m.deadline) else []) + t;
    assert EncodeMutation(m) + t == [Tag(m)] + (EncodeBlob(m.key) + tail);
    ByteBack(Tag(m), EncodeBlob(m.key) + tail);
    BlobBack(m.key, tail);
    if m.Put? {
      assert tail == EncodeValue(m.value) + (EncodeDeadline(m.deadline) + t);
      ValueBack(m, EncodeDeadline(m.deadline) + t);
      DeadlineBack(m.deadline, t);
    } else {
      assert tail == t;
    }
  }

  lemma {:induction false} MutationsBack(ms: seq<Mutation>, t: Bytes)
    requires forall m :: m in ms ==> ValidMutation(m)
    requires MutationsSize(ms).Ok?
    ensures DecodeMutations(EncodeMutations(ms) + t, |ms|) == Good(ms, t)
  {
    hide EncodeMutation, DecodeMutation, ValidMutation, MutationSize;
    if ms == [] {
      assert EncodeMutations(ms) + t == t;
    } else {
      var n := |ms| - 1;
      var last := EncodeMutation(ms[n]);
      MutationsBack(ms[..n], last + t);
      MutationBack(ms[n], t);
      assert EncodeMutations(ms) + t == EncodeMutations(ms[..n]) + (last + t);
      assert ms[..n] + [ms[n]] == ms;
    }
  }

  lemma SealBack(sequence: nat, entries: nat, digest: nat)
    requires sequence < LONG && entries < LONG && digest < WORD
    ensures DecodeSeal(LE(sequence, 8) + LE(entries, 8) + LE(digest, 4)) == Good(Seal(sequence, entries, digest), [])
  {
    Widths();
    var last := LE(digest, 4);
    assert LE(sequence, 8) + LE(entries, 8) + LE(digest, 4) == LE(sequence, 8) + (LE(entries, 8) + (last + []));
    UintBack(sequence, 8, LE(entries, 8) + (last + []));
    UintBack(entries, 8, last + []);
    UintBack(digest, 4, []);
  }

  lemma BatchBack(sequence: nat, origin: Origin, ms: seq<Mutation>, limits: Limits)
    requires sequence < LONG && forall m :: m in ms ==> ValidMutation(m)
    requires BodySize(Batch(sequence, origin, ms), limits).Ok?
    ensures DecodeBatch(LE(sequence, 8) + [OriginByte(origin)] + LE(|ms|, 4) + EncodeMutations(ms), limits)
            == Ok(Batch(sequence, origin, ms))
  {
    hide LE, FromLE, Uint, Take, EncodeMutations, DecodeMutations, MutationsSize, ValidMutation;
    Widths();
    var body := EncodeMutations(ms);
    var counted := LE(|ms|, 4) + body;
    assert LE(sequence, 8) + [OriginByte(origin)] + LE(|ms|, 4) + body
           == LE(sequence, 8) + ([OriginByte(origin)] + counted);
    UintBack(sequence, 8, [OriginByte(origin)] + counted);
    ByteBack(OriginByte(origin), counted);
    UintBack(|ms|, 4, body);
    MutationsLength(ms);
    MutationsBack(ms, []);
    assert body + [] == body;
  }

  lemma BodyBack(r: Record, limits: Limits)
    requires ValidRecord(r) && BodySize(r, limits).Ok?
    ensures Decode(Body(r), limits) == Ok(r)
  {
    hide LE, FromLE, Uint, Take, EncodeMutations, EncodeMutation;
    hide DecodeMutation, DecodeBatch, DecodeSeal, MutationsSize, MutationSize, ValidMutation;
    match r
    case Snapshot(m) =>
      ByteBack(1, EncodeMutation(m));
      MutationBack(m, []);
      assert EncodeMutation(m) + [] == EncodeMutation(m);
    case Seal(sequence, entries, digest) =>
      var rest := LE(sequence, 8) + LE(entries, 8) + LE(digest, 4);
      assert Body(r) == [2] + rest;
      ByteBack(2, rest);
      SealBack(sequence, entries, digest);
    case Batch(sequence, origin, ms) =>
      var rest := LE(sequence, 8) + [OriginByte(origin)] + LE(|ms|, 4) + EncodeMutations(ms);
      assert Body(r) == [3] + rest;
      ByteBack(3, rest);
      BatchBack(sequence, origin, ms, limits);
  }

  /** The four fields of a frame, wherever it stands in a log. */
  lemma FrameParts(r: Record, limits: Limits, t: Bytes)
    requires Encode(r, limits).Ok?
    ensures var e, body := Encode(r, limits).value, Body(r);
            && |e| == 12 + |body| && 0 < |body| <= limits.maxRecordBytes && |body| <= MAX_RECORD_BYTES
            && FromLE((e + t)[..4]) == |body| && FromLE((e + t)[4..8]) == WORD - 1 - |body|
            && FromLE((e + t)[8..12]) == Checksum(body)
            && (e + t)[12..12 + |body|] == body && (e + t)[|e|..] == t
  {
    hide FromLE, LE, Body, BodySize, Checksum;
    SizeExact(r, limits);
    Widths();
    var e, body := Encode(r, limits).value, Body(r);
    LERoundTrip(|body|, 4);
    LERoundTrip(WORD - 1 - |body|, 4);
    LERoundTrip(Checksum(body), 4);
    assert (e + t)[..4] == LE(|body|, 4);
    assert (e + t)[4..8] == LE(WORD - 1 - |body|, 4);
    assert (e + t)[8..12] == LE(Checksum(body), 4);
    assert (e + t)[12..12 + |body|] == body;
  }

  lemma EncodeSized(r: Record, limits: Limits)
    requires Encode(r, limits).Ok?
    ensures BodySize(r, limits).Ok?
  {
  }

  /** An encodable record reads back as itself, whatever follows it. */
  lemma RecordBack(r: Record, limits: Limits, t: Bytes)
    requires ValidRecord(r) && Encode(r, limits).Ok?
    ensures ReadRecord(Encode(r, limits).value + t, limits) == Read(r, t)
  {
    hide Encode, FromLE, Checksum, Decode, Body, BodySize, ValidRecord;
    FrameParts(r, limits, t);
    assert BodySize(r, limits).Ok? by { EncodeSized(r, limits); }
    BodyBack(r, limits);
  }

  /** Every proper non-empty prefix of a record is an incomplete tail. */
  lemma PrefixIncomplete(r: Record, limits: Limits, n: nat)
    requires Encode(r, limits).Ok?
    requires 0 < n < |Encode(r, limits).value|
    ensures ReadRecord(Encode(r, limits).value[..n], limits) == IncompleteTail
  {
    hide Encode, FromLE, Checksum, Decode, Body;
    FrameParts(r, limits, []);
    var e := Encode(r, limits).value;
    assert e + [] == e;
    if n >= 12 {
      assert e[..n][..4] == e[..4] && e[..n][4..8] == e[4..8];
    }
  }

  // ---------- Whole logs ----------

  datatype Ending = AtEnd | Torn | Broken(error: Error)

  datatype Reading = Reading(records: seq<Record>, ending: Ending, valid: nat)

  lemma ReadEmpty(limits: Limits)
    ensures ReadRecord([], limits) == End
  {
  }

  lemma ReadProgress(s: Bytes, limits: Limits)
    requires ReadRecord(s, limits).Read?
    ensures |ReadRecord(s, limits).rest| < |s|
  {
  }

  /** What a reader sees: the records, why it stopped, and how many bytes were whole records. */
  function ReadLog(s: Bytes, limits: Limits): Reading
    decreases |s|
  {
    match ReadRecord(s, limits)
    case End => Reading([], AtEnd, 0)
    case IncompleteTail => Reading([], Torn, 0)
    case Failed(error) => Reading([], Broken(error), 0)
    case Read(record, rest) =>
      ReadProgress(s, limits);
      var later := ReadLog(rest, limits);
      Reading([record] + later.records, later.ending, |s| - |rest| + later.valid)
  }

  predicate Encodable(rs: seq<Record>, limits: Limits) {
    forall r :: r in rs ==> ValidRecord(r) && Encode(r, limits).Ok?
  }

  lemma EncodableParts(a: seq<Record>, b: seq<Record>, limits: Limits)
    ensures Encodable(a + b, limits) <==> Encodable(a, limits) && Encodable(b, limits)
  {
    hide Encode, ValidRecord;
    if Encodable(a + b, limits) {
      forall r | r in a || r in b ensures r in a + b {}
    }
  }

  function EncodeLog(rs: seq<Record>, limits: Limits): Bytes
    requires Encodable(rs, limits)
  {
    if rs == [] then [] else Encode(rs[0], limits).value + EncodeLog(rs[1..], limits)
  }

  /** How many records of the log lie wholly within its first n bytes. */
  function WholeRecords(rs: seq<Record>, limits: Limits, n: nat): (k: nat)
    requires Encodable(rs, limits)
    ensures k <= |rs|
  {
    if rs == [] || |Encode(rs[0], limits).value| > n then 0
    else 1 + WholeRecords(rs[1..], limits, n - |Encode(rs[0], limits).value|)
  }

  lemma {:induction false} EncodeLogConcat(a: seq<Record>, b: seq<Record>, limits: Limits)
    requires Encodable(a, limits) && Encodable(b, limits)
    ensures Encodable(a + b, limits)
    ensures EncodeLog(a + b, limits) == EncodeLog(a, limits) + EncodeLog(b, limits)
  {
    hide Encode, ValidRecord;
    if a == [] {
      assert a + b == b;
    } else {
      EncodeLogConcat(a[1..], b, limits);
      assert (a + b)[1..] == a[1..] + b;
    }
  }

  /** WholeRecords is the largest number of leading records whose encoding fits in n bytes. */
  lemma {:induction false} WholeRecordsExact(rs: seq<Record>, limits: Limits, n: nat)
    requires Encodable(rs, limits)
    ensures var k := WholeRecords(rs, limits, n);
            && |EncodeLog(rs[..k], limits)| <= n
            && (k < |rs| ==> n < |EncodeLog(rs[..k + 1], limits)|)
  {
    hide Encode, ValidRecord;
    if rs != [] && |Encode(rs[0], limits).value| <= n {
      var first := |Encode(rs[0], limits).value|;
      WholeRecordsExact(rs[1..], limits, n - first);
      var k := WholeRecords(rs, limits, n);
      assert rs[..k][1..] == rs[1..][..k - 1];
      if k < |rs| { assert rs[..k + 1][1..] == rs[1..][..k]; }
    } else if rs != [] {
      assert rs[..1][1..] == [];
      assert EncodeLog(rs[..1], limits) == Encode(rs[0], limits).value + [];
    }
  }

  lemma ReadStep(s: Bytes, limits: Limits, record: Record, rest: Bytes)
    requires ReadRecord(s, limits) == Read(record, rest)
    ensures |rest| < |s|
    ensures ReadLog(s, limits)
            == var later := ReadLog(rest, limits);
               Reading([record] + later.records, later.ending, |s| - |rest| + later.valid)
  {
    hide ReadRecord;
    ReadProgress(s, limits);
  }

  /**
   * A log cut at any byte reads back exactly the records wholly before the cut, ending
   * cleanly on a record boundary and with an incomplete tail anywhere else.
   */
  lemma {:induction false} CutAnywhere(rs: seq<Record>, limits: Limits, n: nat)
    requires Encodable(rs, limits) && n <= |EncodeLog(rs, limits)|
    ensures var k := WholeRecords(rs, limits, n);
            var whole := |EncodeLog(rs[..k], limits)|;
            ReadLog(EncodeLog(rs, limits)[..n], limits)
            == Reading(rs[..k], if whole == n then AtEnd else Torn, whole)
    decreases rs, n, 1
  {
    hide Encode, ValidRecord, ReadRecord;
    var s := EncodeLog(rs, limits);
    ReadEmpty(limits);
    assert s[..0] == [];
    if rs != [] {
      var e := Encode(rs[0], limits).value;
      if |e| <= n {
        CutAfterFirst(rs, limits, n);
      } else {
        FrameParts(rs[0], limits, []);
        assert s[..n] == e[..n];
        if n > 0 { PrefixIncomplete(rs[0], limits, n); }
      }
    }
  }

  lemma {:induction false} CutAfterFirst(rs: seq<Record>, limits: Limits, n: nat)
    requires Encodable(rs, limits) && n <= |EncodeLog(rs, limits)|
    requires rs != [] && |Encode(rs[0], limits).value| <= n
    ensures var k := WholeRecords(rs, limits, n);
            var whole := |EncodeLog(rs[..k], limits)|;
            ReadLog(EncodeLog(rs, limits)[..n], limits)
            == Reading(rs[..k], if whole == n then AtEnd else Torn, whole)
    decreases rs, n, 0
  {
    hide Encode, ValidRecord, ReadRecord, ReadLog;
    var s, e := EncodeLog(rs, limits), Encode(rs[0], limits).value;
    var rest := EncodeLog(rs[1..], limits)[..n - |e|];
    assert s[..n] == e + rest;
    RecordBack(rs[0], limits, rest);
    ReadStep(s[..n], limits, rs[0], rest);
    CutAnywhere(rs[1..], limits, n - |e|);
    var k := WholeRecords(rs, limits, n);
    assert rs[..k] == [rs[0]] + rs[1..][..k - 1];
    assert rs[..k][1..] == rs[1..][..k - 1];
  }

  // ---------- Corruption ----------

  lemma FieldChanges(s: Bytes, i: nat, x: byte, lo: nat, hi: nat)
    requires lo <= i < hi <= |s| && x != s[i]
    ensures FromLE(s[i := x][lo..hi]) != FromLE(s[lo..hi])
  {
    assert s[i := x][lo..hi][i - lo] != s[lo..hi][i - lo];
    if FromLE(s[i := x][lo..hi]) == FromLE(s[lo..hi]) {
      FromLEInjective(s[i := x][lo..hi], s[lo..hi]);
    }
  }

  /** Any change confined to one byte of an encoded record makes the reader fail. */
  lemma ByteCorruptionRefused(r: Record, limits: Limits, t: Bytes, i: nat, x: byte)
    requires Encode(r, limits).Ok?
    requires i < |Encode(r, limits).value| && x != Encode(r, limits).value[i]
    ensures ReadRecord(Encode(r, limits).value[i := x] + t, limits).Failed?
  {
    hide Checksum, FromLE, Encode, Decode, Body;
    var e := Encode(r, limits).value;
    var s, n := e + t, |Body(r)|;
    FrameParts(r, limits, t);
    assert s[0..4] == s[..4] && s[12..12 + n] == Body(r);
    var c := s[i := x];
    assert c == e[i := x] + t && c[0..4] == c[..4];
    if i < 4 {
      FieldChanges(s, i, x, 0, 4);
      assert c[4..8] == s[4..8];
    } else if i < 8 {
      FieldChanges(s, i, x, 4, 8);
      assert c[..4] == s[..4];
    } else {
      assert c[..4] == s[..4] && c[4..8] == s[4..8];
      if i < 12 {
        FieldChanges(s, i, x, 8, 12);
        assert c[12..12 + n] == s[12..12 + n];
      } else {
        assert Body(r)[i - 12] == s[i];
        ByteChangeDetected(Body(r), i - 12, x);
        assert c[12..12 + n] == Body(r)[i - 12 := x];
        assert c[8..12] == s[8..12];
      }
    }
  }
}
