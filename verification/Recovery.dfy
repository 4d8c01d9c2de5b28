/**
 * What a published generation means: the loader that recovery runs over its records, and
 * what it makes of a generation cut at any byte behind its seal.
 */
module Recovery {
  import opened Crc
  import opened Format
  import opened Log
  import opened Replay

  datatype Role = Primary | Replica
  datatype Metadata = Metadata(role: Role, epoch: nat)
  datatype Header = Header(sequence: nat, metadata: Option<Metadata>)

  /** A generation file: its header, its log, and how much of the log is known durable. */
  datatype File = File(header: Header, log: Bytes, synced: nat)

  datatype Config = Config(layout: Layout, limits: Limits, always: bool, maxDelta: nat)

  datatype Change = Change(origin: Origin, mutations: seq<Mutation>)

  predicate ValidConfig(c: Config) {
    && ValidLayout(c.layout) && c.layout.total < LONG / 2
    && 64 <= c.limits.maxRecordBytes <= MAX_RECORD_BYTES && 0 < c.limits.maxMutations <= 1_000_000
    && 0 < c.maxDelta < LONG / 2
  }

  /** Chains the checksums of complete records. */
  function SnapshotDigest(previous: nat, encoded: Bytes): (digest: nat)
    ensures digest < WORD
  {
    Checksum(LE(previous, 4) + LE(Checksum(encoded), 4))
  }

  /** The digest tells apart both what it chains from and the checksum it adds. */
  lemma DigestInjective(p: nat, q: nat, a: Bytes, b: Bytes)
    requires p < WORD && q < WORD && SnapshotDigest(p, a) == SnapshotDigest(q, b)
    ensures p == q <==> Checksum(a) == Checksum(b)
  {
    hide Checksum;
    var x, y := Checksum(a), Checksum(b);
    LERoundTrip(p, 4);
    LERoundTrip(q, 4);
    LERoundTrip(x, 4);
    LERoundTrip(y, 4);
    if p == q && x != y {
      assert LE(p, 4) + LE(x, 4) + [] == LE(p, 4) + LE(x, 4);
      assert LE(p, 4) + LE(y, 4) + [] == LE(p, 4) + LE(y, 4);
      BurstDetected(LE(p, 4), LE(x, 4), LE(y, 4), []);
    }
    if p != q && x == y {
      assert [] + LE(p, 4) == LE(p, 4) && [] + LE(q, 4) == LE(q, 4);
      BurstDetected([], LE(p, 4), LE(q, 4), LE(x, 4));
    }
  }

  function Encoded(r: Record, limits: Limits): Bytes {
    match Encode(r, limits)
    case Ok(bytes) => bytes
    case Err(_) => []
  }

  // ---------- The loader ----------

  datatype Loading = Loading(
    store: Store, sealed: bool, sequence: nat, previous: Option<Bytes>, entries: nat, digest: nat)

  function Begin(base: nat): Loading { Loading(map[], false, base, None, 0, 0) }

  ghost function LoadSnapshot(l: Loading, m: Mutation, c: Config): Option<Loading>
    requires ValidConfig(c)
  {
    if && !l.sealed && m.Put? && (l.previous.Some? ==> Less(l.previous.value, m.key))
       && Encode(Snapshot(m), c.limits).Ok? && Accepts(l.store, [m], c.layout)
    then Some(Loading(ApplyAll(l.store, [m]), false, l.sequence, Some(m.key), l.entries + 1,
                      SnapshotDigest(l.digest, Encoded(Snapshot(m), c.limits))))
    else None
  }

  /** One record of the generation whose snapshot carries the given base sequence. */
  ghost function LoadRecord(l: Loading, r: Record, base: nat, c: Config): Option<Loading>
    requires ValidConfig(c)
  {
    match r
    case Snapshot(m) => LoadSnapshot(l, m, c)
    case Seal(sequence, entries, digest) =>
      if !l.sealed && sequence == base && entries == l.entries && digest == l.digest
      then Some(l.(sealed := true)) else None
    case Batch(sequence, _, ms) =>
      if l.sealed && l.sequence + 1 < LONG && sequence == l.sequence + 1 && Accepts(l.store, ms, c.layout)
      then Some(l.(store := ApplyAll(l.store, ms), sequence := sequence)) else None
  }

  ghost function Load(l: Loading, rs: seq<Record>, base: nat, c: Config): Option<Loading>
    requires ValidConfig(c)
  {
    if rs == [] then Some(l)
    else match Load(l, rs[..|rs| - 1], base, c)
         case None => None
         case Some(before) => LoadRecord(before, rs[|rs| - 1], base, c)
  }

  datatype Loaded = Loaded(store: Store, sequence: nat, valid: nat, torn: bool)

  /** Recovery of one generation: refused unless every whole record is good and one seals it. */
  ghost function LoadFile(f: File, c: Config): Option<Loaded>
    requires ValidConfig(c)
  {
    var reading := ReadLog(f.log, c.limits);
    if reading.ending.Broken? then None
    else match Load(Begin(f.header.sequence), reading.records, f.header.sequence, c)
         case None => None
         case Some(l) =>
           if l.sealed then Some(Loaded(l.store, l.sequence, reading.valid, reading.ending.Torn?)) else None
  }

  lemma {:induction false} LoadConcat(l: Loading, a: seq<Record>, b: seq<Record>, base: nat, c: Config)
    requires ValidConfig(c)
    ensures Load(l, a, base, c).None? ==> Load(l, a + b, base, c).None?
    ensures Load(l, a, base, c).Some? ==>
              Load(l, a + b, base, c) == Load(Load(l, a, base, c).value, b, base, c)
    decreases |b|
  {
    hide LoadRecord;
    if b == [] {
      assert a + b == a;
    } else {
      var n := |b| - 1;
      assert (a + b)[..|a + b| - 1] == a + b[..n];
      LoadConcat(l, a, b[..n], base, c);
    }
  }

  // ---------- The records of a generation ----------

  function Keys(ms: seq<Mutation>): (keys: seq<Bytes>)
    ensures |keys| == |ms| && forall i :: 0 <= i < |ms| ==> keys[i] == ms[i].key
  {
    if ms == [] then [] else Keys(ms[..|ms| - 1]) + [ms[|ms| - 1].key]
  }

  /** An ordered list of post-images that rebuilds exactly this store. */
  predicate Describes(image: seq<Mutation>, store: Store) {
    && Ascending(Keys(image))
    && (forall i :: 0 <= i < |image| ==> image[i].Put? && Chargeable(image[i].value))
    && ApplyAll(map[], image) == store
  }

  function Snapshots(image: seq<Mutation>): (rs: seq<Record>)
    ensures |rs| == |image| && forall i :: 0 <= i < |image| ==> rs[i] == Snapshot(image[i])
  {
    if image == [] then [] else Snapshots(image[..|image| - 1]) + [Snapshot(image[|image| - 1])]
  }

  function Digest(image: seq<Mutation>, limits: Limits): (digest: nat)
    ensures digest < WORD
  {
    if image == [] then 0
    else SnapshotDigest(Digest(image[..|image| - 1], limits), Encoded(Snapshot(image[|image| - 1]), limits))
  }

  /** A seal refuses an image in which one entry changed what its record's checksum is, wherever it stands. */
  lemma {:induction false} SealDetects(a: seq<Mutation>, b: seq<Mutation>, i: nat, limits: Limits)
    requires |a| == |b| && i < |a| && forall j :: 0 <= j < |a| && j != i ==> a[j] == b[j]
    requires Checksum(Encoded(Snapshot(a[i]), limits)) != Checksum(Encoded(Snapshot(b[i]), limits))
    ensures Digest(a, limits) != Digest(b, limits)
    decreases |a|
  {
    hide SnapshotDigest, Encoded, Checksum;
    var n := |a| - 1;
    var p, q := Digest(a[..n], limits), Digest(b[..n], limits);
    if i == n {
      assert a[..n] == b[..n];
    } else {
      SealDetects(a[..n], b[..n], i, limits);
    }
    if Digest(a, limits) == Digest(b, limits) {
      DigestInjective(p, q, Encoded(Snapshot(a[n]), limits), Encoded(Snapshot(b[n]), limits));
    }
  }

  function Sealed(image: seq<Mutation>, base: nat, limits: Limits): seq<Record> {
    Snapshots(image) + [Seal(base, |image|, Digest(image, limits))]
  }

  function Batches(base: nat, changes: seq<Change>): (rs: seq<Record>)
    ensures |rs| == |changes|
    ensures forall i :: 0 <= i < |changes| ==> rs[i] == Batch(base + 1 + i, changes[i].origin, changes[i].mutations)
  {
    if changes == [] then []
    else Batches(base, changes[..|changes| - 1])
         + [Batch(base + |changes|, changes[|changes| - 1].origin, changes[|changes| - 1].mutations)]
  }

  function Generation(image: seq<Mutation>, base: nat, changes: seq<Change>, limits: Limits): seq<Record> {
    Sealed(image, base, limits) + Batches(base, changes)
  }

  function Advance(store: Store, changes: seq<Change>): Store {
    if changes == [] then store
    else ApplyAll(Advance(store, changes[..|changes| - 1]), changes[|changes| - 1].mutations)
  }

  /** Every change was acceptable on the dataset it met. */
  ghost predicate Admissible(store: Store, changes: seq<Change>, layout: Layout)
    requires ValidLayout(layout)
  {
    forall k :: 0 <= k < |changes| ==> Accepts(Advance(store, changes[..k]), changes[k].mutations, layout)
  }

  lemma {:induction false} AdvanceConcat(store: Store, a: seq<Change>, b: seq<Change>)
    ensures Advance(store, a + b) == Advance(Advance(store, a), b)
    decreases |b|
  {
    if b == [] {
      assert a + b == a;
    } else {
      var n := |b| - 1;
      assert (a + b)[..|a + b| - 1] == a + b[..n];
      AdvanceConcat(store, a, b[..n]);
    }
  }

  /** The first entries of an image form a part of the store it describes. */
  lemma {:induction false} ImagePart(image: seq<Mutation>, n: nat)
    requires n <= |image| && DistinctKeys(image) && forall i :: 0 <= i < |image| ==> image[i].Put?
    ensures var part, whole := ApplyAll(map[], image[..n]), ApplyAll(map[], image);
            part.Keys <= whole.Keys && forall k :: k in part ==> part[k] == whole[k]
  {
    var part, whole := ApplyAll(map[], image[..n]), ApplyAll(map[], image);
    forall k | k in part ensures k in whole && part[k] == whole[k] {
      var i :| 0 <= i < n && image[i].key == k by {
        if forall i :: 0 <= i < n ==> image[..n][i].key != k {
          ApplyAllUntouched(map[], image[..n], k);
        }
        assert exists i :: 0 <= i < n && image[..n][i].key == k;
      }
      ApplyAllTouched(map[], image[..n], i);
      ApplyAllTouched(map[], image, i);
    }
  }

  lemma AscendingDistinct(image: seq<Mutation>)
    requires Ascending(Keys(image))
    ensures DistinctKeys(image)
  {
    forall i, j | 0 <= i < j < |image| ensures image[i].key != image[j].key {
      assert Less(Keys(image)[i], Keys(image)[j]);
      LessAsymmetric(image[i].key, image[j].key);
    }
  }

  lemma PartWithinQuotas(image: seq<Mutation>, n: nat, layout: Layout)
    requires ValidLayout(layout) && n <= |image| && Ascending(Keys(image))
    requires forall i :: 0 <= i < |image| ==> image[i].Put?
    requires WithinQuotas(ApplyAll(map[], image), layout)
    ensures WithinQuotas(ApplyAll(map[], image[..n]), layout)
  {
    hide Usage, ShardFor, Quota, ApplyAll, Keys, Ascending;
    AscendingDistinct(image);
    ImagePart(image, n);
    var part, whole := ApplyAll(map[], image[..n]), ApplyAll(map[], image);
    UsageMonotone(part, whole, layout, Everything);
    forall s | 0 <= s < layout.shards ensures Usage(part, layout, Shard(s)) <= Quota(layout, s) {
      UsageMonotone(part, whole, layout, Shard(s));
    }
  }

  ghost function AfterSnapshots(image: seq<Mutation>, base: nat, limits: Limits): Loading {
    Loading(ApplyAll(map[], image), false, base,
            if image == [] then None else Some(image[|image| - 1].key), |image|, Digest(image, limits))
  }

  lemma ApplyNext(image: seq<Mutation>, i: nat)
    requires i < |image|
    ensures ApplyAll(ApplyAll(map[], image[..i]), [image[i]]) == ApplyAll(map[], image[..i + 1])
  {
    assert [image[i]][..0] == [];
    assert image[..i + 1][..i] == image[..i];
  }

  /** One more entry of an image that fits is acceptable after the ones before it. */
  lemma EntryFits(image: seq<Mutation>, n: nat, layout: Layout)
    requires ValidLayout(layout) && n < |image| && Ascending(Keys(image))
    requires forall i :: 0 <= i < |image| ==> image[i].Put? && Chargeable(image[i].value)
    requires WithinQuotas(ApplyAll(map[], image), layout)
    ensures ApplyAll(ApplyAll(map[], image[..n]), [image[n]]) == ApplyAll(map[], image[..n + 1])
    ensures Accepts(ApplyAll(map[], image[..n]), [image[n]], layout)
  {
    hide WithinQuotas, Chargeable, ShardFor, Less, Keys, Ascending, ApplyAll;
    ApplyNext(image, n);
    assert [image[n]][0] == image[n];
    PartWithinQuotas(image, n + 1, layout);
  }

  lemma NextKey(image: seq<Mutation>, n: nat)
    requires 0 < n < |image| && Ascending(Keys(image))
    ensures Less(image[n - 1].key, image[n].key)
  {
    assert Less(Keys(image)[n - 1], Keys(image)[n]);
  }

  lemma SnapshotStep(image: seq<Mutation>, n: nat, base: nat, c: Config)
    requires ValidConfig(c) && n < |image| && Ascending(Keys(image))
    requires forall i :: 0 <= i < |image| ==> image[i].Put? && Chargeable(image[i].value)
    requires WithinQuotas(ApplyAll(map[], image), c.layout)
    requires Encode(Snapshot(image[n]), c.limits).Ok?
    ensures LoadRecord(AfterSnapshots(image[..n], base, c.limits), Snapshot(image[n]), base, c)
            == Some(AfterSnapshots(image[..n + 1], base, c.limits))
  {
    hide WithinQuotas, Encode, Chargeable, SnapshotDigest, Less, Accepts, ApplyAll, Keys, Ascending;
    assert image[..n + 1][..n] == image[..n];
    if n > 0 { NextKey(image, n); }
    EntryFits(image, n, c.layout);
  }

  /** The snapshot part replays entry by entry, whatever the quotas, when the whole store fits. */
  lemma {:induction false} SnapshotsLoad(image: seq<Mutation>, n: nat, base: nat, c: Config)
    requires ValidConfig(c) && n <= |image| && Ascending(Keys(image))
    requires forall i :: 0 <= i < |image| ==> image[i].Put? && Chargeable(image[i].value)
    requires WithinQuotas(ApplyAll(map[], image), c.layout)
    requires Encodable(Snapshots(image), c.limits)
    ensures Load(Begin(base), Snapshots(image[..n]), base, c) == Some(AfterSnapshots(image[..n], base, c.limits))
  {
    hide WithinQuotas, Encode, Chargeable, ValidRecord, LoadRecord, Keys, Ascending, ApplyAll;
    if n == 0 {
      assert AfterSnapshots([], base, c.limits) == Begin(base) by { NothingLoaded(base, c.limits); }
    } else {
      SnapshotsLoad(image, n - 1, base, c);
      assert image[..n][..n - 1] == image[..n - 1];
      assert Snapshots(image)[n - 1] in Snapshots(image);
      SnapshotStep(image, n - 1, base, c);
    }
  }

  lemma NothingLoaded(base: nat, limits: Limits)
    ensures AfterSnapshots([], base, limits) == Begin(base)
  {
  }

  lemma LoadOne(l: Loading, r: Record, base: nat, c: Config)
    requires ValidConfig(c)
    ensures Load(l, [r], base, c) == LoadRecord(l, r, base, c)
  {
    hide LoadRecord;
    assert [r][..0] == [];
  }

  lemma SealedLoad(image: seq<Mutation>, base: nat, c: Config)
    requires ValidConfig(c)
    requires Describes(image, ApplyAll(map[], image)) && WithinQuotas(ApplyAll(map[], image), c.layout)
    requires Encodable(Sealed(image, base, c.limits), c.limits)
    ensures Load(Begin(base), Sealed(image, base, c.limits), base, c)
            == Some(AfterSnapshots(image, base, c.limits).(sealed := true))
  {
    hide WithinQuotas, Encodable, Chargeable, Digest, Ascending, Keys, LoadSnapshot, Load, Snapshots, ApplyAll;
    var mark := Seal(base, |image|, Digest(image, c.limits));
    EncodableParts(Snapshots(image), [mark], c.limits);
    SnapshotsLoad(image, |image|, base, c);
    assert image[..|image|] == image;
    LoadConcat(Begin(base), Snapshots(image), [mark], base, c);
    LoadOne(AfterSnapshots(image, base, c.limits), mark, base, c);
  }

  /** Every configuration has room for the seal of an empty image. */
  lemma FirstSealFits(c: Config)
    requires ValidConfig(c)
    ensures Encodable(Sealed([], 0, c.limits), c.limits)
  {
    assert Sealed([], 0, c.limits) == [Seal(0, 0, 0)];
    assert Encode(Seal(0, 0, 0), c.limits).Ok? && ValidRecord(Seal(0, 0, 0));
  }

  lemma AdmissiblePrefix(store: Store, changes: seq<Change>, n: nat, layout: Layout)
    requires ValidLayout(layout) && Admissible(store, changes, layout) && n <= |changes|
    ensures Admissible(store, changes[..n], layout)
  {
    hide Accepts, Advance;
    forall k | 0 <= k < n
      ensures Accepts(Advance(store, changes[..n][..k]), changes[..n][k].mutations, layout)
    {
      assert changes[..n][..k] == changes[..k];
    }
  }

  lemma {:induction false} BatchesLoad(l: Loading, changes: seq<Change>, base: nat, c: Config)
    requires ValidConfig(c) && l.sealed && l.sequence == base && base + |changes| < LONG
    requires Admissible(l.store, changes, c.layout)
    ensures Load(l, Batches(base, changes), base, c)
            == Some(l.(store := Advance(l.store, changes), sequence := base + |changes|))
  {
    hide Accepts, Admissible;
    if changes != [] {
      var n := |changes| - 1;
      AdmissiblePrefix(l.store, changes, n, c.layout);
      BatchesLoad(l, changes[..n], base, c);
      assert Accepts(Advance(l.store, changes[..n]), changes[n].mutations, c.layout) by {
        AdmissibleLast(l.store, changes, c.layout);
      }
      assert Batches(base, changes)[..n] == Batches(base, changes[..n]);
    }
  }

  lemma AdmissibleLast(store: Store, changes: seq<Change>, layout: Layout)
    requires ValidLayout(layout) && Admissible(store, changes, layout) && changes != []
    ensures Accepts(Advance(store, changes[..|changes| - 1]), changes[|changes| - 1].mutations, layout)
  {
  }

  /** A whole generation loads to its image advanced by its batches. */
  lemma GenerationLoad(image: seq<Mutation>, base: nat, changes: seq<Change>, c: Config)
    requires ValidConfig(c) && base + |changes| < LONG
    requires Describes(image, ApplyAll(map[], image)) && WithinQuotas(ApplyAll(map[], image), c.layout)
    requires Admissible(ApplyAll(map[], image), changes, c.layout)
    requires Encodable(Sealed(image, base, c.limits), c.limits)
    ensures var end := Load(Begin(base), Generation(image, base, changes, c.limits), base, c);
            end.Some? && end.value.sealed && end.value.sequence == base + |changes|
            && end.value.store == Advance(ApplyAll(map[], image), changes)
  {
    hide Load, Describes, WithinQuotas, Admissible, Sealed, Batches, Encodable, ApplyAll, Advance, Digest;
    SealedLoad(image, base, c);
    var l := AfterSnapshots(image, base, c.limits).(sealed := true);
    BatchesLoad(l, changes, base, c);
    LoadConcat(Begin(base), Sealed(image, base, c.limits), Batches(base, changes), base, c);
  }

  // ---------- Nothing else is accepted ----------

  /** Entries that passed the loader one by one. */
  ghost predicate Entries(image: seq<Mutation>, c: Config)
    requires ValidConfig(c)
  {
    Describes(image, ApplyAll(map[], image)) && WithinQuotas(ApplyAll(map[], image), c.layout)
  }

  lemma EntriesPush(image: seq<Mutation>, m: Mutation, base: nat, c: Config)
    requires ValidConfig(c) && Entries(image, c)
    requires LoadSnapshot(AfterSnapshots(image, base, c.limits), m, c).Some?
    ensures Entries(image + [m], c)
    ensures LoadSnapshot(AfterSnapshots(image, base, c.limits), m, c)
             == Some(AfterSnapshots(image + [m], base, c.limits))
  {
    hide WithinQuotas, Encode, Chargeable, SnapshotDigest, Less, Ascending, ShardFor, ApplyAll, Keys;
    var all := image + [m];
    assert all[..|image|] == image;
    ApplyNext(all, |image|);
    assert all[..|image| + 1] == all;
    assert [m][0] == m;
    KeysPush(image, m);
  }

  lemma KeyBelow(keys: seq<Bytes>, k: Bytes, i: nat)
    requires Ascending(keys) && i < |keys| && Less(keys[|keys| - 1], k)
    ensures Less(keys[i], k)
  {
    hide Less;
    if i < |keys| - 1 { LessTransitive(keys[i], keys[|keys| - 1], k); }
  }

  lemma KeyPush(keys: seq<Bytes>, k: Bytes)
    requires Ascending(keys) && (keys != [] ==> Less(keys[|keys| - 1], k))
    ensures Ascending(keys + [k])
  {
    hide Less;
    forall i | 0 <= i < |keys| ensures Less(keys[i], k) { KeyBelow(keys, k, i); }
  }

  lemma {:induction false} KeysPush(image: seq<Mutation>, m: Mutation)
    requires Ascending(Keys(image)) && (image != [] ==> Less(image[|image| - 1].key, m.key))
    ensures Ascending(Keys(image + [m]))
  {
    hide Less, Ascending;
    KeyPush(Keys(image), m.key);
    assert (image + [m])[..|image|] == image;
  }

  lemma AdmissiblePush(store: Store, changes: seq<Change>, ch: Change, layout: Layout)
    requires ValidLayout(layout) && Admissible(store, changes, layout)
    requires Accepts(Advance(store, changes), ch.mutations, layout)
    ensures Admissible(store, changes + [ch], layout)
    ensures Advance(store, changes + [ch]) == ApplyAll(Advance(store, changes), ch.mutations)
  {
    hide Accepts;
    var all := changes + [ch];
    assert all[..|changes|] == changes;
    forall k | 0 <= k < |all| ensures Accepts(Advance(store, all[..k]), all[k].mutations, layout) {
      if k < |changes| { assert all[..k] == changes[..k]; }
    }
  }

  /** What the loader has accepted so far: entries in order, then a seal and consecutive batches. */
  ghost predicate Accepted(rs: seq<Record>, l: Loading, image: seq<Mutation>, changes: seq<Change>, base: nat,
        c: Config)
    requires ValidConfig(c)
  {
    && Entries(image, c) && Admissible(ApplyAll(map[], image), changes, c.layout)
    && if l.sealed
       then && rs == Generation(image, base, changes, c.limits)
            && l.store == Advance(ApplyAll(map[], image), changes) && l.sequence == base + |changes|
       else rs == Snapshots(image) && changes == [] && l == AfterSnapshots(image, base, c.limits)
  }

  /** Whatever the loader accepts is the records of one generation, or the start of one. */
  lemma {:induction false} LoadedShape(rs: seq<Record>, base: nat, c: Config)
    returns (image: seq<Mutation>, changes: seq<Change>)
    requires ValidConfig(c) && Load(Begin(base), rs, base, c).Some?
    ensures Accepted(rs, Load(Begin(base), rs, base, c).value, image, changes, base, c)
  {
    hide Entries, Admissible, AfterSnapshots, Generation, Advance, ApplyAll;
    hide Snapshots, Accepts, Encode, SnapshotDigest, Less, Encoded;
    if rs == [] {
      image, changes := [], [];
      NoneAccepted(base, c);
    } else {
      var n := |rs| - 1;
      var before := Load(Begin(base), rs[..n], base, c).value;
      image, changes := LoadedShape(rs[..n], base, c);
      assert rs == rs[..n] + [rs[n]];
      match rs[n]
      case Snapshot(m) => {
        EntriesPush(image, m, base, c);
        SnapshotsPush(image, m);
        NothingAdvanced(ApplyAll(map[], image + [m]), c.layout);
        image := image + [m];
      }
      case Seal(_, _, _) => {
        SealPush(image, base, c);
      }
      case Batch(sequence, origin, ms) => {
        var ch := Change(origin, ms);
        AdmissiblePush(ApplyAll(map[], image), changes, ch, c.layout);
        BatchPush(image, base, changes, ch, c.limits);
        changes := changes + [ch];
      }
    }
  }

  lemma NoneAccepted(base: nat, c: Config)
    requires ValidConfig(c)
    ensures Accepted([], Begin(base), [], [], base, c)
  {
    hide Usage, Quota;
    NothingLoaded(base, c.limits);
    forall scope ensures Usage(map[], c.layout, scope) == 0 { UsageEmpty(c.layout, scope); }
  }

  lemma NothingAdvanced(store: Store, layout: Layout)
    requires ValidLayout(layout)
    ensures Admissible(store, [], layout) && Advance(store, []) == store
  {
  }

  lemma SnapshotsPush(image: seq<Mutation>, m: Mutation)
    ensures Snapshots(image + [m]) == Snapshots(image) + [Snapshot(m)]
  {
    assert (image + [m])[..|image|] == image;
  }

  /** The seal that is accepted is the image's own. */
  lemma SealPush(image: seq<Mutation>, base: nat, c: Config)
    requires ValidConfig(c)
    ensures var l := AfterSnapshots(image, base, c.limits);
            && Generation(image, base, [], c.limits) == Snapshots(image) + [Seal(base, l.entries, l.digest)]
            && l.store == Advance(ApplyAll(map[], image), []) && l.sequence == base && !l.sealed
  {
    hide ApplyAll, Snapshots, Digest;
  }

  lemma BatchPush(image: seq<Mutation>, base: nat, changes: seq<Change>, ch: Change, limits: Limits)
    ensures Generation(image, base, changes + [ch], limits)
            == Generation(image, base, changes, limits) + [Batch(base + |changes| + 1, ch.origin, ch.mutations)]
  {
    hide Sealed;
    assert (changes + [ch])[..|changes|] == changes;
  }

  /**
   * Whatever bytes a file holds: if recovery accepts it, its whole records are one sealed image,
   * ordered and within every quota, and consecutive batches, each acceptable where it stands.
   */
  lemma LoadsOnlyGenerations(f: File, c: Config) returns (image: seq<Mutation>, changes: seq<Change>)
    requires ValidConfig(c) && LoadFile(f, c).Some?
    ensures var loaded, base := LoadFile(f, c).value, f.header.sequence;
            && ReadLog(f.log, c.limits).records == Generation(image, base, changes, c.limits)
            && Describes(image, ApplyAll(map[], image))
            && WithinQuotas(ApplyAll(map[], image), c.layout)
            && Admissible(ApplyAll(map[], image), changes, c.layout)
            && loaded.store == Advance(ApplyAll(map[], image), changes) && loaded.sequence == base + |changes|
  {
    hide Load, Describes, WithinQuotas, Admissible, Generation, Advance, ApplyAll, AfterSnapshots;
    image, changes := LoadedShape(ReadLog(f.log, c.limits).records, f.header.sequence, c);
  }
}
