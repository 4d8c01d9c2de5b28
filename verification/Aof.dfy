/**
 * The append-only file as a step system: one writer appends, syncs, compacts and installs;
 * every step may fail at any point; a crash keeps any bytes at or beyond the synced length.
 * The invariant ties the newest generation to the history the run has established, and
 * recovery is shown to return a gap-free prefix of that history with everything promised.
 */
module Aof {
  import opened Format
  import opened Log
  import opened Replay
  import opened Recovery

  datatype Compaction = Compaction(
    header: Header, image: seq<Mutation>, delta: seq<Bytes>, deltaBytes: nat, aborted: bool)

  datatype Writer = Writer(
    generation: nat, sequence: nat, metadata: Option<Metadata>, compaction: Option<Compaction>)

  /** What the run has established: the dataset at `start` and every change since. */
  datatype History = History(start: nat, initial: Store, changes: seq<Change>, acked: nat, flushed: nat)

  /** What the newest generation holds: an image at `base`, then changes, the last perhaps torn. */
  datatype Content = Content(top: nat, image: seq<Mutation>, base: nat, torn: seq<Change>)

  datatype State = State(disk: map<nat, File>, writer: Option<Writer>, history: History, content: Content)

  // ---------- Meaning ----------

  function At(h: History, k: nat): Store
    requires k <= |h.changes|
  {
    Advance(h.initial, h.changes[..k])
  }

  function Now(h: History): Store { Advance(h.initial, h.changes) }

  /** The batches of the newest generation, up to the first k of the history. */
  function Tail(h: History, base: nat, k: nat): seq<Change>
    requires h.start <= base <= h.start + k && k <= |h.changes|
  {
    h.changes[base - h.start..k]
  }

  function Written(s: State, limits: Limits): seq<Record>
    requires s.history.start <= s.content.base <= s.history.start + |s.history.changes|
  {
    Generation(s.content.image, s.content.base,
               Tail(s.history, s.content.base, |s.history.changes|) + s.content.torn, limits)
  }

  /** Every change, in its place after a start, fits in a record. */
  predicate Recordable(start: nat, changes: seq<Change>, limits: Limits) {
    forall r :: r in Batches(start, changes) ==> ValidRecord(r) && Encode(r, limits).Ok?
  }

  ghost predicate HistoryOk(h: History, c: Config)
    requires ValidConfig(c)
  {
    && h.start + |h.changes| < LONG
    && h.acked <= |h.changes| && h.flushed <= |h.changes|
    && (c.always ==> h.acked <= h.flushed)
    && WithinQuotas(h.initial, c.layout)
    && Admissible(h.initial, h.changes, c.layout) && Recordable(h.start, h.changes, c.limits)
  }

  predicate Newest(disk: map<nat, File>, g: nat) {
    g in disk && forall h :: h in disk ==> h <= g
  }

  ghost predicate ContentOk(s: State, c: Config) {
    var h, k := s.history, s.content;
    && Newest(s.disk, k.top)
    && var f := s.disk[k.top];
    && f.header.sequence == k.base && h.start <= k.base <= h.start + |h.changes|
    && Describes(k.image, At(h, k.base - h.start))
    && |k.torn| <= 1
    && Encodable(Written(s, c.limits), c.limits)
    && var whole := Generation(k.image, k.base, Tail(h, k.base, |h.changes|), c.limits);
    && Encodable(whole, c.limits)
    && |EncodeLog(whole, c.limits)| <= |f.log| <= |EncodeLog(Written(s, c.limits), c.limits)|
    && (k.torn != [] ==> |f.log| < |EncodeLog(Written(s, c.limits), c.limits)|)
    && f.log == EncodeLog(Written(s, c.limits), c.limits)[..|f.log|]
    && SyncedOk(f, h, k, c)
  }

  /** The seal and every flushed change lie within the durable part. */
  ghost predicate SyncedOk(f: File, h: History, k: Content, c: Config)
    requires h.start <= k.base <= h.start + |h.changes|
  {
    && f.synced <= |f.log|
    && Encodable(Sealed(k.image, k.base, c.limits), c.limits)
    && |EncodeLog(Sealed(k.image, k.base, c.limits), c.limits)| <= f.synced
    && (k.base - h.start <= h.flushed <= |h.changes| ==>
          var kept := Generation(k.image, k.base, Tail(h, k.base, h.flushed), c.limits);
          Encodable(kept, c.limits) && |EncodeLog(kept, c.limits)| <= f.synced)
  }

  function Lengths(bs: seq<Bytes>): nat {
    if bs == [] then 0 else Lengths(bs[..|bs| - 1]) + |bs[|bs| - 1]|
  }

  function Flatten(bs: seq<Bytes>): Bytes {
    if bs == [] then [] else Flatten(bs[..|bs| - 1]) + bs[|bs| - 1]
  }

  function EncodedEach(rs: seq<Record>, limits: Limits): (bs: seq<Bytes>)
    ensures |bs| == |rs|
  {
    if rs == [] then [] else EncodedEach(rs[..|rs| - 1], limits) + [Encoded(rs[|rs| - 1], limits)]
  }

  /** The encoded batches of a history since a base. */
  function Since(h: History, base: nat, limits: Limits): seq<Bytes>
    requires h.start <= base <= h.start + |h.changes|
  {
    EncodedEach(Batches(base, Tail(h, base, |h.changes|)), limits)
  }

  /**
   * A pending compaction holds the dataset at its base and every batch since, in order; it
   * is aborted exactly when those batches exceed the limit, and then holds none.
   */
  ghost predicate CompactionOk(p: Compaction, h: History, metadata: Option<Metadata>, c: Config) {
    && h.start <= p.header.sequence <= h.start + |h.changes|
    && p.header.metadata == metadata
    && Describes(p.image, At(h, p.header.sequence - h.start))
    && (p.aborted <==> Lengths(Since(h, p.header.sequence, c.limits)) > c.maxDelta)
    && p.delta == (if p.aborted then [] else Since(h, p.header.sequence, c.limits))
    && p.deltaBytes == Lengths(p.delta)
  }

  ghost predicate WriterOk(s: State, c: Config) {
    s.writer.Some? ==>
      var w := s.writer.value;
      && w.generation == s.content.top
      && w.sequence == s.history.start + |s.history.changes|
      && s.content.torn == []
      && s.content.top in s.disk && w.metadata == s.disk[s.content.top].header.metadata
      && (w.compaction.Some? ==>
            && CompactionOk(w.compaction.value, s.history, w.metadata, c)
            && s.content.base <= w.compaction.value.header.sequence)
  }

  ghost predicate Inv(s: State, c: Config) {
    ValidConfig(c) && HistoryOk(s.history, c) && ContentOk(s, c) && WriterOk(s, c)
  }

  // ---------- Recovery of a cut file ----------

  lemma EncodeLogMonotone(rs: seq<Record>, i: nat, j: nat, limits: Limits)
    requires Encodable(rs, limits) && i <= j <= |rs|
    ensures Encodable(rs[..i], limits) && Encodable(rs[..j], limits)
    ensures |EncodeLog(rs[..i], limits)| <= |EncodeLog(rs[..j], limits)|
    ensures EncodeLog(rs[..j], limits)[..|EncodeLog(rs[..i], limits)|] == EncodeLog(rs[..i], limits)
  {
    hide EncodeLog, Encode, ValidRecord;
    EncodeLogConcat(rs[..i], rs[i..j], limits);
    assert rs[..j] == rs[..i] + rs[i..j];
  }

  /** Records known to fit before the cut are all read. */
  lemma WholeAtLeast(rs: seq<Record>, j: nat, limits: Limits, n: nat)
    requires Encodable(rs, limits) && j <= |rs| && |EncodeLog(rs[..j], limits)| <= n
    ensures j <= WholeRecords(rs, limits, n)
  {
    hide EncodeLog, Encode, ValidRecord, WholeRecords;
    WholeRecordsExact(rs, limits, n);
    var w := WholeRecords(rs, limits, n);
    if w < j {
      EncodeLogMonotone(rs, w + 1, j, limits);
    }
  }

  lemma GenerationPrefix(image: seq<Mutation>, base: nat, changes: seq<Change>, k: nat, limits: Limits)
    requires k <= |changes|
    ensures var sealedCount := |image| + 1;
            && |Generation(image, base, changes, limits)| == sealedCount + |changes|
            && Generation(image, base, changes, limits)[..sealedCount + k]
               == Generation(image, base, changes[..k], limits)
            && Generation(image, base, changes, limits)[..sealedCount] == Sealed(image, base, limits)
  {
    hide Digest, Snapshots, Batches;
    assert Batches(base, changes)[..k] == Batches(base, changes[..k]);
  }

  /** Where a cut of the newest generation falls: how many changes of the history survive. */
  function Survivors(s: State, c: Config, n: nat): (k: int)
    requires s.history.start <= s.content.base <= s.history.start + |s.history.changes|
    requires Encodable(Written(s, c.limits), c.limits)
  {
    s.content.base - s.history.start + WholeRecords(Written(s, c.limits), c.limits, n) - |s.content.image| - 1
  }

  /** The newest generation with the history's first k changes. */
  function Kept(s: State, k: int, limits: Limits): seq<Record>
    requires s.history.start <= s.content.base <= s.history.start + k && k <= |s.history.changes|
  {
    Generation(s.content.image, s.content.base, Tail(s.history, s.content.base, k), limits)
  }

  predicate CutPoint(s: State, n: nat) {
    s.content.top in s.disk && s.disk[s.content.top].synced <= n <= |s.disk[s.content.top].log|
  }

  /** The invariant's facts about the newest generation, flattened. */
  lemma Unpack(s: State, c: Config)
    requires Inv(s, c)
    ensures ValidConfig(c) && HistoryOk(s.history, c) && s.content.top in s.disk
    ensures s.history.start + |s.history.changes| < LONG && s.history.flushed <= |s.history.changes|
    ensures s.history.start <= s.content.base <= s.history.start + |s.history.changes|
    ensures Describes(s.content.image, At(s.history, s.content.base - s.history.start))
    ensures Encodable(Sealed(s.content.image, s.content.base, c.limits), c.limits)
    ensures Encodable(Written(s, c.limits), c.limits)
    ensures var f := s.disk[s.content.top];
            && f.header.sequence == s.content.base
            && f.synced <= |f.log| <= |EncodeLog(Written(s, c.limits), c.limits)|
            && f.log == EncodeLog(Written(s, c.limits), c.limits)[..|f.log|]
            && (s.content.torn != [] ==> |f.log| < |EncodeLog(Written(s, c.limits), c.limits)|)
            && |EncodeLog(Sealed(s.content.image, s.content.base, c.limits), c.limits)| <= f.synced
    ensures |s.content.torn| <= 1
  {
    hide EncodeLog, Encodable, Describes, Written, Generation, WriterOk, Admissible, WithinQuotas;
  }

  lemma UnpackFlushed(s: State, c: Config)
    requires Inv(s, c) && s.content.base - s.history.start <= s.history.flushed
    ensures s.content.top in s.disk && s.history.flushed <= |s.history.changes|
    ensures s.history.start <= s.content.base
    ensures Encodable(Kept(s, s.history.flushed, c.limits), c.limits)
    ensures |EncodeLog(Kept(s, s.history.flushed, c.limits), c.limits)| <= s.disk[s.content.top].synced
  {
    hide EncodeLog, Encodable, Describes, Written, Generation, WriterOk, Admissible, WithinQuotas;
  }

  /** The first records of what was written, in terms of the history. */
  lemma WrittenPrefix(s: State, k: int, limits: Limits)
    requires s.history.start <= s.content.base <= s.history.start + k && k <= |s.history.changes|
    ensures var n := |s.content.image| + 1;
            var rs := Written(s, limits);
            && |rs| == n + |s.history.changes| - (s.content.base - s.history.start) + |s.content.torn|
            && rs[..n] == Sealed(s.content.image, s.content.base, limits)
            && rs[..n + k - (s.content.base - s.history.start)] == Kept(s, k, limits)
  {
    hide Generation, Sealed;
    var h, t := s.history, s.content;
    var all := Tail(h, t.base, |h.changes|) + t.torn;
    var j := k - (t.base - h.start);
    GenerationPrefix(t.image, t.base, all, j, limits);
    assert all[..j] == Tail(h, t.base, k);
  }

  lemma SurvivorsBounds(s: State, c: Config, n: nat)
    requires Inv(s, c) && CutPoint(s, n)
    ensures s.history.start <= s.content.base <= s.history.start + |s.history.changes|
    ensures Encodable(Written(s, c.limits), c.limits)
    ensures var k := Survivors(s, c, n);
            s.content.base - s.history.start <= k <= |s.history.changes| && s.history.flushed <= k
  {
    hide EncodeLog, Encodable, WholeRecords, Inv, Describes, HistoryOk, Written, Sealed, Kept;
    Unpack(s, c);
    var h, t, rs := s.history, s.content, Written(s, c.limits);
    WrittenPrefix(s, |h.changes|, c.limits);
    WholeAtLeast(rs, |t.image| + 1, c.limits, n);
    if t.torn != [] {
      WholeRecordsExact(rs, c.limits, n);
      assert rs[..|rs|] == rs;
    }
    if t.base - h.start <= h.flushed {
      UnpackFlushed(s, c);
      WrittenPrefix(s, h.flushed, c.limits);
      WholeAtLeast(rs, |t.image| + 1 + h.flushed - (t.base - h.start), c.limits, n);
    }
  }

  /** The records that survive a cut are the generation with its first changes. */
  lemma SurvivorsRecords(s: State, c: Config, n: nat, k: int)
    requires s.history.start <= s.content.base <= s.history.start + |s.history.changes|
    requires Encodable(Written(s, c.limits), c.limits) && k == Survivors(s, c, n)
    requires s.content.base - s.history.start <= k <= |s.history.changes|
    ensures Written(s, c.limits)[..WholeRecords(Written(s, c.limits), c.limits, n)] == Kept(s, k, c.limits)
  {
    hide Encodable, WholeRecords, Written, Kept;
    WrittenPrefix(s, k, c.limits);
  }

  lemma TailAdmissible(h: History, base: nat, k: nat, c: Config)
    requires ValidConfig(c) && HistoryOk(h, c) && h.start <= base <= h.start + k && k <= |h.changes|
    ensures WithinQuotas(At(h, base - h.start), c.layout)
    ensures Admissible(At(h, base - h.start), Tail(h, base, k), c.layout)
    ensures Advance(At(h, base - h.start), Tail(h, base, k)) == At(h, k)
  {
    hide Accepts, WithinQuotas, Advance;
    var b := base - h.start;
    assert h.changes[..k] == h.changes[..b] + Tail(h, base, k);
    AdvanceConcat(h.initial, h.changes[..b], Tail(h, base, k));
    forall i | 0 <= i < k - b
      ensures Accepts(Advance(At(h, b), Tail(h, base, k)[..i]), Tail(h, base, k)[i].mutations, c.layout)
    {
      AdvanceConcat(h.initial, h.changes[..b], Tail(h, base, k)[..i]);
      assert h.changes[..b + i] == h.changes[..b] + Tail(h, base, k)[..i];
    }
    AlwaysWithin(h, b, c);
  }

  lemma AlwaysWithin(h: History, k: nat, c: Config)
    requires ValidConfig(c) && HistoryOk(h, c) && k <= |h.changes|
    ensures WithinQuotas(At(h, k), c.layout)
  {
    if k > 0 {
      assert h.changes[..k][..k - 1] == h.changes[..k - 1];
      assert Accepts(Advance(h.initial, h.changes[..k - 1]), h.changes[k - 1].mutations, c.layout);
    }
  }

  lemma KeptIs(s: State, k: int, limits: Limits)
    requires s.history.start <= s.content.base <= s.history.start + k && k <= |s.history.changes|
    ensures Kept(s, k, limits)
            == Generation(s.content.image, s.content.base, Tail(s.history, s.content.base, k), limits)
  {
  }

  lemma LoadFileIs(f: File, c: Config, reading: Reading, l: Loading)
    requires ValidConfig(c) && reading == ReadLog(f.log, c.limits) && !reading.ending.Broken?
    requires Load(Begin(f.header.sequence), reading.records, f.header.sequence, c) == Some(l) && l.sealed
    ensures LoadFile(f, c) == Some(Loaded(l.store, l.sequence, reading.valid, reading.ending.Torn?))
  {
  }

  lemma DescribesStore(image: seq<Mutation>, store: Store)
    requires Describes(image, store)
    ensures ApplyAll(map[], image) == store
  {
  }

  /** A cut reads back the kept records, which are the front of the log. */
  lemma CutReads(s: State, c: Config, n: nat, k: int)
    requires Inv(s, c) && CutPoint(s, n) && k == Survivors(s, c, n)
    ensures s.content.base - s.history.start <= k <= |s.history.changes| && s.history.flushed <= k
    ensures Encodable(Kept(s, k, c.limits), c.limits)
    ensures var f, whole := s.disk[s.content.top], EncodeLog(Kept(s, k, c.limits), c.limits);
            && |whole| <= n && f.log[..|whole|] == whole
            && ReadLog(f.log[..n], c.limits)
               == Reading(Kept(s, k, c.limits), if |whole| == n then AtEnd else Torn, |whole|)
  {
    hide EncodeLog, WholeRecords, Kept, Inv, HistoryOk, Describes, Written, Sealed, ReadLog;
    Unpack(s, c);
    var f := s.disk[s.content.top];
    var rs := Written(s, c.limits);
    SurvivorsBounds(s, c, n);
    SurvivorsRecords(s, c, n, k);
    var w := WholeRecords(rs, c.limits, n);
    CutAnywhere(rs, c.limits, n);
    WholeRecordsExact(rs, c.limits, n);
    EncodeLogMonotone(rs, w, |rs|, c.limits);
    assert rs[..|rs|] == rs;
    assert f.log[..n] == EncodeLog(rs, c.limits)[..n];
  }

  /**
   * Recovery of the newest generation cut anywhere at or beyond its synced length: it
   * succeeds, and yields the dataset after exactly the surviving changes.
   */
  lemma CutLoads(s: State, c: Config, n: nat, sy: nat, k: int)
    requires Inv(s, c) && CutPoint(s, n) && k == Survivors(s, c, n)
    ensures s.content.base - s.history.start <= k <= |s.history.changes| && s.history.flushed <= k
    ensures Encodable(Kept(s, k, c.limits), c.limits)
    ensures var f, whole := s.disk[s.content.top], |EncodeLog(Kept(s, k, c.limits), c.limits)|;
            && whole <= n
            && LoadFile(File(f.header, f.log[..n], sy), c)
               == Some(Loaded(At(s.history, k), s.history.start + k, whole, whole != n))
  {
    hide EncodeLog, Encodable, Inv, HistoryOk, Describes, Written, Sealed, Kept, Load, LoadFile, ReadLog, Survivors;
    hide Generation, At, Advance, ApplyAll, Admissible, WithinQuotas;
    Unpack(s, c);
    CutReads(s, c, n, k);
    var h, t := s.history, s.content;
    TailAdmissible(h, t.base, k, c);
    assert ApplyAll(map[], t.image) == At(h, t.base - h.start) by { DescribesStore(t.image, At(h, t.base - h.start)); }
    GenerationLoad(t.image, t.base, Tail(h, t.base, k), c);
    KeptIs(s, k, c.limits);
    var f := s.disk[t.top];
    var l := Load(Begin(t.base), Kept(s, k, c.limits), t.base, c).value;
    LoadFileIs(File(f.header, f.log[..n], sy), c, ReadLog(f.log[..n], c.limits), l);
  }
}
