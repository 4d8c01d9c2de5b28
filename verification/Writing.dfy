/**
 * The append-only file's owner and its recovery loop as they run: fields updated in place,
 * loops over records, and a fault that may strike at every fault point. Each operation is
 * proved to be a step of the run system, and recovery to compute the loader.
 */
module Writing {
  import opened Format
  import opened Log
  import opened Replay
  import opened Recovery
  import opened Aof
  import opened AofRuns

  // ---------- Recovery ----------

  lemma ReadLogStep(s: Bytes, limits: Limits)
    ensures var next := ReadRecord(s, limits);
            && (next.End? ==> ReadLog(s, limits) == Reading([], AtEnd, 0))
            && (next.IncompleteTail? ==> ReadLog(s, limits) == Reading([], Torn, 0))
            && (next.Failed? ==> ReadLog(s, limits) == Reading([], Broken(next.error), 0))
            && (next.Read? ==>
                  var later := ReadLog(next.rest, limits);
                  && |next.rest| < |s|
                  && ReadLog(s, limits)
                     == Reading([next.record] + later.records, later.ending, |s| - |next.rest| + later.valid))
  {
    hide ReadRecord;
    if ReadRecord(s, limits).Read? { ReadProgress(s, limits); }
  }

  /** A record the loader refuses makes the whole file refused. */
  lemma RefusedStays(f: File, c: Config, before: seq<Record>, r: Record, after: seq<Record>, l: Loading)
    requires ValidConfig(c) && ReadLog(f.log, c.limits).records == before + ([r] + after)
    requires Load(Begin(f.header.sequence), before, f.header.sequence, c) == Some(l)
    requires LoadRecord(l, r, f.header.sequence, c).None?
    ensures LoadFile(f, c) == None
  {
    hide Load, LoadRecord, ReadLog;
    LoadOne(l, r, f.header.sequence, c);
    LoadConcat(l, [r], after, f.header.sequence, c);
    LoadConcat(Begin(f.header.sequence), before, [r] + after, f.header.sequence, c);
  }

  lemma AcceptedStays(base: nat, c: Config, before: seq<Record>, r: Record, l: Loading)
    requires ValidConfig(c) && Load(Begin(base), before, base, c) == Some(l)
    ensures Load(Begin(base), before + [r], base, c) == LoadRecord(l, r, base, c)
  {
    hide LoadRecord;
    assert (before + [r])[..|before|] == before;
  }

  /** Recovery's record loop computes the loader, on every file. */
  method LoadProfile(f: File, c: Config) returns (r: Option<Loaded>)
    requires ValidConfig(c)
    ensures r == LoadFile(f, c)
  {
    hide ReadRecord, ReadLog, Load, LoadRecord, Accepts, Encode, SnapshotDigest, ApplyAll;
    var base := f.header.sequence;
    var data := new Dataset(c.layout);
    var rest, sealed, torn := f.log, false, false;
    var sequence: nat, entries: nat, digest: nat, valid: nat := base, 0, 0, 0;
    var previous: Option<Bytes> := None;
    ghost var done: seq<Record> := [];
    LoadNothing(base, c);
    while true
      invariant fresh(data) && data.Valid() && data.layout == c.layout
      invariant Load(Begin(base), done, base, c)
          == Some(Loading(data.store, sealed, sequence, previous, entries, digest))
      invariant ReadLog(f.log, c.limits)
                == Reading(done + ReadLog(rest, c.limits).records, ReadLog(rest, c.limits).ending,
                           valid + ReadLog(rest, c.limits).valid)
      decreases |rest|
    {
      ghost var l := Loading(data.store, sealed, sequence, previous, entries, digest);
      ReadLogStep(rest, c.limits);
      match ReadRecord(rest, c.limits)
      case End => break;
      case IncompleteTail =>
        torn := true;
        break;
      case Failed(_) => return None;
      case Read(record, later) =>
        ghost var after := ReadLog(later, c.limits).records;
        AcceptedStays(base, c, done, record, l);
        var ok;
        if record.Snapshot? && !sealed && record.mutation.Put? {
          ok := previous.None? || Less(previous.value, record.mutation.key);
          if ok {
            var encoded := Encode(record, c.limits);
            if encoded.Ok? {
              var outcome := data.Replay([record.mutation]);
              ok := outcome == Applied;
              previous, entries := Some(record.mutation.key), entries + 1;
              digest := SnapshotDigest(digest, encoded.value);
            } else {
              ok := false;
            }
          }
          EntryStep(l, record.mutation, base, c);
        } else if record.Seal? && !sealed && record.sequence == base && record.entries == entries
                  && record.digest == digest {
          ok, sealed := true, true;
          SealStep(l, record, base, c);
        } else if record.Batch? && sealed && sequence + 1 < LONG && record.sequence == sequence + 1 {
          var outcome := data.Replay(record.mutations);
          ok, sequence := outcome == Applied, record.sequence;
          BatchStep(l, record, base, c);
        } else {
          ok := false;
          OtherStep(l, record, base, c);
        }
        if !ok {
          RefusedStays(f, c, done, record, after, l);
          return None;
        }
        valid := valid + |rest| - |later|;
        rest := later;
        assert done + ([record] + after) == (done + [record]) + after;
        done := done + [record];
    }
    assert done + [] == done;
    r := if sealed then Some(Loaded(data.store, sequence, valid, torn)) else None;
  }

  lemma LoadNothing(base: nat, c: Config)
    requires ValidConfig(c)
    ensures Load(Begin(base), [], base, c) == Some(Begin(base))
  {
  }

  // The four arms of the loader, each on its own.

  lemma EntryStep(l: Loading, m: Mutation, base: nat, c: Config)
    requires ValidConfig(c) && !l.sealed && m.Put?
    ensures LoadRecord(l, Snapshot(m), base, c).Some? <==>
              && (l.previous.Some? ==> Less(l.previous.value, m.key))
              && Encode(Snapshot(m), c.limits).Ok? && Accepts(l.store, [m], c.layout)
    ensures LoadRecord(l, Snapshot(m), base, c).Some? ==>
              LoadRecord(l, Snapshot(m), base, c).value
              == Loading(ApplyAll(l.store, [m]), false, l.sequence, Some(m.key), l.entries + 1,
                         SnapshotDigest(l.digest, Encode(Snapshot(m), c.limits).value))
  {
    hide Accepts, Encode, ApplyAll, SnapshotDigest;
  }

  lemma SealStep(l: Loading, r: Record, base: nat, c: Config)
    requires ValidConfig(c) && r == Seal(base, l.entries, l.digest) && !l.sealed
    ensures LoadRecord(l, r, base, c) == Some(l.(sealed := true))
  {
  }

  lemma BatchStep(l: Loading, r: Record, base: nat, c: Config)
    requires ValidConfig(c) && r.Batch? && l.sealed && l.sequence + 1 < LONG && r.sequence == l.sequence + 1
    ensures LoadRecord(l, r, base, c).Some? <==> Accepts(l.store, r.mutations, c.layout)
    ensures LoadRecord(l, r, base, c).Some? ==>
              LoadRecord(l, r, base, c).value == l.(store := ApplyAll(l.store, r.mutations), sequence := r.sequence)
  {
    hide Accepts, ApplyAll;
  }

  lemma OtherStep(l: Loading, r: Record, base: nat, c: Config)
    requires ValidConfig(c)
    requires !(r.Snapshot? && !l.sealed && r.mutation.Put?)
    requires !(r.Seal? && !l.sealed && r.sequence == base && r.entries == l.entries && r.digest == l.digest)
    requires !(r.Batch? && l.sealed && l.sequence + 1 < LONG && r.sequence == l.sequence + 1)
    ensures LoadRecord(l, r, base, c) == None
  {
    hide Accepts, ApplyAll;
  }

  // ---------- Images ----------

  /** What installation checks before it writes anything: ordered post-images within quota. */
  ghost predicate Installable(image: seq<Mutation>, layout: Layout)
    requires ValidLayout(layout)
  {
    Describes(image, ApplyAll(map[], image)) && WithinQuotas(ApplyAll(map[], image), layout)
  }

  /** The image replayed entry by entry on an empty dataset is refused exactly when it is not installable. */
  method CheckImage(image: seq<Mutation>, c: Config) returns (ok: bool)
    requires ValidConfig(c)
    ensures ok <==> Installable(image, c.layout)
  {
    hide Accepts, WithinQuotas, Usage, ApplyAll, Chargeable, Describes, ShardFor;
    var data := new Dataset(c.layout);
    var previous: Option<Bytes> := None;
    NothingApplied(image);
    for i := 0 to |image|
      invariant fresh(data) && data.Valid() && data.layout == c.layout
      invariant data.store == ApplyAll(map[], image[..i])
      invariant previous == if i == 0 then None else Some(image[i - 1].key)
      invariant forall j :: 0 <= j < i ==> image[j].Put? && Chargeable(image[j].value)
      invariant forall j :: 0 < j < i ==> Less(image[j - 1].key, image[j].key)
    {
      if !image[i].Put? || (previous.Some? && !Less(previous.value, image[i].key)) {
        NotInstallable(image, i, c.layout);
        return false;
      }
      EntryAccepted(image, i, c.layout);
      var outcome := data.Replay([image[i]]);
      if outcome != Applied {
        return false;
      }
      previous := Some(image[i].key);
    }
    assert image[..|image|] == image;
    ImageInstallable(image, c.layout);
    ok := true;
  }

  lemma NotInstallable(image: seq<Mutation>, i: nat, layout: Layout)
    requires ValidLayout(layout) && i < |image|
    requires !image[i].Put? || (i > 0 && !Less(image[i - 1].key, image[i].key))
    ensures !Installable(image, layout)
  {
    hide WithinQuotas, ApplyAll;
    if i > 0 { assert Keys(image)[i - 1] == image[i - 1].key && Keys(image)[i] == image[i].key; }
  }

  lemma NothingApplied(image: seq<Mutation>)
    ensures ApplyAll(map[], image[..0]) == map[]
  {
  }

  /** Entries of an installable image are acceptable one by one; an acceptable one is chargeable. */
  lemma EntryAccepted(image: seq<Mutation>, i: nat, layout: Layout)
    requires ValidLayout(layout) && i < |image| && image[i].Put?
    ensures ApplyAll(ApplyAll(map[], image[..i]), [image[i]]) == ApplyAll(map[], image[..i + 1])
    ensures Accepts(ApplyAll(map[], image[..i]), [image[i]], layout)
            <==> Chargeable(image[i].value) && WithinQuotas(ApplyAll(map[], image[..i + 1]), layout)
    ensures Installable(image, layout) ==> Accepts(ApplyAll(map[], image[..i]), [image[i]], layout)
  {
    hide WithinQuotas, ApplyAll, Chargeable, ShardFor;
    ApplyNext(image, i);
    assert [image[i]][0] == image[i];
    if Installable(image, layout) {
      PartWithinQuotas(image, i + 1, layout);
    }
  }

  lemma {:induction false} NeighboursAscend(image: seq<Mutation>, n: nat)
    requires n <= |image| && forall j :: 0 < j < n ==> Less(image[j - 1].key, image[j].key)
    ensures forall i, j :: 0 <= i < j < n ==> Less(image[i].key, image[j].key)
  {
    if n > 1 {
      NeighboursAscend(image, n - 1);
      forall i | 0 <= i < n - 1 ensures Less(image[i].key, image[n - 1].key) {
        if i < n - 2 { LessTransitive(image[i].key, image[n - 2].key, image[n - 1].key); }
      }
    }
  }

  lemma ImageInstallable(image: seq<Mutation>, layout: Layout)
    requires ValidLayout(layout) && WithinQuotas(ApplyAll(map[], image), layout)
    requires forall j :: 0 <= j < |image| ==> image[j].Put? && Chargeable(image[j].value)
    requires forall j :: 0 < j < |image| ==> Less(image[j - 1].key, image[j].key)
    ensures Installable(image, layout)
  {
    hide WithinQuotas, ApplyAll, Chargeable, Less;
    NeighboursAscend(image, |image|);
  }

  /** The producer's loop: every entry encoded and digested, then the seal. */
  method WriteImage(image: seq<Mutation>, sequence: nat, c: Config) returns (r: Result<Bytes>)
    requires ValidConfig(c) && sequence < LONG && |image| < LONG && forall m :: m in image ==> ValidMutation(m)
    ensures r.Ok? <==> Encodable(Sealed(image, sequence, c.limits), c.limits)
    ensures r.Ok? ==> r.value == EncodeLog(Sealed(image, sequence, c.limits), c.limits)
  {
    hide Encode, ValidMutation, EncodeLog, SnapshotDigest;
    var log: Bytes := [];
    var digest: nat := 0;
    EncodeEmpty(c.limits);
    for i := 0 to |image|
      invariant Encodable(Snapshots(image[..i]), c.limits) && log == EncodeLog(Snapshots(image[..i]), c.limits)
      invariant digest == Digest(image[..i], c.limits) < WORD
    {
      assert image[..i + 1][..i] == image[..i];
      ghost var rs := Snapshots(image);
      var encoded := Encode(Snapshot(image[i]), c.limits);
      if encoded.Err? {
        assert Sealed(image, sequence, c.limits)[i] in Sealed(image, sequence, c.limits);
        return Err(encoded.error);
      }
      LogGrows(Snapshots(image[..i]), Snapshot(image[i]), c.limits);
      digest := SnapshotDigest(digest, encoded.value);
      log := log + encoded.value;
    }
    assert image[..|image|] == image;
    var seal := Seal(sequence, |image|, digest);
    var encoded := Encode(seal, c.limits);
    if encoded.Err? {
      assert seal in Sealed(image, sequence, c.limits);
      return Err(encoded.error);
    }
    LogGrows(Snapshots(image), seal, c.limits);
    r := Ok(log + encoded.value);
  }

  lemma LogGrows(rs: seq<Record>, r: Record, limits: Limits)
    requires Encodable(rs, limits) && ValidRecord(r) && Encode(r, limits).Ok?
    ensures Encodable(rs + [r], limits)
    ensures EncodeLog(rs + [r], limits) == EncodeLog(rs, limits) + Encode(r, limits).value
  {
    hide Encode, ValidRecord, EncodeLog;
    EncodeLogConcat(rs, [r], limits);
    EncodeOne(r, limits);
  }

  // ---------- The owner ----------

  /** Where a fault strikes an append, and how much of the record a failing write leaves. */
  datatype AppendFault = NoFault | BeforeWrite | ShortWrite(bytes: nat) | AfterWrite | WhileSyncing | BeforeReply

  datatype PublishFault = Intact | BeforePublish | AfterPublish

  datatype Reply = Done | Refused | Stopped

  lemma Alive(s: State, c: Config)
    requires Inv(s, c) && s.writer.Some?
    ensures ValidConfig(c) && s.content.top in s.disk && s.writer.value.generation == s.content.top
    ensures s.writer.value.sequence == s.history.start + |s.history.changes| < LONG
    ensures s.disk[s.content.top].synced <= |s.disk[s.content.top].log|
    ensures Newest(s.disk, s.content.top)
  {
    hide EncodeLog, Encodable, Describes, Written, Generation, Admissible, WithinQuotas, CompactionOk;
  }

  /** A sync that failed: nothing written is lost, and some of it may be durable. */
  ghost predicate FlushFailed(before: State, after: State, c: Config) {
    exists kept: nat :: Enabled(before, c, SyncFails(kept)) && after == SyncDies(before, kept)
  }

  /** What an append leaves behind, by its answer. */
  ghost predicate AppendOutcome(before: State, after: State, c: Config, change: Change, smooth: bool, reply: Reply) {
    && (reply.Done? <==> CanAppend(before, c, change) && smooth)
    && (reply.Done? ==> after == AofRuns.Append(before, c, change))
    && (reply.Refused? ==> after == before)
    && (reply.Stopped? ==> after.writer.None?)
    && (reply.Stopped? && after.disk == before.disk ==> after.history == before.history)
    && (reply.Stopped? && after.disk != before.disk ==>
          exists n: nat, kept: nat ::
            Enabled(before, c, AppendFails(change, n, kept)) && after == AppendDies(before, c, change, n, kept))
  }

  /** A fault inside the write: some part of the record, and some of it durable. */
  lemma Struck(before: State, after: State, c: Config, change: Change, n: nat, kept: nat)
    requires Inv(before, c) && Enabled(before, c, AppendFails(change, n, kept))
    requires after.disk == AppendTo(before, Encoded(NextRecord(before.writer.value, change), c.limits)[..n], kept)
    requires after.writer.None? && after.history == AppendDies(before, c, change, n, kept).history
    requires after.content == AppendDies(before, c, change, n, kept).content
    ensures Inv(after, c) && AppendOutcome(before, after, c, change, false, Stopped)
  {
    hide Inv, Accepts, Encode, ValidRecord, Encoded;
    AppendDiesKeeps(before, c, change, n, kept);
    assert after == AppendDies(before, c, change, n, kept);
    NotEmpty(before, c, change);
    var f, bytes := before.disk[before.content.top], Encoded(NextRecord(before.writer.value, change), c.limits);
    if after.disk == before.disk {
      assert |f.log + bytes[..n]| == |f.log|;
    }
  }

  lemma NotEmpty(s: State, c: Config, change: Change)
    requires CanAppend(s, c, change)
    ensures |Encoded(NextRecord(s.writer.value, change), c.limits)| > 0
  {
    hide Encode, Accepts, ValidRecord;
    FrameParts(NextRecord(s.writer.value, change), c.limits, []);
  }

  lemma Acknowledged(before: State, after: State, c: Config, change: Change)
    requires Inv(before, c) && CanAppend(before, c, change) && after == AofRuns.Append(before, c, change)
    ensures Inv(after, c) && AppendOutcome(before, after, c, change, true, Done)
  {
    hide Inv, CanAppend, Encoded;
    AppendKeeps(before, c, change);
  }

  function Clamp(low: nat, x: nat, high: nat): (y: nat)
    ensures low <= high ==> low <= y <= high
  {
    if x < low then low else if x > high then high else x
  }

  class Owner {
    const c: Config
    var disk: map<nat, File>
    var running: bool
    var generation: nat
    var sequence: nat
    var metadata: Option<Metadata>
    var dirty: bool
    var compaction: Option<Compaction>
    ghost var history: History
    ghost var content: Content

    ghost function View(): State
      reads this
    {
      State(disk, if running then Some(Writer(generation, sequence, metadata, compaction)) else None, history, content)
    }

    ghost predicate Valid()
      reads this
    {
      && Inv(View(), c)
      && (compaction.Some? ==> ImageWritable(compaction.value.image, compaction.value.header.sequence))
    }

    /** The file being written is durable to its end. */
    ghost predicate Durable()
      reads this
    {
      generation in disk && disk[generation].synced == |disk[generation].log|
    }

    /** The directory of a first start. */
    constructor (c: Config)
      requires ValidConfig(c)
      ensures Valid() && running && this.c == c && View() == Fresh(c)
    {
      this.c := c;
      FirstSealFits(c);
      var log := EncodeLog(Sealed([], 0, c.limits), c.limits);
      disk := map[0 := File(Header(0, None), log, |log|)];
      running, generation, sequence, metadata, dirty, compaction := true, 0, 0, None, false, None;
      history := History(0, map[], [], 0, 0);
      content := Content(0, [], 0, []);
      new;
      FreshOk(c);
    }

    /** A fatal error before anything was written: the owner stops as it was. */
    method Stop()
      requires Valid() && running
      modifies this
      ensures Valid() && !running && disk == old(disk) && history == old(history) && content == old(content)
      ensures compaction == old(compaction)
    {
      hide Inv;
      Alive(View(), c);
      ghost var s := View();
      running := false;
      SyncDiesKeeps(s, c, s.disk[s.content.top].synced);
      assert SyncTo(s, s.disk[s.content.top].synced) == disk;
    }

    /**
     * Appends one prepared change. Only success is acknowledged, and it is the run's append
     * step; a record over the limits changes nothing; any other failure stops the owner with
     * some part of the record written.
     */
    method Append(change: Change, fault: AppendFault, durable: nat) returns (reply: Reply)
      requires Valid() && running
      requires c.layout.mixed || SameShard(change.mutations, c.layout) ==>
                  Accepts(Now(history), change.mutations, c.layout)
      requires forall m :: m in change.mutations ==> ValidMutation(m)
      modifies this
      ensures Valid() && AppendOutcome(old(View()), View(), c, change, fault.NoFault?, reply)
      ensures reply.Done? && c.always ==> Durable()
      ensures reply.Refused? <==>
                && (c.layout.mixed || SameShard(change.mutations, c.layout)) && old(sequence) + 1 < LONG
                && Encode(Batch(old(sequence) + 1, change.origin, change.mutations), c.limits) == Err(Limit)
    {
      hide Inv, Encode, ValidMutation, Now, SameShard, DistinctKeys, WithinQuotas;
      Alive(View(), c);
      var together := RoutesTogether(change.mutations, c.layout);
      if !together {
        Stop();
        return Stopped;
      }
      if sequence + 1 >= LONG {
        Stop();
        return Stopped;
      }
      var record := Batch(sequence + 1, change.origin, change.mutations);
      var encoded := Encode(record, c.limits);
      if encoded == Err(Limit) {
        return Refused;
      }
      if encoded.Err? || fault.BeforeWrite? {
        Stop();
        return Stopped;
      }
      assert CanAppend(View(), c, change);
      reply := AppendEncoded(change, encoded.value, fault, durable);
    }

    /** A write that stops inside the record takes the owner with it. */
    method WriteShort(change: Change, bytes: Bytes, n: nat, durable: nat)
      requires Valid() && running && CanAppend(View(), c, change) && n < |bytes|
      requires bytes == Encoded(NextRecord(View().writer.value, change), c.limits)
      modifies this
      ensures Valid() && AppendOutcome(old(View()), View(), c, change, false, Stopped)
    {
      hide Inv, CanAppend, Encoded, AppendOutcome, ValidConfig;
      ghost var s := View();
      Alive(s, c);
      var f := disk[generation];
      var kept := Clamp(f.synced, durable, |f.log| + n);
      disk := disk[generation := File(f.header, f.log + bytes[..n], kept)];
      running := false;
      if n > 0 { content := content.(torn := [change]); }
      Struck(s, View(), c, change, n, kept);
    }

    /** Writes an encoded record, collects it for a pending compaction, and syncs when asked to. */
    method AppendEncoded(change: Change, bytes: Bytes, fault: AppendFault, durable: nat) returns (reply: Reply)
      requires Valid() && running && CanAppend(View(), c, change)
      requires bytes == Encoded(NextRecord(View().writer.value, change), c.limits)
      modifies this
      ensures Valid() && AppendOutcome(old(View()), View(), c, change, fault.NoFault?, reply)
      ensures !reply.Refused? && (reply.Done? <==> fault.NoFault?)
      ensures reply.Done? && c.always ==> Durable()
    {
      hide Inv, CanAppend, Encoded, AppendOutcome, ValidConfig;
      ghost var s := View();
      Alive(s, c);
      var f := disk[generation];
      if fault.ShortWrite? && fault.bytes < |bytes| {
        WriteShort(change, bytes, fault.bytes, durable);
        return Stopped;
      }
      disk := disk[generation := File(f.header, f.log + bytes, f.synced)];
      sequence, dirty := sequence + 1, true;
      Collect(bytes);
      history := history.(changes := history.changes + [change]);
      if !fault.NoFault? {
        var kept := Clamp(f.synced, durable, |f.log| + |bytes|);
        disk := disk[generation := File(f.header, f.log + bytes, kept)];
        running := false;
        assert bytes[..|bytes|] == bytes;
        Struck(s, View(), c, change, |bytes|, kept);
        return Stopped;
      }
      if c.always {
        disk := disk[generation := File(f.header, f.log + bytes, |f.log| + |bytes|)];
        dirty := false;
        history := history.(flushed := |history.changes|);
      }
      history := history.(acked := |history.changes|);
      Acknowledged(s, View(), c, change);
      reply := Done;
    }

    /** A pending compaction keeps the record, unless it is over its budget. */
    method Collect(bytes: Bytes)
      modifies this`compaction
      ensures compaction == Capture(old(compaction), bytes, c.maxDelta)
    {
      if compaction.Some? {
        var p := compaction.value;
        if p.aborted {
        } else if p.deltaBytes + |bytes| > c.maxDelta {
          compaction := Some(p.(aborted := true, delta := [], deltaBytes := 0));
        } else {
          compaction := Some(p.(deltaBytes := p.deltaBytes + |bytes|, delta := p.delta + [bytes]));
        }
      }
    }

    method Flush(fails: bool, durable: nat) returns (reply: Reply)
      requires Valid() && running
      modifies this
      ensures Valid() && (reply.Stopped? <==> fails) && (reply.Done? <==> !fails) && running == !fails
      ensures reply.Done? ==> View() == Sync(old(View())) && history.flushed == |history.changes| && Durable()
      ensures reply.Stopped? ==> FlushFailed(old(View()), View(), c)
    {
      hide Inv;
      ghost var s := View();
      Alive(s, c);
      var f := disk[generation];
      if fails {
        var kept := Clamp(f.synced, durable, |f.log|);
        disk := disk[generation := f.(synced := kept)];
        running := false;
        SyncDiesKeeps(s, c, kept);
        assert View() == SyncDies(s, kept);
        return Stopped;
      }
      disk := disk[generation := f.(synced := |f.log|)];
      dirty := false;
      history := history.(flushed := |history.changes|);
      assert View() == Sync(s);
      SyncKeeps(s, c);
      reply := Done;
    }

    method StartCompaction(image: seq<Mutation>) returns (reply: Reply)
      requires Valid() && running
      requires Describes(image, Now(history)) && |image| < LONG && forall m :: m in image ==> ValidMutation(m)
      modifies this
      ensures Valid() && running
      ensures reply == if old(compaction).Some? then Refused else Done
      ensures reply.Refused? ==> View() == old(View())
      ensures reply.Done? ==> old(CanCompact(View(), image)) && View() == BeginCompaction(old(View()), image)
    {
      hide Inv, Describes, ValidMutation, Now;
      ghost var s := View();
      Alive(s, c);
      if compaction.Some? {
        return Refused;
      }
      compaction := Some(Compaction(Header(sequence, metadata), image, [], 0, false));
      assert View() == BeginCompaction(s, image);
      BeginKeeps(s, c, image);
      reply := Done;
    }

    /** The compacted bytes: the sealed image, then every captured record in order. */
    method WriteDelta(log: Bytes, delta: seq<Bytes>) returns (all: Bytes)
      ensures all == log + Flatten(delta)
    {
      all := log;
      for i := 0 to |delta|
        invariant all == log + Flatten(delta[..i])
      {
        assert delta[..i + 1][..i] == delta[..i];
        all := all + delta[i];
      }
      assert delta[..|delta|] == delta;
    }

    /**
     * Ends a pending compaction. Before publication every failure drops it and leaves the
     * history as it was; behind the rename a failure stops the owner; success cuts over.
     */
    method EndCompaction(producerFails: bool, fault: PublishFault, removed: bool) returns (reply: Reply)
      requires Valid() && running && compaction.Some?
      modifies this
      ensures Valid() && compaction.None?
      ensures reply.Refused? ==> View() == DropCompaction(old(View()))
      ensures !reply.Refused? <==>
                !producerFails && !fault.BeforePublish? && old(CanPublish(View(), c))
      ensures reply.Done? ==> Durable()
      ensures !reply.Refused? ==>
                && old(CanPublish(View(), c))
                && View() == FinishCompaction(old(View()), c, removed, fault.AfterPublish?)
                && (reply.Stopped? <==> fault.AfterPublish?)
    {
      hide Inv, CompactedFile, Publish, Encodable, Sealed, EncodeLog, Flatten, ValidMutation;
      ghost var s := View();
      Alive(s, c);
      var p := compaction.value;
      compaction := None;
      assert View() == DropCompaction(s);
      DropKeeps(s, c);
      if p.aborted || producerFails {
        return Refused;
      }
      var image := WriteImage(p.image, p.header.sequence, c);
      if image.Err? || fault.BeforePublish? {
        return Refused;
      }
      var log := WriteDelta(image.value, p.delta);
      assert CanPublish(s, c);
      assert CompactedFile(p, c) == File(p.header, log, |log|) by { CompactedIs(p, c); }
      PublishFile(File(p.header, log, |log|), removed);
      history := history.(flushed := |history.changes|);
      content := Content(generation + 1, p.image, p.header.sequence, []);
      FinishKeeps(s, c, removed, fault.AfterPublish?);
      if fault.AfterPublish? {
        running := false;
        assert View() == FinishCompaction(s, c, removed, true);
        return Stopped;
      }
      generation := generation + 1;
      dirty := false;
      assert View() == FinishCompaction(s, c, removed, false);
      reply := Done;
    }

    /** The rename, and the removal of the generation before the previous one, which may fail. */
    method PublishFile(f: File, removed: bool)
      modifies this`disk
      ensures disk == Publish(old(disk), generation, f, removed)
      ensures generation + 1 in disk && disk[generation + 1] == f
    {
      disk := disk[generation + 1 := f];
      if removed && generation >= 1 {
        disk := disk - {generation - 1};
      }
    }

    /** Installs a received image as a generation of its own. */
    method Install(image: seq<Mutation>, to: nat, meta: Metadata, fault: PublishFault, removed: bool)
      returns (reply: Reply)
      requires Valid() && running && to < LONG && |image| < LONG && forall m :: m in image ==> ValidMutation(m)
      modifies this
      ensures Valid()
      ensures reply.Refused? ==> View() == old(View())
      ensures !reply.Refused? <==> !fault.BeforePublish? && old(CanInstall(View(), c, image, to))
      ensures reply.Done? ==> Durable()
      ensures !reply.Refused? ==>
                && old(CanInstall(View(), c, image, to))
                && View() == AofRuns.Install(old(View()), c, image, to, meta, removed, fault.AfterPublish?)
                && (reply.Stopped? <==> fault.AfterPublish?)
    {
      hide Inv, Describes, WithinQuotas, ValidMutation, Encodable, Publish, Sealed, EncodeLog, ApplyAll;
      ghost var s := View();
      Alive(s, c);
      if compaction.Some? {
        return Refused;
      }
      var checked := CheckImage(image, c);
      if !checked {
        return Refused;
      }
      var log := WriteImage(image, to, c);
      if log.Err? || fault.BeforePublish? {
        return Refused;
      }
      InstallKeeps(s, c, image, to, meta, removed, fault.AfterPublish?);
      PublishFile(File(Header(to, Some(meta)), log.value, |log.value|), removed);
      history := History(to, ApplyAll(map[], image), [], 0, 0);
      content := Content(generation + 1, image, to, []);
      if fault.AfterPublish? {
        running := false;
        assert View() == AofRuns.Install(s, c, image, to, meta, removed, true);
        return Stopped;
      }
      generation, sequence, metadata, dirty := generation + 1, to, Some(meta), false;
      assert View() == AofRuns.Install(s, c, image, to, meta, removed, false);
      reply := Done;
    }

    /**
     * The process ended and left this directory: the newest file with its first `kept` bytes,
     * any older ones. Recovery selects the newest, never fails on it, cuts only a torn tail,
     * and goes on as the run's crash step says.
     */
    method Recover(left: map<nat, File>, ghost kept: nat, ghost synced: nat, ghost older: map<nat, File>)
      returns (ok: bool)
      requires Valid() && CutPoint(View(), kept) && disk[content.top].synced <= synced <= kept
      requires forall g :: g in older ==> g < content.top
      requires left == older[content.top := File(disk[content.top].header, disk[content.top].log[..kept], synced)]
      modifies this
      ensures Valid() && ok && running && Recovered(old(View()), View(), c, kept, synced, older)
    {
      hide Inv, LoadFile, Encodable, EncodeLog, Written, At, Survivors, Kept, Restart, CanRestart;
      ghost var s := View();
      assert content.top in left;
      var g := Highest(left);
      assert g == content.top;
      CrashLoads(s, c, kept, synced, older);
      var f := left[g];
      var loaded := LoadProfile(f, c);
      if loaded.None? {
        return false;
      }
      var l := loaded.value;
      if l.torn {
        f := File(f.header, f.log[..l.valid], l.valid);
      }
      assert left[g := f] == older[g := f];
      Resume(left[g := f], g, f.header.metadata, l);
      RestartIs(s, c, kept, synced, older);
      assert View() == Restart(s, c, kept, synced, older);
      RestartKeeps(s, c, kept, synced, older);
      ok := true;
    }

    /** Takes up the loaded generation. */
    method Resume(files: map<nat, File>, g: nat, meta: Option<Metadata>, l: Loaded)
      requires history.start <= l.sequence <= history.start + |history.changes|
      modifies this
      ensures var h, k := old(history), l.sequence - old(history).start;
              View() == State(files, Some(Writer(g, l.sequence, meta, None)),
                              h.(changes := h.changes[..k], acked := Min(h.acked, k),
                                 flushed := if l.torn then k else Min(h.flushed, k)),
                              old(content).(torn := []))
      ensures running && compaction.None?
    {
      disk := files;
      running, generation, sequence, metadata := true, g, l.sequence, meta;
      dirty, compaction := false, None;
      ghost var k := l.sequence - history.start;
      history := history.(changes := history.changes[..k], acked := Min(history.acked, k),
                          flushed := if l.torn then k else Min(history.flushed, k));
      content := content.(torn := []);
    }
  }

  ghost predicate Recovered(before: State, after: State, c: Config, kept: nat, synced: nat, older: map<nat, File>) {
    CanRestart(before, c, kept, synced, older) && after == Restart(before, c, kept, synced, older)
  }

  lemma RestartIs(s: State, c: Config, n: nat, synced: nat, older: map<nat, File>)
    requires CanRestart(s, c, n, synced, older)
    requires var f := s.disk[s.content.top];
             var l := LoadFile(File(f.header, f.log[..n], synced), c).value;
             s.history.start <= l.sequence <= s.history.start + |s.history.changes| && l.valid <= n
    ensures var f, h := s.disk[s.content.top], s.history;
            var cut := File(f.header, f.log[..n], synced);
            var l := LoadFile(cut, c).value;
            var k := l.sequence - h.start;
            Restart(s, c, n, synced, older)
            == State(older[s.content.top := if l.torn then File(f.header, f.log[..n][..l.valid], l.valid) else cut],
                     Some(Writer(s.content.top, l.sequence, f.header.metadata, None)),
                     h.(changes := h.changes[..k], acked := Min(h.acked, k),
                        flushed := if l.torn then k else Min(h.flushed, k)),
                     s.content.(torn := []))
  {
    hide LoadFile, Encodable, EncodeLog, Written;
  }

  /** The highest generation of a directory. */
  method Highest(disk: map<nat, File>) returns (g: nat)
    requires disk != map[]
    ensures Newest(disk, g)
  {
    g :| g in disk;
    var keys := disk.Keys;
    while keys != {}
      invariant keys <= disk.Keys && g in disk
      invariant forall h :: h in disk && h !in keys ==> h <= g
      decreases |keys|
    {
      var h :| h in keys;
      if h > g { g := h; }
      keys := keys - {h};
    }
  }

  ghost predicate ImageWritable(image: seq<Mutation>, sequence: nat) {
    sequence < LONG && |image| < LONG && forall m :: m in image ==> ValidMutation(m)
  }

  lemma CompactedIs(p: Compaction, c: Config)
    requires Encodable(Sealed(p.image, p.header.sequence, c.limits), c.limits)
    ensures CompactedFile(p, c)
            == var log := EncodeLog(Sealed(p.image, p.header.sequence, c.limits), c.limits) + Flatten(p.delta);
               File(p.header, log, |log|)
  {
  }

  /** Recovering a whole file that was not synced leaves it exposed to the next crash. */
  lemma UnsyncedStaysExposed(s: State, c: Config)
    requires Inv(s, c) && s.content.torn == [] && s.content.top in s.disk
    requires s.disk[s.content.top].synced < |s.disk[s.content.top].log|
    ensures var f := s.disk[s.content.top];
            && CanRestart(s, c, |f.log|, f.synced, map[])
            && !Stable(Restart(s, c, |f.log|, f.synced, map[]), c)
  {
    hide Inv, LoadFile, Stable, Restart;
    var f := s.disk[s.content.top];
    var n := |f.log|;
    assert f.log[..n] == f.log && File(f.header, f.log[..n], f.synced) == f;
    CrashLoads(s, c, n, f.synced, map[]);
    WholeLoads(s, c);
    RestartIsStable(s, c, n, f.synced, map[]);
  }

  /** The configuration a server has by default, except that it does not sync before an answer. */
  const PERIODIC: Config :=
    Config(Layout(1, 0x400_0000, false), Limits(MAX_RECORD_BYTES, 100_000), false, 0x100_0000)

  /** The batch of one SET. */
  const SETTING: Change := Change(Client, [Put([107], String([118]), None)])

  lemma SettingFits()
    ensures ValidConfig(PERIODIC) && CanAppend(Fresh(PERIODIC), PERIODIC, SETTING)
  {
    hide Usage, ShardFor, EncodeLog, Body, Frame;
    var ms := SETTING.mutations;
    assert ms[..0] == [];
    assert MutationsSize(ms) == Ok(34);
    var none: Store := map[];
    assert ApplyAll(none, ms) == ApplyOne(none, ms[0]);
    forall scope ensures Usage(ApplyOne(none, ms[0]), PERIODIC.layout, scope) <= 130 {
      UsageEmpty(PERIODIC.layout, scope);
      UsageApply(none, ms[0], PERIODIC.layout, scope);
    }
  }

  /** A first start, one acknowledged SET and two crashes: the second recovery may find less than the first. */
  lemma SecondRecoveryMayDiffer()
    ensures ValidConfig(PERIODIC) && CanAppend(Fresh(PERIODIC), PERIODIC, SETTING)
    ensures var s := AofRuns.Append(Fresh(PERIODIC), PERIODIC, SETTING);
            && s.content.top in s.disk
            && var f := s.disk[s.content.top];
            && CanRestart(s, PERIODIC, |f.log|, f.synced, map[])
            && !Stable(Restart(s, PERIODIC, |f.log|, f.synced, map[]), PERIODIC)
  {
    hide Inv, Encode, EncodeLog, CanAppend, Stable, Restart, CanRestart;
    SettingFits();
    FreshOk(PERIODIC);
    var s := AofRuns.Append(Fresh(PERIODIC), PERIODIC, SETTING);
    AppendKeeps(Fresh(PERIODIC), PERIODIC, SETTING);
    NotEmpty(Fresh(PERIODIC), PERIODIC, SETTING);
    UnsyncedStaysExposed(s, PERIODIC);
  }
}
