/**
 * The steps of the append-only file and the theorem over every run: whatever is appended,
 * synced, compacted or installed, wherever it fails and however it crashes, recovery finds
 * a gap-free prefix of the history that holds everything promised.
 */
module AofRuns {
  import opened Format
  import opened Log
  import opened Replay
  import opened Recovery
  import opened Aof

  function Min(a: nat, b: nat): nat { if a < b then a else b }

  // ---------- Appending ----------

  function NextRecord(w: Writer, ch: Change): Record {
    Batch(w.sequence + 1, ch.origin, ch.mutations)
  }

  /** The worker has prepared the change against the dataset, and it fits in a record. */
  ghost predicate CanAppend(s: State, c: Config, ch: Change) {
    && ValidConfig(c) && s.writer.Some? && s.content.top in s.disk
    && s.writer.value.sequence + 1 < LONG
    && ValidRecord(NextRecord(s.writer.value, ch))
    && Encode(NextRecord(s.writer.value, ch), c.limits).Ok?
    && Accepts(Now(s.history), ch.mutations, c.layout)
  }

  /** A running compaction keeps the batch, until its budget is exceeded. */
  function Capture(p: Option<Compaction>, bytes: Bytes, maxDelta: nat): Option<Compaction> {
    match p
    case None => None
    case Some(k) =>
      if k.aborted then p
      else if k.deltaBytes + |bytes| > maxDelta then Some(k.(aborted := true, delta := [], deltaBytes := 0))
      else Some(k.(delta := k.delta + [bytes], deltaBytes := k.deltaBytes + |bytes|))
  }

  function AppendTo(s: State, bytes: Bytes, synced: nat): map<nat, File>
    requires s.content.top in s.disk
  {
    var f := s.disk[s.content.top];
    s.disk[s.content.top := File(f.header, f.log + bytes, synced)]
  }

  /** An acknowledged append: written, and under the Always policy synced. */
  ghost function Append(s: State, c: Config, ch: Change): State
    requires CanAppend(s, c, ch)
  {
    var w, h := s.writer.value, s.history;
    var bytes := Encoded(NextRecord(w, ch), c.limits);
    var f := s.disk[s.content.top];
    var n := |h.changes| + 1;
    s.(disk := AppendTo(s, bytes, if c.always then |f.log| + |bytes| else f.synced),
       writer := Some(w.(sequence := w.sequence + 1, compaction := Capture(w.compaction, bytes, c.maxDelta))),
       history := h.(changes := h.changes + [ch], acked := n, flushed := if c.always then n else h.flushed))
  }

  /** An append that fails after n bytes: the writer stops, with any amount of it durable. */
  ghost function AppendDies(s: State, c: Config, ch: Change, n: nat, synced: nat): State
    requires CanAppend(s, c, ch) && n <= |Encoded(NextRecord(s.writer.value, ch), c.limits)|
  {
    var bytes := Encoded(NextRecord(s.writer.value, ch), c.limits);
    s.(disk := AppendTo(s, bytes[..n], synced),
       writer := None,
       history := if n == |bytes| then s.history.(changes := s.history.changes + [ch]) else s.history,
       content := if 0 < n < |bytes| then s.content.(torn := [ch]) else s.content)
  }

  // ---------- Syncing ----------

  function SyncTo(s: State, synced: nat): map<nat, File>
    requires s.content.top in s.disk
  {
    s.disk[s.content.top := s.disk[s.content.top].(synced := synced)]
  }

  function Sync(s: State): State
    requires s.content.top in s.disk
  {
    s.(disk := SyncTo(s, |s.disk[s.content.top].log|), history := s.history.(flushed := |s.history.changes|))
  }

  function SyncDies(s: State, synced: nat): State
    requires s.content.top in s.disk
  {
    s.(disk := SyncTo(s, synced), writer := None)
  }

  // ---------- Compacting ----------

  predicate CanCompact(s: State, image: seq<Mutation>) {
    s.writer.Some? && s.writer.value.compaction.None? && Describes(image, Now(s.history))
  }

  function BeginCompaction(s: State, image: seq<Mutation>): State
    requires CanCompact(s, image)
  {
    var w := s.writer.value;
    s.(writer := Some(w.(compaction := Some(Compaction(Header(w.sequence, w.metadata), image, [], 0, false)))))
  }

  /** Aborted, failed in the producer, or failed before publication. */
  function DropCompaction(s: State): State
    requires s.writer.Some?
  {
    s.(writer := Some(s.writer.value.(compaction := None)))
  }

  predicate CanPublish(s: State, c: Config) {
    && s.writer.Some? && s.writer.value.compaction.Some? && !s.writer.value.compaction.value.aborted
    && var p := s.writer.value.compaction.value;
    Encodable(Sealed(p.image, p.header.sequence, c.limits), c.limits)
  }

  function CompactedFile(p: Compaction, c: Config): File
    requires Encodable(Sealed(p.image, p.header.sequence, c.limits), c.limits)
  {
    var log := EncodeLog(Sealed(p.image, p.header.sequence, c.limits), c.limits) + Flatten(p.delta);
    File(p.header, log, |log|)
  }

  /** Publication keeps one older generation and may fail to remove the one before it. */
  function Publish(disk: map<nat, File>, g: nat, f: File, removed: bool): map<nat, File> {
    var published := disk[g + 1 := f];
    if removed && g >= 1 then published - {g - 1} else published
  }

  /** Cutover to the compacted generation; a failure behind the rename stops the writer. */
  function FinishCompaction(s: State, c: Config, removed: bool, dies: bool): State
    requires CanPublish(s, c)
  {
    var w := s.writer.value;
    var p := w.compaction.value;
    State(Publish(s.disk, w.generation, CompactedFile(p, c), removed),
          if dies then None else Some(w.(generation := w.generation + 1, compaction := None)),
          s.history.(flushed := |s.history.changes|),
          Content(w.generation + 1, p.image, p.header.sequence, []))
  }

  // ---------- Installing a snapshot ----------

  ghost predicate CanInstall(s: State, c: Config, image: seq<Mutation>, sequence: nat) {
    && ValidConfig(c) && sequence < LONG
    && s.writer.Some? && s.writer.value.compaction.None?
    && Describes(image, ApplyAll(map[], image)) && WithinQuotas(ApplyAll(map[], image), c.layout)
    && Encodable(Sealed(image, sequence, c.limits), c.limits)
  }

  /** A published image starts a history of its own. */
  ghost function Install(
    s: State, c: Config, image: seq<Mutation>, sequence: nat, metadata: Metadata, removed: bool, dies: bool): State
    requires CanInstall(s, c, image, sequence)
  {
    var w := s.writer.value;
    var log := EncodeLog(Sealed(image, sequence, c.limits), c.limits);
    var f := File(Header(sequence, Some(metadata)), log, |log|);
    State(Publish(s.disk, w.generation, f, removed),
          if dies then None else Some(Writer(w.generation + 1, sequence, Some(metadata), None)),
          History(sequence, ApplyAll(map[], image), [], 0, 0),
          Content(w.generation + 1, image, sequence, []))
  }

  // ---------- Crashing and recovering ----------

  /**
   * The process ends and the newest file keeps its first n bytes, of which `synced` are
   * durable; older generations may be anything, because nothing reads them. Recovery then
   * loads the newest generation and cuts a torn tail.
   */
  ghost predicate CanRestart(s: State, c: Config, n: nat, synced: nat, older: map<nat, File>) {
    && CutPoint(s, n) && s.disk[s.content.top].synced <= synced <= n
    && (forall g :: g in older ==> g < s.content.top)
    && s.history.start <= s.content.base <= s.history.start + |s.history.changes|
    && Encodable(Written(s, c.limits), c.limits)
    && ValidConfig(c)
    && var f := s.disk[s.content.top];
    LoadFile(File(f.header, f.log[..n], synced), c).Some?
  }

  /** The file as recovery leaves it: only a torn tail is cut and synced. */
  function Repaired(f: File, loaded: Loaded): File {
    if loaded.torn && loaded.valid <= |f.log| then File(f.header, f.log[..loaded.valid], loaded.valid) else f
  }

  ghost function Restart(s: State, c: Config, n: nat, synced: nat, older: map<nat, File>): State
    requires CanRestart(s, c, n, synced, older)
  {
    var was := s.disk[s.content.top];
    var f := File(was.header, was.log[..n], synced);
    var loaded := LoadFile(f, c).value;
    var h := s.history;
    var k := if h.start <= loaded.sequence <= h.start + |h.changes| then loaded.sequence - h.start else 0;
    State(older[s.content.top := Repaired(f, loaded)],
          Some(Writer(s.content.top, loaded.sequence, f.header.metadata, None)),
          h.(changes := h.changes[..k], acked := Min(h.acked, k),
             flushed := if loaded.torn then k else Min(h.flushed, k)),
          s.content.(torn := []))
  }

  // ---------- Runs ----------

  datatype Step =
    | Appending(change: Change)
    | AppendFails(change: Change, written: nat, synced: nat)
    | Syncing
    | SyncFails(synced: nat)
    | Compacting(image: seq<Mutation>)
    | CompactionDropped
    | CutOver(removed: bool, dies: bool)
    | Installing(image: seq<Mutation>, sequence: nat, metadata: Metadata, removed: bool, dies: bool)
    | Crashing(kept: nat, synced: nat, older: map<nat, File>)

  ghost predicate Enabled(s: State, c: Config, step: Step) {
    match step
    case Appending(ch) => CanAppend(s, c, ch)
    case AppendFails(ch, n, synced) =>
      && CanAppend(s, c, ch) && n <= |Encoded(NextRecord(s.writer.value, ch), c.limits)|
      && s.disk[s.content.top].synced <= synced <= |s.disk[s.content.top].log| + n
    case Syncing => s.writer.Some? && s.content.top in s.disk
    case SyncFails(synced) =>
      && s.writer.Some? && s.content.top in s.disk
      && s.disk[s.content.top].synced <= synced <= |s.disk[s.content.top].log|
    case Compacting(image) => CanCompact(s, image)
    case CompactionDropped => s.writer.Some?
    case CutOver(_, _) => CanPublish(s, c)
    case Installing(image, sequence, _, _, _) => CanInstall(s, c, image, sequence)
    case Crashing(n, synced, older) => CanRestart(s, c, n, synced, older)
  }

  ghost function Take(s: State, c: Config, step: Step): State
    requires Enabled(s, c, step)
  {
    match step
    case Appending(ch) => Append(s, c, ch)
    case AppendFails(ch, n, synced) => AppendDies(s, c, ch, n, synced)
    case Syncing => Sync(s)
    case SyncFails(synced) => SyncDies(s, synced)
    case Compacting(image) => BeginCompaction(s, image)
    case CompactionDropped => DropCompaction(s)
    case CutOver(removed, dies) => FinishCompaction(s, c, removed, dies)
    case Installing(image, sequence, metadata, removed, dies) =>
      Install(s, c, image, sequence, metadata, removed, dies)
    case Crashing(n, synced, older) => Restart(s, c, n, synced, older)
  }

  /** The directory a first start leaves: generation zero, sealed and empty. */
  function Fresh(c: Config): State
    requires ValidConfig(c)
  {
    FirstSealFits(c);
    var log := EncodeLog(Sealed([], 0, c.limits), c.limits);
    State(map[0 := File(Header(0, None), log, |log|)], Some(Writer(0, 0, None, None)),
          History(0, map[], [], 0, 0), Content(0, [], 0, []))
  }

  /** Building the invariant of an intact newest generation. */
  lemma MakeContent(s: State, c: Config)
    requires Newest(s.disk, s.content.top) && s.content.torn == []
    requires s.history.start <= s.content.base <= s.history.start + |s.history.changes|
    requires Describes(s.content.image, At(s.history, s.content.base - s.history.start))
    requires Encodable(Kept(s, |s.history.changes|, c.limits), c.limits)
    requires Encodable(Sealed(s.content.image, s.content.base, c.limits), c.limits)
    requires s.history.flushed <= |s.history.changes|
    requires var f := s.disk[s.content.top];
             && f.header.sequence == s.content.base
             && f.log == EncodeLog(Kept(s, |s.history.changes|, c.limits), c.limits)
             && |EncodeLog(Sealed(s.content.image, s.content.base, c.limits), c.limits)| <= f.synced <= |f.log|
             && (s.content.base - s.history.start <= s.history.flushed ==>
                   && Encodable(Kept(s, s.history.flushed, c.limits), c.limits)
                   && |EncodeLog(Kept(s, s.history.flushed, c.limits), c.limits)| <= f.synced)
    ensures ContentOk(s, c)
  {
    hide EncodeLog, Encodable, Describes, Generation, Sealed;
    var tail := Tail(s.history, s.content.base, |s.history.changes|);
    assert tail + s.content.torn == tail;
  }

  lemma EncodeOne(r: Record, limits: Limits)
    requires Encodable([r], limits)
    ensures EncodeLog([r], limits) == Encoded(r, limits)
  {
    hide Encode;
    assert r in [r];
    assert [r][1..] == [];
  }

  /** One more record, whole or torn, extends what was written. */
  lemma WrittenAppend(s: State, c: Config, ch: Change)
    requires Inv(s, c) && CanAppend(s, c, ch)
    ensures s.history.start <= s.content.base <= s.history.start + |s.history.changes|
    ensures s.content.torn == []
    ensures var r := NextRecord(s.writer.value, ch);
            var whole := Kept(s, |s.history.changes|, c.limits);
            && Written(s, c.limits) == whole
            && Encodable(whole, c.limits) && Encodable(whole + [r], c.limits)
            && s.disk[s.content.top].log == EncodeLog(whole, c.limits)
            && EncodeLog(whole + [r], c.limits) == s.disk[s.content.top].log + Encoded(r, c.limits)
            && whole + [r] == Generation(s.content.image, s.content.base,
                                         Tail(s.history, s.content.base, |s.history.changes|) + [ch], c.limits)
  {
    hide EncodeLog, Encode, ValidRecord, HistoryOk, Describes, SyncedOk, Sealed, Generation;
    var h, t := s.history, s.content;
    var tail := Tail(h, t.base, |h.changes|);
    var r := NextRecord(s.writer.value, ch);
    assert tail + t.torn == tail;
    BatchPush(t.image, t.base, tail, ch, c.limits);
    var whole := Kept(s, |h.changes|, c.limits);
    assert Encodable([r], c.limits);
    EncodeLogConcat(whole, [r], c.limits);
    EncodeOne(r, c.limits);
    var log := s.disk[t.top].log;
    assert log == EncodeLog(whole, c.limits);
  }

  // ---------- Every step keeps the invariant ----------

  /** Earlier points of a history do not move when it grows. */
  lemma Grows(h: History, ch: Change, base: nat, k: nat)
    requires k <= |h.changes|
    ensures var g := h.(changes := h.changes + [ch]);
            && At(g, k) == At(h, k)
            && (h.start <= base <= h.start + k ==> Tail(g, base, k) == Tail(h, base, k))
            && (h.start <= base <= h.start + |h.changes| ==>
                  Tail(g, base, |g.changes|) == Tail(h, base, |h.changes|) + [ch])
  {
    hide Advance;
    assert (h.changes + [ch])[..k] == h.changes[..k];
  }

  lemma RecordablePush(start: nat, changes: seq<Change>, ch: Change, limits: Limits)
    requires Recordable(start, changes, limits)
    requires var r := Batch(start + |changes| + 1, ch.origin, ch.mutations); ValidRecord(r) && Encode(r, limits).Ok?
    ensures Recordable(start, changes + [ch], limits)
  {
    hide ValidRecord, Encode;
    assert (changes + [ch])[..|changes|] == changes;
  }

  lemma RecordablePrefix(start: nat, changes: seq<Change>, k: nat, limits: Limits)
    requires Recordable(start, changes, limits) && k <= |changes|
    ensures Recordable(start, changes[..k], limits)
  {
    hide ValidRecord, Encode, Batches;
    forall r | r in Batches(start, changes[..k]) ensures r in Batches(start, changes) {
      var i :| 0 <= i < k && Batches(start, changes[..k])[i] == r;
      assert Batches(start, changes)[i] == r;
    }
  }

  lemma HistoryAppend(s: State, c: Config, ch: Change)
    requires Inv(s, c) && CanAppend(s, c, ch)
    ensures var h := s.history.(changes := s.history.changes + [ch]);
            && h.start + |h.changes| < LONG && WithinQuotas(h.initial, c.layout)
            && Admissible(h.initial, h.changes, c.layout) && Recordable(h.start, h.changes, c.limits)
  {
    hide Accepts, Admissible, WithinQuotas, ContentOk, Encode, ValidRecord, Recordable;
    AdmissiblePush(s.history.initial, s.history.changes, ch, c.layout);
    RecordablePush(s.history.start, s.history.changes, ch, c.limits);
  }

  lemma ContentAppend(s: State, c: Config, ch: Change, t: State, synced: nat, flushed: nat)
    requires Inv(s, c) && CanAppend(s, c, ch)
    requires t.disk == AppendTo(s, Encoded(NextRecord(s.writer.value, ch), c.limits), synced)
    requires t.history.start == s.history.start && t.history.initial == s.history.initial
    requires t.history.changes == s.history.changes + [ch] && t.history.flushed == flushed
    requires t.content == s.content
    requires s.disk[s.content.top].synced <= synced <= |t.disk[s.content.top].log|
    requires flushed == s.history.flushed
             || (flushed == |t.history.changes| && synced == |t.disk[s.content.top].log|)
    ensures ContentOk(t, c)
  {
    hide EncodeLog, Encodable, Describes, Generation, Sealed, Encode, ValidRecord, At, HistoryOk, Accepts;
    var h, k := s.history, s.content;
    Unpack(s, c);
    WrittenAppend(s, c, ch);
    Grows(h, ch, k.base, k.base - h.start);
    Grows(h, ch, k.base, h.flushed);
    assert t.history == h.(changes := h.changes + [ch], acked := t.history.acked, flushed := flushed);
    AtAgrees(t.history, h.(changes := h.changes + [ch]), k.base - h.start);
    assert Kept(t, |t.history.changes|, c.limits)
           == Kept(s, |h.changes|, c.limits) + [NextRecord(s.writer.value, ch)];
    if flushed == h.flushed && k.base - h.start <= flushed {
      UnpackFlushed(s, c);
      assert Kept(t, flushed, c.limits) == Kept(s, flushed, c.limits);
    }
    MakeContent(t, c);
  }

  lemma AtAgrees(g: History, h: History, k: nat)
    requires k <= |h.changes| && g.initial == h.initial && g.changes == h.changes
    ensures At(g, k) == At(h, k)
  {
  }

  lemma EncodedEachAppend(base: nat, changes: seq<Change>, ch: Change, limits: Limits)
    ensures EncodedEach(Batches(base, changes + [ch]), limits)
            == EncodedEach(Batches(base, changes), limits)
               + [Encoded(Batch(base + |changes| + 1, ch.origin, ch.mutations), limits)]
  {
    hide Encoded;
    assert (changes + [ch])[..|changes|] == changes;
    var rs := Batches(base, changes + [ch]);
    assert rs[..|rs| - 1] == Batches(base, changes);
  }

  lemma SinceAppend(h: History, base: nat, ch: Change, limits: Limits)
    requires h.start <= base <= h.start + |h.changes|
    ensures var bytes := Encoded(Batch(h.start + |h.changes| + 1, ch.origin, ch.mutations), limits);
            var now := Since(h.(changes := h.changes + [ch]), base, limits);
            now == Since(h, base, limits) + [bytes] && Lengths(now) == Lengths(Since(h, base, limits)) + |bytes|
  {
    hide Encoded, EncodedEach, Batches;
    Grows(h, ch, base, base - h.start);
    EncodedEachAppend(base, Tail(h, base, |h.changes|), ch, limits);
    var bytes := Encoded(Batch(h.start + |h.changes| + 1, ch.origin, ch.mutations), limits);
    assert (Since(h, base, limits) + [bytes])[..|Since(h, base, limits)|] == Since(h, base, limits);
  }

  /** The pending delta stays exactly the batches since the compaction's base, or they exceed the limit. */
  lemma CaptureKeeps(p: Compaction, h: History, metadata: Option<Metadata>, c: Config, ch: Change)
    requires CompactionOk(p, h, metadata, c)
    ensures var bytes := Encoded(Batch(h.start + |h.changes| + 1, ch.origin, ch.mutations), c.limits);
            var q := Capture(Some(p), bytes, c.maxDelta);
            q.Some? && CompactionOk(q.value, h.(changes := h.changes + [ch]), metadata, c)
  {
    hide Encoded, Describes, At, Since;
    var b := p.header.sequence;
    Grows(h, ch, b, b - h.start);
    SinceAppend(h, b, ch, c.limits);
  }

  lemma CompactionAgrees(p: Compaction, g: History, h: History, metadata: Option<Metadata>, c: Config)
    requires CompactionOk(p, h, metadata, c)
    requires g.start == h.start && g.initial == h.initial && g.changes == h.changes
    ensures CompactionOk(p, g, metadata, c)
  {
    hide Describes, EncodedEach, Batches, Lengths;
    AtAgrees(g, h, p.header.sequence - h.start);
  }

  lemma AppendKeeps(s: State, c: Config, ch: Change)
    requires Inv(s, c) && CanAppend(s, c, ch)
    ensures Inv(Append(s, c, ch), c)
  {
    hide ContentOk, Accepts, Admissible, WithinQuotas, Encode, ValidRecord, Encoded, CompactionOk;
    var t := Append(s, c, ch);
    HistoryAppend(s, c, ch);
    assert s.disk[s.content.top].synced <= |s.disk[s.content.top].log| by { Unpack(s, c); }
    ContentAppend(s, c, ch, t, t.disk[s.content.top].synced, t.history.flushed);
    if s.writer.value.compaction.Some? {
      CaptureKeeps(s.writer.value.compaction.value, s.history, s.writer.value.metadata, c, ch);
      CompactionAgrees(t.writer.value.compaction.value, t.history,
                       s.history.(changes := s.history.changes + [ch]), s.writer.value.metadata, c);
    }
  }

  /** A partial record is a torn tail: the history and everything durable stay as they were. */
  lemma TornKeeps(s: State, c: Config, ch: Change, n: nat, synced: nat)
    requires Inv(s, c) && Enabled(s, c, AppendFails(ch, n, synced))
    requires 0 < n < |Encoded(NextRecord(s.writer.value, ch), c.limits)|
    ensures Inv(AppendDies(s, c, ch, n, synced), c)
  {
    hide EncodeLog, Encodable, Describes, Generation, Sealed, Encode, ValidRecord, At, HistoryOk, Accepts;
    var t := AppendDies(s, c, ch, n, synced);
    Unpack(s, c);
    WrittenAppend(s, c, ch);
    var bytes := Encoded(NextRecord(s.writer.value, ch), c.limits);
    var was, f := s.disk[s.content.top], t.disk[s.content.top];
    assert Written(t, c.limits) == Kept(s, |s.history.changes|, c.limits) + [NextRecord(s.writer.value, ch)];
    assert EncodeLog(Written(t, c.limits), c.limits) == was.log + bytes;
    assert f.log == (was.log + bytes)[..|f.log|];
    if s.content.base - s.history.start <= s.history.flushed {
      UnpackFlushed(s, c);
    }
  }

  lemma AppendDiesKeeps(s: State, c: Config, ch: Change, n: nat, synced: nat)
    requires Inv(s, c) && Enabled(s, c, AppendFails(ch, n, synced))
    ensures Inv(AppendDies(s, c, ch, n, synced), c)
  {
    hide ContentOk, Accepts, Admissible, WithinQuotas, Encode, ValidRecord, Encoded, CompactionOk;
    var t := AppendDies(s, c, ch, n, synced);
    var bytes := Encoded(NextRecord(s.writer.value, ch), c.limits);
    if n == |bytes| {
      assert bytes[..n] == bytes;
      HistoryAppend(s, c, ch);
      ContentAppend(s, c, ch, t, synced, t.history.flushed);
    } else if n == 0 {
      assert s.disk[s.content.top].log + bytes[..0] == s.disk[s.content.top].log;
      SyncedUp(s, c, t, synced, s.history.flushed);
    } else {
      TornKeeps(s, c, ch, n, synced);
    }
  }

  /** More of the newest file becoming durable keeps its content. */
  lemma SyncedUp(s: State, c: Config, t: State, synced: nat, flushed: nat)
    requires Inv(s, c) && s.content.top in s.disk
    requires s.disk[s.content.top].synced <= synced <= |s.disk[s.content.top].log|
    requires t.disk == SyncTo(s, synced) && t.content == s.content
    requires t.history == s.history.(flushed := flushed)
    requires flushed == s.history.flushed
             || (flushed == |s.history.changes| && synced == |s.disk[s.content.top].log|)
    ensures ContentOk(t, c)
  {
    hide EncodeLog, Encodable, Describes, Generation, Sealed, At, HistoryOk;
    Unpack(s, c);
    var h, k := s.history, s.content;
    AtAgrees(t.history, h, k.base - h.start);
    assert Written(t, c.limits) == Written(s, c.limits);
    if flushed == h.flushed {
      if k.base - h.start <= flushed { UnpackFlushed(s, c); }
    }
  }

  lemma SyncKeeps(s: State, c: Config)
    requires Inv(s, c) && Enabled(s, c, Syncing)
    ensures Inv(Sync(s), c)
  {
    hide ContentOk, Admissible, WithinQuotas, CompactionOk, Describes, Encodable, EncodeLog, Sealed, Written, At;
    assert s.disk[s.content.top].synced <= |s.disk[s.content.top].log| by { Unpack(s, c); }
    var t := Sync(s);
    SyncedUp(s, c, t, |s.disk[s.content.top].log|, |s.history.changes|);
    if s.writer.value.compaction.Some? {
      CompactionAgrees(s.writer.value.compaction.value, t.history, s.history, s.writer.value.metadata, c);
    }
  }

  lemma SyncDiesKeeps(s: State, c: Config, synced: nat)
    requires Inv(s, c) && Enabled(s, c, SyncFails(synced))
    ensures Inv(SyncDies(s, synced), c)
  {
    hide ContentOk, Admissible, WithinQuotas, CompactionOk;
    SyncedUp(s, c, SyncDies(s, synced), synced, s.history.flushed);
  }

  lemma ContentAgrees(s: State, t: State, c: Config)
    requires ContentOk(s, c) && t.disk == s.disk && t.history == s.history && t.content == s.content
    ensures ContentOk(t, c)
  {
    hide EncodeLog, Encodable, Describes, Generation, Sealed, At;
    if s.history.start <= s.content.base <= s.history.start + |s.history.changes| {
      assert Written(t, c.limits) == Written(s, c.limits);
    }
  }

  lemma FreshCompaction(h: History, metadata: Option<Metadata>, image: seq<Mutation>, c: Config)
    requires Describes(image, Now(h))
    ensures CompactionOk(Compaction(Header(h.start + |h.changes|, metadata), image, [], 0, false), h, metadata, c)
  {
    hide Describes, Advance;
    assert h.changes[..|h.changes|] == h.changes;
    assert Tail(h, h.start + |h.changes|, |h.changes|) == [];
  }

  lemma BeginKeeps(s: State, c: Config, image: seq<Mutation>)
    requires Inv(s, c) && CanCompact(s, image)
    ensures Inv(BeginCompaction(s, image), c)
  {
    hide ContentOk, HistoryOk, Describes, CompactionOk;
    assert s.content.base <= s.history.start + |s.history.changes| by { Unpack(s, c); }
    ContentAgrees(s, BeginCompaction(s, image), c);
    FreshCompaction(s.history, s.writer.value.metadata, image, c);
  }

  lemma DropKeeps(s: State, c: Config)
    requires Inv(s, c) && s.writer.Some?
    ensures Inv(DropCompaction(s), c)
  {
    hide ContentOk, HistoryOk, CompactionOk;
    ContentAgrees(s, DropCompaction(s), c);
  }

  // ---------- Cutover ----------

  lemma {:induction false} FlattenIsLog(rs: seq<Record>, limits: Limits)
    requires Encodable(rs, limits)
    ensures Flatten(EncodedEach(rs, limits)) == EncodeLog(rs, limits)
  {
    hide Encode, ValidRecord, EncodeLog;
    if rs == [] {
      assert EncodeLog(rs, limits) == [] by { EncodeEmpty(limits); }
    } else {
      var n := |rs| - 1;
      assert rs == rs[..n] + [rs[n]];
      EncodableParts(rs[..n], [rs[n]], limits);
      FlattenIsLog(rs[..n], limits);
      EncodeLogConcat(rs[..n], [rs[n]], limits);
      EncodeOne(rs[n], limits);
      var each := EncodedEach(rs, limits);
      assert each[..n] == EncodedEach(rs[..n], limits);
    }
  }

  lemma EncodeEmpty(limits: Limits)
    ensures EncodeLog([], limits) == []
  {
  }

  lemma EncodableSlice(rs: seq<Record>, i: nat, j: nat, limits: Limits)
    requires Encodable(rs, limits) && i <= j <= |rs|
    ensures Encodable(rs[i..j], limits)
  {
    hide Encodable;
    EncodableParts(rs[..i], rs[i..], limits);
    EncodableParts(rs[i..j], rs[j..], limits);
    assert rs == rs[..i] + rs[i..];
    assert rs[i..] == rs[i..j] + rs[j..];
  }

  lemma BatchesSlice(base: nat, changes: seq<Change>, i: nat, j: nat)
    requires i <= j <= |changes|
    ensures Batches(base, changes)[i..j] == Batches(base + i, changes[i..j])
  {
  }

  /** Batches recorded since any point of the file's range are encodable. */
  lemma TailEncodable(s: State, c: Config, b: nat)
    requires Inv(s, c) && s.content.base <= b <= s.history.start + |s.history.changes|
    ensures s.history.start <= s.content.base
    ensures Encodable(Batches(b, Tail(s.history, b, |s.history.changes|)), c.limits)
  {
    hide Encodable, EncodeLog, Inv, HistoryOk, Describes, Sealed, Batches;
    Unpack(s, c);
    var h, k := s.history, s.content;
    var changes := Tail(h, k.base, |h.changes|) + k.torn;
    EncodableParts(Sealed(k.image, k.base, c.limits), Batches(k.base, changes), c.limits);
    var i, j := b - k.base, h.start + |h.changes| - k.base;
    EncodableSlice(Batches(k.base, changes), i, j, c.limits);
    BatchesSlice(k.base, changes, i, j);
    assert changes[i..j] == Tail(h, b, |h.changes|);
  }

  /** The compacted file is the image at the base followed by every batch since. */
  lemma CompactedLog(s: State, c: Config)
    requires Inv(s, c) && CanPublish(s, c)
    ensures var p, h := s.writer.value.compaction.value, s.history;
            && h.start <= p.header.sequence <= h.start + |h.changes|
            && Describes(p.image, At(h, p.header.sequence - h.start))
            && var g := Generation(p.image, p.header.sequence, Tail(h, p.header.sequence, |h.changes|), c.limits);
            && Encodable(g, c.limits)
            && CompactedFile(p, c).log == EncodeLog(g, c.limits)
            && |EncodeLog(Sealed(p.image, p.header.sequence, c.limits), c.limits)| <= |EncodeLog(g, c.limits)|
  {
    hide EncodeLog, Describes, At, HistoryOk, ContentOk, Encode, ValidRecord, Sealed, Flatten, EncodedEach, Batches;
    var p, h := s.writer.value.compaction.value, s.history;
    assert s.content.base <= p.header.sequence <= h.start + |h.changes|;
    TailEncodable(s, c, p.header.sequence);
    var batches := Batches(p.header.sequence, Tail(h, p.header.sequence, |h.changes|));
    FlattenIsLog(batches, c.limits);
    EncodeLogConcat(Sealed(p.image, p.header.sequence, c.limits), batches, c.limits);
  }

  lemma FinishKeeps(s: State, c: Config, removed: bool, dies: bool)
    requires Inv(s, c) && CanPublish(s, c)
    ensures Inv(FinishCompaction(s, c, removed, dies), c)
  {
    hide EncodeLog, Encodable, Describes, Generation, Sealed, Flatten, Admissible, WithinQuotas, EncodedEach;
    var t := FinishCompaction(s, c, removed, dies);
    CompactedLog(s, c);
    assert HistoryOk(t.history, c);
    assert Newest(s.disk, s.writer.value.generation);
    AtAgrees(t.history, s.history, t.content.base - t.history.start);
    MakeContent(t, c);
  }

  lemma NewestIsCurrent(s: State, c: Config)
    requires Inv(s, c) && s.writer.Some?
    ensures Newest(s.disk, s.writer.value.generation)
  {
    hide EncodeLog, Encodable, Describes, Sealed, WithinQuotas, Admissible, SyncedOk;
  }

  /** A history that has only just begun. */
  lemma {:induction false} NewHistory(s: State, c: Config)
    requires ValidConfig(c) && s.history.start == s.content.base < LONG && s.history.changes == []
    requires s.history.acked == s.history.flushed == 0 && WithinQuotas(s.history.initial, c.layout)
    ensures HistoryOk(s.history, c) && At(s.history, 0) == s.history.initial
    ensures Kept(s, 0, c.limits) == Sealed(s.content.image, s.content.base, c.limits)
  {
    hide WithinQuotas, Sealed, Accepts, ApplyAll;
    assert Tail(s.history, s.content.base, 0) == [];
    NoBatches(s.content.image, s.content.base, c.limits);
  }

  lemma NoBatches(image: seq<Mutation>, base: nat, limits: Limits)
    ensures Generation(image, base, [], limits) == Sealed(image, base, limits)
  {
    hide Sealed;
  }

  lemma InstallKeeps(
      s: State, c: Config, image: seq<Mutation>, sequence: nat, metadata: Metadata, removed: bool, dies: bool)
    requires Inv(s, c) && CanInstall(s, c, image, sequence)
    ensures Inv(Install(s, c, image, sequence, metadata, removed, dies), c)
  {
    hide EncodeLog, Encodable, Describes, Sealed, WithinQuotas, ContentOk, At, Advance, ApplyAll, Kept, HistoryOk;
    var t := Install(s, c, image, sequence, metadata, removed, dies);
    assert Newest(s.disk, s.writer.value.generation) by { NewestIsCurrent(s, c); }
    NewHistory(t, c);
    MakeContent(t, c);
  }

  lemma FreshOk(c: Config)
    requires ValidConfig(c)
    ensures Inv(Fresh(c), c)
  {
    hide EncodeLog, Encodable, Sealed;
    FirstSealFits(c);
    var t := Fresh(c);
    assert Tail(t.history, 0, 0) == [];
    assert Kept(t, 0, c.limits) == Sealed([], 0, c.limits);
    forall scope ensures Usage(map[], c.layout, scope) == 0 { UsageEmpty(c.layout, scope); }
    MakeContent(t, c);
  }

  // ---------- Recovery keeps the invariant ----------

  /** The file recovery leaves behind holds exactly the surviving records. */
  lemma RepairedIs(s: State, c: Config, n: nat, synced: nat, older: map<nat, File>, k: int)
    requires Inv(s, c) && CanRestart(s, c, n, synced, older) && k == Survivors(s, c, n)
    ensures s.content.base - s.history.start <= k <= |s.history.changes| && s.history.flushed <= k
    ensures Encodable(Kept(s, k, c.limits), c.limits)
    ensures var t, whole := Restart(s, c, n, synced, older), EncodeLog(Kept(s, k, c.limits), c.limits);
            && t.history == s.history.(changes := s.history.changes[..k], acked := Min(s.history.acked, k),
                                       flushed := if |whole| != n then k else s.history.flushed)
            && t.writer == Some(Writer(s.content.top, s.history.start + k, s.disk[s.content.top].header.metadata, None))
            && |whole| <= n && t.content == s.content.(torn := [])
            && t.disk == older[s.content.top := File(s.disk[s.content.top].header, whole,
                                                     if |whole| != n then |whole| else synced)]
  {
    hide EncodeLog, Encodable, Inv, Survivors, Kept, LoadFile, Written, At, ReadLog;
    CutLoads(s, c, n, synced, k);
    CutReads(s, c, n, k);
    var f, whole := s.disk[s.content.top], EncodeLog(Kept(s, k, c.limits), c.limits);
    assert f.log[..n][..|whole|] == whole;
  }

  lemma PrefixOk(h: History, k: nat, c: Config)
    requires ValidConfig(c) && HistoryOk(h, c) && h.flushed <= k <= |h.changes|
    ensures HistoryOk(h.(changes := h.changes[..k], acked := Min(h.acked, k)), c)
    ensures HistoryOk(h.(changes := h.changes[..k], acked := Min(h.acked, k), flushed := k), c)
  {
    hide Accepts, WithinQuotas, Admissible, Recordable;
    AdmissiblePrefix(h.initial, h.changes, k, c.layout);
    RecordablePrefix(h.start, h.changes, k, c.limits);
  }

  /** Cutting a history back leaves its earlier points alone. */
  lemma Shrinks(h: History, g: History, base: nat, j: nat)
    requires g.start == h.start && g.initial == h.initial && g.changes <= h.changes
    requires h.start <= base <= h.start + j && j <= |g.changes|
    ensures At(g, j) == At(h, j) && At(g, base - h.start) == At(h, base - h.start)
    ensures Tail(g, base, j) == Tail(h, base, j)
  {
    hide Advance;
    assert g.changes[..j] == h.changes[..j];
    assert g.changes[..base - h.start] == h.changes[..base - h.start];
  }

  lemma RestartContent(s: State, c: Config, n: nat, synced: nat, older: map<nat, File>, k: int)
    requires Inv(s, c) && CanRestart(s, c, n, synced, older) && k == Survivors(s, c, n)
    ensures ContentOk(Restart(s, c, n, synced, older), c)
  {
    hide EncodeLog, Encodable, Describes, Generation, Sealed, Survivors, HistoryOk, LoadFile, At, ContentOk;
    var t := Restart(s, c, n, synced, older);
    RepairedIs(s, c, n, synced, older, k);
    Unpack(s, c);
    var h, base := s.history, s.content.base;
    Shrinks(h, t.history, base, k);
    assert Kept(t, k, c.limits) == Kept(s, k, c.limits);
    assert |EncodeLog(Sealed(s.content.image, base, c.limits), c.limits)|
        <= |EncodeLog(Kept(s, k, c.limits), c.limits)| by {
      hide Generation;
      GenerationPrefix(s.content.image, base, Tail(h, base, k), 0, c.limits);
      EncodeLogMonotone(Kept(s, k, c.limits), |s.content.image| + 1, |Kept(s, k, c.limits)|, c.limits);
      assert Kept(s, k, c.limits)[..|Kept(s, k, c.limits)|] == Kept(s, k, c.limits);
    }
    if base - h.start <= h.flushed {
      UnpackFlushed(s, c);
      Shrinks(h, t.history, base, h.flushed);
    }
    MakeContent(t, c);
  }

  lemma RestartKeeps(s: State, c: Config, n: nat, synced: nat, older: map<nat, File>)
    requires Inv(s, c) && CanRestart(s, c, n, synced, older)
    ensures Inv(Restart(s, c, n, synced, older), c)
  {
    hide EncodeLog, Encodable, Describes, Generation, Sealed, Survivors;
    hide HistoryOk, Restart, Written, LoadFile, At, ContentOk;
    var t, k := Restart(s, c, n, synced, older), Survivors(s, c, n);
    RepairedIs(s, c, n, synced, older, k);
    PrefixOk(s.history, k, c);
    Unpack(s, c);
    RestartContent(s, c, n, synced, older, k);
  }

  /** Whatever a crash keeps at or beyond the synced length, recovery succeeds. */
  lemma CrashLoads(s: State, c: Config, n: nat, synced: nat, older: map<nat, File>)
    requires Inv(s, c) && CutPoint(s, n) && s.disk[s.content.top].synced <= synced <= n
    requires forall g :: g in older ==> g < s.content.top
    ensures CanRestart(s, c, n, synced, older) && ValidConfig(c)
    ensures LoadFile(File(s.disk[s.content.top].header, s.disk[s.content.top].log[..n], synced), c).Some?
    ensures var f := s.disk[s.content.top];
            var loaded := LoadFile(File(f.header, f.log[..n], synced), c).value;
            && s.history.start <= loaded.sequence <= s.history.start + |s.history.changes| && loaded.valid <= n
  {
    hide Inv, LoadFile, Encodable, EncodeLog, Written, At, Survivors, Kept, Describes, HistoryOk;
    Unpack(s, c);
    CutLoads(s, c, n, synced, Survivors(s, c, n));
  }

  // ---------- Every run ----------

  lemma StepKeeps(s: State, c: Config, step: Step)
    requires Inv(s, c) && Enabled(s, c, step)
    ensures Inv(Take(s, c, step), c)
  {
    hide Inv, Append, AppendDies, Sync, SyncDies, BeginCompaction, DropCompaction, FinishCompaction, Install, Restart;
    match step
    case Appending(ch) => AppendKeeps(s, c, ch);
    case AppendFails(ch, n, synced) => AppendDiesKeeps(s, c, ch, n, synced);
    case Syncing => SyncKeeps(s, c);
    case SyncFails(synced) => SyncDiesKeeps(s, c, synced);
    case Compacting(image) => BeginKeeps(s, c, image);
    case CompactionDropped => DropKeeps(s, c);
    case CutOver(removed, dies) => FinishKeeps(s, c, removed, dies);
    case Installing(image, sequence, metadata, removed, dies) =>
      InstallKeeps(s, c, image, sequence, metadata, removed, dies);
    case Crashing(n, synced, older) => RestartKeeps(s, c, n, synced, older);
  }

  ghost predicate Run(states: seq<State>, steps: seq<Step>, c: Config) {
    && ValidConfig(c)
    && |states| == |steps| + 1 && states[0] == Fresh(c)
    && forall i :: 0 <= i < |steps| ==>
         Enabled(states[i], c, steps[i]) && states[i + 1] == Take(states[i], c, steps[i])
  }

  lemma {:induction false} RunKeeps(states: seq<State>, steps: seq<Step>, c: Config, i: nat)
    requires Run(states, steps, c) && i <= |steps|
    ensures Inv(states[i], c)
  {
    hide Inv, Enabled, Take, Fresh;
    if i == 0 {
      FreshOk(c);
    } else {
      RunKeeps(states, steps, c, i - 1);
      StepKeeps(states[i - 1], c, steps[i - 1]);
    }
  }

  /** What a recovery found: the dataset after the first k changes of this history. */
  ghost predicate Recovers(f: File, h: History, k: nat, c: Config) {
    && ValidConfig(c) && k <= |h.changes|
    && LoadFile(f, c).Some?
    && LoadFile(f, c).value.store == At(h, k) && LoadFile(f, c).value.sequence == h.start + k
  }

  /**
   * Crash safety of every run: whatever the newest file keeps at or beyond its synced
   * length, recovery succeeds and yields the image of one published generation followed by
   * a gap-free prefix of its batches; every synced batch is in it, and under the Always
   * policy every acknowledged one; a living writer appends to the file recovery selects.
   */
  lemma CrashSafety(states: seq<State>, steps: seq<Step>, c: Config, i: nat, n: nat, synced: nat)
    requires Run(states, steps, c) && i <= |steps| && CutPoint(states[i], n)
    ensures var s := states[i];
            && Newest(s.disk, s.content.top)
            && (s.writer.Some? ==> s.writer.value.generation == s.content.top)
            && var f := s.disk[s.content.top];
            exists k: nat ::
              && Recovers(File(f.header, f.log[..n], synced), s.history, k, c)
              && s.history.flushed <= k && (c.always ==> s.history.acked <= k)
              && s.history.start <= s.content.base <= s.history.start + k
  {
    hide EncodeLog, Encodable, Fresh, Enabled, Take, Describes, SyncedOk;
    hide Admissible, WithinQuotas, LoadFile, At, Survivors, Written;
    RunKeeps(states, steps, c, i);
    var s := states[i];
    Unpack(s, c);
    var k := Survivors(s, c, n);
    CutLoads(s, c, n, synced, k);
    var f := s.disk[s.content.top];
    assert Recovers(File(f.header, f.log[..n], synced), s.history, k, c);
  }

  /** Durable changes never move: a later history extends the flushed part of an earlier one. */
  predicate Extends(g: History, h: History) {
    && g.start == h.start && g.initial == h.initial
    && h.flushed <= g.flushed && h.flushed <= |h.changes| && h.changes[..h.flushed] <= g.changes
  }

  lemma StepExtends(s: State, c: Config, step: Step)
    requires Inv(s, c) && Enabled(s, c, step) && !step.Installing?
    ensures Extends(Take(s, c, step).history, s.history)
  {
    hide ContentOk, WriterOk, CanAppend, CanInstall, CanCompact, Admissible, WithinQuotas, Restart, Survivors, Encoded;
    hide LoadFile, Encodable;
    if step.Crashing? {
      var k := Survivors(s, c, step.kept);
      RepairedIs(s, c, step.kept, step.synced, step.older, k);
    }
  }

  /** What was durable at any point of a run stays, until an image is installed. */
  lemma {:induction false} DurableForever(states: seq<State>, steps: seq<Step>, c: Config, i: nat, j: nat)
    requires Run(states, steps, c) && i <= j <= |steps|
    requires forall k :: i <= k < j ==> !steps[k].Installing?
    ensures Extends(states[j].history, states[i].history)
  {
    hide Enabled, Take, Fresh, ContentOk, WriterOk, Admissible, WithinQuotas;
    RunKeeps(states, steps, c, i);
    if i < j {
      DurableForever(states, steps, c, i, j - 1);
      RunKeeps(states, steps, c, j - 1);
      StepExtends(states[j - 1], c, steps[j - 1]);
    }
  }

  /** A step that answers only when what it covers is durable: an append under Always, a sync, a cutover. */
  predicate Promises(step: Step, c: Config) {
    (step.Appending? && c.always) || step.Syncing? || step.CutOver?
  }

  /** How many changes are established once a step is done. */
  function Established(s: State, step: Step): nat {
    |s.history.changes| + if step.Appending? then 1 else 0
  }

  lemma PromiseKept(s: State, c: Config, step: Step)
    requires Inv(s, c) && Enabled(s, c, step) && Promises(step, c)
    ensures var h := Take(s, c, step).history;
            && h.flushed == |h.changes| == Established(s, step) && s.history.changes <= h.changes
            && (step.Appending? ==> h.changes[|s.history.changes|] == step.change)
  {
    hide ContentOk, WriterOk, HistoryOk, CanAppend, Encoded, CanPublish, CompactedFile;
  }

  /**
   * What was answered is kept: after an append under the Always policy, a sync or a cutover,
   * and until an image is installed, whatever a crash keeps at any later point of the run,
   * recovery finds every change established by then, the appended one at its place.
   */
  lemma AnsweredIsKept(states: seq<State>, steps: seq<Step>, c: Config, i: nat, j: nat, n: nat, synced: nat)
    requires Run(states, steps, c) && i < j <= |steps| && Promises(steps[i], c) && CutPoint(states[j], n)
    requires forall k :: i <= k < j ==> !steps[k].Installing?
    ensures var was, h, m := states[i].history, states[j].history, Established(states[i], steps[i]);
            && h.start == was.start && m <= |h.changes| && was.changes <= h.changes
            && (steps[i].Appending? ==> h.changes[|was.changes|] == steps[i].change)
            && var f := states[j].disk[states[j].content.top];
            exists k: nat :: m <= k && Recovers(File(f.header, f.log[..n], synced), h, k, c)
  {
    hide EncodeLog, Encodable, Fresh, Enabled, Take, Describes, LoadFile, At, Survivors, Written, Inv, Promises;
    RunKeeps(states, steps, c, i);
    RunKeeps(states, steps, c, j);
    PromiseKept(states[i], c, steps[i]);
    DurableForever(states, steps, c, i, j);
    DurableForever(states, steps, c, i + 1, j);
    var s := states[j];
    Unpack(s, c);
    var k := Survivors(s, c, n);
    CutLoads(s, c, n, synced, k);
    var f := s.disk[s.content.top];
    assert Recovers(File(f.header, f.log[..n], synced), s.history, k, c);
  }

  // ---------- Cutover preserves meaning ----------

  ghost predicate Means(f: File, store: Store, sequence: nat, c: Config) {
    && ValidConfig(c) && LoadFile(f, c).Some?
    && LoadFile(f, c).value.store == store && LoadFile(f, c).value.sequence == sequence
    && !LoadFile(f, c).value.torn
  }

  /** The old newest file is still there, and it and its successor both mean the history. */
  ghost predicate Replaced(s: State, t: State, g: nat, c: Config) {
    var end := s.history.start + |s.history.changes|;
    && g in s.disk && Means(s.disk[g], Now(s.history), end, c)
    && g + 1 in t.disk && Means(t.disk[g + 1], Now(s.history), end, c)
    && Newest(t.disk, g + 1) && g in t.disk && t.disk[g] == s.disk[g]
  }

  /** Cutover changes the file recovery selects and not what it says. */
  lemma CutoverPreservesMeaning(s: State, c: Config, removed: bool, dies: bool)
    requires Inv(s, c) && CanPublish(s, c)
    ensures Replaced(s, FinishCompaction(s, c, removed, dies), s.content.top, c)
  {
    hide *;
    var t := FinishCompaction(s, c, removed, dies);
    FinishKeeps(s, c, removed, dies);
    Cutover(s, c, removed, dies);
    WholeLoads(s, c);
    WholeLoads(t, c);
    JoinMeaning(s, t, c);
  }

  lemma JoinMeaning(s: State, t: State, c: Config)
    requires s.content.top in s.disk && t.content.top in t.disk && t.content.top == s.content.top + 1
    requires Means(s.disk[s.content.top], Now(s.history), s.history.start + |s.history.changes|, c)
    requires Means(t.disk[t.content.top], Now(t.history), t.history.start + |t.history.changes|, c)
    requires t.history.start == s.history.start && |t.history.changes| == |s.history.changes|
    requires Now(t.history) == Now(s.history)
    requires Newest(t.disk, t.content.top) && s.content.top in t.disk
    requires t.disk[s.content.top] == s.disk[s.content.top]
    ensures Replaced(s, t, s.content.top, c)
  {
    hide Means, Now;
  }

  /** The pending delta is exactly the batches since the base, in order and within the limit. */
  lemma Cutover(s: State, c: Config, removed: bool, dies: bool)
    requires Inv(s, c) && CanPublish(s, c)
    ensures s.writer.Some? && s.writer.value.compaction.Some?
    ensures var p, h := s.writer.value.compaction.value, s.history;
            && h.start <= p.header.sequence <= h.start + |h.changes|
            && p.delta == EncodedEach(Batches(p.header.sequence, Tail(h, p.header.sequence, |h.changes|)), c.limits)
            && Lengths(p.delta) <= c.maxDelta
    ensures var t, g := FinishCompaction(s, c, removed, dies), s.writer.value.generation;
            && t.content.torn == [] && t.content.top == g + 1 && s.content.top == g && s.content.torn == []
            && Newest(t.disk, g + 1) && g in s.disk && g in t.disk && t.disk[g] == s.disk[g] && g + 1 in t.disk
            && t.history.start == s.history.start && |t.history.changes| == |s.history.changes|
            && Now(t.history) == Now(s.history)
  {
    hide EncodeLog, Encodable, Describes, SyncedOk, HistoryOk, CompactedFile, EncodedEach, Batches, Generation, Written;
    hide Sealed, Lengths, At, Tail, Advance;
    assert Newest(s.disk, s.content.top);
  }

  /** An intact newest file loads to the whole history. */
  lemma WholeLoads(s: State, c: Config)
    requires Inv(s, c) && s.content.torn == []
    ensures s.content.top in s.disk
    ensures Means(s.disk[s.content.top], Now(s.history), s.history.start + |s.history.changes|, c)
  {
    hide EncodeLog, Encodable, LoadFile, Describes, HistoryOk, Generation, Sealed, WriterOk, Inv;
    Unpack(s, c);
    var f := s.disk[s.content.top];
    var n := |f.log|;
    assert f.log[..n] == f.log;
    assert f == File(f.header, f.log, f.synced);
    SurvivorsBounds(s, c, n);
    AllSurvive(s, c);
    CutLoads(s, c, n, f.synced, |s.history.changes|);
    assert s.history.changes[..|s.history.changes|] == s.history.changes;
  }

  lemma AllSurvive(s: State, c: Config)
    requires Inv(s, c) && s.content.torn == []
    ensures s.history.start <= s.content.base <= s.history.start + |s.history.changes|
    ensures Encodable(Written(s, c.limits), c.limits) && s.content.top in s.disk
    ensures Survivors(s, c, |s.disk[s.content.top].log|) == |s.history.changes|
    ensures EncodeLog(Kept(s, |s.history.changes|, c.limits), c.limits) == s.disk[s.content.top].log
  {
    hide EncodeLog, Encodable, Describes, Generation, Sealed, WriterOk, WholeRecords, HistoryOk, SyncedOk;
    var h, t := s.history, s.content;
    var tail := Tail(h, t.base, |h.changes|);
    assert tail + t.torn == tail;
    var rs := Written(s, c.limits);
    WrittenPrefix(s, |h.changes|, c.limits);
    assert rs[..|rs|] == rs;
    WholeAtLeast(rs, |rs|, c.limits, |s.disk[t.top].log|);
    WholeRecordsExact(rs, c.limits, |s.disk[t.top].log|);
  }

  // ---------- Recovering again ----------

  /** Recovering what recovery left behind finds the same dataset and nothing torn. */
  lemma RecoveringTwice(s: State, c: Config, n: nat, synced: nat, older: map<nat, File>)
    requires Inv(s, c) && CanRestart(s, c, n, synced, older)
    ensures var t := Restart(s, c, n, synced, older);
            && t.content.top in t.disk
            && Means(t.disk[t.content.top], Now(t.history), t.history.start + |t.history.changes|, c)
  {
    hide *;
    RestartKeeps(s, c, n, synced, older);
    assert Restart(s, c, n, synced, older).content.torn == [] by { RestartIntact(s, c, n, synced, older); }
    WholeLoads(Restart(s, c, n, synced, older), c);
  }

  lemma RestartIntact(s: State, c: Config, n: nat, synced: nat, older: map<nat, File>)
    requires CanRestart(s, c, n, synced, older)
    ensures Restart(s, c, n, synced, older).content.torn == []
  {
  }

  ghost predicate Stable(s: State, c: Config) {
    forall n: nat :: CutPoint(s, n) ==>
      var f := s.disk[s.content.top];
      Means(f.(log := f.log[..n]), Now(s.history), s.history.start + |s.history.changes|, c)
  }

  /**
   * Crashing again after recovery, however much is lost, finds the same dataset if and only
   * if the whole file is durable. Recovery makes it so only when it cuts a torn tail.
   */
  lemma RecoveryIsStable(s: State, c: Config)
    requires Inv(s, c) && s.content.torn == []
    ensures s.content.top in s.disk
    ensures Stable(s, c) <==> s.disk[s.content.top].synced == |s.disk[s.content.top].log|
  {
    hide EncodeLog, Encodable, LoadFile, Inv, HistoryOk, Describes, Survivors, Written, Kept, Now;
    Unpack(s, c);
    var f := s.disk[s.content.top];
    WholeLoads(s, c);
    assert f.log[..|f.log|] == f.log;
    if f.synced < |f.log| {
      AllSurvive(s, c);
      var k := Survivors(s, c, f.synced);
      CutLoads(s, c, f.synced, f.synced, k);
      assert k != |s.history.changes|;
      assert CutPoint(s, f.synced);
      assert !Means(f.(log := f.log[..f.synced]), Now(s.history), s.history.start + |s.history.changes|, c);
    }
  }

  /** What decides stability is known when recovery ends: a torn tail, or nothing unsynced. */
  lemma RestartIsStable(s: State, c: Config, n: nat, synced: nat, older: map<nat, File>)
    requires Inv(s, c) && CanRestart(s, c, n, synced, older)
    ensures var f := s.disk[s.content.top];
            Stable(Restart(s, c, n, synced, older), c)
            <==> LoadFile(File(f.header, f.log[..n], synced), c).value.torn || synced == n
  {
    hide EncodeLog, Encodable, LoadFile, Inv, Survivors, Written, Kept, Stable, At, Restart;
    var t, k := Restart(s, c, n, synced, older), Survivors(s, c, n);
    RestartKeeps(s, c, n, synced, older);
    RestartIntact(s, c, n, synced, older);
    RecoveryIsStable(t, c);
    RepairedIs(s, c, n, synced, older, k);
    CutLoads(s, c, n, synced, k);
  }
}
