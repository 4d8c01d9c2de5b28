/**
 * A node's append-only file as replication sees it: the epoch its newest generation names,
 * the dataset that generation's history began with, and every batch since. Each step of the
 * file is summed up by what it does to this view, and a restart by what the loader finds in
 * the bytes that were kept.
 */
module Durable {
  import opened Format
  import opened Log
  import opened Replay
  import opened Recovery
  import opened Aof
  import AofRuns

  datatype View = View(epoch: nat, start: nat, initial: Store, changes: seq<Change>)

  function EpochOf(metadata: Option<Metadata>): nat {
    if metadata.None? then 0 else metadata.value.epoch
  }

  /** What the newest generation stands for. */
  function Seen(a: State): View
    requires a.content.top in a.disk
  {
    View(EpochOf(a.disk[a.content.top].header.metadata), a.history.start, a.history.initial, a.history.changes)
  }

  function Stored(v: View): Store { Advance(v.initial, v.changes) }

  function Reached(v: View): nat { v.start + |v.changes| }

  lemma HasTop(a: State, c: Config)
    requires Inv(a, c)
    ensures a.content.top in a.disk && ValidConfig(c)
  {
    hide HistoryOk, Describes, Encodable, SyncedOk, WriterOk, Generation, EncodeLog;
  }

  /** A running writer stands where its file stands. */
  lemma WriterStands(a: State, c: Config)
    requires Inv(a, c) && a.writer.Some?
    ensures a.content.top in a.disk && EpochOf(a.writer.value.metadata) == Seen(a).epoch
    ensures a.writer.value.sequence == Reached(Seen(a)) && Now(a.history) == Stored(Seen(a))
  {
    hide HistoryOk, ContentOk, CompactionOk, Advance;
  }

  lemma Snoc(initial: Store, changes: seq<Change>, ch: Change)
    ensures Advance(initial, changes + [ch]) == ApplyAll(Advance(initial, changes), ch.mutations)
  {
    assert (changes + [ch])[..|changes|] == changes;
  }

  lemma AppendSeen(a: State, c: Config, ch: Change)
    requires Inv(a, c) && AofRuns.CanAppend(a, c, ch)
    ensures var t := AofRuns.Append(a, c, ch);
            && Inv(t, c) && t.writer.Some? && t.writer.value.metadata == a.writer.value.metadata
                && t.content.top in t.disk
            && Seen(t) == Seen(a).(changes := Seen(a).changes + [ch])
            && Stored(Seen(t)) == ApplyAll(Stored(Seen(a)), ch.mutations)
  {
    hide Inv, Encode, ValidRecord, Accepts, Advance;
    AofRuns.AppendKeeps(a, c, ch);
    HasTop(a, c);
    Snoc(a.history.initial, a.history.changes, ch);
  }

  /** A failed append leaves the batch in the file entirely or not at all, as far as any reader can tell. */
  lemma AppendDiesSeen(a: State, c: Config, ch: Change, n: nat, synced: nat)
    requires Inv(a, c) && AofRuns.Enabled(a, c, AofRuns.AppendFails(ch, n, synced))
    ensures var t := AofRuns.AppendDies(a, c, ch, n, synced);
            && Inv(t, c) && t.content.top in t.disk
            && (Seen(t) == Seen(a) || Seen(t) == Seen(a).(changes := Seen(a).changes + [ch]))
  {
    hide Inv, Encode, ValidRecord, Accepts, Advance;
    AofRuns.AppendDiesKeeps(a, c, ch, n, synced);
    HasTop(a, c);
  }

  /** Steps of the writer that establish nothing: syncing and compacting, failed or not. */
  predicate Quiet(step: AofRuns.Step) {
    step.Syncing? || step.SyncFails? || step.Compacting? || step.CompactionDropped? || step.CutOver?
  }

  /** Cutover names the epoch the old generation named. */
  lemma CutOverSeen(a: State, c: Config, removed: bool, dies: bool)
    requires Inv(a, c) && AofRuns.CanPublish(a, c)
    ensures a.content.top in a.disk && a.writer.Some?
    ensures var t := AofRuns.FinishCompaction(a, c, removed, dies);
            && t.content.top in t.disk && Seen(t) == Seen(a)
            && (t.writer.Some? ==> t.writer.value.metadata == a.writer.value.metadata)
  {
    hide ContentOk, HistoryOk, Describes, Encodable, Sealed, EncodeLog, EncodedEach, Batches, Tail, Flatten;
  }

  lemma QuietSeen(a: State, c: Config, step: AofRuns.Step)
    requires Inv(a, c) && Quiet(step) && AofRuns.Enabled(a, c, step)
    ensures var t := AofRuns.Take(a, c, step);
            && Inv(t, c) && t.content.top in t.disk && Seen(t) == Seen(a)
            && (t.writer.Some? ==> a.writer.Some? && t.writer.value.metadata == a.writer.value.metadata)
  {
    hide Inv, Describes, AofRuns.CanPublish, AofRuns.FinishCompaction;
    AofRuns.StepKeeps(a, c, step);
    HasTop(a, c);
    if step.CutOver? { CutOverSeen(a, c, step.removed, step.dies); }
  }

  lemma InstallSeen(
      a: State, c: Config, image: seq<Mutation>, sequence: nat, metadata: Metadata, removed: bool, dies: bool)
    requires Inv(a, c) && AofRuns.CanInstall(a, c, image, sequence)
    ensures var t := AofRuns.Install(a, c, image, sequence, metadata, removed, dies);
            && Inv(t, c) && t.content.top in t.disk && (t.writer.Some? <==> !dies)
            && (t.writer.Some? ==> t.writer.value.metadata == Some(metadata))
            && Seen(t) == View(metadata.epoch, sequence, ApplyAll(map[], image), [])
            && Stored(Seen(t)) == ApplyAll(map[], image)
  {
    hide Inv, Describes, WithinQuotas, Encodable, Sealed, EncodeLog, ApplyAll;
    AofRuns.InstallKeeps(a, c, image, sequence, metadata, removed, dies);
    HasTop(a, c);
  }

  /**
   * Whatever a crash keeps, recovery succeeds on the node's own bytes: the loader finds the
   * dataset after the first `kept` batches, every synced one and, under the Always policy,
   * every acknowledged one among them.
   */
  lemma RestartSeen(a: State, c: Config, n: nat, synced: nat, older: map<nat, File>) returns (kept: nat)
    requires Inv(a, c) && AofRuns.CanRestart(a, c, n, synced, older)
    ensures a.content.top in a.disk && ValidConfig(c) && kept <= |Seen(a).changes|
    ensures a.history.flushed <= kept && (c.always ==> a.history.acked <= kept)
    ensures var t, f := AofRuns.Restart(a, c, n, synced, older), a.disk[a.content.top];
            && Inv(t, c) && t.writer.Some? && t.writer.value.compaction.None? && t.content.top in t.disk
            && Seen(t) == Seen(a).(changes := Seen(a).changes[..kept])
            && LoadFile(File(f.header, f.log[..n], synced), c).Some?
            && LoadFile(File(f.header, f.log[..n], synced), c).value.store == Stored(Seen(t))
  {
    hide EncodeLog, Encodable, LoadFile, ContentOk, WriterOk, Survivors;
    hide Written, Kept, Admissible, WithinQuotas, Advance;
    hide AofRuns.Restart;
    HasTop(a, c);
    var k := Survivors(a, c, n);
    AofRuns.RestartKeeps(a, c, n, synced, older);
    AofRuns.RepairedIs(a, c, n, synced, older, k);
    CutLoads(a, c, n, synced, k);
    kept := k;
  }
}
