/**
 * Replication between any number of nodes, each with an append-only file of its own:
 * promotion under fresh epochs, FULL and CONTINUE sessions, batches streamed from the
 * source's journal, jobs that outlive their session, failures at every fault point of the
 * file, crashes that lose what was not synced, and restarts from the bytes that were kept.
 *
 * Ledgers and owners are a record kept beside the nodes: no step reads what a ledger says.
 * A node's cursor always tells the truth about its dataset, and no epoch ever publishes two
 * batches under one sequence.
 */
module Replication {
  import opened Format
  import opened Log
  import opened Replay
  import opened Recovery
  import opened Durable
  import Aof
  import AofRuns
  import Journal

  type Cursor = Journal.Cursor

  /** What the primary of one epoch established: its dataset at the start and every batch since. */
  datatype Ledger = Ledger(start: nat, initial: Store, changes: seq<Change>)

  type Ledgers = map<nat, Ledger>

  function End(l: Ledger): nat { l.start + |l.changes| }

  function At(l: Ledger, n: nat): Store
    requires l.start <= n <= End(l)
  {
    Advance(l.initial, l.changes[..n - l.start])
  }

  datatype Message =
    | Continue(cursor: Cursor)
    | Full(cursor: Cursor, image: seq<Mutation>)
    | Streamed(sequence: nat, change: Change)

  /** A follower's connection: its source's epoch, where the follower stands, and what is on its way. */
  datatype Session = Session(
    source: nat, epoch: nat, started: bool, position: Cursor, previous: Option<Change>, busy: bool, queue: seq<Message>)

  /** Work handed to the database; it may still run after its session ended. */
  datatype Job =
    | Install(generation: nat, cursor: Cursor, image: seq<Mutation>)
    | Apply(generation: nat, cursor: Cursor, change: Change)

  /**
   * A node: its file and the writer on it, the dataset in memory, and, while it serves, the
   * batches its journal has published; then its follower side.
   */
  datatype Node = Node(
    file: Aof.State, up: bool, serving: bool, store: Store, journal: seq<Change>,
    generation: nat, session: Option<Session>, jobs: seq<Job>)

  datatype State = State(nodes: map<nat, Node>, ledgers: Ledgers, owners: map<nat, nat>)

  /** Where a running node stands, by its writer. */
  function Position(n: Node): Cursor
    requires n.file.writer.Some?
  {
    Journal.Cursor(EpochOf(n.file.writer.value.metadata), n.file.writer.value.sequence)
  }

  // ---------- What is true of every state ----------

  predicate Holds(l: Ledger, n: nat, store: Store) {
    l.start <= n <= End(l) && store == At(l, n)
  }

  predicate Recorded(l: Ledger, n: nat, change: Change) {
    l.start < n <= End(l) && l.changes[n - 1 - l.start] == change
  }

  /** A file's image and batches are a segment of its epoch's ledger. */
  predicate Segment(v: View, l: Ledger) {
    && Holds(l, v.start, v.initial) && Reached(v) <= End(l)
    && v.changes == l.changes[v.start - l.start..Reached(v) - l.start]
  }

  /** A node's file is sound, its memory is what the file says, and the file agrees with its epoch. */
  ghost predicate NodeOk(n: Node, ledgers: Ledgers, c: Config) {
    && Aof.Inv(n.file, c) && n.file.content.top in n.file.disk
    && (n.up ==> n.file.writer.Some? && n.store == Stored(Seen(n.file)))
    && (Seen(n.file).epoch != 0 ==> Seen(n.file).epoch in ledgers && Segment(Seen(n.file), ledgers[Seen(n.file).epoch]))
  }

  /** Only the owner of an epoch writes in it, at its end, and its journal is all the epoch has. */
  ghost predicate ServingOk(id: nat, n: Node, ledgers: Ledgers, owners: map<nat, nat>) {
    n.serving ==>
      && n.up && n.session.None? && n.file.content.top in n.file.disk
      && var v := Seen(n.file);
      && v.epoch != 0 && v.epoch in ledgers && v.epoch in owners && owners[v.epoch] == id
      && v.start == ledgers[v.epoch].start && v.changes == ledgers[v.epoch].changes == n.journal
  }

  predicate MessageOk(m: Message, epoch: nat, ledgers: Ledgers) {
    epoch in ledgers &&
    match m
    case Continue(cursor) => cursor.epoch == epoch
    case Full(cursor, image) => cursor.epoch == epoch && Holds(ledgers[epoch], cursor.sequence, ApplyAll(map[], image))
    case Streamed(n, change) => Recorded(ledgers[epoch], n, change)
  }

  predicate SessionOk(s: Session, ledgers: Ledgers) {
    && s.epoch != 0 && s.epoch in ledgers && (s.started ==> s.position.epoch == s.epoch)
    && forall i :: 0 <= i < |s.queue| ==> MessageOk(s.queue[i], s.epoch, ledgers)
  }

  predicate JobOk(j: Job, ledgers: Ledgers) {
    && j.cursor.epoch != 0 && j.cursor.epoch in ledgers
    && match j
       case Install(_, cursor, image) => Holds(ledgers[cursor.epoch], cursor.sequence, ApplyAll(map[], image))
       case Apply(_, cursor, change) => Recorded(ledgers[cursor.epoch], cursor.sequence, change)
  }

  /** A job of the current generation belongs to the current session. */
  predicate JobCurrent(j: Job, n: Node) {
    j.generation <= n.generation
    && (j.generation == n.generation && n.session.Some? ==> j.cursor.epoch == n.session.value.epoch)
  }

  /** The follower side: everything on its way is on record. */
  predicate FollowerOk(n: Node, ledgers: Ledgers) {
    && (!n.up ==> n.session.None? && n.jobs == [])
    && (n.session.Some? ==> SessionOk(n.session.value, ledgers))
    && forall i :: 0 <= i < |n.jobs| ==> JobOk(n.jobs[i], ledgers) && JobCurrent(n.jobs[i], n)
  }

  /** A session stands where its node stands: what it has taken has taken effect. */
  predicate Standing(n: Node) {
    n.session.Some? ==> n.file.writer.Some? && n.session.value.position == Position(n)
  }

  ghost predicate AllOk(id: nat, n: Node, ledgers: Ledgers, owners: map<nat, nat>, c: Config) {
    NodeOk(n, ledgers, c) && ServingOk(id, n, ledgers, owners) && FollowerOk(n, ledgers) && Standing(n)
  }

  ghost predicate Inv(s: State, c: Config) {
    && 0 !in s.ledgers && s.owners.Keys == s.ledgers.Keys
    && forall id :: id in s.nodes ==> AllOk(id, s.nodes[id], s.ledgers, s.owners, c)
  }

  // ---------- Steps ----------

  /**
   * How far a failing append got: bytes written, and bytes durable. A failure behind the
   * publication in the journal is a write followed by a crash.
   */
  datatype Failure = Failure(written: nat, synced: nat)

  datatype Step =
    | Promote(id: nat, epoch: nat, image: seq<Mutation>, removed: bool, dies: bool)
    | Write(id: nat, change: Change)
    | WriteFails(id: nat, change: Change, failure: Failure)
    | Keep(id: nat, work: AofRuns.Step)
    | Crash(id: nat)
    | Restart(id: nat, kept: nat, synced: nat, older: map<nat, File>)
    | Connect(id: nat, source: nat)
    | Disconnect(id: nat)
    | OfferContinue(id: nat)
    | OfferFull(id: nat, image: seq<Mutation>)
    | Stream(id: nat, sequence: nat)
    | Submit(id: nat)
    | RunJob(id: nat, index: nat, removed: bool, fault: Option<Failure>)

  /** The session's source still serves the epoch the session began with. */
  predicate SourceServes(s: State, session: Session) {
    && session.source in s.nodes
    && var source := s.nodes[session.source];
    && source.serving && source.file.writer.Some? && Position(source).epoch == session.epoch
  }

  /** The journal reaches back from the node's position. */
  predicate Published(n: Node, sequence: nat)
    requires n.file.writer.Some?
  {
    Position(n).sequence - |n.journal| < sequence <= Position(n).sequence
  }

  /** Fresh epochs are distinct: none was ever used before. Nothing else is asked of the record. */
  ghost predicate Enabled(s: State, step: Step, c: Config) {
    step.id in s.nodes &&
    var n := s.nodes[step.id];
    match step
    case Promote(_, epoch, image, _, _) =>
      && n.up && !n.serving && epoch != 0 && epoch !in s.ledgers.Keys
      && AofRuns.Enabled(n.file, c, AofRuns.Syncing) && Describes(image, n.store)
      && AofRuns.CanInstall(AofRuns.Sync(n.file), c, image, Position(n).sequence)
    case Write(_, change) => n.up && n.serving && AofRuns.CanAppend(n.file, c, change)
    case WriteFails(_, change, f) =>
      n.up && n.serving && AofRuns.Enabled(n.file, c, AofRuns.AppendFails(change, f.written, f.synced))
    case Keep(_, work) => n.up && Quiet(work) && AofRuns.Enabled(n.file, c, work)
    case Crash(_) => true
    case Restart(_, kept, synced, older) => !n.up && AofRuns.CanRestart(n.file, c, kept, synced, older)
    case Connect(_, source) =>
      && n.up && !n.serving && n.file.writer.Some?
      && source in s.nodes && s.nodes[source].serving && s.nodes[source].file.writer.Some?
    case Disconnect(_) => true
    case OfferContinue(_) =>
      && n.session.Some? && SourceServes(s, n.session.value)
      && n.session.value.position.epoch == n.session.value.epoch
      && n.session.value.position.sequence <= Position(s.nodes[n.session.value.source]).sequence
    case OfferFull(_, image) =>
      && n.session.Some? && SourceServes(s, n.session.value)
      && Describes(image, s.nodes[n.session.value.source].store)
    case Stream(_, sequence) =>
      && n.session.Some? && SourceServes(s, n.session.value)
      && Published(s.nodes[n.session.value.source], sequence)
    case Submit(_) => n.session.Some? && !n.session.value.busy && n.session.value.queue != []
    case RunJob(_, index, _, _) => index < |n.jobs|
  }

  function Offer(n: Node, m: Message): Node
    requires n.session.Some?
  {
    n.(session := Some(n.session.value.(queue := n.session.value.queue + [m])))
  }

  /** What a follower does with the next message of its session; out of sequence it hangs up. */
  function Accept(n: Node): Node
    requires n.session.Some? && n.session.value.queue != []
  {
    var s := n.session.value;
    var rest := s.(queue := s.queue[1..]);
    match s.queue[0]
    case Continue(cursor) =>
      if !s.started && cursor == s.position then n.(session := Some(rest.(started := true))) else n.(session := None)
    case Full(cursor, image) =>
      if !s.started
      then n.(session := Some(rest.(busy := true)), jobs := n.jobs + [Install(n.generation, cursor, image)])
      else n.(session := None)
    case Streamed(sequence, change) =>
      if !s.started then n.(session := None)
      else if sequence == s.position.sequence && s.previous == Some(change) then n.(session := Some(rest))
      else if sequence == s.position.sequence + 1
      then n.(session := Some(rest.(busy := true)),
              jobs := n.jobs + [Apply(n.generation, s.position.(sequence := sequence), change)])
      else n.(session := None)
  }

  function Without(jobs: seq<Job>, i: nat): seq<Job>
    requires i < |jobs|
  {
    jobs[..i] + jobs[i + 1..]
  }

  /** A finished job moves its session on. */
  function Advanced(n: Node, j: Job): Option<Session> {
    if n.session.None? then None
    else Some(n.session.value.(started := true, position := j.cursor, busy := false,
                               previous := if j.Apply? then Some(j.change) else None))
  }

  /** The process is gone; the file stays. */
  function Stopped(n: Node): Node { n.(up := false, serving := false, session := None, jobs := []) }

  /** A node whose writer may have stopped. */
  function Carrying(n: Node, file: Aof.State): Node {
    if file.writer.Some? then n.(file := file) else Stopped(n.(file := file))
  }

  /** An image replaces the file's history and the dataset. */
  ghost function Installed(n: Node, j: Job, removed: bool, dies: bool, c: Config): Node
    requires j.Install? && AofRuns.CanInstall(n.file, c, j.image, j.cursor.sequence)
  {
    var file := AofRuns.Install(
                  n.file, c, j.image, j.cursor.sequence, Metadata(Replica, j.cursor.epoch), removed, dies);
    Carrying(n.(store := ApplyAll(map[], j.image), session := Advanced(n, j)), file)
  }

  /** The writer takes a replicated batch only as a replica, right after the last one. */
  ghost predicate Takes(n: Node, j: Job, c: Config)
    requires j.Apply?
  {
    && n.file.writer.Some? && j.cursor.epoch == Position(n).epoch && j.cursor.sequence == Position(n).sequence + 1
    && n.file.writer.value.metadata.Some? && n.file.writer.value.metadata.value.role == Replica
    && AofRuns.CanAppend(n.file, c, j.change)
  }

  ghost function Applied(n: Node, j: Job, failure: Option<Failure>, c: Config): Node
    requires j.Apply? && Takes(n, j, c)
  {
    if && failure.Some?
       && AofRuns.Enabled(n.file, c, AofRuns.AppendFails(j.change, failure.value.written, failure.value.synced))
    then Stopped(n.(file := AofRuns.AppendDies(n.file, c, j.change, failure.value.written, failure.value.synced)))
    else n.(file := AofRuns.Append(n.file, c, j.change), store := ApplyAll(n.store, j.change.mutations),
            session := Advanced(n, j))
  }

  /** A job takes effect only on a running replica of the same generation; refused, it ends the session. */
  ghost function Perform(n: Node, index: nat, removed: bool, failure: Option<Failure>, c: Config): Node
    requires index < |n.jobs|
  {
    var j := n.jobs[index];
    var left := n.(jobs := Without(n.jobs, index));
    if !n.up || n.serving || j.generation != n.generation then left
    else if j.Install? && AofRuns.CanInstall(n.file, c, j.image, j.cursor.sequence)
    then Installed(left, j, removed, failure.Some?, c)
    else if j.Apply? && Takes(n, j, c) then Applied(left, j, failure, c)
    else left.(session := None)
  }

  /** Promotion syncs, then installs the node's own dataset under the new epoch. */
  ghost function Promoted(n: Node, epoch: nat, image: seq<Mutation>, removed: bool, dies: bool, c: Config): Node
    requires n.file.writer.Some? && n.file.content.top in n.file.disk
    requires AofRuns.CanInstall(AofRuns.Sync(n.file), c, image, Position(n).sequence)
  {
    var file := AofRuns.Install(
                  AofRuns.Sync(n.file), c, image, Position(n).sequence, Metadata(Primary, epoch), removed, dies);
    Carrying(n.(serving := true, journal := [], generation := n.generation + 1, session := None), file)
  }

  /** Recovery: the dataset is what the loader makes of the bytes the node's file kept. */
  ghost function Recovered(n: Node, kept: nat, synced: nat, older: map<nat, File>, c: Config): Node
    requires AofRuns.CanRestart(n.file, c, kept, synced, older)
  {
    var f := n.file.disk[n.file.content.top];
    Stopped(n).(up := true, file := AofRuns.Restart(n.file, c, kept, synced, older), journal := [], generation := 0,
                store := LoadFile(File(f.header, f.log[..kept], synced), c).value.store)
  }

  /** What a step makes of its node. */
  ghost function Act(s: State, step: Step, c: Config): Node
    requires Enabled(s, step, c)
  {
    var n := s.nodes[step.id];
    match step
    case Promote(_, epoch, image, removed, dies) => Promoted(n, epoch, image, removed, dies, c)
    case Write(_, change) =>
      n.(file := AofRuns.Append(n.file, c, change), store := ApplyAll(n.store, change.mutations),
         journal := n.journal + [change])
    case WriteFails(_, change, f) => Stopped(n.(file := AofRuns.AppendDies(n.file, c, change, f.written, f.synced)))
    case Keep(_, work) => Carrying(n, AofRuns.Take(n.file, c, work))
    case Crash(_) => Stopped(n)
    case Restart(_, kept, synced, older) => Recovered(n, kept, synced, older, c)
    case Connect(_, source) =>
      n.(generation := n.generation + 1,
         session := Some(Session(source, Position(s.nodes[source]).epoch, false, Position(n), None, false, [])))
    case Disconnect(_) => n.(session := None)
    case OfferContinue(_) => Offer(n, Continue(n.session.value.position))
    case OfferFull(_, image) => Offer(n, Full(Position(s.nodes[n.session.value.source]), image))
    case Stream(_, sequence) =>
      var source := s.nodes[n.session.value.source];
      Offer(n, Streamed(sequence, source.journal[sequence - 1 - (Position(source).sequence - |source.journal|)]))
    case Submit(_) => Accept(n)
    case RunJob(_, index, removed, failure) => Perform(n, index, removed, failure, c)
  }

  /** The record: a promotion opens a ledger, and whatever a primary's file gains is entered in it. */
  ghost function Record(s: State, step: Step, after: Node): Ledgers
    requires step.id in s.nodes
  {
    var n := s.nodes[step.id];
    if step.Promote? && n.file.writer.Some? then s.ledgers[step.epoch := Ledger(Position(n).sequence, n.store, [])]
    else if (step.Write? || step.WriteFails?) && n.file.writer.Some? && Position(n).epoch in s.ledgers
            && |n.file.history.changes| <= |after.file.history.changes|
    then
      var e := Position(n).epoch;
      var gained := after.file.history.changes[|n.file.history.changes|..];
      s.ledgers[e := s.ledgers[e].(changes := s.ledgers[e].changes + gained)]
    else s.ledgers
  }

  ghost function Take(s: State, step: Step, c: Config): State
    requires Enabled(s, step, c)
  {
    var after := Act(s, step, c);
    State(s.nodes[step.id := after], Record(s, step, after),
          if step.Promote? then s.owners[step.epoch := step.id] else s.owners)
  }

  // ---------- Ledgers only grow ----------

  predicate Extends(b: Ledger, a: Ledger) {
    b.start == a.start && b.initial == a.initial && a.changes <= b.changes
  }

  predicate Grown(before: Ledgers, after: Ledgers) {
    forall e :: e in before ==> e in after && Extends(after[e], before[e])
  }

  lemma HoldsStays(a: Ledger, b: Ledger, n: nat, store: Store)
    requires Extends(b, a) && Holds(a, n, store)
    ensures Holds(b, n, store)
  {
    hide Advance;
    assert b.changes[..n - a.start] == a.changes[..n - a.start];
  }

  lemma SegmentStays(a: Ledger, b: Ledger, v: View)
    requires Extends(b, a) && Segment(v, a)
    ensures Segment(v, b)
  {
    hide Advance, At;
    HoldsStays(a, b, v.start, v.initial);
    assert b.changes[v.start - a.start..Reached(v) - a.start] == a.changes[v.start - a.start..Reached(v) - a.start];
  }

  lemma MessageStays(m: Message, epoch: nat, before: Ledgers, after: Ledgers)
    requires Grown(before, after) && MessageOk(m, epoch, before)
    ensures MessageOk(m, epoch, after)
  {
    hide At;
    if m.Full? { HoldsStays(before[epoch], after[epoch], m.cursor.sequence, ApplyAll(map[], m.image)); }
  }

  lemma JobStays(j: Job, before: Ledgers, after: Ledgers)
    requires Grown(before, after) && JobOk(j, before)
    ensures JobOk(j, after)
  {
    hide At;
    if j.Install? {
      HoldsStays(before[j.cursor.epoch], after[j.cursor.epoch], j.cursor.sequence, ApplyAll(map[], j.image));
    }
  }

  lemma FollowerStays(n: Node, before: Ledgers, after: Ledgers)
    requires FollowerOk(n, before) && Grown(before, after)
    ensures FollowerOk(n, after)
  {
    hide MessageOk, JobOk, Extends;
    if n.session.Some? {
      var s := n.session.value;
      forall i | 0 <= i < |s.queue| ensures MessageOk(s.queue[i], s.epoch, after) {
        MessageStays(s.queue[i], s.epoch, before, after);
      }
    }
    forall i | 0 <= i < |n.jobs| ensures JobOk(n.jobs[i], after) {
      JobStays(n.jobs[i], before, after);
    }
  }

  /** A node that does nothing stays right when ledgers grow, if its own epoch is not written by another. */
  lemma NodeStays(
      id: nat, n: Node, before: Ledgers, after: Ledgers, owners: map<nat, nat>, now: map<nat, nat>, c: Config)
    requires AllOk(id, n, before, owners, c) && Grown(before, after)
    requires forall e :: e in owners ==> e in now && now[e] == owners[e]
    requires forall e :: e in before && e in owners && owners[e] == id ==> after[e] == before[e]
    ensures AllOk(id, n, after, now, c)
  {
    hide Aof.Inv, Seen, Stored, Segment, FollowerOk, Extends;
    FollowerStays(n, before, after);
    var e := Seen(n.file).epoch;
    if e != 0 { SegmentStays(before[e], after[e], Seen(n.file)); }
  }

  lemma Replaced(s: State, t: State, id: nat, c: Config)
    requires Inv(s, c) && id in s.nodes && t.nodes.Keys == s.nodes.Keys && Grown(s.ledgers, t.ledgers)
    requires forall j :: j in s.nodes && j != id ==> t.nodes[j] == s.nodes[j]
    requires 0 !in t.ledgers && t.owners.Keys == t.ledgers.Keys
    requires forall e :: e in s.owners ==> e in t.owners && t.owners[e] == s.owners[e]
    requires forall e :: e in s.ledgers && t.ledgers[e] != s.ledgers[e] ==> s.owners[e] == id
    requires AllOk(id, t.nodes[id], t.ledgers, t.owners, c)
    ensures Inv(t, c)
  {
    hide AllOk, Extends;
    forall j | j in t.nodes && j != id ensures AllOk(j, t.nodes[j], t.ledgers, t.owners, c) {
      assert AllOk(j, s.nodes[j], s.ledgers, s.owners, c);
      NodeStays(j, s.nodes[j], s.ledgers, t.ledgers, s.owners, t.owners, c);
    }
  }

  /** The record unchanged, only one node has to be looked at. */
  lemma OnlyNode(s: State, id: nat, n: Node, c: Config)
    requires Inv(s, c) && id in s.nodes && AllOk(id, n, s.ledgers, s.owners, c)
    ensures Inv(s.(nodes := s.nodes[id := n]), c)
  {
    hide AllOk;
    Replaced(s, s.(nodes := s.nodes[id := n]), id, c);
  }

  /** A running node's position is its file's. */
  lemma Stands(n: Node, ledgers: Ledgers, c: Config)
    requires NodeOk(n, ledgers, c) && n.file.writer.Some?
    ensures Position(n) == Journal.Cursor(Seen(n.file).epoch, Reached(Seen(n.file)))
    ensures Stored(Seen(n.file)) == Aof.Now(n.file.history)
  {
    hide Aof.Inv, Segment;
    WriterStands(n.file, c);
  }

  /** The dataset of a segment is the epoch's dataset at its end. */
  lemma SegmentHolds(v: View, l: Ledger)
    requires Segment(v, l)
    ensures Holds(l, Reached(v), Stored(v))
  {
    hide Advance;
    var k, m := v.start - l.start, Reached(v) - l.start;
    assert l.changes[..m] == l.changes[..k] + v.changes;
    AdvanceConcat(l.initial, l.changes[..k], v.changes);
  }

  lemma SegmentCut(v: View, l: Ledger, k: nat)
    requires Segment(v, l) && k <= |v.changes|
    ensures Segment(v.(changes := v.changes[..k]), l)
  {
    hide At;
    var a := v.start - l.start;
    assert l.changes[a..a + |v.changes|][..k] == l.changes[a..a + k];
  }

  lemma SegmentNext(v: View, l: Ledger, change: Change)
    requires Segment(v, l) && Recorded(l, Reached(v) + 1, change)
    ensures Segment(v.(changes := v.changes + [change]), l)
  {
    hide At;
    var a, b := v.start - l.start, Reached(v) - l.start;
    assert l.changes[a..b] + [l.changes[b]] == l.changes[a..b + 1];
  }

  // ---------- Every step keeps the invariant ----------

  lemma NewLedger(sequence: nat, store: Store)
    ensures Holds(Ledger(sequence, store, []), sequence, store)
  {
  }

  /** A node that lost its session, and perhaps its jobs or their claim to be current. */
  lemma StopsFollowing(n: Node, m: Node, ledgers: Ledgers)
    requires FollowerOk(n, ledgers) && m.session.None? && n.generation <= m.generation
    requires m.jobs == n.jobs || m.jobs == []
    requires !m.up ==> m.jobs == []
    ensures FollowerOk(m, ledgers)
  {
    hide JobOk, MessageOk;
  }

  lemma PromotedOk(
      id: nat, n: Node, ledgers: Ledgers, owners: map<nat, nat>, epoch: nat, image: seq<Mutation>,
      removed: bool, dies: bool, c: Config)
    requires AllOk(id, n, ledgers, owners, c) && n.up && !n.serving && epoch != 0 && epoch !in ledgers
    requires AofRuns.Enabled(n.file, c, AofRuns.Syncing) && Describes(image, n.store)
    requires n.file.writer.Some? && AofRuns.CanInstall(AofRuns.Sync(n.file), c, image, Position(n).sequence)
    ensures AllOk(id, Promoted(n, epoch, image, removed, dies, c),
                  ledgers[epoch := Ledger(Position(n).sequence, n.store, [])], owners[epoch := id], c)
  {
    hide Aof.Inv, AofRuns.CanInstall, AofRuns.Install, AofRuns.Sync, Seen, Stored, FollowerOk, ApplyAll;
    var sequence, after := Position(n).sequence, ledgers[epoch := Ledger(Position(n).sequence, n.store, [])];
    QuietSeen(n.file, c, AofRuns.Syncing);
    InstallSeen(AofRuns.Sync(n.file), c, image, sequence, Metadata(Primary, epoch), removed, dies);
    NewLedger(sequence, n.store);
    FollowerStays(n, ledgers, after);
    StopsFollowing(n, Promoted(n, epoch, image, removed, dies, c), after);
  }

  lemma PromoteKeeps(s: State, step: Step, c: Config)
    requires Inv(s, c) && step.Promote? && Enabled(s, step, c)
    ensures Inv(Take(s, step, c), c)
  {
    hide AllOk, AofRuns.CanInstall, AofRuns.Sync, Promoted, Describes;
    var n := s.nodes[step.id];
    assert AllOk(step.id, n, s.ledgers, s.owners, c);
    PromotedOk(step.id, n, s.ledgers, s.owners, step.epoch, step.image, step.removed, step.dies, c);
    Replaced(s, Take(s, step, c), step.id, c);
  }

  /** A primary's ledger gains what its file gains. */
  function Entered(ledgers: Ledgers, e: nat, gained: seq<Change>): Ledgers
    requires e in ledgers
  {
    ledgers[e := ledgers[e].(changes := ledgers[e].changes + gained)]
  }

  lemma EnteredGrows(ledgers: Ledgers, e: nat, gained: seq<Change>)
    requires e in ledgers
    ensures Grown(ledgers, Entered(ledgers, e, gained)) && Entered(ledgers, e, gained).Keys == ledgers.Keys
  {
  }

  /** The writing primary's own file still agrees with its epoch. */
  lemma WriterSegment(v: View, l: Ledger, gained: seq<Change>)
    requires Segment(v, l) && v.start == l.start && v.changes == l.changes
    ensures Segment(v.(changes := v.changes + gained), l.(changes := l.changes + gained))
  {
    hide Advance;
    assert (l.changes + gained)[..0] == l.changes[..0];
  }

  lemma WroteOk(id: nat, n: Node, ledgers: Ledgers, owners: map<nat, nat>, change: Change, c: Config)
    requires AllOk(id, n, ledgers, owners, c) && n.serving && AofRuns.CanAppend(n.file, c, change)
    ensures n.file.writer.Some? && Position(n).epoch in ledgers
    ensures var m := n.(file := AofRuns.Append(n.file, c, change), store := ApplyAll(n.store, change.mutations),
                        journal := n.journal + [change]);
            && m.file.history.changes == n.file.history.changes + [change]
            && AllOk(id, m, Entered(ledgers, Position(n).epoch, [change]), owners, c)
  {
    hide Aof.Inv, AofRuns.CanAppend, AofRuns.Append, Segment, FollowerOk, ApplyAll, Advance, Stored;
    Stands(n, ledgers, c);
    AppendSeen(n.file, c, change);
    var v := Seen(n.file);
    WriterSegment(v, ledgers[v.epoch], [change]);
    EnteredGrows(ledgers, v.epoch, [change]);
    FollowerStays(n, ledgers, Entered(ledgers, v.epoch, [change]));
    SameFollower(n, n.(file := AofRuns.Append(n.file, c, change), store := ApplyAll(n.store, change.mutations),
                       journal := n.journal + [change]), Entered(ledgers, v.epoch, [change]));
  }

  lemma SameFollower(n: Node, m: Node, ledgers: Ledgers)
    requires FollowerOk(n, ledgers) && m.session == n.session && m.jobs == n.jobs && m.generation == n.generation
    requires m.up == n.up
    ensures FollowerOk(m, ledgers)
  {
    hide JobOk, MessageOk;
  }

  lemma WriteKeeps(s: State, step: Step, c: Config)
    requires Inv(s, c) && step.Write? && Enabled(s, step, c)
    ensures Inv(Take(s, step, c), c)
  {
    hide AllOk, AofRuns.CanAppend, AofRuns.Append, ApplyAll;
    var n := s.nodes[step.id];
    assert AllOk(step.id, n, s.ledgers, s.owners, c);
    WroteOk(step.id, n, s.ledgers, s.owners, step.change, c);
    assert s.owners[Position(n).epoch] == step.id by { Owns(step.id, n, s.ledgers, s.owners, c); }
    EnteredGrows(s.ledgers, Position(n).epoch, [step.change]);
    var t := Take(s, step, c);
    assert t.nodes[step.id].file.history.changes[|n.file.history.changes|..] == [step.change];
    assert t.ledgers == Entered(s.ledgers, Position(n).epoch, [step.change]);
    Replaced(s, t, step.id, c);
  }

  lemma Owns(id: nat, n: Node, ledgers: Ledgers, owners: map<nat, nat>, c: Config)
    requires AllOk(id, n, ledgers, owners, c) && n.serving
    ensures n.file.writer.Some? && Position(n).epoch in owners && owners[Position(n).epoch] == id
    ensures Position(n).epoch != 0 && Position(n).epoch in ledgers
    ensures Position(n).sequence == End(ledgers[Position(n).epoch]) && n.journal == ledgers[Position(n).epoch].changes
    ensures Holds(ledgers[Position(n).epoch], Position(n).sequence, n.store)
  {
    hide Aof.Inv, Segment, FollowerOk, Advance;
    Stands(n, ledgers, c);
    SegmentHolds(Seen(n.file), ledgers[Seen(n.file).epoch]);
  }

  lemma WriteFailedOk(id: nat, n: Node, ledgers: Ledgers, owners: map<nat, nat>, change: Change, f: Failure, c: Config)
    requires AllOk(id, n, ledgers, owners, c) && n.serving && n.file.writer.Some? && Position(n).epoch in ledgers
    requires AofRuns.Enabled(n.file, c, AofRuns.AppendFails(change, f.written, f.synced))
    ensures var m := Stopped(n.(file := AofRuns.AppendDies(n.file, c, change, f.written, f.synced)));
            var was, now := n.file.history.changes, m.file.history.changes;
            && was <= now && AllOk(id, m, Entered(ledgers, Position(n).epoch, now[|was|..]), owners, c)
  {
    hide Aof.Inv, AofRuns.CanAppend, AofRuns.AppendDies, Segment, FollowerOk, Advance;
    Stands(n, ledgers, c);
    AppendDiesSeen(n.file, c, change, f.written, f.synced);
    var v, m := Seen(n.file), Stopped(n.(file := AofRuns.AppendDies(n.file, c, change, f.written, f.synced)));
    var gained := m.file.history.changes[|v.changes|..];
    assert m.file.history.changes == v.changes + gained;
    WriterSegment(v, ledgers[v.epoch], gained);
    EnteredGrows(ledgers, v.epoch, gained);
    FollowerStays(n, ledgers, Entered(ledgers, v.epoch, gained));
    StopsFollowing(n, m, Entered(ledgers, v.epoch, gained));
  }

  lemma WriteFailsKeeps(s: State, step: Step, c: Config)
    requires Inv(s, c) && step.WriteFails? && Enabled(s, step, c)
    ensures Inv(Take(s, step, c), c)
  {
    hide AllOk, AofRuns.Enabled, AofRuns.AppendDies;
    var n := s.nodes[step.id];
    assert AllOk(step.id, n, s.ledgers, s.owners, c);
    Owns(step.id, n, s.ledgers, s.owners, c);
    WriteFailedOk(step.id, n, s.ledgers, s.owners, step.change, step.failure, c);
    var t := Take(s, step, c);
    var gained := t.nodes[step.id].file.history.changes[|n.file.history.changes|..];
    EnteredGrows(s.ledgers, Position(n).epoch, gained);
    assert t.ledgers == Entered(s.ledgers, Position(n).epoch, gained);
    Replaced(s, t, step.id, c);
  }

  lemma KeptOk(id: nat, n: Node, ledgers: Ledgers, owners: map<nat, nat>, work: AofRuns.Step, c: Config)
    requires AllOk(id, n, ledgers, owners, c) && n.up && Quiet(work) && AofRuns.Enabled(n.file, c, work)
    ensures AllOk(id, Carrying(n, AofRuns.Take(n.file, c, work)), ledgers, owners, c)
  {
    hide Aof.Inv, AofRuns.Enabled, AofRuns.Take, Segment, FollowerOk, Seen, Stored;
    QuietSeen(n.file, c, work);
    WriterStands(n.file, c);
    var m := Carrying(n, AofRuns.Take(n.file, c, work));
    if m.up { WriterStands(m.file, c); }
    if m.up { SameFollower(n, m, ledgers); } else { StopsFollowing(n, m, ledgers); }
  }

  /** Recovery from the node's own bytes puts it back on its epoch's ledger. */
  lemma RecoveredOk(
      id: nat, n: Node, ledgers: Ledgers, owners: map<nat, nat>, kept: nat, synced: nat, older: map<nat, File>,
          c: Config)
    requires AllOk(id, n, ledgers, owners, c) && !n.up && AofRuns.CanRestart(n.file, c, kept, synced, older)
    ensures AllOk(id, Recovered(n, kept, synced, older, c), ledgers, owners, c)
  {
    hide Aof.Inv, AofRuns.CanRestart, AofRuns.Restart, Segment, Seen, Stored, LoadFile;
    var k := RestartSeen(n.file, c, kept, synced, older);
    var v := Seen(n.file);
    if v.epoch != 0 { SegmentCut(v, ledgers[v.epoch], k); }
  }

  lemma FileKeeps(s: State, step: Step, c: Config)
    requires Inv(s, c) && Enabled(s, step, c) && (step.Keep? || step.Crash? || step.Restart?)
    ensures Inv(Take(s, step, c), c)
  {
    hide NodeOk, ServingOk, FollowerOk, AofRuns.Enabled, AofRuns.Take, AofRuns.CanRestart, Recovered, Carrying;
    var n := s.nodes[step.id];
    assert AllOk(step.id, n, s.ledgers, s.owners, c);
    if step.Keep? {
      KeptOk(step.id, n, s.ledgers, s.owners, step.work, c);
    } else if step.Restart? {
      RecoveredOk(step.id, n, s.ledgers, s.owners, step.kept, step.synced, step.older, c);
    } else {
      StoppedOk(step.id, n, s.ledgers, s.owners, c);
    }
    OnlyNode(s, step.id, Act(s, step, c), c);
  }

  lemma StoppedOk(id: nat, n: Node, ledgers: Ledgers, owners: map<nat, nat>, c: Config)
    requires AllOk(id, n, ledgers, owners, c)
    ensures AllOk(id, Stopped(n), ledgers, owners, c)
  {
    hide Aof.Inv, Segment, Seen, Stored, JobOk, MessageOk;
  }

  /** The file, memory and role as they are; only the follower side moved. */
  lemma OnlyFollower(id: nat, n: Node, m: Node, ledgers: Ledgers, owners: map<nat, nat>, c: Config)
    requires AllOk(id, n, ledgers, owners, c) && FollowerOk(m, ledgers)
    requires m == n.(generation := m.generation, session := m.session, jobs := m.jobs)
    requires (n.serving ==> m.session.None?) && Standing(m)
    ensures AllOk(id, m, ledgers, owners, c)
  {
    hide Aof.Inv, Segment, Seen, Stored, FollowerOk;
  }

  lemma ConnectKeeps(s: State, step: Step, c: Config)
    requires Inv(s, c) && Enabled(s, step, c) && (step.Connect? || step.Disconnect?)
    ensures Inv(Take(s, step, c), c)
  {
    hide NodeOk, ServingOk, JobOk, MessageOk;
    var n, m := s.nodes[step.id], Act(s, step, c);
    assert AllOk(step.id, n, s.ledgers, s.owners, c);
    if step.Connect? {
      assert AllOk(step.source, s.nodes[step.source], s.ledgers, s.owners, c);
      Owns(step.source, s.nodes[step.source], s.ledgers, s.owners, c);
    }
    OnlyFollower(step.id, n, m, s.ledgers, s.owners, c);
    OnlyNode(s, step.id, m, c);
  }

  lemma OfferKeeps(s: State, id: nat, m: Message, c: Config)
    requires Inv(s, c) && id in s.nodes && s.nodes[id].session.Some?
    requires MessageOk(m, s.nodes[id].session.value.epoch, s.ledgers)
    ensures Inv(s.(nodes := s.nodes[id := Offer(s.nodes[id], m)]), c)
  {
    hide NodeOk, JobOk, MessageOk;
    var n := s.nodes[id];
    assert AllOk(id, n, s.ledgers, s.owners, c);
    OnlyFollower(id, n, Offer(n, m), s.ledgers, s.owners, c);
    OnlyNode(s, id, Offer(n, m), c);
  }

  /** What a source offers from its own memory and journal is what its epoch's ledger says. */
  lemma SourceKeeps(s: State, step: Step, c: Config)
    requires Inv(s, c) && Enabled(s, step, c) && (step.OfferContinue? || step.OfferFull? || step.Stream?)
    ensures Inv(Take(s, step, c), c)
  {
    hide AllOk, Advance, At, ApplyAll, Ascending, Keys, Chargeable;
    var n := s.nodes[step.id];
    var q := n.session.value;
    var source := s.nodes[q.source];
    assert AllOk(q.source, source, s.ledgers, s.owners, c);
    Owns(q.source, source, s.ledgers, s.owners, c);
    match step
    case OfferContinue(_) => OfferKeeps(s, step.id, Continue(q.position), c);
    case OfferFull(_, image) => OfferKeeps(s, step.id, Full(Position(source), image), c);
    case Stream(_, k) =>
      OfferKeeps(s, step.id, Streamed(k, source.journal[k - 1 - (Position(source).sequence - |source.journal|)]), c);
  }

  lemma AcceptOk(n: Node, ledgers: Ledgers)
    requires FollowerOk(n, ledgers) && n.session.Some? && n.session.value.queue != []
    ensures FollowerOk(Accept(n), ledgers)
  {
    hide Holds, Recorded, ApplyAll;
    var s, m := n.session.value, Accept(n);
    assert MessageOk(s.queue[0], s.epoch, ledgers);
    forall i | 0 <= i < |s.queue| - 1 ensures MessageOk(s.queue[1..][i], s.epoch, ledgers) {}
    forall i | 0 <= i < |m.jobs| ensures JobOk(m.jobs[i], ledgers) && JobCurrent(m.jobs[i], m) {
      if i < |n.jobs| { assert JobOk(n.jobs[i], ledgers) && JobCurrent(n.jobs[i], n); }
    }
  }

  lemma AcceptStands(id: nat, n: Node, ledgers: Ledgers, owners: map<nat, nat>, c: Config)
    requires AllOk(id, n, ledgers, owners, c) && n.session.Some? && n.session.value.queue != []
    ensures var m := Accept(n);
            && m == n.(generation := m.generation, session := m.session, jobs := m.jobs)
            && !n.serving && Standing(m)
  {
    hide NodeOk, FollowerOk;
  }

  lemma SubmitKeeps(s: State, step: Step, c: Config)
    requires Inv(s, c) && step.Submit? && Enabled(s, step, c)
    ensures Inv(Take(s, step, c), c)
  {
    hide NodeOk, FollowerOk, ServingOk, Accept;
    var n := s.nodes[step.id];
    assert AllOk(step.id, n, s.ledgers, s.owners, c);
    AcceptOk(n, s.ledgers);
    AcceptStands(step.id, n, s.ledgers, s.owners, c);
    OnlyFollower(step.id, n, Accept(n), s.ledgers, s.owners, c);
    OnlyNode(s, step.id, Accept(n), c);
  }

  lemma WithoutOk(jobs: seq<Job>, i: nat)
    requires i < |jobs|
    ensures |Without(jobs, i)| == |jobs| - 1
    ensures forall k :: 0 <= k < |Without(jobs, i)| ==>
              Without(jobs, i)[k] == jobs[if k < i then k else k + 1]
  {
  }

  /** A job leaves the list; the session stays, moves on to the job's cursor, or ends. */
  lemma JobDone(n: Node, m: Node, index: nat, ledgers: Ledgers)
    requires FollowerOk(n, ledgers) && index < |n.jobs| && m.jobs == Without(n.jobs, index)
    requires m.up == n.up && m.generation == n.generation
    requires m.session == n.session || m.session.None?
             || (m.session == Advanced(n, n.jobs[index]) && n.jobs[index].generation == n.generation)
    ensures FollowerOk(m, ledgers)
  {
    hide JobOk, MessageOk, Without;
    var j := n.jobs[index];
    WithoutOk(n.jobs, index);
    assert JobCurrent(j, n);
    forall i | 0 <= i < |m.jobs| ensures JobOk(m.jobs[i], ledgers) && JobCurrent(m.jobs[i], m) {
      var k := if i < index then i else i + 1;
      assert JobOk(n.jobs[k], ledgers) && JobCurrent(n.jobs[k], n);
    }
  }

  lemma InstalledOk(
      id: nat, n: Node, j: Job, removed: bool, dies: bool, ledgers: Ledgers, owners: map<nat, nat>, c: Config)
    requires AllOk(id, n, ledgers, owners, c) && n.up && !n.serving && j.Install? && JobOk(j, ledgers)
    requires AofRuns.CanInstall(n.file, c, j.image, j.cursor.sequence)
    requires FollowerOk(n.(session := Advanced(n, j)), ledgers)
    ensures AllOk(id, Installed(n, j, removed, dies, c), ledgers, owners, c)
    ensures !dies ==> var m := Installed(n, j, removed, dies, c); m.up && m.file.writer.Some? && Position(m) == j.cursor
  {
    hide Aof.Inv, AofRuns.CanInstall, AofRuns.Install, Seen, Stored, FollowerOk, ApplyAll, At;
    var metadata := Metadata(Replica, j.cursor.epoch);
    InstallSeen(n.file, c, j.image, j.cursor.sequence, metadata, removed, dies);
    var m := Installed(n, j, removed, dies, c);
    if dies { StopsFollowing(n, m, ledgers); } else { SameFollower(n.(session := Advanced(n, j)), m, ledgers); }
    ImageSegment(j, ledgers);
    if !dies { WriterStands(m.file, c); }
  }

  /** An image on record is a segment without batches. */
  lemma ImageSegment(j: Job, ledgers: Ledgers)
    requires JobOk(j, ledgers) && j.Install?
    ensures Segment(View(j.cursor.epoch, j.cursor.sequence, ApplyAll(map[], j.image), []), ledgers[j.cursor.epoch])
  {
    hide At, ApplyAll;
  }

  lemma AppliedOk(
      id: nat, n: Node, j: Job, fault: Option<Failure>, ledgers: Ledgers, owners: map<nat, nat>, c: Config)
    requires AllOk(id, n, ledgers, owners, c) && n.up && !n.serving && j.Apply? && JobOk(j, ledgers) && Takes(n, j, c)
    requires FollowerOk(n.(session := Advanced(n, j)), ledgers)
    ensures AllOk(id, Applied(n, j, fault, c), ledgers, owners, c)
    ensures fault.None? ==> var m := Applied(n, j, fault, c); m.up && m.file.writer.Some? && Position(m) == j.cursor
  {
    hide Aof.Inv, AofRuns.CanAppend, AofRuns.Append, AofRuns.AppendDies, Segment, Seen, Stored, FollowerOk, ApplyAll;
    Stands(n, ledgers, c);
    var v, m := Seen(n.file), Applied(n, j, fault, c);
    SegmentNext(v, ledgers[v.epoch], j.change);
    if && fault.Some?
       && AofRuns.Enabled(n.file, c, AofRuns.AppendFails(j.change, fault.value.written, fault.value.synced)) {
      AppendDiesSeen(n.file, c, j.change, fault.value.written, fault.value.synced);
      StopsFollowing(n, m, ledgers);
    } else {
      AppendSeen(n.file, c, j.change);
      WriterStands(m.file, c);
      SameFollower(n.(session := Advanced(n, j)), m, ledgers);
    }
  }

  lemma PerformOk(
      id: nat, n: Node, index: nat, removed: bool, fault: Option<Failure>, ledgers: Ledgers, owners: map<nat, nat>,
      c: Config)
    requires AllOk(id, n, ledgers, owners, c) && index < |n.jobs|
    ensures AllOk(id, Perform(n, index, removed, fault, c), ledgers, owners, c)
  {
    hide NodeOk, JobOk, MessageOk, Takes, Installed, Applied, AofRuns.CanInstall, Without;
    var j, left := n.jobs[index], n.(jobs := Without(n.jobs, index));
    JobDone(n, left, index, ledgers);
    OnlyFollower(id, n, left, ledgers, owners, c);
    if !n.up || n.serving || j.generation != n.generation {
    } else {
      JobDone(n, left.(session := Advanced(left, j)), index, ledgers);
      JobDone(n, left.(session := None), index, ledgers);
      if j.Install? && AofRuns.CanInstall(n.file, c, j.image, j.cursor.sequence) {
        InstalledOk(id, left, j, removed, fault.Some?, ledgers, owners, c);
      } else if j.Apply? && Takes(n, j, c) {
        assert Takes(left, j, c) by { SameTakes(n, left, j, c); }
        AppliedOk(id, left, j, fault, ledgers, owners, c);
      } else {
        OnlyFollower(id, n, left.(session := None), ledgers, owners, c);
      }
    }
  }

  lemma SameTakes(n: Node, m: Node, j: Job, c: Config)
    requires j.Apply? && Takes(n, j, c) && m.file == n.file
    ensures Takes(m, j, c)
  {
    hide AofRuns.CanAppend;
  }

  lemma RunJobKeeps(s: State, step: Step, c: Config)
    requires Inv(s, c) && step.RunJob? && Enabled(s, step, c)
    ensures Inv(Take(s, step, c), c)
  {
    hide AllOk, Perform;
    var n := s.nodes[step.id];
    assert AllOk(step.id, n, s.ledgers, s.owners, c);
    PerformOk(step.id, n, step.index, step.removed, step.fault, s.ledgers, s.owners, c);
    OnlyNode(s, step.id, Perform(n, step.index, step.removed, step.fault, c), c);
  }

  lemma StepKeeps(s: State, step: Step, c: Config)
    requires Inv(s, c) && Enabled(s, step, c)
    ensures Inv(Take(s, step, c), c)
  {
    hide Inv, Take, Enabled;
    match step
    case Promote(_, _, _, _, _) => PromoteKeeps(s, step, c);
    case Write(_, _) => WriteKeeps(s, step, c);
    case WriteFails(_, _, _) => WriteFailsKeeps(s, step, c);
    case Keep(_, _) => FileKeeps(s, step, c);
    case Crash(_) => FileKeeps(s, step, c);
    case Restart(_, _, _, _) => FileKeeps(s, step, c);
    case Connect(_, _) => ConnectKeeps(s, step, c);
    case Disconnect(_) => ConnectKeeps(s, step, c);
    case OfferContinue(_) => SourceKeeps(s, step, c);
    case OfferFull(_, _) => SourceKeeps(s, step, c);
    case Stream(_, _) => SourceKeeps(s, step, c);
    case Submit(_) => SubmitKeeps(s, step, c);
    case RunJob(_, _, _, _) => RunJobKeeps(s, step, c);
  }

  lemma PromoteGrows(ledgers: Ledgers, epoch: nat, l: Ledger)
    requires epoch !in ledgers
    ensures Grown(ledgers, ledgers[epoch := l])
  {
  }

  lemma StepGrows(s: State, step: Step, c: Config)
    requires Enabled(s, step, c)
    ensures Grown(s.ledgers, Take(s, step, c).ledgers)
  {
    hide AofRuns.CanInstall, AofRuns.CanAppend, AofRuns.CanRestart, AofRuns.Enabled, Act;
    if step.Promote? {
      var n := s.nodes[step.id];
      if n.file.writer.Some? { PromoteGrows(s.ledgers, step.epoch, Ledger(Position(n).sequence, n.store, [])); }
    }
  }

  // ---------- Every run ----------

  /** Stopped nodes that have never replicated, with whatever their files went through before. */
  ghost predicate Initial(s: State, c: Config) {
    && s.ledgers == map[] && s.owners == map[]
    && forall id :: id in s.nodes ==>
         var n := s.nodes[id];
         && Aof.Inv(n.file, c) && n.file.content.top in n.file.disk && Seen(n.file).epoch == 0
         && !n.up && !n.serving && n.session.None? && n.jobs == []
  }

  ghost predicate Run(states: seq<State>, steps: seq<Step>, c: Config) {
    && |states| == |steps| + 1 && Initial(states[0], c)
    && forall i :: 0 <= i < |steps| ==>
         Enabled(states[i], steps[i], c) && states[i + 1] == Take(states[i], steps[i], c)
  }

  lemma StartOk(s: State, c: Config)
    requires Initial(s, c)
    ensures Inv(s, c)
  {
    hide Aof.Inv, Segment;
  }

  lemma {:induction false} RunKeeps(states: seq<State>, steps: seq<Step>, c: Config, i: nat)
    requires Run(states, steps, c) && i <= |steps|
    ensures Inv(states[i], c)
  {
    hide Enabled, Take, Inv, Initial;
    if i == 0 {
      StartOk(states[0], c);
    } else {
      RunKeeps(states, steps, c, i - 1);
      StepKeeps(states[i - 1], steps[i - 1], c);
    }
  }

  lemma {:induction false} RunGrows(states: seq<State>, steps: seq<Step>, c: Config, i: nat, j: nat)
    requires Run(states, steps, c) && i <= j <= |steps|
    ensures Grown(states[i].ledgers, states[j].ledgers)
  {
    hide Enabled, Take, Initial;
    if i < j {
      RunGrows(states, steps, c, i, j - 1);
      StepGrows(states[j - 1], steps[j - 1], c);
    }
  }

  lemma NodeInRun(states: seq<State>, steps: seq<Step>, c: Config, i: nat, id: nat)
    requires Run(states, steps, c) && i <= |steps| && id in states[i].nodes
    ensures AllOk(id, states[i].nodes[id], states[i].ledgers, states[i].owners, c)
  {
    hide Enabled, Take, Initial, AllOk;
    RunKeeps(states, steps, c, i);
  }

  /**
   * Prefix safety: in every state of every run, a running node has exactly the dataset its
   * epoch's primary had at its sequence; a serving primary owns its epoch, stands at its end,
   * and its journal is everything the epoch has.
   */
  lemma PrefixSafety(states: seq<State>, steps: seq<Step>, c: Config, i: nat, id: nat)
    requires Run(states, steps, c) && i <= |steps| && id in states[i].nodes && states[i].nodes[id].up
    ensures states[i].nodes[id].file.writer.Some?
    ensures var s, n := states[i], states[i].nodes[id];
            var e := Position(n).epoch;
            && (e != 0 ==> e in s.ledgers && Holds(s.ledgers[e], Position(n).sequence, n.store))
            && (n.serving ==>
                  && e != 0 && e in s.owners && s.owners[e] == id
                  && Position(n).sequence == End(s.ledgers[e]) && n.journal == s.ledgers[e].changes)
  {
    hide Enabled, Take, Initial, Aof.Inv, Seen, Stored, Segment, FollowerOk, Holds;
    NodeInRun(states, steps, c, i, id);
    var s, n := states[i], states[i].nodes[id];
    Stands(n, s.ledgers, c);
    if n.serving { Owns(id, n, s.ledgers, s.owners, c); }
    var v := Seen(n.file);
    if v.epoch != 0 { SegmentHolds(v, s.ledgers[v.epoch]); }
  }

  /** Two nodes at one cursor hold the same dataset, at any two moments of a run. */
  lemma SameCursorSameData(states: seq<State>, steps: seq<Step>, c: Config, i: nat, j: nat, a: nat, b: nat)
    requires Run(states, steps, c) && i <= j <= |steps| && a in states[i].nodes && b in states[j].nodes
    requires var m, n := states[i].nodes[a], states[j].nodes[b];
             && m.up && m.file.writer.Some? && n.up && n.file.writer.Some?
             && Position(m) == Position(n) && Position(m).epoch != 0
    ensures states[i].nodes[a].store == states[j].nodes[b].store
  {
    hide Enabled, Take, Initial, At;
    PrefixSafety(states, steps, c, i, a);
    PrefixSafety(states, steps, c, j, b);
    RunGrows(states, steps, c, i, j);
    var m := states[i].nodes[a];
    var e := Position(m).epoch;
    HoldsStays(states[i].ledgers[e], states[j].ledgers[e], Position(m).sequence, m.store);
  }

  /** Whoever writes in one epoch, at any two moments: the later batch gets a later sequence. */
  lemma SequencesAreNeverReused(states: seq<State>, steps: seq<Step>, c: Config, i: nat, j: nat)
    requires Run(states, steps, c) && i < j < |steps| && steps[i].Write? && steps[j].Write?
    ensures steps[i].id in states[i].nodes && steps[j].id in states[j].nodes
    ensures var a, b := states[i].nodes[steps[i].id], states[j].nodes[steps[j].id];
            && a.file.writer.Some? && b.file.writer.Some?
            && (Position(a).epoch == Position(b).epoch ==>
                  steps[i].id == steps[j].id && Position(a).sequence + 1 < Position(b).sequence + 1)
  {
    hide Take, Initial, AofRuns.CanAppend, AofRuns.Append, AllOk, Holds;
    var s, t, id := states[i], states[i + 1], steps[i].id;
    assert Enabled(s, steps[i], c) && Enabled(states[j], steps[j], c);
    PrefixSafety(states, steps, c, i, id);
    PrefixSafety(states, steps, c, j, steps[j].id);
    NodeInRun(states, steps, c, i, id);
    Entry(s, steps[i], c);
    RunGrows(states, steps, c, i + 1, j);
    OwnersStay(states, steps, c, i, j);
  }

  /** A write makes its epoch's ledger one batch longer. */
  lemma Entry(s: State, step: Step, c: Config)
    requires step.Write? && Enabled(s, step, c) && AllOk(step.id, s.nodes[step.id], s.ledgers, s.owners, c)
    ensures var n := s.nodes[step.id];
            && n.file.writer.Some? && Position(n).epoch in s.ledgers
            && Take(s, step, c).ledgers == Entered(s.ledgers, Position(n).epoch, [step.change])
  {
    hide AllOk, AofRuns.CanAppend, AofRuns.Append;
    var n := s.nodes[step.id];
    WroteOk(step.id, n, s.ledgers, s.owners, step.change, c);
    assert Take(s, step, c).nodes[step.id].file.history.changes[|n.file.history.changes|..] == [step.change];
  }

  lemma {:induction false} OwnersStay(states: seq<State>, steps: seq<Step>, c: Config, i: nat, j: nat)
    requires Run(states, steps, c) && i <= j <= |steps|
    ensures forall e :: e in states[i].owners ==> e in states[j].owners && states[j].owners[e] == states[i].owners[e]
  {
    hide Initial, Act, Record, AllOk, AofRuns.CanAppend, AofRuns.CanInstall, AofRuns.CanRestart, AofRuns.Enabled;
    if i < j {
      OwnersStay(states, steps, c, i, j - 1);
      RunKeeps(states, steps, c, j - 1);
      assert Enabled(states[j - 1], steps[j - 1], c);
    }
  }

  /** A batch met under a cursor: on its way, in a job, in a journal, or in a node's file. */
  ghost predicate Met(s: State, e: nat, n: nat, change: Change) {
    exists id :: id in s.nodes && MetAt(s.nodes[id], e, n, change)
  }

  ghost predicate MetAt(m: Node, e: nat, n: nat, change: Change) {
    || (m.session.Some? && m.session.value.epoch == e && Streamed(n, change) in m.session.value.queue)
    || (exists j :: j in m.jobs && j.Apply? && j.cursor == Journal.Cursor(e, n) && j.change == change)
    || (&& m.serving && m.file.writer.Some? && Position(m).epoch == e && Published(m, n)
        && m.journal[n - 1 - (Position(m).sequence - |m.journal|)] == change)
    || (&& m.file.content.top in m.file.disk && Seen(m.file).epoch == e != 0
        && Seen(m.file).start < n <= Reached(Seen(m.file))
            && Seen(m.file).changes[n - 1 - Seen(m.file).start] == change)
  }

  lemma MetIsRecorded(id: nat, m: Node, ledgers: Ledgers, owners: map<nat, nat>, c: Config, e: nat, n: nat,
        change: Change)
    requires AllOk(id, m, ledgers, owners, c) && MetAt(m, e, n, change)
    ensures e in ledgers && Recorded(ledgers[e], n, change)
  {
    hide Aof.Inv, At, Stored, Seen;
    if m.serving { Owns(id, m, ledgers, owners, c); }
    if m.session.Some? && m.session.value.epoch == e && Streamed(n, change) in m.session.value.queue {
      var k :| 0 <= k < |m.session.value.queue| && m.session.value.queue[k] == Streamed(n, change);
      assert MessageOk(m.session.value.queue[k], e, ledgers);
    }
    if j :| j in m.jobs && j.Apply? && j.cursor == Journal.Cursor(e, n) && j.change == change {
      var k :| 0 <= k < |m.jobs| && m.jobs[k] == j;
      assert JobOk(m.jobs[k], ledgers);
    }
  }

  /**
   * One batch per sequence: wherever and whenever two batches are met under one epoch and
   * sequence — streamed, handed to the database, published, or written to a file — they are
   * the same batch.
   */
  lemma OneBatchPerSequence(
      states: seq<State>, steps: seq<Step>, c: Config, i: nat, j: nat, e: nat, n: nat, a: Change, b: Change)
    requires Run(states, steps, c) && i <= j <= |steps| && Met(states[i], e, n, a) && Met(states[j], e, n, b)
    ensures a == b
  {
    hide Enabled, Take, Initial, AllOk, MetAt;
    var x :| x in states[i].nodes && MetAt(states[i].nodes[x], e, n, a);
    var y :| y in states[j].nodes && MetAt(states[j].nodes[y], e, n, b);
    NodeInRun(states, steps, c, i, x);
    NodeInRun(states, steps, c, j, y);
    MetIsRecorded(x, states[i].nodes[x], states[i].ledgers, states[i].owners, c, e, n, a);
    MetIsRecorded(y, states[j].nodes[y], states[j].ledgers, states[j].owners, c, e, n, b);
    RunGrows(states, steps, c, i, j);
  }

  /**
   * In every state of every run, whatever a crash keeps of any node's file, the node can
   * restart from it. It then stands no earlier than its last synced batch and, under the
   * Always policy, its last acknowledged one, and no later than before.
   */
  lemma AlwaysRecovers(
      states: seq<State>, steps: seq<Step>, c: Config, i: nat, id: nat, kept: nat, synced: nat, older: map<nat, File>)
    requires Run(states, steps, c) && i <= |steps| && id in states[i].nodes
    requires var a := states[i].nodes[id].file;
             && Aof.CutPoint(a, kept) && a.disk[a.content.top].synced <= synced <= kept
             && forall g :: g in older ==> g < a.content.top
    ensures var n := states[i].nodes[id];
            && AofRuns.CanRestart(n.file, c, kept, synced, older)
            && var m := Recovered(n, kept, synced, older, c);
            && m.file.writer.Some? && Position(m).epoch == Seen(n.file).epoch
            && var h := n.file.history;
            && h.start + h.flushed <= Position(m).sequence <= h.start + |h.changes|
            && (c.always ==> h.start + h.acked <= Position(m).sequence)
  {
    hide Enabled, Take, Initial, Aof.Inv, AofRuns.CanRestart, AofRuns.Restart, LoadFile, Segment, FollowerOk, Stored;
    NodeInRun(states, steps, c, i, id);
    var n := states[i].nodes[id];
    AofRuns.CrashLoads(n.file, c, kept, synced, older);
    var k := RestartSeen(n.file, c, kept, synced, older);
    WriterStands(Recovered(n, kept, synced, older, c).file, c);
  }

  /** A step that replaces a node's history: a promotion, or the installation of an image. */
  predicate Replaces(s: State, step: Step, id: nat) {
    && step.id == id && id in s.nodes
    && (step.Promote? || (step.RunJob? && step.index < |s.nodes[id].jobs| && s.nodes[id].jobs[step.index].Install?))
  }

  lemma SameExtends(a: Aof.State, c: Config)
    requires Aof.Inv(a, c)
    ensures AofRuns.Extends(a.history, a.history)
  {
    hide Admissible, WithinQuotas, Aof.Recordable, Aof.ContentOk, Aof.WriterOk;
  }

  lemma AppendExtends(a: Aof.State, c: Config, ch: Change)
    requires Aof.Inv(a, c) && AofRuns.CanAppend(a, c, ch)
    ensures AofRuns.Extends(AofRuns.Append(a, c, ch).history, a.history)
  {
    hide Aof.Inv, AofRuns.CanAppend;
    AofRuns.StepExtends(a, c, AofRuns.Appending(ch));
  }

  lemma DiesExtends(a: Aof.State, c: Config, ch: Change, f: Failure)
    requires Aof.Inv(a, c) && AofRuns.Enabled(a, c, AofRuns.AppendFails(ch, f.written, f.synced))
    ensures AofRuns.Extends(AofRuns.AppendDies(a, c, ch, f.written, f.synced).history, a.history)
  {
    hide Aof.Inv, AofRuns.CanAppend;
    AofRuns.StepExtends(a, c, AofRuns.AppendFails(ch, f.written, f.synced));
  }

  lemma RestartExtends(a: Aof.State, c: Config, kept: nat, synced: nat, older: map<nat, File>)
    requires Aof.Inv(a, c) && AofRuns.CanRestart(a, c, kept, synced, older)
    ensures AofRuns.Extends(AofRuns.Restart(a, c, kept, synced, older).history, a.history)
  {
    hide Aof.Inv, AofRuns.CanRestart, AofRuns.Restart;
    AofRuns.StepExtends(a, c, AofRuns.Crashing(kept, synced, older));
  }

  lemma PerformExtends(n: Node, index: nat, removed: bool, fault: Option<Failure>, c: Config)
    requires Aof.Inv(n.file, c) && index < |n.jobs| && n.jobs[index].Apply?
    ensures AofRuns.Extends(Perform(n, index, removed, fault, c).file.history, n.file.history)
  {
    hide Aof.Inv, AofRuns.CanAppend, AofRuns.Append, AofRuns.AppendDies, AofRuns.CanInstall, AofRuns.Extends, ApplyAll;
    var j := n.jobs[index];
    SameExtends(n.file, c);
    if Takes(n, j, c) {
      AppendExtends(n.file, c, j.change);
      if && fault.Some?
         && AofRuns.Enabled(n.file, c, AofRuns.AppendFails(j.change, fault.value.written, fault.value.synced)) {
        DiesExtends(n.file, c, j.change, fault.value);
      }
    }
  }

  lemma ActExtends(s: State, step: Step, c: Config)
    requires Enabled(s, step, c) && Aof.Inv(s.nodes[step.id].file, c) && !Replaces(s, step, step.id)
    ensures AofRuns.Extends(Act(s, step, c).file.history, s.nodes[step.id].file.history)
  {
    hide Aof.Inv, AofRuns.Take, AofRuns.CanAppend, AofRuns.CanRestart, AofRuns.CanInstall, AofRuns.Extends, Perform;
    hide AofRuns.Append, AofRuns.AppendDies, AofRuns.Restart, LoadFile, ApplyAll, Describes, AofRuns.CanPublish;
    var n := s.nodes[step.id];
    SameExtends(n.file, c);
    if step.Write? {
      AppendExtends(n.file, c, step.change);
    } else if step.WriteFails? {
      DiesExtends(n.file, c, step.change, step.failure);
    } else if step.Keep? {
      AofRuns.StepExtends(n.file, c, step.work);
    } else if step.Restart? {
      RestartExtends(n.file, c, step.kept, step.synced, step.older);
    } else if step.RunJob? {
      PerformExtends(n, step.index, step.removed, step.fault, c);
    }
  }

  /** Whatever any node does, what one node's file held durably stays in it until it is replaced. */
  lemma FileExtends(s: State, step: Step, c: Config, id: nat)
    requires Inv(s, c) && Enabled(s, step, c) && id in s.nodes && !Replaces(s, step, id)
    ensures AofRuns.Extends(Take(s, step, c).nodes[id].file.history, s.nodes[id].file.history)
  {
    hide Enabled, Aof.Inv, AofRuns.Extends, Act, Record, Segment, FollowerOk, ServingOk, Replaces;
    assert step.id in s.nodes && Enabled(s, step, c) by { NodesStay(s, step, c); }
    assert AllOk(id, s.nodes[id], s.ledgers, s.owners, c);
    if step.id == id { ActExtends(s, step, c); } else { SameExtends(s.nodes[id].file, c); }
  }

  lemma {:induction false} RunExtends(states: seq<State>, steps: seq<Step>, c: Config, i: nat, j: nat, id: nat)
    requires Run(states, steps, c) && i <= j <= |steps| && id in states[i].nodes
    requires forall k :: i <= k < j ==> !Replaces(states[k], steps[k], id)
    ensures id in states[j].nodes
    ensures AofRuns.Extends(states[j].nodes[id].file.history, states[i].nodes[id].file.history)
    decreases j - i
  {
    hide Enabled, Take, Initial, Aof.ContentOk, Aof.WriterOk, Segment, FollowerOk, Admissible, WithinQuotas, Replaces;
    if i == j {
      NodeInRun(states, steps, c, i, id);
      SameExtends(states[i].nodes[id].file, c);
    } else {
      RunKeeps(states, steps, c, j - 1);
      RunExtends(states, steps, c, i, j - 1, id);
      FileExtends(states[j - 1], steps[j - 1], c, id);
      assert id in states[j].nodes by { NodesStay(states[j - 1], steps[j - 1], c); }
    }
  }

  lemma NodesStay(s: State, step: Step, c: Config)
    requires Enabled(s, step, c)
    ensures step.id in s.nodes && Take(s, step, c).nodes.Keys == s.nodes.Keys
  {
    hide Act, Record;
  }

  /**
   * Under the Always policy a write that was answered is never lost: until its node's history
   * is replaced, the batch stays at its place in the node's file, and whatever a crash keeps,
   * the node recovers to no earlier than that batch.
   */
  lemma WrittenIsKept(
      states: seq<State>, steps: seq<Step>, c: Config, i: nat, j: nat, kept: nat, synced: nat, older: map<nat, File>)
    requires Run(states, steps, c) && c.always && i < j <= |steps| && steps[i].Write?
    requires forall k :: i <= k < j ==> !Replaces(states[k], steps[k], steps[i].id)
    requires steps[i].id in states[i].nodes && steps[i].id in states[j].nodes
    requires var a := states[j].nodes[steps[i].id].file;
             && Aof.CutPoint(a, kept) && a.disk[a.content.top].synced <= synced <= kept
             && forall g :: g in older ==> g < a.content.top
    ensures states[i].nodes[steps[i].id].file.writer.Some?
    ensures var before, n := states[i].nodes[steps[i].id], states[j].nodes[steps[i].id];
            var q, h := Position(before).sequence + 1, n.file.history;
            && h.start < q <= h.start + |h.changes| && h.changes[q - 1 - h.start] == steps[i].change
            && AofRuns.CanRestart(n.file, c, kept, synced, older)
            && var m := Recovered(n, kept, synced, older, c);
            m.file.writer.Some? && q <= Position(m).sequence
  {
    hide Take, Initial, Aof.Inv, AofRuns.CanAppend, AofRuns.CanRestart, AofRuns.Restart, AofRuns.Append, LoadFile;
    hide Segment, FollowerOk, ServingOk, Enabled, Replaces, Recovered;
    var id := steps[i].id;
    var s, n := states[i], states[i].nodes[id];
    assert Enabled(s, steps[i], c) && states[i + 1] == Take(s, steps[i], c);
    NodeInRun(states, steps, c, i, id);
    Wrote(s, steps[i], c);
    Stands(n, s.ledgers, c);
    AnsweredAppend(n.file, c, steps[i].change);
    RunExtends(states, steps, c, i + 1, j, id);
    AlwaysRecovers(states, steps, c, j, id, kept, synced, older);
  }

  /** Under the Always policy an append leaves everything flushed, the new batch last. */
  lemma AnsweredAppend(a: Aof.State, c: Config, ch: Change)
    requires Aof.Inv(a, c) && AofRuns.CanAppend(a, c, ch) && c.always
    ensures var h := AofRuns.Append(a, c, ch).history;
            && h.start == a.history.start && h.changes == a.history.changes + [ch] && h.flushed == |h.changes|
  {
    hide Aof.Inv, AofRuns.CanAppend;
    AofRuns.PromiseKept(a, c, AofRuns.Appending(ch));
  }

  lemma Wrote(s: State, step: Step, c: Config)
    requires step.Write? && Enabled(s, step, c)
    ensures step.id in s.nodes && s.nodes[step.id].file.writer.Some? && step.id in Take(s, step, c).nodes
    ensures AofRuns.CanAppend(s.nodes[step.id].file, c, step.change)
    ensures Take(s, step, c).nodes[step.id].file == AofRuns.Append(s.nodes[step.id].file, c, step.change)
  {
    hide AofRuns.Append, Encode, ValidRecord, Accepts;
  }

  // ---------- Following takes effect ----------

  ghost predicate Path(states: seq<State>, steps: seq<Step>, c: Config) {
    && |states| == |steps| + 1
    && forall i :: 0 <= i < |steps| ==>
         Enabled(states[i], steps[i], c) && states[i + 1] == Take(states[i], steps[i], c)
  }

  /** A replica in a running session that has taken everything sent to it so far. */
  predicate Idle(s: State, id: nat) {
    && id in s.nodes
    && var n := s.nodes[id];
    && n.up && !n.serving && n.jobs == [] && n.session.Some? && SourceServes(s, n.session.value)
    && n.session.value.started && !n.session.value.busy && n.session.value.queue == []
    && n.file.writer.Some? && n.file.writer.value.metadata.Some?
    && n.file.writer.value.metadata.value.role == Replica
  }

  function SourceOf(s: State, id: nat): Node
    requires Idle(s, id)
  {
    s.nodes[s.nodes[id].session.value.source]
  }

  /** The batch a source published under a sequence. */
  function BatchAt(n: Node, sequence: nat): Change
    requires n.file.writer.Some? && Published(n, sequence)
  {
    n.journal[sequence - 1 - (Position(n).sequence - |n.journal|)]
  }

  /** What a serving node published is what its own history holds, each batch recordable and acceptable in its place. */
  lemma SourceHas(id: nat, n: Node, ledgers: Ledgers, owners: map<nat, nat>, c: Config, k: nat)
    requires AllOk(id, n, ledgers, owners, c) && n.serving
    requires n.file.writer.Some? && Position(n).epoch in ledgers && k < |ledgers[Position(n).epoch].changes|
    ensures var l := ledgers[Position(n).epoch];
            var ch, r := l.changes[k], Batch(l.start + k + 1, l.changes[k].origin, l.changes[k].mutations);
            && ValidConfig(c) && l.start + k + 1 < LONG && Published(n, l.start + k + 1)
            && BatchAt(n, l.start + k + 1) == ch
            && Accepts(At(l, l.start + k), ch.mutations, c.layout) && ValidRecord(r) && Encode(r, c.limits).Ok?
  {
    hide Aof.ContentOk, Aof.WriterOk, Accepts, ValidRecord, Encode, FollowerOk, Advance, WithinQuotas;
    Owns(id, n, ledgers, owners, c);
    Stands(n, ledgers, c);
    var l, v := ledgers[Position(n).epoch], Seen(n.file);
    assert l.initial == v.initial by { StartOf(l, v.initial); }
    assert Batches(v.start, v.changes)[k] in Batches(v.start, v.changes);
  }

  lemma StartOf(l: Ledger, store: Store)
    requires Holds(l, l.start, store)
    ensures store == l.initial
  {
    assert l.changes[..0] == [];
  }

  /** A replica behind its source can take the next batch. */
  lemma NextFits(s: State, id: nat, c: Config)
    requires Inv(s, c) && Idle(s, id) && Position(s.nodes[id]).sequence < Position(SourceOf(s, id)).sequence
    ensures var n, q := s.nodes[id], Position(s.nodes[id]).sequence + 1;
            && Published(SourceOf(s, id), q) && AofRuns.CanAppend(n.file, c, BatchAt(SourceOf(s, id), q))
            && n.session.value.position == Position(n) && Position(n).epoch == n.session.value.epoch
  {
    hide Aof.Inv, AofRuns.Enabled, Segment, Holds, MessageOk, JobOk, Accepts, ValidRecord, Encode, Stored, ApplyAll;
    var n := s.nodes[id];
    var from := n.session.value.source;
    var source := s.nodes[from];
    assert AllOk(id, n, s.ledgers, s.owners, c) && AllOk(from, source, s.ledgers, s.owners, c);
    Owns(from, source, s.ledgers, s.owners, c);
    Stands(n, s.ledgers, c);
    var e, v := Position(n).epoch, Seen(n.file);
    var l := s.ledgers[e];
    SegmentHolds(v, l);
    assert l.start <= Reached(v) && Stored(v) == At(l, Reached(v)) by { HoldsIs(l, Reached(v), Stored(v)); }
    SourceHas(from, source, s.ledgers, s.owners, c, Reached(v) - l.start);
    HasTop(n.file, c);
  }

  lemma HoldsIs(l: Ledger, n: nat, store: Store)
    requires Holds(l, n, store)
    ensures l.start <= n <= End(l) && store == At(l, n)
  {
  }

  /** A replica that was sent the next batch and took it: the work is handed to the database. */
  function Handed(n: Node, sequence: nat, change: Change): Node
    requires n.session.Some? && n.file.writer.Some?
  {
    n.(session := Some(n.session.value.(busy := true)),
       jobs := [Apply(n.generation, Position(n).(sequence := sequence), change)])
  }

  lemma Sends(s: State, id: nat, q: nat, c: Config)
    requires Idle(s, id) && Published(SourceOf(s, id), q)
    ensures Enabled(s, Stream(id, q), c)
    ensures Take(s, Stream(id, q), c)
            == s.(nodes := s.nodes[id := Offer(s.nodes[id], Streamed(q, BatchAt(SourceOf(s, id), q)))])
  {
  }

  lemma Submits(s: State, id: nat, c: Config)
    requires Enabled(s, Submit(id), c)
    ensures Take(s, Submit(id), c) == s.(nodes := s.nodes[id := Accept(s.nodes[id])])
  {
    hide Accept;
  }

  /** An idle replica takes the next batch and hands it on. */
  lemma TakesNext(n: Node, sequence: nat, change: Change)
    requires n.session.Some? && n.file.writer.Some? && n.session.value.position == Position(n)
    requires n.session.value.started && n.session.value.queue == [] && n.jobs == []
    requires sequence == Position(n).sequence + 1
    ensures var m := Offer(n, Streamed(sequence, change));
            m.session.value.queue != [] && Accept(m) == Handed(n, sequence, change)
  {
    var sent := Streamed(sequence, change);
    assert [] + [sent] == [sent] && [sent][1..] == n.session.value.queue;
    var j := Apply(n.generation, Position(n).(sequence := sequence), change);
    assert n.jobs + [j] == [j];
  }

  /** The states in which an idle replica was sent a batch, and had taken it. */
  function Sent(s: State, id: nat, m: Message): State
    requires id in s.nodes && s.nodes[id].session.Some?
  {
    s.(nodes := s.nodes[id := Offer(s.nodes[id], m)])
  }

  lemma NextIsTaken(s: State, id: nat, q: nat, change: Change, c: Config)
    requires Idle(s, id) && Published(SourceOf(s, id), q) && change == BatchAt(SourceOf(s, id), q)
    requires s.nodes[id].session.value.position == Position(s.nodes[id]) && q == Position(s.nodes[id]).sequence + 1
    ensures Enabled(s, Stream(id, q), c) && Take(s, Stream(id, q), c) == Sent(s, id, Streamed(q, change))
    ensures var t := Sent(s, id, Streamed(q, change));
            && Enabled(t, Submit(id), c)
            && Take(t, Submit(id), c) == s.(nodes := s.nodes[id := Handed(s.nodes[id], q, change)])
  {
    hide AofRuns.CanAppend, Accept, Handed, Take;
    Sends(s, id, q, c);
    TakesNext(s.nodes[id], q, change);
    var t := Sent(s, id, Streamed(q, change));
    Submits(t, id, c);
    assert t.nodes[id := Handed(s.nodes[id], q, change)] == s.nodes[id := Handed(s.nodes[id], q, change)];
  }

  lemma HandedIsDone(s: State, id: nat, sequence: nat, change: Change, c: Config)
    requires Idle(s, id) && sequence == Position(s.nodes[id]).sequence + 1
    requires AofRuns.CanAppend(s.nodes[id].file, c, change)
    ensures var n, t := s.nodes[id], s.(nodes := s.nodes[id := Handed(s.nodes[id], sequence, change)]);
            && Enabled(t, RunJob(id, 0, false, None), c)
            && var u := Take(t, RunJob(id, 0, false, None), c);
            && u == s.(nodes := s.nodes[id := u.nodes[id]]) && Idle(u, id)
            && var m := u.nodes[id];
            && Position(m) == Position(n).(sequence := sequence) && m.store == ApplyAll(n.store, change.mutations)
            && m.session.value.source == n.session.value.source && m.session.value.previous == Some(change)
  {
    hide AofRuns.CanAppend, AofRuns.Append, ApplyAll;
    var n := s.nodes[id];
    var j := Apply(n.generation, Position(n).(sequence := sequence), change);
    assert Without([j], 0) == [];
    Appends(n.file, c, change);
  }

  /**
   * The next batch takes effect: streamed, taken and run without a fault, it moves the replica
   * one sequence on and its dataset by exactly that batch, and leaves everyone else alone.
   */
  lemma NextApplies(s: State, id: nat, c: Config) returns (states: seq<State>, steps: seq<Step>)
    requires Inv(s, c) && Idle(s, id) && Position(s.nodes[id]).sequence < Position(SourceOf(s, id)).sequence
    ensures Path(states, steps, c) && |steps| == 3 && states[0] == s && Idle(states[3], id)
    ensures var n, m, q := s.nodes[id], states[3].nodes[id], Position(s.nodes[id]).sequence + 1;
            && Published(SourceOf(s, id), q)
            && Position(m) == Position(n).(sequence := q)
            && m.store == ApplyAll(n.store, BatchAt(SourceOf(s, id), q).mutations)
            && m.session.value.source == n.session.value.source
            && m.session.value.previous == Some(BatchAt(SourceOf(s, id), q))
    ensures states[3].nodes == s.nodes[id := states[3].nodes[id]]
  {
    hide Inv, AofRuns.CanAppend, AofRuns.Append, ApplyAll, Enabled, Take, Handed;
    NextFits(s, id, c);
    var q := Position(s.nodes[id]).sequence + 1;
    NextIsTaken(s, id, q, BatchAt(SourceOf(s, id), q), c);
    var stream, submit, run := Stream(id, q), Submit(id), RunJob(id, 0, false, None);
    var a := Take(s, stream, c);
    var b := Take(a, submit, c);
    HandedIsDone(s, id, q, BatchAt(SourceOf(s, id), q), c);
    states, steps := [s, a, b, Take(b, run, c)], [stream, submit, run];
  }

  lemma PathJoin(a: seq<State>, x: seq<Step>, b: seq<State>, y: seq<Step>, c: Config)
    requires Path(a, x, c) && Path(b, y, c) && a[|x|] == b[0]
    ensures Path(a + b[1..], x + y, c) && (a + b[1..])[|x + y|] == b[|y|]
  {
    hide Enabled, Take;
    var states, steps := a + b[1..], x + y;
    forall i | 0 <= i < |steps|
      ensures Enabled(states[i], steps[i], c) && states[i + 1] == Take(states[i], steps[i], c) {
      if i >= |x| { assert states[i] == b[i - |x|] && states[i + 1] == b[i - |x| + 1]; }
    }
  }

  lemma {:induction false} PathKeeps(states: seq<State>, steps: seq<Step>, c: Config, i: nat)
    requires Path(states, steps, c) && Inv(states[0], c) && i <= |steps|
    ensures Inv(states[i], c)
  {
    hide Enabled, Take, Inv;
    if i > 0 {
      PathKeeps(states, steps, c, i - 1);
      StepKeeps(states[i - 1], steps[i - 1], c);
    }
  }

  /** A replica is never ahead of its source, and level with it has the same dataset. */
  lemma NotAhead(s: State, id: nat, c: Config)
    requires Inv(s, c) && Idle(s, id)
    ensures Position(s.nodes[id]).epoch == Position(SourceOf(s, id)).epoch
    ensures Position(s.nodes[id]).sequence <= Position(SourceOf(s, id)).sequence
    ensures Position(s.nodes[id]) == Position(SourceOf(s, id)) ==> s.nodes[id].store == SourceOf(s, id).store
  {
    hide Aof.Inv, Segment, Holds, MessageOk, JobOk, Stored;
    var n := s.nodes[id];
    var from := n.session.value.source;
    assert AllOk(id, n, s.ledgers, s.owners, c) && AllOk(from, s.nodes[from], s.ledgers, s.owners, c);
    Owns(from, s.nodes[from], s.ledgers, s.owners, c);
    Stands(n, s.ledgers, c);
    var v, l := Seen(n.file), s.ledgers[Position(n).epoch];
    SegmentHolds(v, l);
    HoldsIs(l, Reached(v), Stored(v));
    HoldsIs(l, Position(s.nodes[from]).sequence, s.nodes[from].store);
  }

  /**
   * A follower fed every batch its source published reaches the source's position and dataset:
   * no batch is refused on the way, and nobody else is touched.
   */
  lemma {:induction false} CatchesUp(s: State, id: nat, c: Config) returns (states: seq<State>, steps: seq<Step>)
    requires Inv(s, c) && Idle(s, id)
    ensures Path(states, steps, c) && states[0] == s && Idle(states[|steps|], id)
    ensures var n, source := states[|steps|].nodes[id], SourceOf(s, id);
            && Position(n) == Position(source) && n.store == source.store
            && states[|steps|].nodes == s.nodes[id := n]
    decreases Position(SourceOf(s, id)).sequence - Position(s.nodes[id]).sequence
  {
    hide Inv, Enabled, Take, ApplyAll;
    NotAhead(s, id, c);
    if Position(s.nodes[id]).sequence == Position(SourceOf(s, id)).sequence {
      states, steps := [s], [];
    } else {
      var first, x := NextApplies(s, id, c);
      PathKeeps(first, x, c, 3);
      assert SourceOf(first[3], id) == SourceOf(s, id);
      var later, y := CatchesUp(first[3], id, c);
      PathJoin(first, x, later, y, c);
      states, steps := first + later[1..], x + y;
    }
  }

  /** A repeat of the last batch changes nothing. */
  lemma RepeatIsHarmless(s: State, id: nat, c: Config)
    requires Idle(s, id) && Published(SourceOf(s, id), Position(s.nodes[id]).sequence)
    requires s.nodes[id].session.value.position == Position(s.nodes[id])
    requires s.nodes[id].session.value.previous == Some(BatchAt(SourceOf(s, id), Position(s.nodes[id]).sequence))
    ensures var stream, submit := Stream(id, Position(s.nodes[id]).sequence), Submit(id);
            && Enabled(s, stream, c) && Enabled(Take(s, stream, c), submit, c)
            && Take(Take(s, stream, c), submit, c) == s
  {
    hide Take, Accept;
    var n := s.nodes[id];
    var sent := Streamed(Position(n).sequence, n.session.value.previous.value);
    Sends(s, id, sent.sequence, c);
    Submits(Sent(s, id, sent), id, c);
    assert Accept(Offer(n, sent)) == n by { SkipsRepeat(n, sent); }
    assert s.nodes[id := Offer(n, sent)][id := n] == s.nodes;
  }

  lemma SkipsRepeat(n: Node, m: Message)
    requires n.session.Some? && n.session.value.started && n.session.value.queue == []
    requires m.Streamed? && m.sequence == n.session.value.position.sequence
    requires n.session.value.previous == Some(m.change)
    ensures Offer(n, m).session.value.queue != [] && Accept(Offer(n, m)) == n
  {
    assert [] + [m] == [m] && [m][1..] == n.session.value.queue;
  }

  /** A node that can install its source's dataset is level with the source after a FULL session's start. */
  lemma FullSync(s: State, id: nat, from: nat, image: seq<Mutation>, c: Config)
    returns (states: seq<State>, steps: seq<Step>)
    requires Inv(s, c) && id in s.nodes && from in s.nodes && s.nodes[from].serving
    requires s.nodes[id].up && !s.nodes[id].serving && s.nodes[id].jobs == [] && s.nodes[id].file.writer.Some?
    requires s.nodes[from].file.writer.Some? && Describes(image, s.nodes[from].store)
    requires AofRuns.CanInstall(s.nodes[id].file, c, image, Position(s.nodes[from]).sequence)
    ensures Path(states, steps, c) && |steps| == 4 && states[0] == s && Idle(states[4], id)
    ensures states[4].nodes == s.nodes[id := states[4].nodes[id]] && SourceOf(states[4], id) == s.nodes[from]
    ensures Position(states[4].nodes[id]) == Position(s.nodes[from])
    ensures states[4].nodes[id].store == s.nodes[from].store
  {
    hide Inv, AofRuns.CanInstall, AofRuns.Install, ApplyAll, Accept, Take, Perform;
    var n, at := s.nodes[id], Position(s.nodes[from]);
    var connect, offer, submit, run := Connect(id, from), OfferFull(id, image), Submit(id), RunJob(id, 0, false, None);
    Connects(s, id, from, c);
    var a := Take(s, connect, c);
    Offers(a, id, image, c);
    var b := Take(a, offer, c);
    TakesFull(a.nodes[id], at, image);
    Submits(b, id, c);
    var d := Take(b, submit, c);
    InstallsAt(n.file, c, image, at, false);
    InstallRuns(d.nodes[id], at, image, c);
    Runs(d, id, c);
    states, steps := [s, a, b, d, Take(d, run, c)], [connect, offer, submit, run];
  }

  lemma Connects(s: State, id: nat, from: nat, c: Config)
    requires Enabled(s, Connect(id, from), c)
    ensures var n := s.nodes[id];
            Take(s, Connect(id, from), c)
            == s.(nodes := s.nodes[id := n.(generation := n.generation + 1, session := Some(Session(
                   from, Position(s.nodes[from]).epoch, false, Position(n), None, false, [])))])
  {
  }

  lemma Offers(s: State, id: nat, image: seq<Mutation>, c: Config)
    requires Enabled(s, OfferFull(id, image), c)
    ensures var n := s.nodes[id];
            Take(s, OfferFull(id, image), c) == Sent(s, id, Full(Position(s.nodes[n.session.value.source]), image))
  {
    hide Describes;
  }

  lemma Runs(s: State, id: nat, c: Config)
    requires Enabled(s, RunJob(id, 0, false, None), c)
    ensures Take(s, RunJob(id, 0, false, None), c)
            == s.(nodes := s.nodes[id := Perform(s.nodes[id], 0, false, None, c)])
  {
    hide Perform;
  }

  /** A new session takes an offered image and hands it on. */
  lemma TakesFull(n: Node, at: Cursor, image: seq<Mutation>)
    requires n.session.Some? && !n.session.value.started && n.session.value.queue == [] && n.jobs == []
    ensures var m := Offer(n, Full(at, image));
            && m.session.value.queue != []
            && Accept(m) == n.(session := Some(n.session.value.(busy := true)),
                               jobs := [Install(n.generation, at, image)])
  {
    var sent := Full(at, image);
    assert [] + [sent] == [sent] && [sent][1..] == n.session.value.queue;
    assert n.jobs + [Install(n.generation, at, image)] == [Install(n.generation, at, image)];
  }

  lemma InstallRuns(n: Node, at: Cursor, image: seq<Mutation>, c: Config)
    requires n.up && !n.serving && n.session.Some? && n.jobs == [Install(n.generation, at, image)]
    requires AofRuns.CanInstall(n.file, c, image, at.sequence)
    ensures var file := AofRuns.Install(n.file, c, image, at.sequence, Metadata(Replica, at.epoch), false, false);
            file.writer.Some? ==>
              Perform(n, 0, false, None, c)
              == n.(file := file, store := ApplyAll(map[], image), jobs := [],
                    session := Some(n.session.value.(started := true, position := at, busy := false, previous := None)))
  {
    hide AofRuns.CanInstall, AofRuns.Install, ApplyAll;
    assert Without(n.jobs, 0) == [];
  }

  lemma InstallsAt(a: Aof.State, c: Config, image: seq<Mutation>, at: Cursor, removed: bool)
    requires AofRuns.CanInstall(a, c, image, at.sequence)
    ensures var t := AofRuns.Install(a, c, image, at.sequence, Metadata(Replica, at.epoch), removed, false);
            && t.writer.Some? && t.writer.value.sequence == at.sequence
            && t.writer.value.metadata == Some(Metadata(Replica, at.epoch))
  {
  }

  /** A replica of the source's epoch resumes where it stands. */
  lemma Resumes(s: State, id: nat, from: nat, c: Config) returns (states: seq<State>, steps: seq<Step>)
    requires Inv(s, c) && id in s.nodes && from in s.nodes && s.nodes[from].serving
    requires s.nodes[id].up && !s.nodes[id].serving && s.nodes[id].jobs == [] && s.nodes[id].file.writer.Some?
    requires var m := s.nodes[id].file.writer.value.metadata; m.Some? && m.value.role == Replica
    requires s.nodes[from].file.writer.Some? && Position(s.nodes[id]).epoch == Position(s.nodes[from]).epoch
    ensures Path(states, steps, c) && |steps| == 3 && states[0] == s && Idle(states[3], id)
    ensures states[3].nodes == s.nodes[id := states[3].nodes[id]] && SourceOf(states[3], id) == s.nodes[from]
    ensures Position(states[3].nodes[id]) == Position(s.nodes[id]) && states[3].nodes[id].store == s.nodes[id].store
  {
    hide Inv;
    Behind(s, id, from, c);
    var n := s.nodes[id];
    var connect, offer, submit := Connect(id, from), OfferContinue(id), Submit(id);
    var a := Take(s, connect, c);
    var b := Take(a, offer, c);
    var d := Take(b, submit, c);
    assert b.nodes[id].session.value.queue == [Continue(Position(n))];
    assert d.nodes[id].session.value.queue == [];
    states, steps := [s, a, b, d], [connect, offer, submit];
  }

  lemma Behind(s: State, id: nat, from: nat, c: Config)
    requires Inv(s, c) && id in s.nodes && from in s.nodes && s.nodes[from].serving
    requires s.nodes[id].file.writer.Some? && s.nodes[from].file.writer.Some?
    requires Position(s.nodes[id]).epoch == Position(s.nodes[from]).epoch
    ensures Position(s.nodes[id]).sequence <= Position(s.nodes[from]).sequence
  {
    hide Aof.Inv, Holds, FollowerOk, Stored;
    assert AllOk(id, s.nodes[id], s.ledgers, s.owners, c) && AllOk(from, s.nodes[from], s.ledgers, s.owners, c);
    Owns(from, s.nodes[from], s.ledgers, s.owners, c);
    Stands(s.nodes[id], s.ledgers, c);
  }

  lemma Appends(a: Aof.State, c: Config, ch: Change)
    requires AofRuns.CanAppend(a, c, ch)
    ensures var t := AofRuns.Append(a, c, ch);
            && t.writer.Some? && t.writer.value.sequence == a.writer.value.sequence + 1
            && t.writer.value.metadata == a.writer.value.metadata
  {
  }

  /** A node on a first, empty directory starts, promotes itself, and serves. */
  lemma FirstPrimary(c: Config, epoch: nat) returns (states: seq<State>, steps: seq<Step>)
    requires ValidConfig(c) && epoch != 0
    ensures Run(states, steps, c) && |steps| == 2 && 0 in states[2].nodes
    ensures states[2].nodes[0].serving && states[2].nodes[0].file.writer.Some?
    ensures Position(states[2].nodes[0]) == Journal.Cursor(epoch, 0) && states[2].nodes[0].store == map[]
  {
    hide Aof.Inv, AofRuns.CanRestart, AofRuns.CanInstall, AofRuns.Restart, LoadFile, AofRuns.Fresh, EncodeLog;
    AofRuns.FreshOk(c);
    FreshSeen(c);
    var a := AofRuns.Fresh(c);
    var n := |a.disk[0].log|;
    var s := State(map[0 := Node(a, false, false, map[], [], 0, None, [])], map[], map[]);
    AofRuns.CrashLoads(a, c, n, n, map[]);
    var start := Restart(0, n, n, map[]);
    var k := RestartSeen(a, c, n, n, map[]);
    var t := Take(s, start, c);
    var m := t.nodes[0];
    WriterStands(m.file, c);
    var promote := Promote(0, epoch, [], false, false);
    EmptyInstalls(m.file, c);
    states, steps := [s, t, Take(t, promote, c)], [start, promote];
    QuietSeen(m.file, c, AofRuns.Syncing);
    InstallSeen(AofRuns.Sync(m.file), c, [], 0, Metadata(Primary, epoch), false, false);
    WriterStands(states[2].nodes[0].file, c);
  }

  lemma FreshSeen(c: Config)
    requires ValidConfig(c)
    ensures var a := AofRuns.Fresh(c);
            && a.content.top == 0 && 0 in a.disk && Aof.CutPoint(a, |a.disk[0].log|)
            && Seen(a) == View(0, 0, map[], []) && Stored(Seen(a)) == map[]
  {
    hide EncodeLog;
  }

  /** The empty image can be installed by any writer that is not compacting. */
  lemma EmptyInstalls(a: Aof.State, c: Config)
    requires ValidConfig(c) && a.writer.Some? && a.writer.value.compaction.None?
    requires a.content.top in a.disk
    ensures Describes([], map[]) && AofRuns.CanInstall(AofRuns.Sync(a), c, [], 0)
  {
    hide Encodable, Usage, Quota;
    FirstSealFits(c);
    forall scope ensures Usage(map[], c.layout, scope) == 0 { UsageEmpty(c.layout, scope); }
  }
}
