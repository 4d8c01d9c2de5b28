# Sider, verified in Dafny

Sider is a sharded in-memory database with an append-only file, replication, Pub/Sub and a
RESP2/RESP3 codec. This project models the parts of it whose correctness spans several
functions or a whole run, and proves what they promise. `dafny verify dfyconfig.toml` checks
everything.

## What is modelled

**Append-only file** (`Crc`, `Format`, `Log`, `Replay`, `Recovery`, `Aof`, `AofRuns`, `Writing`).
A directory maps generations to byte strings with a durable length. One owner appends sequenced
batches, syncs, compacts in the background and installs images; every operation may fail at every
fault point, and a crash keeps any bytes at or beyond the durable length. `Aof` and `AofRuns` state
this as a step system with a ghost history and prove safety over every run; `Writing` is the owner
and the recovery loop as they run, with fields updated in place, proved to take exactly those steps.

**Replication** (`Journal`, `Lockstep`, `Runtime`, `Durable`, `Replication`). The bounded journal and
its readers are classes. The stream between a source and a follower is a step system over two FIFO
links. Any number of nodes promote, write, stream, crash and restart. Each node carries a file of its
own, the very one of `AofRuns`: writes, installs and applied batches are its steps, a restart loads
whatever bytes were kept, and a source streams from its own journal. Each epoch has a ledger of what
its primary established, kept only as a record, and every file is shown to be a segment of it.

**RESP codec** (`Resp`, `RespFlat`, `RespScanner`, `RespScan`, `RespDecoder`, `RespStream`,
`RespEncoder`). A plain recursive-descent grammar with limits on the finished frame is the
specification. The resumable, non-recursive decoder with its running limit checks and its
reverse-order tree builder refines it, for every way a stream is cut into chunks.

**Scores** (`Grisu`, `Doubles`, `HexScore`, `HexText`). Grisu2 digit generation with every word operation proved safe and the
output shortest and closest within the computed bounds, and
hexadecimal parsing with sixteen kept digits and a sticky bit proved correctly rounded. `Doubles` says
what a pair of exponent and mantissa fields denotes, for both; `HexText` writes scores and reads them back.

**Pub/Sub and transactions** (`PubSub`, `Transaction`). The hub's two-way index is mutated during
fan-out; the transaction queue can be poisoned, limited, revoked and pinned to a shard. Both record
what clients saw, and what is delivered or executed is stated on that record.

**Record-2 mutations** (`MemoryFormat`). Nested sorted containers on the wire.

## Properties that do not hold as stated

- *Recovering, crashing and recovering again gives the same state.* Recovery syncs only when it cuts
  a torn tail (src/persistence/writer.rs:788-806), so bytes that were read but never synced can still
  be lost. `Writing.SecondRecoveryMayDiffer` is a concrete run: a first start, one acknowledged SET
  under the default limits and the periodic policy, and two crashes. `AofRuns.RestartIsStable` gives the exact condition: a
  torn tail was cut, or the file was
  durable to its end. Recovering twice without losing anything in between always agrees
  (`AofRuns.RecoveringTwice`).
- *Any revocation makes EXEC hand over nothing.* A policy reload that forbids only WATCH forgets the
  observed keys and leaves the queue (src/connection/transaction.rs:63-94); the commands still run,
  unobserved. `Transaction.RevokedWatchExample` is a concrete exchange with the class,
  `Transaction.RevokedWatchStillRuns` the family. `Transaction.IntactIs`, which `Handle` promises for
  EXEC, is the exact condition over the whole record: since the last MULTI, nothing poisoned the
  transaction and no reload forbade a request queued by then.
- *The lower boundary of a double is the midpoint to the double before it.* The search narrows the gap
  below every power of two (src/command/fpconv.rs:86), also below the smallest normal double, where the
  spacing does not change. `Doubles.LowerIsMidpoint` shows both halves: midpoint for every other double,
  nearer for that one.

## Model

| member | source | states |
|---|---|---|
| `Crc.BitsLinear` | src/persistence/format.rs:596-621 | the bitwise division is linear over exclusive or, for any number of steps |
| `Crc.PolynomialIs` | src/persistence/format.rs:596-621 | the polynomial is 0xedb88320 |
| `Crc.TableStep` | src/persistence/format.rs:596-621 | eight bit steps are one table lookup and a byte shift |
| `Crc.TableChecksum` | src/persistence/format.rs:596-621 | the table-driven loop computes the bitwise CRC-32 (section 8 of RFC 1952) of any bytes |
| `Crc.BuildTable` | src/persistence/format.rs:596-621 | each table slot is the eight-step image of its index |
| `Crc.RegisterInjective` | src/persistence/format.rs:596-621 | appending the same bytes keeps different registers different |
| `Crc.RegisterWindow` | src/persistence/format.rs:596-621 | up to four bytes enter the register as one word added to it and divided |
| `Crc.BurstDetected` | src/persistence/format.rs:596-621 | any change confined to four bytes in a row, anywhere in any message, changes the checksum |
| `Crc.ByteChangeDetected` | src/persistence/format.rs:596-621 | a change confined to one byte, anywhere, changes the checksum |
| `Format.LERoundTrip` | src/persistence/format.rs:450-475 | little-endian fields read back what was written, at every width |
| `Log.SizeExact` | src/persistence/format.rs:200-323 | the size computed before writing is the length of the body written, for every record |
| `Log.ValueBack` | src/persistence/format.rs:477-553 | every value of every type decodes to itself, whatever follows |
| `Log.MutationBack` | src/persistence/format.rs:325-398 | every mutation decodes to itself, whatever follows |
| `Log.BodyBack` | src/persistence/format.rs:555-593 | every record body decodes to its record |
| `Log.RecordBack` | src/persistence/format.rs:268-323 | every encodable record reads back, with exactly its bytes consumed |
| `Log.PrefixIncomplete` | src/persistence/format.rs:406-443 | every proper nonempty prefix of an encoded record is reported as incomplete |
| `Log.CutAnywhere` | src/persistence/format.rs:406-443 | a log cut at any byte reads back exactly the records wholly before the cut, then the end or a torn tail |
| `Log.ByteCorruptionRefused` | src/persistence/format.rs:406-443 | any change confined to one byte of a record, of any length, makes reading it fail |
| `Replay.QuotasSumToTotal` | src/persistence/layout.rs:40-49 | shard quotas add up to the total |
| `Replay.QuotasBalanced` | src/persistence/layout.rs:40-49 | no two quotas differ by more than a byte, and the larger ones come first |
| `Replay.TagsRouteTogether` | src/storage/routing.rs:17-52 | keys with the same nonempty text between their first braces live on one shard, whatever surrounds it |
| `Replay.UntaggedIs` | src/storage/routing.rs:17-26 | a key whose first braces are missing, open or empty is hashed whole |
| `Replay.ChargeCovers` | src/storage/value.rs:35-67 | a charge is the key, 128, the bytes of a string, or the bytes of every element with 32 and of every member with 64 |
| `Replay.ChargeGrows` | src/storage/value.rs:35-67 | what one more field, element, member or scored member adds to any charge |
| `Replay.UsageApply` | src/persistence/writer.rs:879-886 | replacing one key moves its shard's usage, and no other, by exactly the difference of charges |
| `Replay.RemoveThenApply` | src/storage/mutation.rs:456-513 | charging after all touched keys are released is charging the final store |
| `Replay.RoutesTogether` | src/persistence/writer.rs:848-875 | a batch routes together exactly when all keys share a shard or mixing is allowed |
| `Replay.Dataset.Prepare` | src/storage/mutation.rs:447-514 | accepted exactly when keys are distinct, values chargeable and the whole store fits |
| `Replay.Dataset.Project` | src/persistence/writer.rs:878-886 | projected usage is the usage the store would have, shard by shard, without underflow |
| `Replay.Dataset.Replay` | src/persistence/writer.rs:860-898 | applied exactly when acceptable; usage stays the exact sum of charges; a refusal changes nothing |
| `Recovery.SnapshotsLoad` | src/persistence/writer.rs:712-744 | the snapshot part of any image that fits replays entry by entry, with the digest the writer computed |
| `Recovery.DigestInjective` | src/persistence/format.rs:623-626 | equal digests agree on what they chain from exactly when they agree on the checksum they add |
| `Recovery.SealDetects` | src/persistence/format.rs:623-626 | an image in which one entry, anywhere, has a record of another checksum has another digest |
| `Recovery.SealedLoad` | src/persistence/writer.rs:745-755 | a sealed image loads, its entry count and digest accepted |
| `Recovery.BatchesLoad` | src/persistence/writer.rs:756-770 | consecutive acceptable batches advance the store one by one |
| `Recovery.GenerationLoad` | src/persistence/writer.rs:610-846 | a whole generation loads to its image advanced by its batches |
| `Recovery.LoadedShape` | src/persistence/writer.rs:706-774 | whatever records the loader accepts are one generation's, or the start of one |
| `Recovery.LoadsOnlyGenerations` | src/persistence/writer.rs:698-777 | whatever bytes a file holds, if recovery accepts it its whole records are one sealed image, ordered and within every quota, and consecutive batches, each acceptable where it stands |
| `Aof.CutLoads` | src/persistence/writer.rs:698-806 | the newest file cut anywhere at or beyond its durable length loads to the dataset after exactly the surviving changes |
| `AofRuns.CaptureKeeps` | src/persistence/writer.rs:1197-1212 | a pending compaction is aborted exactly when the batches since its base exceed the limit; otherwise its delta is exactly those batches, in order |
| `AofRuns.AppendKeeps` | src/persistence/writer.rs:1180-1223 | an acknowledged append keeps the invariant of the run |
| `AofRuns.AppendDiesKeeps` | src/persistence/writer.rs:1180-1223 | so does one that fails after any number of bytes, with any of them durable |
| `AofRuns.SyncKeeps` | src/persistence/writer.rs:1225-1238 | a sync keeps the invariant, with everything established now claimed durable |
| `AofRuns.BeginKeeps` | src/persistence/writer.rs:1374-1443 | starting a compaction keeps the invariant, which ties its base image and delta to the history |
| `AofRuns.FinishKeeps` | src/persistence/writer.rs:1445-1515 | cutover keeps the invariant, whether or not the owner survives it |
| `AofRuns.InstallKeeps` | src/persistence/writer.rs:1271-1372 | a published image starts a history of its own |
| `AofRuns.RestartKeeps` | src/persistence/writer.rs:610-846 | crash and recovery keep the invariant |
| `AofRuns.CrashLoads` | src/persistence/writer.rs:610-846 | recovery succeeds on everything a crash may leave |
| `AofRuns.FreshOk` | src/persistence/writer.rs:655-678 | the directory of a first start satisfies the invariant, so runs exist under every valid configuration |
| `AofRuns.RunKeeps` | src/persistence/writer.rs:916-1087 | the invariant holds in every state of every run |
| `AofRuns.CrashSafety` | src/persistence/writer.rs:610-846 | in every state of every run, whatever a crash keeps, recovery succeeds with one published image and a gap-free prefix of its batches; synced batches are in it, under Always every acknowledged one; a living owner writes to the file recovery selects |
| `AofRuns.DurableForever` | src/persistence/writer.rs:1180-1238 | what was durable at any point of a run stays at its place in the history until an image is installed |
| `AofRuns.PromiseKept` | src/persistence/writer.rs:1180-1238 | an append under Always, a sync and a cutover leave everything established durable, the appended change last |
| `AofRuns.AnsweredIsKept` | src/persistence/writer.rs:1180-1238 | after one of these and until an image is installed, whatever a crash keeps at any later point of any run, recovery finds every change established by then, the appended one at its place |
| `AofRuns.Cutover` | src/persistence/writer.rs:1445-1515 | at cutover the delta is the encoded batches since the base, in order, within the limit; the old file stays |
| `AofRuns.CutoverPreservesMeaning` | src/persistence/writer.rs:1445-1515 | the old file and the compacted one load to the same dataset at the same sequence |
| `AofRuns.RecoveringTwice` | src/persistence/writer.rs:788-829 | recovering what recovery left finds the same dataset and nothing torn |
| `AofRuns.RecoveryIsStable` | src/persistence/writer.rs:788-829 | every further loss leaves the same dataset if and only if the file is durable to its end |
| `AofRuns.RestartIsStable` | src/persistence/writer.rs:788-829 | after recovery that is so if and only if a torn tail was cut or nothing was unsynced |
| `Writing.LoadProfile` | src/persistence/writer.rs:698-777 | recovery's record loop computes the loader on every file, refusals included |
| `Writing.CheckImage` | src/persistence/writer.rs:1281-1304 | an image is accepted exactly when it is ordered, chargeable and within every quota |
| `Writing.WriteImage` | src/persistence/writer.rs:1316-1334 | the producer writes exactly the sealed image's log, or refuses exactly when a record does not encode |
| `Writing.UnsyncedStaysExposed` | src/persistence/writer.rs:788-829 | recovering a whole file that was not synced leaves it exposed to the next crash |
| `Writing.SettingFits` | src/persistence/writer.rs:69-93 | the configuration and the batch of that run are ones the code accepts |
| `Writing.SecondRecoveryMayDiffer` | src/persistence/writer.rs:788-829 | a concrete run, one SET under the default limits and the periodic policy, whose second recovery may find less than the first |
| `Writing.Owner.constructor` | src/persistence/writer.rs:655-678 | the directory of a first start is the run's initial state |
| `Writing.Owner.Append` | src/persistence/writer.rs:1089-1127 | acknowledged exactly when it is the run's append step, and under Always only with the file durable to its end; over the limits nothing changes; otherwise the owner stops |
| `Writing.Owner.AppendEncoded` | src/persistence/writer.rs:1180-1223 | each fault point leaves the state of the run's failing append; an acknowledgement under Always means the file is durable to its end |
| `Writing.Owner.WriteShort` | src/persistence/writer.rs:1187-1188 | a write that stops inside the record leaves the run's failing append and a stopped owner |
| `Writing.Owner.Flush` | src/persistence/writer.rs:1225-1238 | the run's sync step, after which the file is durable to its end; when it fails nothing written is lost, some of it may be durable, and the owner stops |
| `Writing.Owner.StartCompaction` | src/persistence/writer.rs:1374-1443 | the run's step, refused while one is pending |
| `Writing.Owner.WriteDelta` | src/persistence/writer.rs:1467-1469 | the captured records follow the image in order |
| `Writing.Owner.EndCompaction` | src/persistence/writer.rs:1445-1515 | before publication every failure leaves the history; behind the rename it stops the owner; success cuts over |
| `Writing.Owner.Install` | src/persistence/writer.rs:1271-1372 | installs exactly the installable images; a failure before publication changes nothing |
| `Writing.Owner.Recover` | src/persistence/writer.rs:627-846 | selects the newest generation, never fails on it, cuts only a torn tail |
| `Writing.Highest` | src/persistence/writer.rs:652-653 | the highest generation of a directory |
| `Journal.Journal.Evict` | src/replication/journal.rs:98-103 | drops the fewest oldest entries that make room, never from an empty queue |
| `Journal.Journal.Publish` | src/replication/journal.rs:87-110 | accepted exactly for a fitting frame under the next sequence of an open journal, each refusal with its reason and without effect; the window stays consecutive up to the head, its bytes exact and within both limits |
| `Journal.Journal.Close` | src/replication/journal.rs:137-144 | closing empties the window and keeps the head |
| `Journal.Journal.After` | src/replication/journal.rs:147-170 | the next published frame, unless closed, ahead, of another epoch or gone from the window |
| `Journal.Subscriber.constructor` | src/replication/journal.rs:126-134 | a reader starts with nothing received, at a cursor the window can serve |
| `Journal.Open` | src/replication/journal.rs:63-83 | a journal opens, empty, exactly when its limits are usable |
| `Journal.Subscribe` | src/replication/journal.rs:126-134 | a reader is refused exactly when reading after its cursor would be, with the same reason |
| `Journal.Subscriber.Poll` | src/replication/journal.rs:181-194 | each published frame after the cursor once and in order, until it lags or the journal closes |
| `Journal.ReadersKeepTheirPlace` | src/replication/journal.rs:87-110 | publishing never moves or changes what a reader has |
| `Lockstep.Follow` | src/replication/session.rs:897-952 | the follower's loop answers every message in sequence and stops at the first out of sequence |
| `Lockstep.StepKeeps` | src/replication/session.rs:658-713 | the acknowledgements expected are always those in flight followed by those still to be given |
| `Lockstep.NeverRejects` | src/replication/session.rs:636-713 | in every run each acknowledgement read is the expected one and no side meets a sequence error |
| `Lockstep.DeliversInOrder` | src/replication/session.rs:897-952 | what the follower applied is every frame published since it resumed, once and in order |
| `Runtime.Runtime.constructor` | src/replication/state.rs:34-52 | a node starts with no session |
| `Runtime.Runtime.BeginSession` | src/replication/state.rs:82-94 | a session takes the next generation |
| `Runtime.Runtime.Accepts` | src/replication/state.rs:96-99 | accepted exactly for the generation begun last, by a node never promoted |
| `Runtime.Runtime.Connected` | src/replication/state.rs:109-121 | a wanted session is counted as full or partial; one no longer wanted changes nothing |
| `Runtime.Runtime.UpstreamHead` | src/replication/state.rs:123-128 | only a wanted session moves the known head |
| `Runtime.Runtime.Disconnected` | src/replication/state.rs:130-135 | only the latest session clears the mark, whatever the role is by then |
| `Runtime.Runtime.Promote` | src/replication/state.rs:138-150 | no generation is accepted from here on |
| `Runtime.PromotionIsFinal` | src/replication/state.rs:96-150 | after a promotion, whatever calls follow, work of no generation is accepted |
| `Runtime.ReplacedForever` | src/replication/state.rs:82-99 | once another session began, whatever calls follow, work of an earlier generation is not accepted |
| `Durable.AppendSeen` | src/persistence/writer.rs:1180-1223 | an append adds one batch to what a node's file stands for, and nothing else |
| `Durable.AppendDiesSeen` | src/persistence/writer.rs:1180-1223 | a failed append leaves the batch in the file entirely or not at all |
| `Durable.QuietSeen` | src/persistence/writer.rs:1225-1515 | syncing and compacting, failed or not, change neither the epoch nor the history a file stands for |
| `Durable.InstallSeen` | src/persistence/writer.rs:1271-1372 | an installed image replaces them by its own epoch, sequence and dataset |
| `Durable.RestartSeen` | src/persistence/writer.rs:610-846 | whatever a crash keeps, the loader finds in the node's own bytes the dataset after a prefix of its batches, every synced one and under Always every acknowledged one among them |
| `Replication.PromoteKeeps` | src/storage/replication.rs:457-503 | promotion syncs and installs the node's own dataset under a fresh epoch, and keeps every cursor truthful |
| `Replication.WriteKeeps` | src/persistence/writer.rs:1180-1223 | so does every write of a serving primary to its file and its journal |
| `Replication.WriteFailsKeeps` | src/persistence/writer.rs:1180-1223 | so does one that fails at any byte, whether the batch ends up in the file or not |
| `Replication.RecoveredOk` | src/server.rs:290-317 | a node recovered from its own bytes is back on its epoch's ledger, wherever its file was cut |
| `Replication.FileKeeps` | src/persistence/writer.rs:916-1087 | syncs, compactions, crashes and restarts of any node keep the invariant |
| `Replication.SourceKeeps` | src/replication/session.rs:498-578 | what a source offers from its own memory and its own journal, by FULL, CONTINUE or stream, is what its epoch's ledger says |
| `Replication.SubmitKeeps` | src/replication/session.rs:864-942 | a follower takes a message only in sequence, ignoring an exact retransmission |
| `Replication.RunJobKeeps` | src/storage/replication.rs:202-454 | a job, even one that outlived its session or fails inside the write, leaves a truthful cursor |
| `Replication.RunKeeps` | src/replication/session.rs:498-953 | in every state of every run each node's file is sound, its memory is what its file says, its image and batches are a segment of its epoch's ledger, and a started session stands where its node stands |
| `Replication.PrefixSafety` | src/replication/session.rs:808-953 | in every state of every run a running node has exactly the dataset its epoch's primary had at its sequence; a serving primary owns its epoch, stands at its end, and its journal is all the epoch has |
| `Replication.SameCursorSameData` | src/replication/session.rs:808-953 | any two nodes at one cursor, at any two moments, hold the same dataset |
| `Replication.SequencesAreNeverReused` | src/persistence/writer.rs:1089-1223 | two writes of one epoch, at any two moments, come from one node and the later one has the later sequence |
| `Replication.OneBatchPerSequence` | src/server.rs:552-571 | wherever and whenever two batches are met under one epoch and sequence, streamed, handed to the database, published or in a file, they are the same batch |
| `Replication.AlwaysRecovers` | src/server.rs:290-317 | in every state of every run any node can restart from whatever a crash keeps, no earlier than its last synced batch and, under Always, its last acknowledged one |
| `Replication.WrittenIsKept` | src/persistence/writer.rs:1180-1223 | under Always an answered write stays at its place in its node's file, and whatever a crash keeps the node recovers to no earlier than it, in every run until the node's history is replaced |
| `Replication.NotAhead` | src/replication/session.rs:498-578 | a replica in a running session is of its source's epoch, never ahead of it, and level with it has its dataset |
| `Replication.NextApplies` | src/replication/session.rs:897-952 | the batch after a replica's position, streamed, taken and run, moves it one sequence on and its dataset by exactly that batch, and touches no other node |
| `Replication.CatchesUp` | src/replication/session.rs:658-713 | a follower fed the batches its source published reaches the source's position and dataset; none is refused on the way |
| `Replication.RepeatIsHarmless` | src/replication/session.rs:921-924 | a repeat of the last batch changes nothing |
| `Replication.Resumes` | src/replication/session.rs:498-536 | a replica of the source's epoch resumes by CONTINUE where it stands |
| `Replication.FullSync` | src/replication/session.rs:537-578 | a node that can install its source's dataset is level with the source after a FULL start |
| `Replication.FirstPrimary` | src/server.rs:552-555 | a node on an empty directory starts, promotes itself and serves |
| `Resp.DecimalShortest` | src/resp/decoder.rs:524-542 | no text of a number is shorter than its canonical one |
| `Resp.IntegerBack` | src/resp/decoder.rs:495-521 | every 64-bit integer reads back from its text |
| `Resp.LengthBack` | src/resp/decoder.rs:524-542 | every length of the machine word reads back from its text |
| `RespFlat.FlatIsGrammar` | src/resp/decoder.rs:128-271 | reading heads until none is owed is the recursive grammar, on every input |
| `RespFlat.TrackFrame` | src/resp/decoder.rs:378-394 | the stack of open aggregates refuses a frame exactly when its depth does not fit |
| `RespFlat.BuildForest` | src/resp/decoder.rs:404-459 | building from the last node to the first undoes flattening |
| `RespScanner.RunExtends` | src/resp/decoder.rs:92-119 | more bytes never change a decision, and waiting loses nothing |
| `RespScan.LineRun` | src/resp/decoder.rs:184-221 | a line runs to its terminator within the limits, or the frame does not complete |
| `RespScan.HeadEffect` | src/resp/decoder.rs:128-376 | between two prefixes the scanner does what one head of the grammar says |
| `RespScan.ScannerIsGrammar` | src/resp/decoder.rs:128-394 | a frame completes exactly when the grammar reads one that respects the limits; nodes and bytes are that frame's |
| `RespScan.WaitsWhileUndecided` | src/resp/decoder.rs:128-271 | from every waiting state the scanner waits exactly while the grammar is undecided |
| `RespDecoder.ParseLength` | src/resp/decoder.rs:524-542 | the checked accumulation reads exactly the lengths of the machine word |
| `RespDecoder.ParseInteger` | src/resp/decoder.rs:495-521 | the negative accumulation reads exactly the signed 64-bit numbers |
| `RespDecoder.Materialize` | src/resp/decoder.rs:404-459 | the stack builds the frame the nodes flatten |
| `RespDecoder.Decoder.constructor` | src/resp/decoder.rs:71-85 | a fresh decoder waits at a prefix |
| `RespDecoder.Decoder.CompleteNode` | src/resp/decoder.rs:378-394 | closes every aggregate the node was the last child of |
| `RespDecoder.Decoder.CompleteLine` | src/resp/decoder.rs:273-376 | one finished line, as the scanner's step |
| `RespDecoder.Decoder.Scan` | src/resp/decoder.rs:128-271 | the loop runs the scanner to its end |
| `RespDecoder.Decoder.Decode` | src/resp/decoder.rs:92-119 | the answer of every call is the one a single call on all bytes would give; waiting and failing leave the buffer, failing is final |
| `RespStream.ChunksDoNotMatter` | src/resp/decoder.rs:92-119 | however a stream is cut, its frames, its leftover and its fault are the same |
| `RespStream.FramesAreGrammar` | src/resp/decoder.rs:92-119 | a frame is answered exactly when the grammar reads one within the limits, and it is that one |
| `RespStream.WaitsExactly` | src/resp/decoder.rs:92-126 | more bytes are awaited exactly while the grammar is undecided about those given; every other input that is no acceptable frame is refused |
| `RespStream.WaitsForSomething` | src/resp/decoder.rs:128-271 | it waits only where whole nodes lead to one still owed, and nothing of that one has come or a known mark has and its line or payload is not all there |
| `RespStream.PrefixesWait` | src/resp/decoder.rs:92-126 | every proper prefix of an acceptable frame waits |
| `RespStream.UnknownMarkRefused` | src/resp/decoder.rs:128-183 | a stream beginning with no known mark is refused at its first byte |
| `RespStream.RefusalIsFinal` | src/resp/decoder.rs:92-126 | no continuation of a refused stream starts with an acceptable frame |
| `RespStream.Receive` | src/resp/decoder.rs:92-119 | a connection fed in any chunks ends as one pass over all its bytes |
| `RespEncoder.EncodedSize` | src/resp/encoder.rs:89-198 | refuses exactly the frames that are malformed or over a limit, and gives the exact size of the others |
| `RespEncoder.Encode` | src/resp/encoder.rs:11-71 | appends exactly the frame's bytes, or leaves the output alone |
| `RespEncoder.FrameBack` | src/resp/encoder.rs:11-71 | a frame written anywhere is the frame the grammar reads there |
| `RespEncoder.ParsedSound` | src/resp/decoder.rs:273-376 | a frame that was read is well-formed and its canonical bytes are no more than it took |
| `RespEncoder.RoundTrip` | src/resp/encoder.rs:11-198 | whatever the encoder accepts, the decoder gives back from exactly its bytes, whatever follows |
| `RespEncoder.ReencodesNoLonger` | src/resp/encoder.rs:89-198 | whatever the decoder gives, the encoder accepts under the same limits in no more bytes |
| `Grisu.ScaleGap` | src/command/fpconv.rs:47-53 | scaling by a normalised power keeps at least half of a gap |
| `Grisu.SameExponent` | src/command/fpconv.rs:40-46 | a double and its upper boundary normalise to one exponent |
| `Grisu.NeighboursFit` | src/command/fpconv.rs:68-89 | boundaries of every positive finite double fit the word and keep their distances |
| `Grisu.EstimateInTable` | src/command/fpconv.rs:90-91 | an estimate less than one off starts the search inside the table |
| `Grisu.SelectPower` | src/command/fpconv.rs:92-101 | from any starting index the search stays in the table, never turns back and ends in the window |
| `Grisu.Round` | src/command/fpconv.rs:56-64 | the last digit never falls below zero, digits and remainder always make up the same number, and no candidate in the gap is closer to the target |
| `Grisu.NothingCoarser` | src/command/fpconv.rs:121-158 | if no number of one decimal unit is inside the bounds, none of any coarser unit is |
| `Grisu.BestEnd` | src/command/fpconv.rs:56-64 | when no step comes closer within the gap, the last one is the best of all |
| `Grisu.IntegerDigits` | src/command/fpconv.rs:118-138 | no operation leaves the word; a finished result lies between the bounds, closest of its unit, with no coarser number inside |
| `Grisu.FractionDigits` | src/command/fpconv.rs:139-158 | likewise for the fraction, which ends |
| `Grisu.Frame` | src/command/fpconv.rs:102-117 | the scaled bounds, computed without underflow |
| `Grisu.Digits` | src/command/fpconv.rs:67-159 | every positive finite double gets at least one digit; digits times their unit lie between the scaled bounds, no number of that unit between them is closer to the scaled double, and no number of any coarser unit lies inside |
| `Doubles.SmallestIsOne` | src/command/fpconv.rs:68-80 | the smallest double is one unit of 2^-1074 |
| `Doubles.OneIs` | src/command/fpconv.rs:68-80 | the fields of 1.0 denote 2^1074 units |
| `Doubles.NextDouble` | src/command/fpconv.rs:68-80 | every double is one last place below the next, across every change of exponent |
| `Doubles.FieldsOrdered` | src/command/fpconv.rs:68-80 | larger fields denote larger doubles, so no two denote the same |
| `Doubles.MiddleIsValue` | src/command/fpconv.rs:68-89 | the double lies at the middle, on the scale of its boundaries |
| `Doubles.UpperIsMidpoint` | src/command/fpconv.rs:81-85 | the upper boundary is the midpoint to the next double |
| `Doubles.LowerIsMidpoint` | src/command/fpconv.rs:86-89 | the lower boundary is the midpoint to the double before, except at the smallest normal double, where it lies nearer |
| `Doubles.LowestIsMidpoint` | src/command/fpconv.rs:86-89 | below the smallest double the boundary is the midpoint to zero |
| `Doubles.ScaleIsNearest` | src/command/fpconv.rs:47-53 | scaling gives the word nearest to the product |
| `HexScore.RoundEvenNearest` | src/command/score.rs:175-187 | no multiple is closer, and a tie takes the even one |
| `HexScore.CorrectlyRounded` | src/command/score.rs:163-200 | no double is closer to the exact value than the rounded one; ties go to even (section 4.3.1 of IEEE 754-2019) |
| `HexScore.KeepsNext` | src/command/score.rs:131-158 | sixteen digits, a count and a sticky bit describe the mantissa read so far |
| `HexScore.KeptRounds` | src/command/score.rs:163-187 | sixteen digits and a sticky bit round like the whole mantissa, of any length |
| `HexScore.ParsePower` | src/command/score.rs:114-124 | the saturating fold is the exact exponent, clamped |
| `HexScore.ParseMantissa` | src/command/score.rs:125-158 | the digit loop accepts exactly the well-formed mantissas |
| `HexScore.PowerExact` | src/command/score.rs:165-168 | saturated arithmetic is exact, or the value is out of every range both ways |
| `HexScore.RoundWord` | src/command/score.rs:173-188 | the word operations of the rounding step |
| `HexScore.ParseHex` | src/command/score.rs:108-200 | refused exactly when malformed, too large or a nonzero value rounding to zero; otherwise the rounded value |
| `Doubles.ScoreIsDouble` | src/command/score.rs:163-200 | the double of a parsed score is its rounded significand at its grid, exactly |
| `Doubles.OverflowsExactly` | src/command/score.rs:191-200 | a score is too large exactly from halfway above the largest double on |
| `Doubles.VanishesExactly` | src/command/score.rs:173-190 | a nonzero score rounds to zero exactly when it is at most half the smallest double |
| `HexText.DigitIs` | src/command/score.rs:140-145 | exactly the twenty-two digit bytes are digits, each with its value |
| `HexText.MantissaReads` | src/command/score.rs:125-158 | every mantissa written in digits of either case, with or without a point, reads as its number and its places |
| `HexText.MarkIs` | src/command/score.rs:111-113 | the exponent starts behind the first p or P |
| `HexText.PowerReads` | src/command/score.rs:114-124 | every signed decimal exponent reads as its number |
| `HexText.SignReads` | src/command/score.rs:109-110 | one leading sign is dropped, and only minus negates |
| `HexText.ScoreReads` | src/command/score.rs:108-200 | every score written with a sign, a prefix, a mantissa and an exponent is judged as the number it spells |
| `PubSub.FanOut` | src/pubsub.rs:78-120 | after a fan-out every live member is due exactly what it holds, and every removed one overran at this message |
| `PubSub.ReloadedOwn` | src/pubsub.rs:203-252 | a reload withdraws exactly the unread messages it forbids |
| `PubSub.KeepingJoin` | src/pubsub.rs:203-252 | what is kept of two pieces is what is kept of each, in order |
| `PubSub.KeepingIs` | src/pubsub.rs:203-252 | an allowed message stays as often as it was queued, and no other stays |
| `PubSub.TallyChange` | src/pubsub.rs:78-120 | the counters follow a change of one client's set |
| `PubSub.Hub.constructor` | src/pubsub.rs:124-132 | an empty hub |
| `PubSub.Hub.Connect` | src/pubsub.rs:134-163 | a fresh identifier with an empty queue, until they run out |
| `PubSub.Hub.Remove` | src/pubsub.rs:104-120 | the client leaves every channel, counters exact, no channel left empty |
| `PubSub.Hub.Publish` | src/pubsub.rs:78-102 | each member with room gets the message, each without is removed everywhere, nobody else is touched; the count is exact |
| `PubSub.Hub.Subscribe` | src/pubsub.rs:297-338 | refused exactly when closed or over the limit, changing nothing; otherwise joins the listed channels, earlier messages first |
| `PubSub.Hub.Unsubscribe` | src/pubsub.rs:346-386 | leaves the listed channels or all of them |
| `PubSub.Hub.Receive` | src/pubsub.rs:278-282 | hands over the oldest queued message |
| `PubSub.Hub.Revalidate` | src/pubsub.rs:203-252 | keeps the allowed channels and, in order, the allowed queued messages |
| `PubSub.Hub.Disconnect` | src/pubsub.rs:187-193 | nothing of the connection stays in the index |
| `Transaction.RequestBytesExact` | src/connection/transaction.rs:266-282 | the size charged to a request is the size the encoder gives it |
| `Transaction.Transaction.constructor` | src/connection/transaction.rs:22-28 | no transaction is open |
| `Transaction.Transaction.Poison` | src/connection/transaction.rs:98-104 | a poisoned transaction hands over nothing |
| `Transaction.Transaction.Revalidate` | src/connection/transaction.rs:63-94 | a forbidden request empties the queue, a forbidden WATCH forgets the keys |
| `Transaction.Transaction.SelectShard` | src/storage/routing.rs:89-116 | crossing is noticed exactly when no shard holds all keys with the one already chosen |
| `Transaction.Transaction.Begin` | src/connection/transaction.rs:128-139 | opens an empty queue pinned to the observed shard, refused when nested |
| `Transaction.Transaction.Forget` | src/connection/transaction.rs:140-149 | DISCARD and UNWATCH forget the queue and the observed keys |
| `Transaction.Transaction.HandleExec` | src/connection/transaction.rs:150-169 | hands over exactly when open and neither poisoned nor revoked: the requests answered QUEUED since MULTI, within the limits, on one shard or all coordinated |
| `Transaction.Transaction.HandleWatch` | src/connection/transaction.rs:170-206 | refused exactly inside MULTI, over the key limit, across shards or unanswered; otherwise the unseen keys are observed |
| `Transaction.Transaction.Enqueue` | src/connection/transaction.rs:213-259 | refused exactly when unfit, which spoils the queue; otherwise appended |
| `Transaction.Transaction.Handle` | src/connection/transaction.rs:106-262 | every answer and every recorded observation is determined by the record of earlier ones; EXEC hands over if and only if the record is intact since MULTI, and then exactly the requests answered QUEUED, within the limits, on one shard or all coordinated |
| `Transaction.RevokedWatchStillRuns` | src/connection/transaction.rs:63-169 | on any open, unspoiled transaction: a reload that forbids WATCH alone, then EXEC, hands over the queue with nothing observed |
| `Transaction.RevokedWatchExample` | src/connection/transaction.rs:63-262 | a concrete exchange: WATCH, MULTI, GET, a reload that forbids WATCH, EXEC; the GET is handed over, unobserved |
| `Transaction.RevocationStops` | src/connection/transaction.rs:63-94 | a reload anywhere since MULTI, alone, stops EXEC if and only if it forbids a request queued before it |
| `Transaction.MarredIs` | src/connection/transaction.rs:63-104 | a transaction is spoiled if and only if, at some position since the last MULTI, it was poisoned or a reload forbade a request queued by then |
| `Transaction.IntactIs` | src/connection/transaction.rs:150-169 | open and unspoiled is the same as: some MULTI, nothing ending it since, and no position since that poisoned or forbade |
| `Transaction.SpoiledUntilMulti` | src/connection/transaction.rs:98-104 | once spoiled, a transaction stays so until the next MULTI, whatever is answered |
| `MemoryFormat.SortedIs` | src/persistence/memory_format.rs:623-629 | keys accepted in ascending order are the key order of the map they fill |
| `MemoryFormat.ReadMapCanonical` | src/persistence/memory_format.rs:510-558 | what a map is read from is what it is written as |
| `MemoryFormat.MapBack` | src/persistence/memory_format.rs:321-351 | every map is read back from what it is written as |
| `MemoryFormat.DeadlineCanonical` | src/persistence/memory_format.rs:475-483 | accepted deadlines are written back byte for byte |
| `MemoryFormat.DescriptorCanonical` | src/persistence/memory_format.rs:484-502 | accepted descriptors are written back byte for byte |
| `MemoryFormat.MemberCanonical` | src/persistence/memory_format.rs:510-559 | accepted members, with metadata and provenance, are written back byte for byte |
| `MemoryFormat.EditsCanonical` | src/persistence/memory_format.rs:596-606 | accepted edit lists are written back byte for byte |
| `MemoryFormat.ChangeCanonical` | src/persistence/memory_format.rs:560-622 | any bytes accepted as an image or delta are reproduced exactly |
| `MemoryFormat.ChangeBack` | src/persistence/memory_format.rs:352-395 | every well-formed image or delta is accepted and read back |

## Left out

- File headers, directory locks and the durability of renames: a published generation is named atomically and durably, and its header is a value.
- Exhaustion of the 64-bit generation number and of machine-word sums of dataset bytes.
- Expiry: deadlines are data; replay does not drop an entry whose deadline has passed (src/storage/mutation.rs:470-474).
- Journal publication inside the append, diagnostics and the writer's request queue: only the steps they trigger are kept.
- Writing.Owner.StartCompaction: the image is the dataset at that moment, as the worker's barrier provides it; the producer's refusal of an unordered image is the failing producer of EndCompaction.
- Writing.Owner.Append: the batch is one the dataset accepts, unless its keys are on several shards, as the worker has prepared it; the writer itself checks only shards and sizes.
- HexScore.ParseHex: texts within 4096 bytes of 2^61 or longer, where four times a digit count meets the end of the 64-bit exponent (src/command/score.rs:165-167).
- Grisu.Digits: the floating-point estimate of the starting index is a parameter, because the search is proved from every index of the table; the accuracy of the table of powers against true powers of ten is not stated, so closeness and shortness are relative to the computed bounds.
- RespDecoder.Decoder.Decode: the wording of malformed-input messages; every malformed input is one fault.
- RespEncoder.EncodedSize: which of several violations is reported first.
- Validation of RESP3 doubles and of memory members: predicates the codecs are given; doubles are only known to contain no line breaks.
- MemoryFormat.ReadChange: like Format.Decode, a function on the remaining bytes; the cursor's offset advancing in place and the loops filling maps are not captured.
- Replication.PrefixSafety: snapshots travel as one message; entry-by-entry transfer with its digest, authentication, time limits and the record-2 and composed variants of the protocol. Fresh epochs are assumed distinct. A source may stream any batch of its journal, not only the retained window, and a recovered primary may follow before it promotes itself: both allow more than the code does.
- Lockstep.NeverRejects: the source's loop is a step system, because it interleaves reading, writing and heartbeats; the handshake before the first acknowledgement and sessions that end because a reader lags are not in it.
- PubSub.Hub.Publish: members are served in some order; per client the order of messages does not depend on it.
- Transaction.Transaction.HandleWatch: the wait for the database's tokens; they are a parameter.
- Formatting a score's digits, decimal parsing, commands, configuration, security, metrics and networking.
