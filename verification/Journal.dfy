/**
 * The replication journal: a window of the frames published in one epoch, bounded in bytes
 * and in batches, and the subscribers that read it. Both are tied to the list of everything
 * published since the journal was made.
 */
module Journal {
  import opened Format

  datatype Cursor = Cursor(epoch: nat, sequence: nat)

  datatype Entry = Entry(cursor: Cursor, frame: Bytes)

  datatype Limits = Limits(maxBytes: nat, maxBatches: nat, maxFrame: nat)

  datatype Failure = OverLimit | WrongEpoch | WrongSequence | Lagged | Closed

  predicate ValidLimits(limits: Limits) {
    0 < limits.maxFrame <= limits.maxBytes < LONG / 2 && 0 < limits.maxBatches
  }

  function TotalBytes(entries: seq<Entry>): nat {
    if entries == [] then 0 else TotalBytes(entries[..|entries| - 1]) + |entries[|entries| - 1].frame|
  }

  lemma {:induction false} TotalFront(entries: seq<Entry>)
    requires entries != []
    ensures TotalBytes(entries) == |entries[0].frame| + TotalBytes(entries[1..])
  {
    var n := |entries| - 1;
    if n > 0 {
      TotalFront(entries[..n]);
      assert entries[..n][1..] == entries[1..][..n - 1];
    } else {
      assert entries[1..] == [] && entries[..0] == [];
    }
  }

  /** The retained entries are the last ones published, under consecutive cursors up to the head. */
  ghost predicate Window(entries: seq<Entry>, head: Cursor, origin: nat, published: seq<Bytes>) {
    && head.sequence == origin + |published| && |entries| <= |published|
    && forall i :: 0 <= i < |entries| ==>
         entries[i] == Entry(Cursor(head.epoch, head.sequence - |entries| + 1 + i),
             published[|published| - |entries| + i])
  }

  lemma WindowPop(entries: seq<Entry>, head: Cursor, origin: nat, published: seq<Bytes>)
    requires Window(entries, head, origin, published) && entries != []
    ensures Window(entries[1..], head, origin, published)
  {
  }

  lemma WindowPush(entries: seq<Entry>, head: Cursor, origin: nat, published: seq<Bytes>, frame: Bytes)
    requires Window(entries, head, origin, published)
    ensures var next := Cursor(head.epoch, head.sequence + 1);
            Window(entries + [Entry(next, frame)], next, origin, published + [frame])
  {
  }

  /** Entries that leave no room for one more frame of this size. */
  predicate Full(entries: seq<Entry>, size: nat, limits: Limits) {
    TotalBytes(entries) + size > limits.maxBytes || |entries| >= limits.maxBatches
  }

  /** What reading after a cursor gives. */
  datatype Reading = Nothing | Next(entry: Entry) | Refused(failure: Failure)

  class Journal {
    const limits: Limits
    var head: Cursor
    var entries: seq<Entry>
    var bytes: nat
    var closed: bool
    ghost const origin: nat
    ghost var published: seq<Bytes>

    ghost predicate Valid()
      reads this
    {
      && ValidLimits(limits) && head.sequence < LONG
      && bytes == TotalBytes(entries) <= limits.maxBytes && |entries| <= limits.maxBatches
      && Window(entries, head, origin, published)
      && (closed ==> entries == [])
    }

    constructor (head: Cursor, limits: Limits)
      requires ValidLimits(limits) && head.sequence < LONG
      ensures Valid() && !closed && this.limits == limits && this.head == head
      ensures origin == head.sequence && published == [] && entries == []
    {
      this.limits, this.head, entries, bytes, closed := limits, head, [], 0, false;
      origin, published := head.sequence, [];
    }

    /** Drops the oldest entries until a frame of this size fits; none are left to drop before it does. */
    method Evict(size: nat) returns (ghost k: nat)
      requires Valid() && 0 < size <= limits.maxFrame
      modifies this`entries, this`bytes
      ensures k <= |old(entries)| && entries == old(entries)[k..]
      ensures bytes == TotalBytes(entries) <= limits.maxBytes - size && |entries| < limits.maxBatches
      ensures Window(entries, head, origin, published)
      ensures k > 0 ==> Full(old(entries)[k - 1..], size, limits)
    {
      hide TotalBytes, Window;
      k := 0;
      assert entries[0..] == entries;
      while bytes > limits.maxBytes - size || |entries| >= limits.maxBatches
        invariant k <= |old(entries)| && entries == old(entries)[k..]
        invariant bytes == TotalBytes(entries) && Window(entries, head, origin, published)
        invariant k > 0 ==> Full(old(entries)[k - 1..], size, limits)
        decreases |entries|
      {
        assert entries != [] by { EmptyWeighsNothing(); }
        assert Full(old(entries)[k..], size, limits);
        TotalFront(entries);
        WindowPop(entries, head, origin, published);
        bytes := bytes - |entries[0].frame|;
        entries := entries[1..];
        k := k + 1;
      }
    }

    /**
     * Publishes the next batch. A refusal changes nothing; success keeps the longest run of
     * earlier entries that leaves room.
     */
    method Publish(sequence: nat, frame: Bytes) returns (failure: Option<Failure>, ghost evicted: nat)
      requires Valid() && sequence < LONG
      modifies this
      ensures Valid() && closed == old(closed)
      ensures failure == Some(OverLimit) <==> frame == [] || |frame| > limits.maxFrame
      ensures failure == Some(Closed) <==> 0 < |frame| <= limits.maxFrame && old(closed)
      ensures failure.None? <==>
                0 < |frame| <= limits.maxFrame && !old(closed) && sequence == old(head).sequence + 1
      ensures failure.Some? ==>
                head == old(head) && entries == old(entries) && bytes == old(bytes) && published == old(published)
      ensures failure.None? ==>
                && head == old(head).(sequence := sequence) && published == old(published) + [frame]
                && evicted <= |old(entries)| && entries == old(entries)[evicted..] + [Entry(head, frame)]
                && (evicted > 0 ==> Full(old(entries)[evicted - 1..], |frame|, limits))
    {
      hide TotalBytes, Window;
      evicted := 0;
      if frame == [] || |frame| > limits.maxFrame {
        return Some(OverLimit), 0;
      }
      if closed {
        return Some(Closed), 0;
      }
      if sequence != head.sequence + 1 {
        return Some(WrongSequence), 0;
      }
      evicted := Evict(|frame|);
      WindowPush(entries, head, origin, published, frame);
      TotalPush(entries, Entry(Cursor(head.epoch, sequence), frame));
      head := head.(sequence := sequence);
      bytes := bytes + |frame|;
      entries := entries + [Entry(head, frame)];
      published := published + [frame];
      failure := None;
    }

    method Close()
      requires Valid()
      modifies this
      ensures Valid() && closed && head == old(head) && published == old(published) && entries == []
    {
      closed, entries, bytes := true, [], 0;
    }

    /** The entry after a cursor, if the window still has it. */
    method After(cursor: Cursor) returns (r: Reading)
      requires Valid()
      ensures r == ReadAfter(this, cursor)
    {
      if closed {
        return Refused(Closed);
      }
      if cursor.epoch != head.epoch {
        return Refused(WrongEpoch);
      }
      if cursor.sequence > head.sequence {
        return Refused(WrongSequence);
      }
      if cursor.sequence == head.sequence {
        return Nothing;
      }
      if entries == [] {
        return Refused(Lagged);
      }
      var oldest := entries[0].cursor.sequence;
      if cursor.sequence + 1 < oldest {
        return Refused(Lagged);
      }
      var index := cursor.sequence + 1 - oldest;
      if index >= |entries| {
        return Refused(Lagged);
      }
      r := Next(entries[index]);
    }
  }

  /** Reading stated on what was published: the next frame, unless it left the window. */
  ghost function ReadAfter(j: Journal, cursor: Cursor): Reading
    requires j.Valid()
    reads j
  {
    if j.closed then Refused(Closed)
    else if cursor.epoch != j.head.epoch then Refused(WrongEpoch)
    else if cursor.sequence > j.head.sequence then Refused(WrongSequence)
    else if cursor.sequence == j.head.sequence then Nothing
    else if cursor.sequence < j.head.sequence - |j.entries| then Refused(Lagged)
    else Next(Entry(Cursor(cursor.epoch, cursor.sequence + 1), j.published[cursor.sequence - j.origin]))
  }

  lemma EmptyWeighsNothing()
    ensures TotalBytes([]) == 0
  {
  }

  lemma TotalPush(entries: seq<Entry>, e: Entry)
    ensures TotalBytes(entries + [e]) == TotalBytes(entries) + |e.frame|
  {
    assert (entries + [e])[..|entries|] == entries;
  }

  /** A reader at a position of the journal, with everything it has been given. */
  class Subscriber {
    const journal: Journal
    var cursor: Cursor
    ghost const start: nat
    ghost var received: seq<Bytes>

    ghost predicate Valid()
      reads this, journal
    {
      && journal.Valid() && cursor.epoch == journal.head.epoch
      && journal.origin <= start <= cursor.sequence <= journal.head.sequence
      && received == journal.published[start - journal.origin..cursor.sequence - journal.origin]
    }

    constructor (journal: Journal, cursor: Cursor)
      requires journal.Valid() && !ReadAfter(journal, cursor).Refused?
      ensures Valid() && this.journal == journal && this.cursor == cursor && received == []
    {
      this.journal, this.cursor := journal, cursor;
      start, received := cursor.sequence, [];
    }

    /** One read: the next frame in order, none yet, or a final refusal. */
    method Poll() returns (r: Reading)
      requires Valid()
      modifies this
      ensures Valid()
      ensures r.Next? ==>
                && cursor == r.entry.cursor == Cursor(old(cursor).epoch, old(cursor).sequence + 1)
                && received == old(received) + [r.entry.frame]
                && r.entry.frame == journal.published[old(cursor).sequence - journal.origin]
      ensures !r.Next? ==> cursor == old(cursor) && received == old(received)
      ensures r.Nothing? ==> cursor == journal.head && !journal.closed
      ensures r.Refused? ==> journal.closed || cursor.sequence < journal.head.sequence - |journal.entries|
      ensures r == old(ReadAfter(journal, cursor))
    {
      r := journal.After(cursor);
      if r.Next? {
        received := received + [r.entry.frame];
        cursor := r.entry.cursor;
      }
    }
  }

  /** A journal opens exactly when its limits are usable. */
  method Open(head: Cursor, limits: Limits) returns (j: Journal?)
    requires head.sequence < LONG
    ensures j == null <==> !ValidLimits(limits)
    ensures j != null ==>
              fresh(j) && j.Valid() && !j.closed && j.head == head && j.limits == limits && j.published == []
  {
    j := null;
    if ValidLimits(limits) {
      j := new Journal(head, limits);
    }
  }

  /** A reader is refused exactly when reading after its cursor would be, with the same reason. */
  method Subscribe(journal: Journal, cursor: Cursor) returns (s: Subscriber?, failure: Option<Failure>)
    requires journal.Valid()
    ensures s == null <==> ReadAfter(journal, cursor).Refused?
    ensures s == null ==> failure == Some(ReadAfter(journal, cursor).failure)
    ensures s != null ==>
              fresh(s) && s.Valid() && s.journal == journal && s.cursor == cursor && s.received == [] && failure.None?
  {
    s, failure := null, None;
    var r := journal.After(cursor);
    if r.Refused? {
      failure := Some(r.failure);
    } else {
      s := new Subscriber(journal, cursor);
    }
  }

  /** Publication leaves every reader where it was: what it has is still the start of what follows. */
  twostate lemma ReadersKeepTheirPlace(s: Subscriber)
    requires old(s.Valid()) && s.journal.Valid()
    requires s.cursor == old(s.cursor) && s.received == old(s.received)
    requires s.journal.head.epoch == old(s.journal.head.epoch)
    requires old(s.journal.published) <= s.journal.published
    ensures s.Valid()
  {
    var j := s.journal;
    assert j.published[s.start - j.origin..s.cursor.sequence - j.origin]
           == old(j.published)[s.start - j.origin..s.cursor.sequence - j.origin];
  }
}
