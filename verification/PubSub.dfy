/**
 * The Pub/Sub registry: a two-way index between subscribers and channels with derived
 * counters, mutated while a publication fans out. Every operation is tied to a trace of
 * what clients did; delivery is stated on the trace alone.
 */
module PubSub {
  import opened Format

  datatype Message = Message(channel: Bytes, payload: Bytes)

  /** A connection's bounded queue; it outlives the subscriber's registration. */
  datatype Mailbox = Mailbox(capacity: nat, limit: nat, pending: seq<Message>)

  // ---------- What clients did, and what each is due ----------

  datatype Event =
    | Published(message: Message)
    | Joined(id: nat, channel: Bytes)
    | Left(id: nat, channel: Bytes)
    | Took(id: nat, count: nat)
    | Reloaded(id: nat, allowed: Bytes -> bool)

  function Keeping(ms: seq<Message>, allowed: Bytes -> bool): (kept: seq<Message>)
    ensures |kept| <= |ms|
  {
    if ms == [] then []
    else
      var before := Keeping(ms[..|ms| - 1], allowed);
      if allowed(ms[|ms| - 1].channel) then before + [ms[|ms| - 1]] else before
  }

  /** It keeps the allowed messages of a piece beside those of the piece before it: their order stays. */
  lemma {:induction false} KeepingJoin(a: seq<Message>, b: seq<Message>, allowed: Bytes -> bool)
    ensures Keeping(a + b, allowed) == Keeping(a, allowed) + Keeping(b, allowed)
    decreases |b|
  {
    if b == [] {
      assert a + b == a;
    } else {
      var n := |b| - 1;
      KeepingJoin(a, b[..n], allowed);
      assert (a + b)[..|a + b| - 1] == a + b[..n];
    }
  }

  /** An allowed message stays as often as it was there, and no other stays. */
  lemma {:induction false} KeepingIs(ms: seq<Message>, allowed: Bytes -> bool, m: Message)
    ensures multiset(Keeping(ms, allowed))[m] == if allowed(m.channel) then multiset(ms)[m] else 0
    decreases |ms|
  {
    if ms != [] {
      var n := |ms| - 1;
      KeepingIs(ms[..n], allowed, m);
      assert ms == ms[..n] + [ms[n]];
    }
  }

  function Permitted(channels: set<Bytes>, allowed: Bytes -> bool): set<Bytes> {
    set c | c in channels && allowed(c)
  }

  /** The channels a client belongs to. */
  ghost function Channels(trace: seq<Event>, id: nat): set<Bytes> {
    if trace == [] then {}
    else
      var before := Channels(trace[..|trace| - 1], id);
      match trace[|trace| - 1]
      case Joined(i, c) => if i == id then before + {c} else before
      case Left(i, c) => if i == id then before - {c} else before
      case Reloaded(i, allowed) => if i == id then Permitted(before, allowed) else before
      case _ => before
  }

  /** How many of its messages a client has read. */
  ghost function Taken(trace: seq<Event>, id: nat): nat {
    if trace == [] then 0
    else
      var before := Taken(trace[..|trace| - 1], id);
      match trace[|trace| - 1]
      case Took(i, n) => if i == id then before + n else before
      case _ => before
  }

  /**
   * The messages a client is due: every publication made while it belonged to the channel,
   * in publication order, less the unread ones a policy reload forbids.
   */
  ghost function Due(trace: seq<Event>, id: nat): seq<Message> {
    if trace == [] then []
    else
      var earlier := trace[..|trace| - 1];
      var before := Due(earlier, id);
      match trace[|trace| - 1]
      case Published(m) => if m.channel in Channels(earlier, id) then before + [m] else before
      case Reloaded(i, allowed) =>
        var n := if Taken(earlier, id) <= |before| then Taken(earlier, id) else |before|;
        if i == id then before[..n] + Keeping(before[n..], allowed) else before
      case _ => before
  }

  /** A registered client has read and holds exactly what it is due. */
  ghost predicate Served(trace: seq<Event>, id: nat, channels: set<Bytes>, box: Mailbox, got: seq<Message>) {
    && channels == Channels(trace, id) && |channels| <= box.limit
    && got + box.pending == Due(trace, id) && |got| == Taken(trace, id)
    && |box.pending| <= box.capacity
  }

  /**
   * An evicted client: at event p a publication it was due met a full queue, and it has
   * nothing beyond what it was due before that.
   */
  ghost predicate Overran(trace: seq<Event>, id: nat, box: Mailbox, got: seq<Message>, p: nat) {
    && p < |trace| && trace[p].Published? && trace[p].message.channel in Channels(trace[..p], id)
    && |Due(trace[..p], id)| == Taken(trace[..p], id) + box.capacity
    && got + box.pending <= Due(trace[..p], id)
    && |box.pending| <= box.capacity
  }

  /** A number nobody has been given yet. */
  ghost predicate Unused(trace: seq<Event>, id: nat) {
    Channels(trace, id) == {} && Taken(trace, id) == 0 && Due(trace, id) == []
  }

  lemma Next(trace: seq<Event>, e: Event)
    ensures (trace + [e])[..|trace|] == trace && (trace + [e])[|trace|] == e
  {
  }

  lemma OverranStays(trace: seq<Event>, e: Event, id: nat, box: Mailbox, got: seq<Message>, p: nat)
    requires Overran(trace, id, box, got, p)
    ensures Overran(trace + [e], id, box, got, p)
  {
    assert (trace + [e])[..p] == trace[..p];
  }

  predicate Concerns(e: Event, id: nat) {
    match e
    case Published(_) => false
    case Joined(i, _) => i == id
    case Left(i, _) => i == id
    case Took(i, _) => i == id
    case Reloaded(i, _) => i == id
  }

  /** Another client's doings change nothing for this one. */
  lemma Unconcerned(trace: seq<Event>, e: Event, id: nat)
    requires !e.Published? && !Concerns(e, id)
    ensures Channels(trace + [e], id) == Channels(trace, id)
    ensures Taken(trace + [e], id) == Taken(trace, id)
    ensures Due(trace + [e], id) == Due(trace, id)
  {
    Next(trace, e);
  }

  lemma PublishedFor(trace: seq<Event>, m: Message, id: nat)
    ensures Channels(trace + [Published(m)], id) == Channels(trace, id)
    ensures Taken(trace + [Published(m)], id) == Taken(trace, id)
    ensures Due(trace + [Published(m)], id)
            == if m.channel in Channels(trace, id) then Due(trace, id) + [m] else Due(trace, id)
  {
    Next(trace, Published(m));
  }

  /** Reading moves messages from the queue to the client and loses none. */
  lemma TookOwn(trace: seq<Event>, id: nat, channels: set<Bytes>, box: Mailbox, got: seq<Message>, n: nat)
    requires Served(trace, id, channels, box, got) && n <= |box.pending|
    ensures Served(trace + [Took(id, n)], id, channels, box.(pending := box.pending[n..]), got + box.pending[..n])
  {
    Next(trace, Took(id, n));
    assert (got + box.pending[..n]) + box.pending[n..] == got + box.pending;
  }

  lemma JoinedOwn(trace: seq<Event>, id: nat, channels: set<Bytes>, box: Mailbox, got: seq<Message>, c: Bytes)
    requires Served(trace, id, channels, box, got) && |channels + {c}| <= box.limit
    ensures Served(trace + [Joined(id, c)], id, channels + {c}, box, got)
  {
    Next(trace, Joined(id, c));
  }

  lemma LeftOwn(trace: seq<Event>, id: nat, channels: set<Bytes>, box: Mailbox, got: seq<Message>, c: Bytes)
    requires Served(trace, id, channels, box, got)
    ensures Served(trace + [Left(id, c)], id, channels - {c}, box, got)
  {
    Next(trace, Left(id, c));
    SubsetSize(channels - {c}, channels);
  }

  lemma ReloadedOwn(trace: seq<Event>, id: nat, channels: set<Bytes>, box: Mailbox, got: seq<Message>,
        allowed: Bytes -> bool)
    requires Served(trace, id, channels, box, got)
    ensures Served(trace + [Reloaded(id, allowed)], id, Permitted(channels, allowed),
                   box.(pending := Keeping(box.pending, allowed)), got)
  {
    Next(trace, Reloaded(id, allowed));
    var due := Due(trace, id);
    assert due[..|got|] == got && due[|got|..] == box.pending;
    SubsetSize(Permitted(channels, allowed), channels);
  }

  lemma SubsetSize<T>(a: set<T>, b: set<T>)
    requires a <= b
    ensures |a| <= |b|
  {
    assert b == a + (b - a);
  }

  // ---------- Counters ----------

  type Registry = map<nat, set<Bytes>>
  type Index = map<Bytes, set<nat>>

  datatype Counter = Subscriptions | ActiveSubscribers

  function Weight(k: Counter, subscribers: Registry, id: nat): nat {
    if id !in subscribers || subscribers[id] == {} then 0
    else if k == Subscriptions then |subscribers[id]| else 1
  }

  function Tally(k: Counter, subscribers: Registry, n: nat): nat {
    if n == 0 then 0 else Tally(k, subscribers, n - 1) + Weight(k, subscribers, n - 1)
  }

  lemma {:induction false} TallyChange(k: Counter, a: Registry, b: Registry, id: nat, n: nat)
    requires forall i: nat :: i != id ==> Weight(k, a, i) == Weight(k, b, i)
    ensures Tally(k, a, n) + (if id < n then Weight(k, b, id) else 0)
            == Tally(k, b, n) + (if id < n then Weight(k, a, id) else 0)
    ensures id < n ==> Weight(k, a, id) <= Tally(k, a, n)
  {
    hide Weight;
    if n > 0 { TallyChange(k, a, b, id, n - 1); }
  }

  // ---------- The index ----------

  /** The two sides agree and no channel is kept without members. */
  ghost predicate Agree(subscribers: Registry, channels: Index) {
    && (forall id, c :: id in subscribers && c in subscribers[id] ==> c in channels && id in channels[c])
    && (forall c, id :: c in channels && id in channels[c] ==> id in subscribers && c in subscribers[id])
    && (forall c :: c in channels ==> channels[c] != {})
  }

  function Members(channels: Index, c: Bytes): set<nat> {
    if c in channels then channels[c] else {}
  }

  lemma AgreeJoin(subscribers: Registry, channels: Index, id: nat, c: Bytes)
    requires Agree(subscribers, channels) && id in subscribers
    ensures Agree(subscribers[id := subscribers[id] + {c}], channels[c := Members(channels, c) + {id}])
  {
  }

  /** The index after a client left some channels. */
  ghost predicate Withdrawn(before: Index, after: Index, id: nat, cs: set<Bytes>) {
    && (forall d :: d in after <==> d in before && (d in cs ==> before[d] - {id} != {}))
    && (forall d :: d in after ==> after[d] == if d in cs then before[d] - {id} else before[d])
  }

  lemma AgreeLeave(subscribers: Registry, channels: Index, after: Index, id: nat, c: Bytes)
    requires Agree(subscribers, channels) && id in subscribers && Withdrawn(channels, after, id, {c})
    ensures Agree(subscribers[id := subscribers[id] - {c}], after)
  {
    var left := subscribers[id := subscribers[id] - {c}];
    forall j, d | j in left && d in left[j] ensures d in after && j in after[d] {
      assert d in subscribers[j] && j in channels[d];
      assert d == c ==> j in channels[d] - {id};
    }
  }

  lemma AgreeGone(subscribers: Registry, channels: Index, after: Index, id: nat)
    requires Agree(subscribers, channels) && id in subscribers && Withdrawn(channels, after, id, subscribers[id])
    ensures Agree(subscribers - {id}, after)
  {
    var left := subscribers - {id};
    forall j, d | j in left && d in left[j] ensures d in after && j in after[d] {
      assert d in subscribers[j] && j in channels[d];
      assert d in subscribers[id] ==> j in channels[d] - {id};
    }
  }

  lemma NoneWithdrawn(channels: Index, id: nat, mine: set<Bytes>)
    ensures Withdrawn(channels, channels, id, mine - mine)
  {
  }

  lemma WithdrawnMore(a: Index, b: Index, c: Index, id: nat, cs: set<Bytes>, d: Bytes)
    requires Withdrawn(a, b, id, cs) && Withdrawn(b, c, id, {d}) && d !in cs
    ensures Withdrawn(a, c, id, cs + {d})
  {
  }

  lemma TallyGone(subscribers: Registry, id: nat, n: nat)
    requires id in subscribers && id < n
    ensures Tally(Subscriptions, subscribers - {id}, n) == Tally(Subscriptions, subscribers, n) - |subscribers[id]|
    ensures Tally(ActiveSubscribers, subscribers - {id}, n)
            == Tally(ActiveSubscribers, subscribers, n) - (if subscribers[id] == {} then 0 else 1)
  {
    hide Tally;
    TallyChange(Subscriptions, subscribers, subscribers - {id}, id, n);
    TallyChange(ActiveSubscribers, subscribers, subscribers - {id}, id, n);
  }

  lemma Added(mine: set<Bytes>, c: Bytes)
    ensures |mine + {c}| == |mine| + (if c in mine then 0 else 1)
    ensures |mine + {c}| == 1 && c !in mine <==> mine == {}
    ensures c in mine ==> mine + {c} == mine
  {
    if c in mine { assert mine + {c} == mine; }
  }

  lemma Removed(mine: set<Bytes>, c: Bytes)
    ensures |mine - {c}| == |mine| - (if c in mine then 1 else 0)
    ensures c !in mine ==> mine - {c} == mine
  {
  }

  /** The counters after one client's set changed. */
  lemma TallySet(subscribers: Registry, id: nat, mine: set<Bytes>, n: nat)
    requires id in subscribers && id < n
    ensures Tally(Subscriptions, subscribers[id := mine], n)
            == Tally(Subscriptions, subscribers, n) - |subscribers[id]| + |mine|
    ensures Tally(ActiveSubscribers, subscribers[id := mine], n)
            == Tally(ActiveSubscribers, subscribers, n)
               - (if subscribers[id] == {} then 0 else 1) + (if mine == {} then 0 else 1)
    ensures |subscribers[id]| <= Tally(Subscriptions, subscribers, n)
    ensures subscribers[id] != {} ==> 1 <= Tally(ActiveSubscribers, subscribers, n)
  {
    hide Tally;
    TallyChange(Subscriptions, subscribers, subscribers[id := mine], id, n);
    TallyChange(ActiveSubscribers, subscribers, subscribers[id := mine], id, n);
  }

  /** The index agrees and the counters are the sums they stand for. */
  ghost predicate Consistent(subscribers: Registry, channels: Index, subscriptions: nat, active: nat, nextId: nat) {
    && Agree(subscribers, channels)
    && subscriptions == Tally(Subscriptions, subscribers, nextId)
    && active == Tally(ActiveSubscribers, subscribers, nextId)
    && (forall id :: id in subscribers ==> id < nextId)
  }

  lemma Entered(subscribers: Registry, channels: Index, subscriptions: nat, active: nat, nextId: nat, id: nat, c: Bytes)
    requires Consistent(subscribers, channels, subscriptions, active, nextId) && id in subscribers
    ensures var mine := subscribers[id];
            Consistent(subscribers[id := mine + {c}], channels[c := Members(channels, c) + {id}],
                       if c in mine then subscriptions else subscriptions + 1,
                       if c !in mine && |mine + {c}| == 1 then active + 1 else active, nextId)
  {
    hide Agree, Tally;
    TallySet(subscribers, id, subscribers[id] + {c}, nextId);
    AgreeJoin(subscribers, channels, id, c);
    Added(subscribers[id], c);
  }

  lemma Exited(
      subscribers: Registry, channels: Index, after: Index, subscriptions: nat, active: nat, nextId: nat, id: nat,
          c: Bytes)
    requires Consistent(subscribers, channels, subscriptions, active, nextId) && id in subscribers
    requires Withdrawn(channels, after, id, {c})
    ensures c in subscribers[id] ==> subscriptions >= 1 && active >= 1
    ensures var mine := subscribers[id];
            Consistent(subscribers[id := mine - {c}], after,
                       if c in mine then subscriptions - 1 else subscriptions,
                       if c in mine && mine - {c} == {} then active - 1 else active, nextId)
  {
    hide Agree, Tally;
    TallySet(subscribers, id, subscribers[id] - {c}, nextId);
    AgreeLeave(subscribers, channels, after, id, c);
    Removed(subscribers[id], c);
  }

  lemma Vanished(subscribers: Registry, channels: Index, after: Index, subscriptions: nat, active: nat, nextId: nat,
        id: nat)
    requires Consistent(subscribers, channels, subscriptions, active, nextId) && id in subscribers
    requires Withdrawn(channels, after, id, subscribers[id])
    ensures |subscribers[id]| <= subscriptions && (subscribers[id] != {} ==> 1 <= active)
    ensures Consistent(subscribers - {id}, after, subscriptions - |subscribers[id]|,
                       active - (if subscribers[id] == {} then 0 else 1), nextId)
  {
    hide Agree, Tally;
    TallySet(subscribers, id, {}, nextId);
    TallyGone(subscribers, id, nextId);
    AgreeGone(subscribers, channels, after, id);
  }

  /** Every connected client has what it is due, or was cut off when a message did not fit. */
  ghost predicate AllServed(
    trace: seq<Event>, subscribers: Registry, boxes: map<nat, Mailbox>, got: map<nat, seq<Message>>,
    lost: map<nat, nat>, nextId: nat)
  {
    && subscribers.Keys <= boxes.Keys <= got.Keys
    && (forall id :: id in boxes ==> id < nextId)
    && (forall id :: id in subscribers ==> Served(trace, id, subscribers[id], boxes[id], got[id]))
    && (forall id :: id in boxes && id !in subscribers ==>
          id in lost && Overran(trace, id, boxes[id], got[id], lost[id]))
    && (forall id: nat :: id >= nextId ==> Unused(trace, id))
  }

  /** One client's own event, and nothing changes for the others. */
  lemma OwnEvent(
      trace: seq<Event>, subscribers: Registry, boxes: map<nat, Mailbox>, got: map<nat, seq<Message>>,
      lost: map<nat, nat>, nextId: nat, e: Event, id: nat, channels: set<Bytes>, box: Mailbox, mine: seq<Message>)
    requires AllServed(trace, subscribers, boxes, got, lost, nextId) && id in subscribers
    requires Concerns(e, id) && Served(trace + [e], id, channels, box, mine)
    ensures AllServed(trace + [e], subscribers[id := channels], boxes[id := box], got[id := mine], lost, nextId)
  {
    hide Channels, Taken, Due;
    forall j: nat | j != id
      ensures Channels(trace + [e], j) == Channels(trace, j) && Taken(trace + [e], j) == Taken(trace, j)
      ensures Due(trace + [e], j) == Due(trace, j)
    {
      Unconcerned(trace, e, j);
    }
    forall j | j in subscribers && j != id ensures Served(trace + [e], j, subscribers[j], boxes[j], got[j]) {
      assert Served(trace, j, subscribers[j], boxes[j], got[j]);
    }
    forall j | j in boxes && j !in subscribers ensures j in lost && Overran(trace + [e], j, boxes[j], got[j], lost[j]) {
      OverranStays(trace, e, j, boxes[j], got[j], lost[j]);
    }
    forall j: nat | j >= nextId ensures Unused(trace + [e], j) {
      assert Unused(trace, j);
    }
  }

  /** A change of membership alone. */
  lemma Rejoined(
      trace: seq<Event>, subscribers: Registry, boxes: map<nat, Mailbox>, got: map<nat, seq<Message>>,
      lost: map<nat, nat>, nextId: nat, e: Event, id: nat, channels: set<Bytes>)
    requires AllServed(trace, subscribers, boxes, got, lost, nextId) && id in subscribers
    requires e.Joined? || e.Left?
    requires e.id == id
    requires e.Joined? ==> channels == subscribers[id] + {e.channel} && |channels| <= boxes[id].limit
    requires e.Left? ==> channels == subscribers[id] - {e.channel}
    ensures AllServed(trace + [e], subscribers[id := channels], boxes, got, lost, nextId)
  {
    hide Served, Overran, Unused;
    if e.Joined? {
      JoinedOwn(trace, id, subscribers[id], boxes[id], got[id], e.channel);
    } else {
      LeftOwn(trace, id, subscribers[id], boxes[id], got[id], e.channel);
    }
    OwnEvent(trace, subscribers, boxes, got, lost, nextId, e, id, channels, boxes[id], got[id]);
    assert boxes[id := boxes[id]] == boxes && got[id := got[id]] == got;
  }

  lemma HandedOver(
      trace: seq<Event>, subscribers: Registry, boxes: map<nat, Mailbox>, got: map<nat, seq<Message>>,
      lost: map<nat, nat>, nextId: nat, id: nat, n: nat)
    requires AllServed(trace, subscribers, boxes, got, lost, nextId) && id in boxes && n <= |boxes[id].pending|
    ensures id in got
    ensures AllServed(trace + [Took(id, n)], subscribers, boxes[id := boxes[id].(pending := boxes[id].pending[n..])],
                      got[id := got[id] + boxes[id].pending[..n]], lost, nextId)
  {
    hide Channels, Taken, Due;
    var box, e := boxes[id], Took(id, n);
    var after, mine := box.(pending := box.pending[n..]), got[id] + box.pending[..n];
    if id in subscribers {
      TookOwn(trace, id, subscribers[id], box, got[id], n);
      OwnEvent(trace, subscribers, boxes, got, lost, nextId, e, id, subscribers[id], after, mine);
      assert subscribers[id := subscribers[id]] == subscribers;
    } else {
      OverranStays(trace, e, id, box, got[id], lost[id]);
      assert mine + after.pending == got[id] + box.pending;
      Elsewhere(trace, subscribers, boxes, got, lost, nextId, e, id, after, mine);
    }
  }

  /** An evicted client's own event, and nothing changes for the others. */
  lemma Elsewhere(
      trace: seq<Event>, subscribers: Registry, boxes: map<nat, Mailbox>, got: map<nat, seq<Message>>,
      lost: map<nat, nat>, nextId: nat, e: Event, id: nat, box: Mailbox, mine: seq<Message>)
    requires AllServed(trace, subscribers, boxes, got, lost, nextId) && id in boxes && id !in subscribers
    requires Concerns(e, id) && id in lost && Overran(trace + [e], id, box, mine, lost[id])
    ensures AllServed(trace + [e], subscribers, boxes[id := box], got[id := mine], lost, nextId)
  {
    hide Channels, Taken, Due;
    forall j | j in subscribers ensures Served(trace + [e], j, subscribers[j], boxes[j], got[j]) {
      Unconcerned(trace, e, j);
    }
    forall j | j in boxes && j !in subscribers && j != id
      ensures j in lost && Overran(trace + [e], j, boxes[j], got[j], lost[j])
    {
      OverranStays(trace, e, j, boxes[j], got[j], lost[j]);
    }
    forall j: nat | j >= nextId ensures Unused(trace + [e], j) {
      assert Unused(trace, j);
      Unconcerned(trace, e, j);
    }
  }

  lemma WithdrawnUnread(
      trace: seq<Event>, subscribers: Registry, boxes: map<nat, Mailbox>, got: map<nat, seq<Message>>,
      lost: map<nat, nat>, nextId: nat, id: nat, allowed: Bytes -> bool)
    requires AllServed(trace, subscribers, boxes, got, lost, nextId) && id in subscribers
    requires Permitted(subscribers[id], allowed) == subscribers[id]
    ensures AllServed(trace + [Reloaded(id, allowed)], subscribers,
                      boxes[id := boxes[id].(pending := Keeping(boxes[id].pending, allowed))], got, lost, nextId)
  {
    hide Channels, Taken, Due, Overran, Served;
    var box := boxes[id].(pending := Keeping(boxes[id].pending, allowed));
    ReloadedOwn(trace, id, subscribers[id], boxes[id], got[id], allowed);
    OwnEvent(trace, subscribers, boxes, got, lost, nextId, Reloaded(id, allowed), id, subscribers[id], box, got[id]);
    assert subscribers[id := subscribers[id]] == subscribers && got[id := got[id]] == got;
  }

  lemma Emptied(
      trace: seq<Event>, subscribers: Registry, boxes: map<nat, Mailbox>, got: map<nat, seq<Message>>,
      lost: map<nat, nat>, nextId: nat, id: nat)
    requires AllServed(trace, subscribers, boxes, got, lost, nextId) && id in boxes && id !in subscribers
    ensures AllServed(trace, subscribers, boxes[id := boxes[id].(pending := [])], got, lost, nextId)
  {
    hide Channels, Taken, Due, Served, Unused;
    assert got[id] + [] == got[id] && got[id] <= got[id] + boxes[id].pending;
  }

  lemma Forgotten(
      trace: seq<Event>, subscribers: Registry, boxes: map<nat, Mailbox>, got: map<nat, seq<Message>>,
      lost: map<nat, nat>, nextId: nat, id: nat)
    requires AllServed(trace, subscribers, boxes, got, lost, nextId)
    ensures AllServed(trace, subscribers - {id}, boxes - {id}, got, lost, nextId)
  {
    hide Served, Overran, Unused;
  }

  lemma LeftAllowed(mine: set<Bytes>, revoked: seq<Bytes>, allowed: Bytes -> bool)
    requires Each(revoked) == mine - Permitted(mine, allowed)
    ensures mine - Each(revoked) == Permitted(mine, allowed)
    ensures Permitted(Permitted(mine, allowed), allowed) == Permitted(mine, allowed)
    ensures revoked == [] ==> Permitted(mine, allowed) == mine
  {
    assert revoked == [] ==> Each(revoked) == {};
  }

  lemma Welcome(
      trace: seq<Event>, subscribers: Registry, channels: Index, boxes: map<nat, Mailbox>,
      got: map<nat, seq<Message>>, lost: map<nat, nat>, id: nat, box: Mailbox)
    requires AllServed(trace, subscribers, boxes, got, lost, id) && Agree(subscribers, channels) && box.pending == []
    ensures AllServed(trace, subscribers[id := {}], boxes[id := box], got[id := []], lost, id + 1)
    ensures Agree(subscribers[id := {}], channels)
  {
    hide Overran, Channels, Taken, Due;
    assert id !in boxes && Unused(trace, id);
  }

  // ---------- The hub ----------

  datatype Failure = ChannelLimit | Closed

  const MAX_ID: nat := 0xffff_ffff_ffff_ffff

  /** The channels of a list, each once. */
  function Each(cs: seq<Bytes>): set<Bytes> {
    set c | c in cs
  }

  lemma NoneListed(mine: set<Bytes>, cs: seq<Bytes>)
    ensures mine + Each(cs[..0]) == mine && mine - Each(cs[..0]) == mine
  {
  }

  lemma PlusEach(mine: set<Bytes>, cs: seq<Bytes>, i: nat)
    requires i < |cs|
    ensures mine + Each(cs[..i]) + {cs[i]} == mine + Each(cs[..i + 1])
    ensures |mine + Each(cs[..i + 1])| <= |mine + Each(cs)|
    ensures cs[..i + 1][..i] == cs[..i] && cs[..i + 1][i] == cs[i]
  {
    SubsetSize(mine + Each(cs[..i + 1]), mine + Each(cs));
  }

  lemma LessEach(mine: set<Bytes>, cs: seq<Bytes>, i: nat)
    requires i < |cs|
    ensures mine - Each(cs[..i]) - {cs[i]} == mine - Each(cs[..i + 1])
  {
  }

  lemma LeavesNext(id: nat, cs: seq<Bytes>, i: nat)
    requires i < |cs|
    ensures Leaves(id, cs[..i + 1]) == Leaves(id, cs[..i]) + [Left(id, cs[i])]
  {
    assert cs[..i + 1][..i] == cs[..i];
  }

  /** How many channels are left after each one listed. */
  ghost function Remaining(mine: set<Bytes>, cs: seq<Bytes>): seq<nat> {
    if cs == [] then [] else Remaining(mine, cs[..|cs| - 1]) + [|mine - Each(cs)|]
  }

  lemma RemainingNext(mine: set<Bytes>, cs: seq<Bytes>, i: nat)
    requires i < |cs|
    ensures Remaining(mine, cs[..i + 1]) == Remaining(mine, cs[..i]) + [|mine - Each(cs[..i]) - {cs[i]}|]
  {
    hide Each;
    LessEach(mine, cs, i);
    assert cs[..i + 1][..i] == cs[..i];
  }

  lemma {:induction false} RemainingAt(mine: set<Bytes>, cs: seq<Bytes>)
    ensures |Remaining(mine, cs)| == |cs|
    ensures forall i :: 0 <= i < |cs| ==> Remaining(mine, cs)[i] == |mine - Each(cs[..i + 1])|
  {
    hide Each;
    if cs != [] {
      var n := |cs| - 1;
      RemainingAt(mine, cs[..n]);
      forall i | 0 <= i < |cs| ensures Remaining(mine, cs)[i] == |mine - Each(cs[..i + 1])| {
        if i < n {
          assert cs[..n][..i + 1] == cs[..i + 1];
        } else {
          assert cs[..i + 1] == cs;
        }
      }
    }
  }

  lemma LeavesNone(id: nat, cs: seq<Bytes>)
    ensures Leaves(id, cs[..0]) == [] && forall mine :: Remaining(mine, cs[..0]) == []
  {
  }

  ghost function Joins(id: nat, cs: seq<Bytes>): seq<Event> {
    if cs == [] then [] else Joins(id, cs[..|cs| - 1]) + [Joined(id, cs[|cs| - 1])]
  }

  ghost function Leaves(id: nat, cs: seq<Bytes>): seq<Event> {
    if cs == [] then [] else Leaves(id, cs[..|cs| - 1]) + [Left(id, cs[|cs| - 1])]
  }

  class Hub {
    var subscriptions: nat
    var active: nat
    var nextId: nat
    var subscribers: Registry
    var channels: Index
    var mailboxes: map<nat, Mailbox>
    ghost var trace: seq<Event>
    ghost var received: map<nat, seq<Message>>
    ghost var lost: map<nat, nat>

    /** Both sides of the index agree and the counters are the sums they stand for. */
    ghost predicate Indexed()
      reads this
    {
      Consistent(subscribers, channels, subscriptions, active, nextId)
    }

    ghost predicate Valid()
      reads this
    {
      && Indexed() && nextId <= MAX_ID
      && AllServed(trace, subscribers, mailboxes, received, lost, nextId)
    }

    constructor ()
      ensures Valid() && trace == [] && mailboxes == map[]
    {
      subscriptions, active, nextId := 0, 0, 0;
      subscribers, channels, mailboxes := map[], map[], map[];
      trace, received, lost := [], map[], map[];
    }

    method Connect(limit: nat, capacity: nat) returns (r: Option<nat>)
      requires Valid() && capacity > 0
      modifies this
      ensures Valid() && trace == old(trace) && channels == old(channels)
      ensures r.None? <==> old(nextId) == MAX_ID
      ensures r.None? ==> mailboxes == old(mailboxes) && subscribers == old(subscribers)
      ensures r.Some? ==> && r.value !in old(mailboxes)
                          && mailboxes == old(mailboxes)[r.value := Mailbox(capacity, limit, [])]
                          && subscribers == old(subscribers)[r.value := {}]
    {
      hide AllServed, Agree, Tally;
      if nextId == MAX_ID {
        return None;
      }
      var id := nextId;
      Registered();
      TallyGrows(Subscriptions, subscribers, id);
      TallyGrows(ActiveSubscribers, subscribers, id);
      Welcome(trace, subscribers, channels, mailboxes, received, lost, id, Mailbox(capacity, limit, []));
      nextId := id + 1;
      subscribers := subscribers[id := {}];
      mailboxes := mailboxes[id := Mailbox(capacity, limit, [])];
      received := received[id := []];
      r := Some(id);
    }

    /** One membership more, on both sides of the index and in the counters. */
    method Enter(id: nat, c: Bytes) returns (count: nat)
      requires Valid() && id in subscribers && id in mailboxes && |subscribers[id] + {c}| <= mailboxes[id].limit
      modifies this
      ensures Valid() && count == |old(subscribers)[id] + {c}|
      ensures subscribers == old(subscribers)[id := old(subscribers)[id] + {c}]
      ensures trace == old(trace) + [Joined(id, c)]
      ensures mailboxes == old(mailboxes) && received == old(received) && lost == old(lost) && nextId == old(nextId)
    {
      hide AllServed, Consistent, Served, Members, Withdrawn;
      Registered();
      IsServed(id);
      var mine := subscribers[id];
      var grown := mine + {c};
      Rejoined(trace, subscribers, mailboxes, received, lost, nextId, Joined(id, c), id, grown);
      Entered(subscribers, channels, subscriptions, active, nextId, id, c);
      subscribers := subscribers[id := grown];
      if c !in mine {
        subscriptions := subscriptions + 1;
        if |grown| == 1 {
          active := active + 1;
        }
      }
      channels := channels[c := Members(channels, c) + {id}];
      trace := trace + [Joined(id, c)];
      count := |grown|;
    }

    /** One membership less; a channel without members is forgotten. */
    method Exit(id: nat, c: Bytes) returns (count: nat)
      requires Valid() && id in subscribers
      modifies this
      ensures Valid() && count == |old(subscribers)[id] - {c}|
      ensures subscribers == old(subscribers)[id := old(subscribers)[id] - {c}]
      ensures trace == old(trace) + [Left(id, c)]
      ensures mailboxes == old(mailboxes) && received == old(received) && lost == old(lost) && nextId == old(nextId)
    {
      hide AllServed, Consistent, Served, Members, Withdrawn;
      Registered();
      IsServed(id);
      var mine := subscribers[id];
      var rest := mine - {c};
      Rejoined(trace, subscribers, mailboxes, received, lost, nextId, Left(id, c), id, rest);
      ghost var was := channels;
      Withdraw(id, c);
      Exited(subscribers, was, channels, subscriptions, active, nextId, id, c);
      subscribers := subscribers[id := rest];
      if c in mine {
        subscriptions := subscriptions - 1;
        if rest == {} {
          active := active - 1;
        }
      }
      trace := trace + [Left(id, c)];
      count := |rest|;
    }

    /** Takes a client out of a channel's member set. */
    method Withdraw(id: nat, c: Bytes)
      modifies this`channels
      ensures Withdrawn(old(channels), channels, id, {c})
    {
      if c in channels {
        var members := channels[c] - {id};
        if members == {} {
          channels := channels - {c};
        } else {
          channels := channels[c := members];
        }
      }
    }

    /** Hands over what is queued, in order. */
    method Drain(id: nat) returns (ms: seq<Message>)
      requires Valid() && id in subscribers
      modifies this
      ensures Valid() && id in old(received) && ms == old(mailboxes)[id].pending
      ensures mailboxes == old(mailboxes)[id := old(mailboxes)[id].(pending := [])]
      ensures received == old(received)[id := old(received)[id] + ms]
      ensures trace == old(trace) + [Took(id, |ms|)]
      ensures subscribers == old(subscribers) && channels == old(channels) && lost == old(lost) && nextId == old(nextId)
    {
      hide AllServed, Consistent, Served, Members, Withdrawn;
      Registered();
      IsServed(id);
      var box := mailboxes[id];
      ms := box.pending;
      TookOwn(trace, id, subscribers[id], box, received[id], |ms|);
      assert ms[|ms|..] == [] && ms[..|ms|] == ms;
      OwnEvent(trace, subscribers, mailboxes, received, lost, nextId, Took(id, |ms|), id, subscribers[id],
               box.(pending := []), received[id] + ms);
      assert subscribers[id := subscribers[id]] == subscribers;
      mailboxes := mailboxes[id := box.(pending := [])];
      received := received[id := received[id] + ms];
      trace := trace + [Took(id, |ms|)];
    }

    /** Joins each listed channel, answering with how many there are now. */
    method EnterAll(id: nat, cs: seq<Bytes>) returns (counts: seq<nat>)
      requires Valid() && id in subscribers && id in mailboxes
      requires |subscribers[id] + Each(cs)| <= mailboxes[id].limit
      modifies this
      ensures Valid() && subscribers == old(subscribers)[id := old(subscribers)[id] + Each(cs)]
      ensures mailboxes == old(mailboxes) && received == old(received) && lost == old(lost) && nextId == old(nextId)
      ensures trace == old(trace) + Joins(id, cs)
      ensures |counts| == |cs|
      ensures forall i :: 0 <= i < |cs| ==> counts[i] == |old(subscribers)[id] + Each(cs[..i + 1])|
    {
      hide Valid, Each;
      counts := [];
      var mine := subscribers[id];
      NoneListed(mine, cs);
      for i := 0 to |cs|
        invariant Valid() && id in subscribers
        invariant subscribers == old(subscribers)[id := mine + Each(cs[..i])]
        invariant mailboxes == old(mailboxes) && received == old(received) && lost == old(lost) && nextId == old(nextId)
        invariant trace == old(trace) + Joins(id, cs[..i]) && |counts| == i
        invariant forall j :: 0 <= j < i ==> counts[j] == |mine + Each(cs[..j + 1])|
      {
        PlusEach(mine, cs, i);
        var count := Enter(id, cs[i]);
        counts := counts + [count];
      }
      assert cs[..|cs|] == cs;
    }

    /**
     * Joins every channel of the list. A list that would exceed the client's limit is
     * refused and changes nothing; queued messages come out before the confirmations.
     */
    method Subscribe(id: nat, cs: seq<Bytes>, drain: bool)
          returns (r: Option<Failure>, drained: seq<Message>, counts: seq<nat>)
      requires Valid() && id in mailboxes
      modifies this
      ensures Valid()
      ensures r == Some(Closed) <==> id !in old(subscribers)
      ensures r == Some(ChannelLimit) <==>
                id in old(subscribers) && |old(subscribers)[id] + Each(cs)| > old(mailboxes)[id].limit
      ensures r.Some? ==> && trace == old(trace) && subscribers == old(subscribers) && channels == old(channels)
                          && mailboxes == old(mailboxes) && received == old(received)
      ensures r.None? ==> && id in old(received)
                          && subscribers == old(subscribers)[id := old(subscribers)[id] + Each(cs)]
                          && drained == (if drain then old(mailboxes)[id].pending else [])
                          && received == old(received)[id := old(received)[id] + drained]
                          && mailboxes == (if drain then old(mailboxes)[id := old(mailboxes)[id].(pending := [])]
                                           else old(mailboxes))
                          && trace == old(trace) + (if drain then [Took(id, |drained|)] else []) + Joins(id, cs)
                          && |counts| == |cs|
                          && forall i :: 0 <= i < |cs| ==> counts[i] == |old(subscribers)[id] + Each(cs[..i + 1])|
    {
      hide Valid;
      drained, counts := [], [];
      if id !in subscribers {
        return Some(Closed), [], [];
      }
      Registered();
      var mine := subscribers[id];
      if |mine + Each(cs)| > mailboxes[id].limit {
        return Some(ChannelLimit), [], [];
      }
      if drain {
        drained := Drain(id);
      } else {
        assert received[id] + [] == received[id];
      }
      counts := EnterAll(id, cs);
      r := None;
    }

    lemma Registered()
      requires Valid()
      ensures subscribers.Keys <= mailboxes.Keys <= received.Keys
      ensures forall id :: id in mailboxes ==> id < nextId
    {
    }

    lemma IsServed(id: nat)
      requires Valid() && id in subscribers
      ensures id in mailboxes && id in received
      ensures Served(trace, id, subscribers[id], mailboxes[id], received[id])
    {
    }

    /** The channels of a set, in some order. */
    method Listed(channels: set<Bytes>) returns (cs: seq<Bytes>)
      ensures Each(cs) == channels
    {
      cs := [];
      var rest := channels;
      while rest != {}
        invariant rest <= channels && Each(cs) == channels - rest
        decreases |rest|
      {
        var c :| c in rest;
        assert Each(cs + [c]) == Each(cs) + {c};
        rest, cs := rest - {c}, cs + [c];
      }
    }

    /** Leaves each listed channel, answering with what remains. */
    method ExitAll(id: nat, cs: seq<Bytes>) returns (counts: seq<nat>)
      requires Valid() && id in subscribers
      modifies this
      ensures Valid() && subscribers == old(subscribers)[id := old(subscribers)[id] - Each(cs)]
      ensures mailboxes == old(mailboxes) && received == old(received) && lost == old(lost) && nextId == old(nextId)
      ensures trace == old(trace) + Leaves(id, cs)
      ensures |counts| == |cs|
      ensures forall i :: 0 <= i < |cs| ==> counts[i] == |old(subscribers)[id] - Each(cs[..i + 1])|
    {
      hide Valid, Each, Leaves, Remaining;
      counts := [];
      var mine := subscribers[id];
      NoneListed(mine, cs);
      LeavesNone(id, cs);
      for i := 0 to |cs|
        invariant Valid() && id in subscribers
        invariant subscribers == old(subscribers)[id := mine - Each(cs[..i])]
        invariant mailboxes == old(mailboxes) && received == old(received) && lost == old(lost) && nextId == old(nextId)
        invariant trace == old(trace) + Leaves(id, cs[..i]) && counts == Remaining(mine, cs[..i])
      {
        LessEach(mine, cs, i);
        LeavesNext(id, cs, i);
        RemainingNext(mine, cs, i);
        var count := Exit(id, cs[i]);
        counts := counts + [count];
      }
      assert cs[..|cs|] == cs;
      RemainingAt(mine, cs);
    }

    /** Leaves the listed channels, or all of them when the list is empty. */
    method Unsubscribe(id: nat, cs: seq<Bytes>, drain: bool)
      returns (closed: bool, drained: seq<Message>, left: seq<Bytes>, counts: seq<nat>)
      requires Valid() && id in mailboxes
      modifies this
      ensures Valid() && (closed <==> id !in old(subscribers))
      ensures closed ==> && trace == old(trace) && subscribers == old(subscribers) && channels == old(channels)
                         && mailboxes == old(mailboxes) && received == old(received)
      ensures !closed ==> && id in old(received)
                          && (cs != [] ==> left == cs) && (cs == [] ==> Each(left) == old(subscribers)[id])
                          && drained == (if drain then old(mailboxes)[id].pending else [])
                          && received == old(received)[id := old(received)[id] + drained]
                          && mailboxes == (if drain then old(mailboxes)[id := old(mailboxes)[id].(pending := [])]
                                           else old(mailboxes))
                          && subscribers == old(subscribers)[id := old(subscribers)[id] - Each(left)]
                          && trace == old(trace) + (if drain then [Took(id, |drained|)] else []) + Leaves(id, left)
      ensures !closed && left == [] ==> counts == [0]
      ensures !closed && left != [] ==>
                && |counts| == |left|
                && forall i :: 0 <= i < |left| ==> counts[i] == |old(subscribers)[id] - Each(left[..i + 1])|
    {
      hide Valid;
      drained, left, counts := [], cs, [];
      if id !in subscribers {
        return true, [], [], [];
      }
      Registered();
      if left == [] {
        left := Listed(subscribers[id]);
      }
      if drain {
        drained := Drain(id);
      } else {
        assert received[id] + [] == received[id];
      }
      counts := ExitAll(id, left);
      if left == [] {
        counts := [0];
      }
      closed := false;
    }

    /** Removes a client from the registry and from every channel it was in. */
    method Remove(id: nat)
      requires Indexed()
      modifies this`subscriptions, this`active, this`subscribers, this`channels
      ensures Indexed() && subscribers == old(subscribers) - {id}
    {
      hide Consistent, Withdrawn;
      if id in subscribers {
        var mine := subscribers[id];
        ghost var was := channels;
        var rest := mine;
        NoneWithdrawn(was, id, mine);
        while rest != {}
          invariant rest <= mine && Withdrawn(was, channels, id, mine - rest)
          invariant subscribers == old(subscribers) && subscriptions == old(subscriptions) && active == old(active)
          decreases |rest|
        {
          var c :| c in rest;
          ghost var now := channels;
          Withdraw(id, c);
          WithdrawnMore(was, now, channels, id, mine - rest, c);
          assert (mine - rest) + {c} == mine - (rest - {c});
          rest := rest - {c};
        }
        assert mine - {} == mine;
        Vanished(subscribers, was, channels, subscriptions, active, nextId, id);
        subscribers := subscribers - {id};
        subscriptions := subscriptions - |mine|;
        active := active - (if mine == {} then 0 else 1);
      } else {
        assert subscribers - {id} == subscribers;
      }
    }

    /**
     * Publishes to every member. A member with room gets the message at the end of its
     * queue; one without is removed from every channel; nobody else is touched.
     */
    method Publish(m: Message) returns (accepted: nat)
      requires Valid()
      modifies this
      ensures Valid() && trace == old(trace) + [Published(m)] && received == old(received)
      ensures mailboxes.Keys == old(mailboxes).Keys
      ensures forall id :: id in old(mailboxes) ==>
                mailboxes[id] == Offered(old(mailboxes)[id], m, id in Members(old(channels), m.channel))
      ensures forall id :: id in subscribers <==>
                id in old(subscribers) && !(id in Members(old(channels), m.channel) && Full(old(mailboxes)[id]))
      ensures forall id :: id in subscribers ==> subscribers[id] == old(subscribers)[id]
      ensures accepted == |Sent(old(mailboxes), Members(old(channels), m.channel), {})|
    {
      hide Consistent, AllServed, Members, Reached, Cut, Full, Offered;
      Registered();
      MembersRegistered(m.channel);
      var members := Members(channels, m.channel);
      var rest := members;
      accepted := 0;
      ghost var boxes, subs := mailboxes, subscribers;
      ReachedNone(subs, boxes, m, members);
      while rest != {}
        invariant rest <= members && Indexed() && nextId == old(nextId)
        invariant trace == old(trace) && received == old(received) && lost == old(lost)
        invariant Reached(subs, subscribers, boxes, mailboxes, m, members, rest)
        invariant accepted == |Sent(boxes, members, rest)|
        decreases |rest|
      {
        var id :| id in rest;
        ReachedNext(subs, subscribers, boxes, mailboxes, m, members, rest, id);
        var sent := Offer(id, m);
        SentNext(boxes, members, rest, id);
        if sent {
          accepted := accepted + 1;
        }
        rest := rest - {id};
      }
      FanOut(trace, subs, subscribers, boxes, mailboxes, received, lost, nextId, m, members);
      ReachedAll(subs, subscribers, boxes, mailboxes, m, members);
      lost := Cut(lost, subs, boxes, members, |trace|);
      trace := trace + [Published(m)];
    }

    /** One member: the message is queued, or the client is removed. */
    method Offer(id: nat, m: Message) returns (sent: bool)
      requires Indexed() && id in mailboxes
      modifies this`mailboxes, this`subscriptions, this`active, this`subscribers, this`channels
      ensures Indexed() && sent == !Full(old(mailboxes)[id])
      ensures mailboxes == old(mailboxes)[id := Offered(old(mailboxes)[id], m, true)]
      ensures subscribers == if sent then old(subscribers) else old(subscribers) - {id}
    {
      hide Consistent;
      var box := mailboxes[id];
      sent := |box.pending| < box.capacity;
      if sent {
        mailboxes := mailboxes[id := box.(pending := box.pending + [m])];
      } else {
        Remove(id);
        assert mailboxes[id := box] == mailboxes;
      }
    }

    /** Reads one message; an evicted client may still read what it holds. */
    method Receive(id: nat) returns (r: Option<Message>)
      requires Valid() && id in mailboxes
      modifies this
      ensures Valid() && subscribers == old(subscribers) && channels == old(channels) && id in old(received)
      ensures r.None? <==> old(mailboxes)[id].pending == []
      ensures r.None? ==> mailboxes == old(mailboxes) && received == old(received) && trace == old(trace)
      ensures r.Some? ==>
                && old(mailboxes)[id].pending != [] && r.value == old(mailboxes)[id].pending[0]
                && mailboxes == old(mailboxes)[id := old(mailboxes)[id].(pending := old(mailboxes)[id].pending[1..])]
                && received == old(received)[id := old(received)[id] + [r.value]]
                && trace == old(trace) + [Took(id, 1)]
    {
      hide AllServed, Consistent;
      Registered();
      var box := mailboxes[id];
      if box.pending == [] {
        return None;
      }
      HandedOver(trace, subscribers, mailboxes, received, lost, nextId, id, 1);
      assert box.pending[..1] == [box.pending[0]];
      mailboxes := mailboxes[id := box.(pending := box.pending[1..])];
      received := received[id := received[id] + [box.pending[0]]];
      trace := trace + [Took(id, 1)];
      r := Some(box.pending[0]);
    }

    /** The queued messages a policy still allows, in order. */
    method Retained(ms: seq<Message>, allowed: Bytes -> bool) returns (kept: seq<Message>)
      ensures kept == Keeping(ms, allowed)
    {
      kept := [];
      for i := 0 to |ms|
        invariant kept == Keeping(ms[..i], allowed)
      {
        assert ms[..i + 1][..i] == ms[..i];
        if allowed(ms[i].channel) {
          kept := kept + [ms[i]];
        }
      }
      assert ms[..|ms|] == ms;
    }

    /** The client's channels a policy no longer allows. */
    method Revoked(mine: set<Bytes>, allowed: Bytes -> bool) returns (cs: seq<Bytes>)
      ensures Each(cs) == mine - Permitted(mine, allowed)
    {
      cs := [];
      var rest := mine;
      while rest != {}
        invariant rest <= mine && Each(cs) == (mine - rest) - Permitted(mine, allowed)
        decreases |rest|
      {
        var c :| c in rest;
        if !allowed(c) {
          assert Each(cs + [c]) == Each(cs) + {c};
          cs := cs + [c];
        }
        rest := rest - {c};
      }
    }

    /** A policy reload: forbidden channels are left and their unread messages withdrawn. */
    method Revalidate(id: nat, allowed: Bytes -> bool) returns (revoked: seq<Bytes>)
      requires Valid() && id in mailboxes
      modifies this
      ensures Valid() && received == old(received)
      ensures id in old(subscribers) ==>
                && Each(revoked) == old(subscribers)[id] - Permitted(old(subscribers)[id], allowed)
                && trace == old(trace) + Leaves(id, revoked) + [Reloaded(id, allowed)]
                && subscribers == old(subscribers)[id := Permitted(old(subscribers)[id], allowed)]
                && var box := old(mailboxes)[id];
                mailboxes == old(mailboxes)[id := box.(pending := Keeping(box.pending, allowed))]
      ensures id !in old(subscribers) ==>
                && trace == old(trace) && subscribers == old(subscribers)
                && mailboxes == old(mailboxes)[id := old(mailboxes)[id].(pending := [])]
    {
      hide AllServed, Consistent, Each, Permitted;
      Registered();
      var box := mailboxes[id];
      if id in subscribers {
        var mine := subscribers[id];
        revoked := Revoked(mine, allowed);
        var retained := Retained(box.pending, allowed);
        LeftAllowed(mine, revoked, allowed);
        if revoked != [] {
          var counts := ExitAll(id, revoked);
        }
        assert subscribers == old(subscribers)[id := Permitted(mine, allowed)];
        Registered();
        WithdrawnUnread(trace, subscribers, mailboxes, received, lost, nextId, id, allowed);
        trace := trace + [Reloaded(id, allowed)];
        mailboxes := mailboxes[id := box.(pending := retained)];
      } else {
        Emptied(trace, subscribers, mailboxes, received, lost, nextId, id);
        mailboxes := mailboxes[id := box.(pending := [])];
        revoked := [];
      }
    }

    /** The connection ends: no trace of it stays in the index. */
    method Disconnect(id: nat)
      requires Valid() && id in mailboxes
      modifies this
      ensures Valid() && trace == old(trace) && received == old(received)
      ensures subscribers == old(subscribers) - {id} && mailboxes == old(mailboxes) - {id}
    {
      hide AllServed, Consistent;
      Forgotten(trace, subscribers, mailboxes, received, lost, nextId, id);
      Remove(id);
      mailboxes := mailboxes - {id};
    }

    /** A channel's members are exactly the clients that belong to it. */
    lemma MembersRegistered(c: Bytes)
      requires Valid()
      ensures forall id :: id in Members(channels, c) <==> id in subscribers && c in subscribers[id]
    {
    }
  }

  // ---------- Fan-out ----------

  predicate Full(box: Mailbox) { |box.pending| >= box.capacity }

  function Offered(box: Mailbox, m: Message, member: bool): Mailbox {
    if member && !Full(box) then box.(pending := box.pending + [m]) else box
  }

  /** Where a fan-out stands: the members outside `rest` have been offered the message. */
  ghost predicate Reached(
    subs: Registry, now: Registry, boxes: map<nat, Mailbox>, nowBoxes: map<nat, Mailbox>, m: Message,
    members: set<nat>, rest: set<nat>)
  {
    && rest <= members <= subs.Keys <= boxes.Keys && nowBoxes.Keys == boxes.Keys
    && (forall id :: id in boxes ==> nowBoxes[id] == Offered(boxes[id], m, id in members && id !in rest))
    && (forall id :: id in now <==> id in subs && !(id in members && id !in rest && Full(boxes[id])))
    && (forall id :: id in now ==> now[id] == subs[id])
  }

  lemma ReachedNone(subs: Registry, boxes: map<nat, Mailbox>, m: Message, members: set<nat>)
    requires members <= subs.Keys <= boxes.Keys
    ensures Reached(subs, subs, boxes, boxes, m, members, members)
    ensures Sent(boxes, members, members) == {}
  {
  }

  lemma ReachedAll(
      subs: Registry, now: Registry, boxes: map<nat, Mailbox>, nowBoxes: map<nat, Mailbox>, m: Message,
          members: set<nat>)
    requires Reached(subs, now, boxes, nowBoxes, m, members, {})
    ensures nowBoxes.Keys == boxes.Keys && now.Keys <= subs.Keys <= boxes.Keys
    ensures forall id :: id in boxes ==> nowBoxes[id] == Offered(boxes[id], m, id in members)
    ensures forall id :: id in now <==> id in subs && !(id in members && Full(boxes[id]))
    ensures forall id :: id in now ==> now[id] == subs[id]
  {
    hide Offered, Full;
  }

  /** The members that had room, among those offered the message. */
  function Sent(boxes: map<nat, Mailbox>, members: set<nat>, rest: set<nat>): set<nat> {
    set id | id in members && id !in rest && id in boxes && !Full(boxes[id])
  }

  lemma SentNext(boxes: map<nat, Mailbox>, members: set<nat>, rest: set<nat>, id: nat)
    requires id in rest && rest <= members && id in boxes
    ensures |Sent(boxes, members, rest - {id})| == |Sent(boxes, members, rest)| + if Full(boxes[id]) then 0 else 1
  {
    var before, after := Sent(boxes, members, rest), Sent(boxes, members, rest - {id});
    assert id !in before;
    assert after == if Full(boxes[id]) then before else before + {id};
  }

  lemma ReachedNext(
      subs: Registry, now: Registry, boxes: map<nat, Mailbox>, nowBoxes: map<nat, Mailbox>, m: Message,
      members: set<nat>, rest: set<nat>, id: nat)
    requires Reached(subs, now, boxes, nowBoxes, m, members, rest) && id in rest
    ensures id in now && id in boxes && id in nowBoxes && nowBoxes[id] == boxes[id]
    ensures Reached(subs, if Full(boxes[id]) then now - {id} else now, boxes,
                    nowBoxes[id := Offered(boxes[id], m, true)], m, members, rest - {id})
  {
  }

  /** Newly removed clients overran at this publication. */
  ghost function Cut(lost: map<nat, nat>, subs: Registry, boxes: map<nat, Mailbox>, members: set<nat>,
        p: nat): map<nat, nat> {
    lost + map id | id in subs && id in members && id in boxes && Full(boxes[id]) :: p
  }

  lemma FanOut(
      trace: seq<Event>, subs: Registry, now: Registry, boxes: map<nat, Mailbox>, nowBoxes: map<nat, Mailbox>,
      got: map<nat, seq<Message>>, lost: map<nat, nat>, nextId: nat, m: Message, members: set<nat>)
    requires AllServed(trace, subs, boxes, got, lost, nextId)
    requires Reached(subs, now, boxes, nowBoxes, m, members, {})
    requires forall id :: id in members <==> id in subs && m.channel in subs[id]
    ensures AllServed(trace + [Published(m)], now, nowBoxes, got, Cut(lost, subs, boxes, members, |trace|), nextId)
  {
    hide Channels, Taken, Due, Overran, Served;
    var after, cut := trace + [Published(m)], Cut(lost, subs, boxes, members, |trace|);
    forall id | id in now ensures Served(after, id, now[id], nowBoxes[id], got[id]) {
      OfferedServed(trace, m, id, subs[id], boxes[id], got[id]);
    }
    forall id | id in nowBoxes && id !in now
      ensures id in cut && Overran(after, id, nowBoxes[id], got[id], cut[id])
    {
      if id in subs {
        OfferedFull(trace, m, id, subs[id], boxes[id], got[id]);
      } else {
        OverranStays(trace, Published(m), id, boxes[id], got[id], lost[id]);
      }
    }
    forall id: nat | id >= nextId ensures Unused(after, id) {
      assert Unused(trace, id);
      PublishedFor(trace, m, id);
    }
  }

  lemma OfferedServed(trace: seq<Event>, m: Message, id: nat, channels: set<Bytes>, box: Mailbox, got: seq<Message>)
    requires Served(trace, id, channels, box, got) && (m.channel in channels ==> !Full(box))
    ensures Served(trace + [Published(m)], id, channels, Offered(box, m, m.channel in channels), got)
  {
    hide Channels, Taken, Due;
    PublishedFor(trace, m, id);
    assert got + (box.pending + [m]) == got + box.pending + [m];
  }

  lemma OfferedFull(trace: seq<Event>, m: Message, id: nat, channels: set<Bytes>, box: Mailbox, got: seq<Message>)
    requires Served(trace, id, channels, box, got) && m.channel in channels && Full(box)
    ensures Overran(trace + [Published(m)], id, box, got, |trace|)
  {
    hide Channels, Taken, Due;
    Next(trace, Published(m));
  }

  /** A new client with no channel adds nothing to the counters. */
  lemma TallyGrows(k: Counter, subscribers: Registry, id: nat)
    requires id !in subscribers
    ensures Tally(k, subscribers[id := {}], id + 1) == Tally(k, subscribers, id)
  {
    TallyChange(k, subscribers, subscribers[id := {}], id, id);
  }
}
