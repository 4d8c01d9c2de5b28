/**
 * A node's observable replication state: its role, the generation of its current session and
 * its cursor. Work is accepted for one generation only, from the moment it begins until the
 * next session or a promotion, and never again after a promotion.
 */
module Runtime {
  import opened Format
  import opened Journal
  import opened Recovery

  datatype Event = Began(generation: nat) | Promoted

  const LAST: nat := LONG - 1

  /** A counter that stops at the end of its word. */
  function Tick(n: nat): (m: nat)
    requires n <= LAST
    ensures n <= m <= LAST && (m == n <==> n == LAST)
  {
    if n < LAST then n + 1 else n
  }

  /** Generations grow with every event, and a promotion is final. */
  ghost predicate Ordered(events: seq<Event>, start: Role, role: Role, generation: nat) {
    if events == [] then role == start && generation == 0
    else
      var e, before := events[|events| - 1], events[..|events| - 1];
      && generation > 0 && generation == |events|
      && match e
         case Began(g) => g == generation && Ordered(before, start, role, generation - 1)
         case Promoted =>
           && role == Primary
           && (Ordered(before, start, Replica, generation - 1) || Ordered(before, start, Primary, generation - 1))
  }

  /** Whether work of a generation is still wanted, from what happened alone. */
  ghost predicate Wanted(events: seq<Event>, start: Role, g: nat) {
    start == Replica && Promoted !in events
    && if events == [] then g == 0 else events[|events| - 1] == Began(g)
  }

  lemma {:induction false} RoleIs(events: seq<Event>, start: Role, role: Role, generation: nat)
    requires Ordered(events, start, role, generation)
    ensures role == Replica <==> start == Replica && Promoted !in events
    ensures generation == |events|
  {
    if events != [] {
      var e, before := events[|events| - 1], events[..|events| - 1];
      assert events == before + [e];
      if e.Began? {
        RoleIs(before, start, role, generation - 1);
      }
    }
  }

  class Runtime {
    ghost const start: Role
    var role: Role
    var generation: nat
    var applied: Cursor
    var upstream: Option<nat>
    var connected: bool
    var fullSyncs: nat
    var partialSyncs: nat
    var reconnects: nat
    ghost var events: seq<Event>

    ghost predicate Valid()
      reads this
    {
      && Ordered(events, start, role, generation) && generation <= LAST
      && fullSyncs <= LAST && partialSyncs <= LAST && reconnects <= LAST
    }

    constructor (role: Role, applied: Cursor)
      ensures Valid() && events == [] && start == role && this.role == role && this.applied == applied
      ensures upstream == None && !connected && fullSyncs == partialSyncs == reconnects == 0
    {
      this.role, generation, this.applied := role, 0, applied;
      upstream, connected, fullSyncs, partialSyncs, reconnects := None, false, 0, 0, 0;
      start, events := role, [];
    }

    /** A session begins: work of every earlier generation is no longer wanted. */
    method BeginSession() returns (g: nat)
      requires Valid() && generation < LAST
      modifies this
      ensures Valid() && events == old(events) + [Began(g)] && generation == g == old(generation) + 1
      ensures role == old(role) && applied == old(applied) && upstream == old(upstream) && !connected
      ensures fullSyncs == old(fullSyncs) && partialSyncs == old(partialSyncs) && reconnects == Tick(old(reconnects))
    {
      generation := generation + 1;
      connected := false;
      reconnects := Tick(reconnects);
      g := generation;
      events := events + [Began(g)];
      assert events[..|events| - 1] == old(events);
    }

    /** Exactly the generation begun last is accepted, and only by a node never promoted. */
    method Accepts(g: nat) returns (yes: bool)
      requires Valid()
      ensures yes <==> Wanted(events, start, g)
    {
      RoleIs(events, start, role, generation);
      if events != [] { LatestBegan(events, start, role, generation); }
      yes := role == Replica && generation == g;
    }

    method SetApplied(cursor: Cursor)
      requires Valid()
      modifies this`applied
      ensures Valid() && applied == cursor
    {
      applied := cursor;
    }

    /** A session reports its start; one that is no longer wanted changes nothing. */
    method Connected(g: nat, head: nat, full: bool)
      requires Valid()
      modifies this`connected, this`upstream, this`fullSyncs, this`partialSyncs
      ensures Valid()
      ensures Wanted(events, start, g) ==>
                && connected && upstream == Some(head)
                && fullSyncs == (if full then Tick(old(fullSyncs)) else old(fullSyncs))
                && partialSyncs == (if full then old(partialSyncs) else Tick(old(partialSyncs)))
      ensures !Wanted(events, start, g) ==>
                && connected == old(connected) && upstream == old(upstream)
                && fullSyncs == old(fullSyncs) && partialSyncs == old(partialSyncs)
    {
      var wanted := Accepts(g);
      if !wanted {
        return;
      }
      connected, upstream := true, Some(head);
      if full {
        fullSyncs := Tick(fullSyncs);
      } else {
        partialSyncs := Tick(partialSyncs);
      }
    }

    method UpstreamHead(g: nat, head: nat)
      requires Valid()
      modifies this`upstream
      ensures Valid() && upstream == if Wanted(events, start, g) then Some(head) else old(upstream)
    {
      var wanted := Accepts(g);
      if wanted {
        upstream := Some(head);
      }
    }

    /** A session reports its end; only the latest one can clear the mark, whatever the role is by then. */
    method Disconnected(g: nat)
      requires Valid()
      modifies this`connected
      ensures Valid() && (connected <==> old(connected) && g != |events|)
    {
      RoleIs(events, start, role, generation);
      if generation == g {
        connected := false;
      }
    }

    /** Promotion, once role and epoch are durable: no session is wanted from here on. */
    method Promote(cursor: Cursor)
      requires Valid() && generation < LAST
      modifies this
      ensures Valid() && events == old(events) + [Promoted] && generation == old(generation) + 1
      ensures role == Primary && applied == cursor && !connected
      ensures upstream == old(upstream) && reconnects == old(reconnects)
      ensures fullSyncs == old(fullSyncs) && partialSyncs == old(partialSyncs)
      ensures forall g :: !Wanted(events, start, g)
    {
      assert role == Primary || role == Replica;
      role, applied, connected := Primary, cursor, false;
      generation := generation + 1;
      events := events + [Promoted];
      assert events[..|events| - 1] == old(events);
      assert events[|events| - 1] == Promoted;
    }
  }

  lemma LatestBegan(events: seq<Event>, start: Role, role: Role, generation: nat)
    requires Ordered(events, start, role, generation) && events != []
    ensures role == Replica ==> events[|events| - 1] == Began(generation)
  {
  }

  /** Any call of the runtime that does not only read it. */
  datatype Call =
    | Begins
    | Applies(cursor: Cursor)
    | Connects(generation: nat, head: nat, full: bool)
    | HeadMoves(generation: nat, head: nat)
    | Disconnects(generation: nat)
    | Promotes(cursor: Cursor)

  /** Makes any calls, in any order: what happened before stays on record. */
  method Drive(r: Runtime, calls: seq<Call>)
    requires r.Valid() && r.generation + |calls| <= LAST
    modifies r
    ensures r.Valid() && old(r.events) <= r.events
  {
    hide Ordered, Wanted;
    for i := 0 to |calls|
      invariant r.Valid() && r.generation + (|calls| - i) <= LAST && old(r.events) <= r.events
    {
      match calls[i]
      case Begins => var _ := r.BeginSession();
      case Applies(cursor) => r.SetApplied(cursor);
      case Connects(g, head, full) => r.Connected(g, head, full);
      case HeadMoves(g, head) => r.UpstreamHead(g, head);
      case Disconnects(g) => r.Disconnected(g);
      case Promotes(cursor) => r.Promote(cursor);
    }
  }

  /** After a promotion, whatever is called then, work of no generation is accepted. */
  method PromotionIsFinal(r: Runtime, cursor: Cursor, calls: seq<Call>, g: nat) returns (yes: bool)
    requires r.Valid() && r.generation + 1 + |calls| <= LAST
    modifies r
    ensures !yes
  {
    hide Ordered;
    r.Promote(cursor);
    ghost var k := |r.events| - 1;
    assert r.events[k] == Promoted;
    Drive(r, calls);
    assert r.events[k] == Promoted;
    yes := r.Accepts(g);
  }

  /** Once another session began, whatever is called then, work of an earlier generation is not accepted. */
  method ReplacedForever(r: Runtime, calls: seq<Call>, g: nat) returns (yes: bool)
    requires r.Valid() && g <= r.generation && r.generation + 1 + |calls| <= LAST
    modifies r
    ensures !yes
  {
    RoleIs(r.events, r.start, r.role, r.generation);
    var latest := r.BeginSession();
    Drive(r, calls);
    RoleIs(r.events, r.start, r.role, r.generation);
    if r.role == Replica { LatestBegan(r.events, r.start, r.role, r.generation); }
    yes := r.Accepts(g);
  }
}
