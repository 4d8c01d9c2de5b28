/**
 * The connection's transaction queue. Every exchange with the client is recorded as it was
 * answered; what EXEC hands over is stated on that record alone.
 */
module Transaction {
  import opened Format
  import opened Replay
  import Resp
  import RespEncoder

  datatype Verb = Multi | Exec | Discard | Watch | Unwatch | Memory | Plain

  /** A parsed command: its keys, and what the router says about it. */
  datatype Command = Command(verb: Verb, keys: seq<Bytes>, writes: bool, coordinated: bool, plannable: bool)

  datatype Request = Request(command: Command, arguments: seq<Bytes>)

  type Token = nat

  datatype Reason =
    | Nested | NoMulti | Aborted | Denied | WatchInside | WatchLimit | CrossSlot | ReadOnly
    | MemoryInside | Unsupported | QueueLimit | WatchFailed

  datatype Answer =
    | Execute
    | Okay
    | Queued
    | Refused(reason: Reason)
    | HandOver(requests: seq<Request>, watched: map<Bytes, Token>)

  datatype Config = Config(
    layout: Layout, composed: bool, maxCommands: nat, maxBytes: nat, maxWatched: nat)

  predicate Writes(c: Command) { c.writes && (c.verb.Memory? || c.verb.Plain?) }

  // ---------- Sizes of requests ----------

  function DecimalDigits(n: nat): nat { |Resp.Decimal(n)| }

  /** The size charged to a request: an array header and a header and payload per argument. */
  function RequestBytes(arguments: seq<Bytes>): nat {
    DecimalDigits(|arguments|) + 3 + ArgumentBytes(arguments)
  }

  function ArgumentBytes(arguments: seq<Bytes>): nat {
    if arguments == [] then 0
    else |arguments[0]| + DecimalDigits(|arguments[0]|) + 5 + ArgumentBytes(arguments[1..])
  }

  function Bulks(arguments: seq<Bytes>): (fs: seq<Resp.Frame>)
    ensures |fs| == |arguments|
  {
    if arguments == [] then [] else [Resp.Bulk(Some(arguments[0]))] + Bulks(arguments[1..])
  }

  lemma {:induction false} ArgumentsExact(arguments: seq<Bytes>)
    ensures |RespEncoder.WireAll(Bulks(arguments))| == ArgumentBytes(arguments)
  {
    hide Resp.Decimal;
    if arguments != [] {
      ArgumentsExact(arguments[1..]);
      assert Bulks(arguments)[1..] == Bulks(arguments[1..]);
    }
  }

  /** The size charged is the size the encoder gives the request. */
  lemma RequestBytesExact(arguments: seq<Bytes>)
    ensures RequestBytes(arguments) == |RespEncoder.Wire(Resp.Many(Resp.ArrayKind, Bulks(arguments)))|
  {
    hide Resp.Decimal;
    ArgumentsExact(arguments);
  }

  function TotalBytes(requests: seq<Request>): nat {
    if requests == [] then 0
    else TotalBytes(requests[..|requests| - 1]) + RequestBytes(requests[|requests| - 1].arguments)
  }

  // ---------- The record of a connection ----------

  /** One exchange: a request and its answer, a poisoning elsewhere, or a policy reload. */
  datatype Turn =
    | Handled(request: Request, tokens: map<Bytes, Token>, answer: Answer)
    | Poisoned
    | Revalidated(allowed: Request -> bool, watchAllowed: bool)

  predicate Ends(t: Turn) {
    t.Handled? && !t.answer.Execute? && (t.request.command.verb.Exec? || t.request.command.verb.Discard?)
  }

  predicate Begins(t: Turn) {
    t.Handled? && t.answer.Okay? && t.request.command.verb.Multi?
  }

  ghost predicate InMulti(turns: seq<Turn>) {
    if turns == [] then false
    else
      var t := turns[|turns| - 1];
      Begins(t) || (!Ends(t) && InMulti(turns[..|turns| - 1]))
  }

  /** The requests answered QUEUED since the last MULTI. */
  ghost function QueuedSince(turns: seq<Turn>): seq<Request> {
    if turns == [] then []
    else
      var t, before := turns[|turns| - 1], QueuedSince(turns[..|turns| - 1]);
      if Begins(t) then []
      else if t.Handled? && t.answer.Queued? then before + [t.request]
      else before
  }

  /** Answers that spoil an open transaction. */
  predicate Spoils(reason: Reason) {
    reason in {CrossSlot, ReadOnly, MemoryInside, Unsupported, QueueLimit}
  }

  ghost predicate PoisonedSince(turns: seq<Turn>) {
    if turns == [] then false
    else
      var t := turns[|turns| - 1];
      !Begins(t) && (t.Poisoned? || (t.Handled? && t.answer.Refused? && Spoils(t.answer.reason))
          || PoisonedSince(turns[..|turns| - 1]))
  }

  /** A reload forbade one of the requests queued and not yet spoiled. */
  ghost predicate RevokedSince(turns: seq<Turn>) {
    if turns == [] then false
    else
      var t, before := turns[|turns| - 1], turns[..|turns| - 1];
      !Begins(t) && (RevokedSince(before)
                     || (&& t.Revalidated? && !PoisonedSince(before)
                         && exists r :: r in QueuedSince(before) && !t.allowed(r)))
  }

  predicate Forgets(t: Turn) {
    (t.Handled? && t.answer.Okay? && (t.request.command.verb.Unwatch? || t.request.command.verb.Discard?))
    || (t.Revalidated? && !t.watchAllowed)
  }

  /** The keys under observation, with what was observed. */
  ghost function Observed(turns: seq<Turn>): map<Bytes, Token> {
    if turns == [] then map[]
    else
      var t, earlier := turns[|turns| - 1], turns[..|turns| - 1];
      var before := Observed(earlier);
      if Forgets(t) || (Ends(t) && InMulti(earlier)) then map[]
      else if t.Handled? && t.answer.Okay? && t.request.command.verb.Watch? then before + t.tokens
      else before
  }

  /** All of these keys live on this shard. */
  predicate OnShard(keys: set<Bytes>, shard: Option<nat>, layout: Layout)
    requires ValidLayout(layout)
  {
    forall k :: k in keys ==> shard == Some(ShardFor(k, layout))
  }

  function Listed(keys: seq<Bytes>): set<Bytes> { set k | k in keys }

  /** Some shard, the given one if there is one, holds all of these keys. */
  ghost predicate Gathered(keys: set<Bytes>, shard: Option<nat>, layout: Layout)
    requires ValidLayout(layout)
  {
    exists s: Option<nat> :: (shard.Some? ==> s == shard) && OnShard(keys, s, layout)
  }

  ghost predicate Together(keys: seq<Bytes>, shard: Option<nat>, layout: Layout)
    requires ValidLayout(layout)
  {
    Gathered(Listed(keys), shard, layout)
  }

  /** Why WATCH is refused, if it is: inside MULTI, too many keys, another shard, or no answer for them. */
  ghost function WatchRefusal(
      open: bool, unseen: set<Bytes>, count: nat, shard: Option<nat>, answered: bool, config: Config): Option<Reason>
    requires ValidLayout(config.layout)
  {
    if open then Some(WatchInside)
    else if |unseen| + count > config.maxWatched then Some(WatchLimit)
    else if !config.composed && !Gathered(unseen, shard, config.layout) then Some(CrossSlot)
    else if unseen != {} && !answered then Some(WatchFailed)
    else None
  }

  ghost function KeysOf(requests: seq<Request>): set<Bytes> {
    set r, k | r in requests && k in r.command.keys :: k
  }

  lemma KeysGrow(requests: seq<Request>, r: Request)
    ensures KeysOf(requests + [r]) == KeysOf(requests) + Listed(r.command.keys)
  {
    assert forall q :: q in requests + [r] <==> q in requests || q == r;
  }

  // ---------- The queue ----------

  datatype Queue = Queue(
    requests: seq<Request>, bytes: nat, shard: Option<nat>, crossed: bool, dirty: bool, denied: bool)

  /** What an open queue holds, against the record. */
  ghost predicate QueueOk(q: Queue, turns: seq<Turn>, watched: map<Bytes, Token>, config: Config)
    requires ValidLayout(config.layout)
  {
    && q.dirty == PoisonedSince(turns) && q.denied == RevokedSince(turns)
    && (q.dirty || q.denied ==> q.requests == [] && q.bytes == 0)
    && (!q.dirty && !q.denied ==>
          && q.requests == QueuedSince(turns)
          && q.bytes == TotalBytes(q.requests) <= config.maxBytes && |q.requests| <= config.maxCommands
          && (!q.crossed ==> OnShard(KeysOf(q.requests) + watched.Keys, q.shard, config.layout))
          && (q.crossed ==> config.composed && forall r :: r in q.requests ==> r.command.coordinated))
  }

  /** The record one turn later. */
  lemma Latest(turns: seq<Turn>, t: Turn)
    ensures InMulti(turns + [t]) == (Begins(t) || (!Ends(t) && InMulti(turns)))
    ensures QueuedSince(turns + [t])
            == if Begins(t) then []
               else if t.Handled? && t.answer.Queued? then QueuedSince(turns) + [t.request] else QueuedSince(turns)
    ensures PoisonedSince(turns + [t])
            == (!Begins(t) && (t.Poisoned? || (t.Handled? && t.answer.Refused? && Spoils(t.answer.reason))
                || PoisonedSince(turns)))
    ensures RevokedSince(turns + [t])
            == (!Begins(t) && (RevokedSince(turns)
                               || (&& t.Revalidated? && !PoisonedSince(turns)
                                   && exists r :: r in QueuedSince(turns) && !t.allowed(r))))
    ensures Observed(turns + [t])
            == if Forgets(t) || (Ends(t) && InMulti(turns)) then map[]
               else if t.Handled? && t.answer.Okay? && t.request.command.verb.Watch? then Observed(turns) + t.tokens
               else Observed(turns)
  {
    assert (turns + [t])[..|turns|] == turns;
  }

  /** Turns that leave an open queue as it is. */
  lemma QueueStays(q: Queue, turns: seq<Turn>, t: Turn, watched: map<Bytes, Token>, left: map<Bytes, Token>,
        config: Config)
    requires ValidLayout(config.layout) && QueueOk(q, turns, watched, config) && left.Keys <= watched.Keys
    requires !Begins(t) && !t.Poisoned? && !(t.Handled? && t.answer.Refused? && Spoils(t.answer.reason))
    requires t.Revalidated? ==> forall r :: r in q.requests ==> t.allowed(r)
    requires t.Handled? && t.answer.Queued? ==> q.dirty || q.denied
    ensures QueueOk(q, turns + [t], left, config)
  {
    hide InMulti, QueuedSince, PoisonedSince, RevokedSince, Observed;
    Latest(turns, t);
  }

  lemma PoisonedIsQuiet()
    ensures !Forgets(Poisoned) && !Ends(Poisoned) && !Begins(Poisoned)
  {
  }

  function Spoiled(q: Queue): Queue { q.(dirty := true, requests := [], bytes := 0) }

  lemma QueueSpoiled(q: Queue, turns: seq<Turn>, t: Turn, watched: map<Bytes, Token>, config: Config)
    requires ValidLayout(config.layout) && QueueOk(q, turns, watched, config) && !Begins(t) && !t.Revalidated?
    requires t.Poisoned? || (t.Handled? && t.answer.Refused? && Spoils(t.answer.reason))
    ensures QueueOk(Spoiled(q), turns + [t], watched, config)
  {
    hide InMulti, QueuedSince, PoisonedSince, RevokedSince, Observed;
    Latest(turns, t);
  }

  lemma QueueDenied(q: Queue, turns: seq<Turn>, t: Turn, watched: map<Bytes, Token>, left: map<Bytes, Token>,
        config: Config)
    requires ValidLayout(config.layout) && QueueOk(q, turns, watched, config) && t.Revalidated?
    requires exists j :: 0 <= j < |q.requests| && !t.allowed(q.requests[j])
    ensures QueueOk(q.(requests := [], bytes := 0, denied := true), turns + [t], left, config)
  {
    hide InMulti, QueuedSince, PoisonedSince, RevokedSince, Observed, ShardFor;
    Latest(turns, t);
    var j :| 0 <= j < |q.requests| && !t.allowed(q.requests[j]);
    assert q.requests[j] in QueuedSince(turns);
  }

  /** One more request, on the same shard or coordinated. */
  lemma QueueGrows(q: Queue, grown: Queue, turns: seq<Turn>, t: Turn, watched: map<Bytes, Token>, config: Config)
    requires ValidLayout(config.layout) && QueueOk(q, turns, watched, config) && !q.dirty && !q.denied
    requires t.Handled? && t.answer.Queued? && !Begins(t)
    requires grown.requests == q.requests + [t.request] && !grown.dirty && !grown.denied
    requires grown.bytes == q.bytes + RequestBytes(t.request.arguments) <= config.maxBytes
    requires |grown.requests| <= config.maxCommands
    requires !grown.crossed ==> !q.crossed && OnShard(KeysOf(q.requests) + watched.Keys, grown.shard, config.layout)
                                && OnShard(Listed(t.request.command.keys), grown.shard, config.layout)
    requires grown.crossed ==> config.composed && forall r :: r in grown.requests ==> r.command.coordinated
    ensures QueueOk(grown, turns + [t], watched, config)
  {
    hide InMulti, QueuedSince, PoisonedSince, RevokedSince, Observed, ShardFor;
    Latest(turns, t);
    KeysGrow(q.requests, t.request);
    assert grown.requests[..|q.requests|] == q.requests;
  }

  // ---------- The connection's transaction ----------

  class Transaction {
    const config: Config
    var queue: Option<Queue>
    var watched: map<Bytes, Token>
    var watchShard: Option<nat>
    var watchCrossed: bool
    ghost var turns: seq<Turn>

    ghost predicate Valid()
      reads this
    {
      && ValidLayout(config.layout)
      && (queue.Some? <==> InMulti(turns))
      && watched == Observed(turns) && |watched| <= config.maxWatched
      && (!watchCrossed ==> OnShard(watched.Keys, watchShard, config.layout))
      && (watchCrossed ==> config.composed)
      && (queue.Some? ==> QueueOk(queue.value, turns, watched, config))
    }

    constructor (config: Config)
      requires ValidLayout(config.layout)
      ensures Valid() && turns == [] && this.config == config
      ensures queue.None? && watched == map[] && watchShard.None? && !watchCrossed
    {
      this.config := config;
      queue, watched, watchShard, watchCrossed := None, map[], None, false;
      turns := [];
    }

    /** An open transaction will hand over nothing any more. */
    method Spoil()
      modifies this`queue
      ensures queue == if old(queue).Some? then Some(Spoiled(old(queue).value)) else None
    {
      if queue.Some? {
        queue := Some(queue.value.(dirty := true, requests := [], bytes := 0));
      }
    }

    method Poison()
      requires Valid()
      modifies this
      ensures Valid() && turns == old(turns) + [Poisoned]
    {
      hide InMulti, QueuedSince, PoisonedSince, RevokedSince, Observed, QueueOk, OnShard, Forgets, Ends, ValidLayout;
      assert !Forgets(Poisoned) && !Ends(Poisoned) by { PoisonedIsQuiet(); }
      Latest(turns, Poisoned);
      if queue.Some? { QueueSpoiled(queue.value, turns, Poisoned, watched, config); }
      Spoil();
      turns := turns + [Poisoned];
    }

    /** Follows the keys of a command; the first shard met is kept, and others are noticed. */
    method SelectShard(keys: seq<Bytes>, from: Option<nat>) returns (shard: Option<nat>, crossed: bool)
      requires ValidLayout(config.layout)
      ensures from.Some? ==> shard == from
      ensures !crossed <==> OnShard(Listed(keys), shard, config.layout)
      ensures !crossed <==> Together(keys, from, config.layout)
    {
      hide ShardFor;
      shard, crossed := from, false;
      for i := 0 to |keys|
        invariant from.Some? ==> shard == from
        invariant i == 0 ==> shard == from
        invariant i > 0 ==> shard.Some? && (from.None? ==> shard == Some(ShardFor(keys[0], config.layout)))
        invariant !crossed <==> forall j :: 0 <= j < i ==> shard == Some(ShardFor(keys[j], config.layout))
      {
        var next := ShardFor(keys[i], config.layout);
        if shard.Some? && shard.value != next {
          crossed := true;
        } else {
          shard := Some(next);
        }
      }
      if !crossed {
        forall k | k in keys ensures shard == Some(ShardFor(k, config.layout)) {}
      } else {
        var j :| 0 <= j < |keys| && shard != Some(ShardFor(keys[j], config.layout));
        assert keys[j] in Listed(keys) && keys[0] in Listed(keys);
      }
    }

    /** A policy reload: a forbidden request empties the queue; a forbidden WATCH forgets the keys. */
    method Revalidate(allowed: Request -> bool, watchAllowed: bool)
      requires Valid()
      modifies this
      ensures Valid() && turns == old(turns) + [Revalidated(allowed, watchAllowed || old(watched) == map[])]
    {
      hide InMulti, QueuedSince, PoisonedSince, RevokedSince, Observed, QueueOk, ShardFor;
      ghost var t := Revalidated(allowed, watchAllowed || watched == map[]);
      Latest(turns, t);
      ghost var left := if t.watchAllowed then watched else map[];
      if queue.Some? {
        var q := queue.value;
        var revoked := false;
        for i := 0 to |q.requests|
          invariant revoked <==> exists j :: 0 <= j < i && !allowed(q.requests[j])
        {
          if !allowed(q.requests[i]) {
            revoked := true;
          }
        }
        if revoked {
          QueueDenied(q, turns, t, watched, left, config);
          queue := Some(q.(requests := [], bytes := 0, denied := true));
        } else {
          QueueStays(q, turns, t, watched, left, config);
        }
      }
      if watched != map[] && !watchAllowed {
        watched, watchShard, watchCrossed := map[], None, false;
      }
      turns := turns + [t];
    }

    /** An exchange that changes nothing but the record. */
    method Note(request: Request, answer: Answer)
      requires Valid()
      requires answer.Execute? || (answer.Refused? && !Spoils(answer.reason))
               || (answer.Queued? && queue.Some? && (queue.value.dirty || queue.value.denied))
               || (answer.Refused? && queue.None?)
      requires Ends(Handled(request, map[], answer)) ==> queue.None?
      modifies this`turns
      ensures Valid() && turns == old(turns) + [Handled(request, map[], answer)]
    {
      hide InMulti, QueuedSince, PoisonedSince, RevokedSince, Observed, QueueOk, OnShard, ValidLayout, Spoils;
      ghost var t := Handled(request, map[], answer);
      Latest(turns, t);
      if queue.Some? { QueueStays(queue.value, turns, t, watched, watched, config); }
      turns := turns + [t];
    }

    /** An error that spoils an open transaction. */
    method Refuse(request: Request, reason: Reason)
      requires Valid() && Spoils(reason) && !Ends(Handled(request, map[], Refused(reason)))
      modifies this
      ensures Valid() && turns == old(turns) + [Handled(request, map[], Refused(reason))]
    {
      hide InMulti, QueuedSince, PoisonedSince, RevokedSince, Observed, QueueOk, OnShard, ValidLayout, Spoils;
      ghost var t := Handled(request, map[], Refused(reason));
      Latest(turns, t);
      if queue.Some? { QueueSpoiled(queue.value, turns, t, watched, config); }
      Spoil();
      turns := turns + [t];
    }

    method Begin(request: Request) returns (answer: Answer)
      requires Valid() && request.command.verb.Multi?
      modifies this
      ensures Valid() && turns == old(turns) + [Handled(request, map[], answer)]
      ensures answer == if old(queue).Some? then Refused(Nested) else Okay
    {
      hide InMulti, QueuedSince, PoisonedSince, RevokedSince, Observed, ShardFor, ValidLayout;
      if queue.Some? {
        Note(request, Refused(Nested));
        return Refused(Nested);
      }
      ghost var t := Handled(request, map[], Okay);
      Latest(turns, t);
      queue := Some(Queue([], 0, watchShard, watchCrossed, false, false));
      assert KeysOf([]) == {};
      turns := turns + [t];
      answer := Okay;
    }

    method Forget(request: Request) returns (answer: Answer)
      requires Valid() && (request.command.verb.Discard? || (request.command.verb.Unwatch? && queue.None?))
      modifies this
      ensures Valid() && turns == old(turns) + [Handled(request, map[], answer)]
      ensures answer == if request.command.verb.Discard? && old(queue).None? then Refused(NoMulti) else Okay
    {
      hide InMulti, QueuedSince, PoisonedSince, RevokedSince, Observed, QueueOk, ShardFor, ValidLayout;
      if request.command.verb.Discard? && queue.None? {
        Note(request, Refused(NoMulti));
        return Refused(NoMulti);
      }
      ghost var t := Handled(request, map[], Okay);
      Latest(turns, t);
      queue, watched, watchShard, watchCrossed := None, map[], None, false;
      turns := turns + [t];
      answer := Okay;
    }

    /**
     * EXEC hands over exactly when a transaction is open and neither poisoned nor revoked;
     * then it is the requests answered QUEUED since MULTI, within the limits, with the keys
     * still observed, on one shard or all coordinated.
     */
    method HandleExec(request: Request) returns (answer: Answer)
      requires Valid() && request.command.verb.Exec?
      modifies this
      ensures Valid() && turns == old(turns) + [Handled(request, map[], answer)]
      ensures answer == Refused(NoMulti) <==> !InMulti(old(turns))
      ensures answer == Refused(Denied) <==> InMulti(old(turns)) && RevokedSince(old(turns))
      ensures answer == Refused(Aborted) <==>
                InMulti(old(turns)) && PoisonedSince(old(turns)) && !RevokedSince(old(turns))
      ensures answer.HandOver? <==> InMulti(old(turns)) && !PoisonedSince(old(turns)) && !RevokedSince(old(turns))
      ensures answer.HandOver? ==> HandedOver(answer, old(turns), config)
    {
      hide InMulti, QueuedSince, PoisonedSince, RevokedSince, Observed, ShardFor;
      if queue.None? {
        Note(request, Refused(NoMulti));
        return Refused(NoMulti);
      }
      var q := queue.value;
      answer := if q.denied then Refused(Denied) else if q.dirty then Refused(Aborted)
          else HandOver(q.requests, watched);
      Latest(turns, Handled(request, map[], answer));
      queue, watched, watchShard, watchCrossed := None, map[], None, false;
      turns := turns + [Handled(request, map[], answer)];
    }

    /** Whether WATCH may add these keys, and the shard they would all be on. */
    method AdmitWatch(unseen: set<Bytes>, answered: bool)
          returns (refusal: Option<Reason>, shard: Option<nat>, crossed: bool)
      requires ValidLayout(config.layout)
      ensures refusal.None? ==>
                && queue.None? && |unseen| + |watched| <= config.maxWatched && (unseen == {} || answered)
                && (watchShard.Some? ==> shard == watchShard)
                && (crossed ==> watchCrossed || config.composed)
                && (!crossed ==> !watchCrossed && OnShard(unseen, shard, config.layout))
      ensures refusal == WatchRefusal(queue.Some?, unseen, |watched|, watchShard, answered, config)
    {
      hide ShardFor;
      shard, crossed := watchShard, watchCrossed;
      if queue.Some? {
        return Some(WatchInside), shard, crossed;
      }
      if |unseen| + |watched| > config.maxWatched {
        return Some(WatchLimit), shard, crossed;
      }
      var keys := Ordered(unseen);
      var crossing;
      shard, crossing := SelectShard(keys, watchShard);
      assert crossing <==> !Gathered(unseen, watchShard, config.layout);
      if crossing && !config.composed {
        return Some(CrossSlot), shard, crossed;
      }
      if unseen != {} && !answered {
        return Some(WatchFailed), shard, crossed;
      }
      refusal, crossed := None, watchCrossed || crossing;
    }

    /** WATCH adds the keys not yet observed, on one shard or, composed, noticing the crossing. */
    method HandleWatch(request: Request, tokens: Option<map<Bytes, Token>>) returns (answer: Answer)
      requires Valid() && request.command.verb.Watch?
      requires tokens.Some? ==> tokens.value.Keys == Listed(request.command.keys) - watched.Keys
      modifies this
      ensures Valid()
      ensures turns == old(turns)
               + [Handled(request, if answer.Okay? && tokens.Some? then tokens.value else map[], answer)]
      ensures var refusal := old(WatchRefusal(queue.Some?, Listed(request.command.keys) - watched.Keys, |watched|,
               watchShard, tokens.Some?, config));
              answer == if refusal.Some? then Refused(refusal.value) else Okay
    {
      hide InMulti, QueuedSince, PoisonedSince, RevokedSince, Observed, OnShard, Listed, QueueOk, ValidLayout, Gathered;
      var unseen := Listed(request.command.keys) - watched.Keys;
      var refusal, shard, crossed := AdmitWatch(unseen, tokens.Some?);
      if refusal.Some? {
        Note(request, Refused(refusal.value));
        return Refused(refusal.value);
      }
      var added := if tokens.Some? then tokens.value else map[];
      Watched(request, added, unseen, shard, crossed);
      answer := Okay;
    }

    method Watched(request: Request, added: map<Bytes, Token>, ghost unseen: set<Bytes>, shard: Option<nat>,
          crossed: bool)
      requires Valid() && queue.None? && request.command.verb.Watch?
      requires added.Keys <= unseen && |unseen| + |watched| <= config.maxWatched
      requires watchShard.Some? ==> shard == watchShard
      requires crossed ==> watchCrossed || config.composed
      requires !crossed ==> !watchCrossed && OnShard(unseen, shard, config.layout)
      modifies this
      ensures Valid() && turns == old(turns) + [Handled(request, added, Okay)]
    {
      hide InMulti, QueuedSince, PoisonedSince, RevokedSince, Observed, OnShard, QueueOk, ValidLayout;
      ghost var t := Handled(request, added, Okay);
      Latest(turns, t);
      MoreWatched(watched, added, unseen, watchShard, shard, config.layout);
      watched := watched + added;
      watchShard, watchCrossed := shard, crossed;
      turns := turns + [t];
    }

    method Ordered(keys: set<Bytes>) returns (list: seq<Bytes>)
      ensures Listed(list) == keys
    {
      list := [];
      var rest := keys;
      while rest != {}
        invariant rest <= keys && Listed(list) == keys - rest
        decreases |rest|
      {
        var k :| k in rest;
        assert Listed(list + [k]) == Listed(list) + {k};
        rest, list := rest - {k}, list + [k];
      }
    }

    /** Any other command joins an open transaction, or spoils it. */
    method Enqueue(request: Request) returns (answer: Answer)
      requires Valid() && queue.Some? && (request.command.verb.Plain? || request.command.verb.Unwatch?)
      modifies this
      ensures Valid() && turns == old(turns) + [Handled(request, map[], answer)]
      ensures answer.Queued? || answer.Refused?
      ensures answer.Refused? <==> Unfit(request, old(queue).value, config)
    {
      hide InMulti, QueuedSince, PoisonedSince, RevokedSince, Observed;
      hide OnShard, QueueOk, TotalBytes, Together, RequestBytes;
      var q := queue.value;
      if q.dirty || q.denied {
        Note(request, Queued);
        return Queued;
      }
      var shard, crossing := SelectShard(request.command.keys, q.shard);
      if crossing && !config.composed {
        Refuse(request, CrossSlot);
        return Refused(CrossSlot);
      }
      if config.composed && (q.crossed || crossing) {
        var supported := AllCoordinated(q.requests);
        if !request.command.coordinated || !supported || !request.command.plannable {
          Refuse(request, Unsupported);
          return Refused(Unsupported);
        }
      }
      var bytes := RequestBytes(request.arguments);
      if |q.requests| >= config.maxCommands || q.bytes + bytes > config.maxBytes {
        Refuse(request, QueueLimit);
        return Refused(QueueLimit);
      }
      var crossed := q.crossed || crossing;
      var pinned := if crossed then q.shard else shard;
      var grown := Queue(q.requests + [request], q.bytes + bytes, pinned, crossed, false, false);
      ghost var t := Handled(request, map[], Queued);
      Latest(turns, t);
      assert !crossed ==> OnShard(KeysOf(q.requests) + watched.Keys, shard, config.layout) by {
        if !crossed { SameShardKept(q, turns, watched, shard, config); }
      }
      assert q.crossed ==> config.composed by { CrossedComposed(q, turns, watched, config); }
      QueueGrows(q, grown, turns, t, watched, config);
      queue := Some(grown);
      turns := turns + [t];
      answer := Queued;
    }

    /** Every queued request can be part of a coordinated transaction. */
    method AllCoordinated(requests: seq<Request>) returns (all: bool)
      ensures all <==> forall r :: r in requests ==> r.command.coordinated
    {
      all := true;
      for i := 0 to |requests|
        invariant all <==> forall j :: 0 <= j < i ==> requests[j].command.coordinated
      {
        all := all && requests[i].command.coordinated;
      }
      if !all {
        var j :| 0 <= j < |requests| && !requests[j].command.coordinated;
        assert requests[j] in requests;
      }
    }

    /** One request, as the connection hands it in. */
    method Handle(request: Request, tokens: Option<map<Bytes, Token>>, readonly: bool, subscribed: bool)
      returns (answer: Answer)
      requires Valid()
      requires tokens.Some? ==> tokens.value.Keys == Listed(request.command.keys) - watched.Keys
      modifies this
      ensures Valid()
      ensures turns == old(turns) + [Handled(request, Noted(request, tokens, answer), answer)]
      ensures request.command.verb.Watch? && !subscribed ==>
                var refusal := old(WatchRefusal(queue.Some?, Listed(request.command.keys) - watched.Keys, |watched|,
                                                watchShard, tokens.Some?, config));
                answer == if refusal.Some? then Refused(refusal.value) else Okay
      ensures answer.HandOver? <==> request.command.verb.Exec? && !subscribed && Intact(old(turns))
      ensures answer.HandOver? ==> HandedOver(answer, old(turns), config)
      ensures Answered(request, answer, old(turns), readonly, subscribed)
      ensures Joining(request, old(turns), readonly, subscribed) ==>
                old(queue).Some? && (answer.Refused? <==> Unfit(request, old(queue).value, config))
    {
      hide InMulti, PoisonedSince, RevokedSince, HandedOver, Listed, Unfit;
      hide QueueOk, Observed, Gathered, OnShard, Intact;
      IntactIs(turns);
      if subscribed {
        Note(request, Execute);
        return Execute;
      }
      if queue.Some? && request.command.verb.Memory? {
        Refuse(request, MemoryInside);
        return Refused(MemoryInside);
      }
      if readonly && Writes(request.command) {
        Refuse(request, ReadOnly);
        return Refused(ReadOnly);
      }
      var verb := request.command.verb;
      if verb.Multi? {
        answer := Begin(request);
      } else if verb.Discard? || (verb.Unwatch? && queue.None?) {
        answer := Forget(request);
      } else if verb.Exec? {
        answer := HandleExec(request);
      } else if verb.Watch? {
        answer := HandleWatch(request, tokens);
      } else if queue.Some? {
        answer := Enqueue(request);
      } else {
        Note(request, Execute);
        answer := Execute;
      }
    }
  }

  lemma MoreKeys(a: set<Bytes>, b: set<Bytes>, unseen: set<Bytes>)
    requires b <= unseen
    ensures |a + b| <= |a| + |unseen|
  {
    assert unseen == b + (unseen - b);
    assert a + b == a + (b - a);
    assert b == (b - a) + (b * a);
  }

  /** The observed keys after a WATCH: as many as allowed, on the shard they all share. */
  lemma MoreWatched(
      watched: map<Bytes, Token>, tokens: map<Bytes, Token>, unseen: set<Bytes>, was: Option<nat>, shard: Option<nat>,
          layout: Layout)
    requires ValidLayout(layout) && tokens.Keys <= unseen
    requires was.Some? ==> shard == was
    ensures |watched + tokens| <= |watched| + |unseen|
    ensures OnShard(watched.Keys, was, layout) && OnShard(unseen, shard, layout) ==>
              OnShard((watched + tokens).Keys, shard, layout)
  {
    hide ShardFor;
    var all := watched + tokens;
    assert all.Keys == watched.Keys + tokens.Keys;
    MoreKeys(watched.Keys, tokens.Keys, unseen);
    assert |all| == |all.Keys| && |watched| == |watched.Keys|;
  }

  lemma SameShardKept(q: Queue, turns: seq<Turn>, watched: map<Bytes, Token>, shard: Option<nat>, config: Config)
    requires ValidLayout(config.layout) && QueueOk(q, turns, watched, config) && !q.dirty && !q.denied && !q.crossed
    requires q.shard.Some? ==> shard == q.shard
    ensures OnShard(KeysOf(q.requests) + watched.Keys, shard, config.layout)
  {
  }

  lemma CrossedComposed(q: Queue, turns: seq<Turn>, watched: map<Bytes, Token>, config: Config)
    requires ValidLayout(config.layout) && QueueOk(q, turns, watched, config) && !q.dirty && !q.denied
    ensures q.crossed ==> config.composed && forall r :: r in q.requests ==> r.command.coordinated
    ensures q.requests == QueuedSince(turns)
  {
  }

  // ---------- When EXEC hands over ----------

  /** The keys a request puts under observation, with what was observed. */
  function Noted(request: Request, tokens: Option<map<Bytes, Token>>, answer: Answer): map<Bytes, Token> {
    if request.command.verb.Watch? && answer.Okay? && tokens.Some? then tokens.value else map[]
  }

  /** A turn that poisons: from outside, or by an answer that spoils. */
  predicate Poisons(t: Turn) {
    t.Poisoned? || (t.Handled? && t.answer.Refused? && Spoils(t.answer.reason))
  }

  /** A reload that forbids a request answered QUEUED before it. */
  ghost predicate Forbids(turns: seq<Turn>, i: nat)
    requires i < |turns|
  {
    turns[i].Revalidated? && exists r :: r in QueuedSince(turns[..i]) && !turns[i].allowed(r)
  }

  /** Position i belongs to the latest transaction or to what came after it. */
  ghost predicate Latter(turns: seq<Turn>, i: nat) {
    forall k :: i <= k < |turns| ==> !Begins(turns[k])
  }

  /** Something spoiled the latest transaction. */
  ghost predicate Marred(turns: seq<Turn>) {
    exists i :: 0 <= i < |turns| && Latter(turns, i) && (Poisons(turns[i]) || Forbids(turns, i))
  }

  /** A transaction is open, and nothing since its MULTI spoiled it: no poisoning, no reload against its queue. */
  ghost predicate Intact(turns: seq<Turn>) {
    exists m :: 0 <= m < |turns| && IntactFrom(turns, m)
  }

  ghost predicate IntactFrom(turns: seq<Turn>, m: nat)
    requires m < |turns|
  {
    && Begins(turns[m])
    && forall k :: m < k < |turns| ==> !Begins(turns[k]) && !Ends(turns[k]) && !Poisons(turns[k]) && !Forbids(turns, k)
  }

  /** Spoiled means: at some position since the last MULTI, something spoiled it. */
  lemma {:induction false} MarredIs(turns: seq<Turn>)
    ensures PoisonedSince(turns) || RevokedSince(turns) <==> Marred(turns)
  {
    if turns != [] {
      var n := |turns| - 1;
      var before, t := turns[..n], turns[n];
      MarredIs(before);
      assert turns == before + [t];
      Latest(before, t);
      if Marred(before) && !Begins(t) {
        var i :| 0 <= i < |before| && Latter(before, i) && (Poisons(before[i]) || Forbids(before, i));
        assert turns[..i] == before[..i];
        assert Latter(turns, i) && (Poisons(turns[i]) || Forbids(turns, i));
      }
      if Marred(turns) {
        var i :| 0 <= i < |turns| && Latter(turns, i) && (Poisons(turns[i]) || Forbids(turns, i));
        if i < n {
          assert turns[..i] == before[..i];
          assert Latter(before, i) && (Poisons(before[i]) || Forbids(before, i));
        }
      }
      if !Begins(t) && (Poisons(t) || Forbids(turns, n)) {
        assert Latter(turns, n);
      }
    }
  }

  /** An open transaction has a last MULTI that nothing ended. */
  lemma {:induction false} OpenSince(turns: seq<Turn>)
    ensures InMulti(turns) <==>
              exists m :: 0 <= m < |turns| && Begins(turns[m])
                          && forall k :: m < k < |turns| ==> !Begins(turns[k]) && !Ends(turns[k])
  {
    if turns != [] {
      var n := |turns| - 1;
      OpenSince(turns[..n]);
      if InMulti(turns) && !Begins(turns[n]) {
        var m :| 0 <= m < n && Begins(turns[..n][m])
                 && forall k :: m < k < n ==> !Begins(turns[..n][k]) && !Ends(turns[..n][k]);
        assert forall k :: m < k < |turns| ==> !Begins(turns[k]) && !Ends(turns[k]) by {
          forall k | m < k < |turns| ensures !Begins(turns[k]) && !Ends(turns[k]) {
            if k < n { assert turns[..n][k] == turns[k]; }
          }
        }
        assert Begins(turns[m]);
      }
      if m :| 0 <= m < |turns| && Begins(turns[m])
              && forall k :: m < k < |turns| ==> !Begins(turns[k]) && !Ends(turns[k]) {
        if m < n {
          assert Begins(turns[..n][m]);
        }
      }
    }
  }

  /** Open and unspoiled, by the record's own last word, is intact over the whole record. */
  lemma IntactIs(turns: seq<Turn>)
    ensures Intact(turns) <==> InMulti(turns) && !PoisonedSince(turns) && !RevokedSince(turns)
  {
    hide InMulti, PoisonedSince, RevokedSince, QueuedSince;
    MarredIs(turns);
    OpenSince(turns);
    if InMulti(turns) && !Marred(turns) {
      var m :| 0 <= m < |turns| && Begins(turns[m])
               && forall k :: m < k < |turns| ==> !Begins(turns[k]) && !Ends(turns[k]);
      forall k | m < k < |turns| ensures !Poisons(turns[k]) && !Forbids(turns, k) {
        assert Latter(turns, k);
      }
      assert IntactFrom(turns, m);
    }
    if Intact(turns) {
      var m :| 0 <= m < |turns| && IntactFrom(turns, m);
      forall i | 0 <= i < |turns| && Latter(turns, i) ensures !Poisons(turns[i]) && !Forbids(turns, i) {
        assert i > m;
      }
    }
  }

  /** A reload since MULTI that alone could spoil it does so exactly when it forbids a queued request. */
  lemma RevocationStops(turns: seq<Turn>, m: nat, i: nat)
    requires m < i < |turns| && Begins(turns[m]) && turns[i].Revalidated?
    requires forall k :: m < k < |turns| ==> !Begins(turns[k]) && !Ends(turns[k])
    requires forall k :: m < k < |turns| && k != i ==> !Poisons(turns[k]) && !Forbids(turns, k)
    ensures Intact(turns) <==> forall r :: r in QueuedSince(turns[..i]) ==> turns[i].allowed(r)
  {
    hide QueuedSince;
    if Intact(turns) {
      var n :| 0 <= n < |turns| && IntactFrom(turns, n);
      assert n == m;
    }
    if !Forbids(turns, i) {
      assert IntactFrom(turns, m);
    }
  }

  /**
   * Revoking WATCH alone does not stop a transaction: EXEC still hands over its requests,
   * with nothing observed any more.
   */
  method RevokedWatchStillRuns(t: Transaction, exec: Request, allowed: Request -> bool, readonly: bool)
    returns (answer: Answer)
    requires t.Valid() && Intact(t.turns) && exec.command.verb.Exec?
    requires forall r :: r in QueuedSince(t.turns) ==> allowed(r)
    modifies t
    ensures answer == HandOver(old(QueuedSince(t.turns)), map[])
  {
    hide InMulti, PoisonedSince, RevokedSince, QueuedSince, Observed, Intact;
    ghost var before, watched := t.turns, t.watched;
    IntactIs(before);
    t.Revalidate(allowed, false);
    ghost var reload := Revalidated(allowed, watched == map[]);
    Latest(before, reload);
    IntactIs(t.turns);
    answer := t.Handle(exec, None, readonly, false);
  }

  /** GET of one key. */
  const GET: Request := Request(Command(Plain, [[1]], false, true, true), [[71, 69, 84], [1]])

  function Bare(verb: Verb, keys: seq<Bytes>): Request { Request(Command(verb, keys, false, false, false), keys) }

  /** The first request of a transaction that observed its key joins the queue. */
  lemma FirstFits(q: Queue, turns: seq<Turn>, watched: map<Bytes, Token>, config: Config)
    requires ValidLayout(config.layout) && QueueOk(q, turns, watched, config) && !config.composed
    requires QueuedSince(turns) == [] && !PoisonedSince(turns) && !RevokedSince(turns) && watched.Keys == {[1]}
    requires config.maxCommands >= 1 && config.maxBytes >= 20
    ensures !Unfit(GET, q, config)
  {
    hide ShardFor, QueuedSince, PoisonedSince, RevokedSince;
    assert RequestBytes(GET.arguments) == 20 by { GetBytes(); }
    OneKey([1], config.layout);
    assert OnShard(Listed([[1]]), q.shard, config.layout);
  }

  lemma GetBytes()
    ensures RequestBytes(GET.arguments) == 20
  {
    assert GET.arguments[1..] == [[1]] && [[1]][1..] == [];
    assert DecimalDigits(2) == 1 && DecimalDigits(3) == 1 && DecimalDigits(1) == 1;
  }

  /** WATCH of one key, MULTI and GET, then a reload that forbids WATCH alone: EXEC still runs it, unobserved. */
  method RevokedWatchExample() returns (answers: seq<Answer>)
    ensures answers == [Okay, Okay, Queued, HandOver([GET], map[])]
  {
    hide InMulti, PoisonedSince, RevokedSince, QueuedSince, Observed, Intact, QueueOk, OnShard, Unfit, HandedOver;
    var t := new Transaction(Config(Layout(1, 1, false), false, 128, 0x10_0000, 64));
    var watch, multi := Bare(Watch, [[1]]), Bare(Multi, []);
    ghost var one := map[[1] := 0];
    NothingYet();
    OneKey([1], t.config.layout);
    var first := t.Handle(watch, Some(map[[1] := 0]), false, false);
    assert t.turns == [Handled(watch, one, Okay)];
    Latest([], Handled(watch, one, Okay));
    assert [] + [Handled(watch, one, Okay)] == t.turns;
    ghost var begun := t.turns;
    var second := t.Handle(multi, None, false, false);
    Latest(begun, Handled(multi, map[], Okay));
    begun := t.turns;
    FirstFits(t.queue.value, t.turns, t.watched, t.config);
    var third := t.Handle(GET, None, false, false);
    Latest(begun, Handled(GET, map[], Queued));
    IntactIs(t.turns);
    assert QueuedSince(t.turns) == [GET];
    var last := RevokedWatchStillRuns(t, Bare(Exec, []), _ => true, false);
    answers := [first, second, third, last];
  }

  lemma OneKey(k: Bytes, layout: Layout)
    requires ValidLayout(layout)
    ensures Listed([k]) == {k} && Gathered({k}, None, layout)
  {
    assert OnShard({k}, Some(ShardFor(k, layout)), layout);
  }

  lemma NothingYet()
    ensures !InMulti([]) && QueuedSince([]) == [] && !PoisonedSince([]) && !RevokedSince([]) && Observed([]) == map[]
  {
  }

  /** Once spoiled, a transaction stays so until the next MULTI, whatever is answered. */
  lemma {:induction false} SpoiledUntilMulti(turns: seq<Turn>, more: seq<Turn>)
    requires PoisonedSince(turns) || RevokedSince(turns)
    requires forall t :: t in more ==> !Begins(t)
    ensures PoisonedSince(turns + more) || RevokedSince(turns + more)
    decreases |more|
  {
    if more == [] {
      assert turns + more == turns;
    } else {
      var n := |more| - 1;
      SpoiledUntilMulti(turns, more[..n]);
      assert turns + more == (turns + more[..n]) + [more[n]];
      Latest(turns + more[..n], more[n]);
    }
  }

  /** Requests that meet an open queue. */
  ghost predicate Joining(request: Request, turns: seq<Turn>, readonly: bool, subscribed: bool) {
    && !subscribed && !(readonly && Writes(request.command)) && InMulti(turns)
    && (request.command.verb.Plain? || request.command.verb.Unwatch?)
  }

  /** What a request is answered, from the record alone. */
  ghost predicate Answered(request: Request, answer: Answer, turns: seq<Turn>, readonly: bool, subscribed: bool) {
    var verb, open := request.command.verb, InMulti(turns);
    if subscribed then answer.Execute?
    else if open && verb.Memory? then answer == Refused(MemoryInside)
    else if readonly && Writes(request.command) then answer == Refused(ReadOnly)
    else
      match verb
      case Multi => answer == if open then Refused(Nested) else Okay
      case Discard => answer == if open then Okay else Refused(NoMulti)
      case Exec =>
        if !open then answer == Refused(NoMulti)
        else if RevokedSince(turns) then answer == Refused(Denied)
        else if PoisonedSince(turns) then answer == Refused(Aborted)
        else answer.HandOver?
      case Watch => if open then answer == Refused(WatchInside) else answer.Okay? || answer.Refused?
      case Unwatch => if open then answer.Queued? || answer.Refused? else answer == Okay
      case Memory => answer.Execute?
      case Plain => if open then answer.Queued? || answer.Refused? else answer.Execute?
  }

  /** When a request cannot join an unspoiled queue. */
  ghost predicate Unfit(request: Request, q: Queue, config: Config)
    requires ValidLayout(config.layout)
  {
    var together := Together(request.command.keys, q.shard, config.layout);
    && !q.dirty && !q.denied
    && (|| |q.requests| >= config.maxCommands
        || q.bytes + RequestBytes(request.arguments) > config.maxBytes
        || (!config.composed && !together)
        || (config.composed && (q.crossed || !together)
            && !(&& request.command.coordinated && request.command.plannable
                 && forall r :: r in q.requests ==> r.command.coordinated)))
  }

  /** What an executed transaction is, against the record of the connection. */
  ghost predicate HandedOver(answer: Answer, turns: seq<Turn>, config: Config)
    requires answer.HandOver? && ValidLayout(config.layout)
  {
    && answer.requests == QueuedSince(turns) && answer.watched == Observed(turns)
    && |answer.requests| <= config.maxCommands && TotalBytes(answer.requests) <= config.maxBytes
    && |answer.watched| <= config.maxWatched
    && ((exists shard :: OnShard(KeysOf(answer.requests) + answer.watched.Keys, shard, config.layout))
        || (config.composed && forall r :: r in answer.requests ==> r.command.coordinated))
  }
}
