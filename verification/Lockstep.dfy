/**
 * The replication stream between one source and one follower, over two first-in first-out
 * links. The source writes a heartbeat, or a heartbeat and a batch, and then reads exactly
 * the acknowledgements it expects; the follower answers every message. In every run each
 * acknowledgement read is the expected one and neither side meets a sequence error.
 */
module Lockstep {
  import opened Format

  datatype Message = Heartbeat(head: nat) | Batch(sequence: nat, frame: Bytes)

  /** The source's published frames and loop state; the links; the follower's loop state and what it applied. */
  datatype State = State(
    origin: nat, published: seq<Bytes>, sent: nat, expected: seq<nat>,
    down: seq<Message>, up: seq<nat>,
    position: nat, previous: Option<Bytes>, start: nat, applied: seq<Bytes>)

  function Head(s: State): nat { s.origin + |s.published| }

  // ---------- The follower ----------

  datatype Follower = Follower(position: nat, previous: Option<Bytes>)

  /** What the follower makes of a message, unless it is out of sequence. */
  function Receive(f: Follower, m: Message): Option<Follower> {
    match m
    case Heartbeat(head) => if head >= f.position then Some(f) else None
    case Batch(n, frame) =>
      if n == f.position && f.previous == Some(frame) then Some(f)
      else if n == f.position + 1 then Some(Follower(n, Some(frame)))
      else None
  }

  function Now(s: State): Follower { Follower(s.position, s.previous) }

  // ---------- Steps ----------

  datatype Step =
    | Publishes(frame: Bytes)
    | Beats
    | Sends
    | ReadsAck
    | Follows

  /** The source acts only when it has read every acknowledgement it expects. */
  predicate Enabled(s: State, step: Step) {
    match step
    case Publishes(_) => true
    case Beats => s.expected == []
    case Sends => s.expected == [] && s.origin <= s.sent < Head(s)
    case ReadsAck => s.expected != [] && s.up != []
    case Follows => s.down != []
  }

  /** A step, or the error the code would report. */
  function Take(s: State, step: Step): Option<State>
    requires Enabled(s, step)
  {
    match step
    case Publishes(frame) => Some(s.(published := s.published + [frame]))
    case Beats => Some(s.(down := s.down + [Heartbeat(Head(s))], expected := [s.sent]))
    case Sends =>
      Some(s.(down := s.down + [Heartbeat(Head(s)), Message.Batch(s.sent + 1, s.published[s.sent - s.origin])],
              expected := [s.sent, s.sent + 1], sent := s.sent + 1))
    case ReadsAck => if s.up[0] == s.expected[0] then Some(s.(up := s.up[1..], expected := s.expected[1..])) else None
    case Follows =>
      match Receive(Now(s), s.down[0])
      case None => None
      case Some(f) =>
        Some(s.(down := s.down[1..], position := f.position, previous := f.previous, up := s.up + [f.position],
                applied := if f.position > s.position && s.down[0].Batch? then s.applied + [s.down[0].frame]
                           else s.applied))
  }

  /** After the handshake: the follower stands where the source will resume, and has said so. */
  predicate Initial(s: State) {
    && s.origin <= s.sent == s.position <= Head(s) && s.previous == None
    && s.expected == [s.sent] && s.up == [s.sent] && s.down == []
    && s.start == s.position && s.applied == []
  }

  ghost predicate Run(states: seq<State>, steps: seq<Step>) {
    && |states| == |steps| + 1 && Initial(states[0])
    && forall i :: 0 <= i < |steps| ==> Enabled(states[i], steps[i]) && Take(states[i], steps[i]) == Some(states[i + 1])
  }

  // ---------- The invariant ----------

  /** The answers the follower will give to what is on its way, if it accepts all of it. */
  function Answers(f: Follower, ms: seq<Message>): Option<seq<nat>>
    decreases |ms|
  {
    if ms == [] then Some([])
    else match Receive(f, ms[0])
         case None => None
         case Some(g) =>
           match Answers(g, ms[1..])
           case None => None
           case Some(rest) => Some([g.position] + rest)
  }

  /** Where the follower will stand once it has read everything on its way. */
  function Settles(f: Follower, ms: seq<Message>): Follower
    decreases |ms|
  {
    if ms == [] then f
    else match Receive(f, ms[0])
         case None => f
         case Some(g) => Settles(g, ms[1..])
  }

  lemma {:induction false} Appended(f: Follower, ms: seq<Message>, m: Message)
    requires Answers(f, ms).Some? && Receive(Settles(f, ms), m).Some?
    ensures var g := Receive(Settles(f, ms), m).value;
            && Answers(f, ms + [m]) == Some(Answers(f, ms).value + [g.position])
            && Settles(f, ms + [m]) == g
    decreases |ms|
  {
    if ms == [] {
      assert ms + [m] == [m] && [m][1..] == [];
      var g := Receive(f, m).value;
      assert [g.position] + [] == [] + [g.position];
    } else {
      assert (ms + [m])[0] == ms[0] && (ms + [m])[1..] == ms[1..] + [m];
      var h := Receive(f, ms[0]).value;
      Appended(h, ms[1..], m);
      var g := Receive(Settles(f, ms), m).value;
      assert [h.position] + (Answers(h, ms[1..]).value + [g.position]) == Answers(f, ms).value + [g.position];
    }
  }

  predicate Published(s: State, m: Message)
    requires m.Batch?
  {
    s.origin < m.sequence <= Head(s) && m.frame == s.published[m.sequence - 1 - s.origin]
  }

  /** The acknowledgements expected are those on their way, then those still to be given. */
  ghost predicate Inv(s: State) {
    && s.origin <= s.position <= s.sent <= Head(s)
    && Answers(Now(s), s.down).Some? && s.expected == s.up + Answers(Now(s), s.down).value
    && Settles(Now(s), s.down).position == s.sent
    && (forall i :: 0 <= i < |s.down| && s.down[i].Batch? ==> Published(s, s.down[i]))
    && s.origin <= s.start <= s.position
    && s.applied == s.published[s.start - s.origin..s.position - s.origin]
  }

  lemma Quiet(s: State)
    requires Inv(s) && s.expected == []
    ensures s.up == [] && s.down == [] && s.position == s.sent
  {
    hide Receive;
    assert |s.up| + |Answers(Now(s), s.down).value| == 0;
  }

  lemma PublishKeeps(s: State, frame: Bytes)
    requires Inv(s)
    ensures Inv(s.(published := s.published + [frame]))
  {
    hide Answers, Settles;
    var t := s.(published := s.published + [frame]);
    assert Now(t) == Now(s);
    assert t.published[t.start - t.origin..t.position - t.origin]
        == s.published[s.start - s.origin..s.position - s.origin];
  }

  lemma BeatKeeps(s: State)
    requires Inv(s) && Enabled(s, Beats)
    ensures Inv(Take(s, Beats).value)
  {
    Quiet(s);
    var beat := Heartbeat(Head(s));
    Appended(Now(s), [], beat);
    assert [] + [beat] == s.down + [beat];
    assert [] + [s.sent] == [s.sent];
    assert Now(Take(s, Beats).value) == Now(s);
  }

  lemma AckKeeps(s: State)
    requires Inv(s) && Enabled(s, ReadsAck)
    ensures s.up[0] == s.expected[0] && Take(s, ReadsAck).Some? && Inv(Take(s, ReadsAck).value)
  {
    hide Answers, Settles;
    var rest := Answers(Now(s), s.down).value;
    assert (s.up + rest)[1..] == s.up[1..] + rest;
    assert Now(Take(s, ReadsAck).value) == Now(s);
  }

  /** The next message on its way is in sequence, and what it leaves is what was expected of it. */
  lemma FirstAnswered(f: Follower, ms: seq<Message>)
    requires Answers(f, ms).Some? && ms != []
    ensures Receive(f, ms[0]).Some?
    ensures var g := Receive(f, ms[0]).value;
            && Answers(g, ms[1..]).Some? && Answers(f, ms).value == [g.position] + Answers(g, ms[1..]).value
            && Settles(f, ms) == Settles(g, ms[1..]) && g.position <= Settles(f, ms).position
  {
    hide Receive;
    Ahead(Receive(f, ms[0]).value, ms[1..]);
  }

  /** One message applied extends what was applied by the next frame published, or by nothing. */
  lemma OneApplied(s: State)
    requires Inv(s) && Enabled(s, Follows) && Receive(Now(s), s.down[0]).Some?
    requires Receive(Now(s), s.down[0]).value.position <= Head(s)
    ensures var t := Take(s, Follows).value;
            && Take(s, Follows).Some? && Now(t) == Receive(Now(s), s.down[0]).value
            && s.position <= t.position && t.applied == s.published[s.start - s.origin..t.position - s.origin]
  {
    hide Answers, Settles;
    var f := Receive(Now(s), s.down[0]).value;
    if f.position > s.position {
      assert Published(s, s.down[0]);
      assert s.published[s.start - s.origin..s.position - s.origin] + [s.published[s.position - s.origin]]
             == s.published[s.start - s.origin..s.position + 1 - s.origin];
    }
  }

  lemma FollowKeeps(s: State)
    requires Inv(s) && Enabled(s, Follows)
    ensures Take(s, Follows).Some? && Inv(Take(s, Follows).value)
  {
    hide Answers, Settles, Receive;
    FirstAnswered(Now(s), s.down);
    OneApplied(s);
    var f, t := Receive(Now(s), s.down[0]).value, Take(s, Follows).value;
    var rest := Answers(f, s.down[1..]).value;
    assert s.up + ([f.position] + rest) == (s.up + [f.position]) + rest;
    forall i | 0 <= i < |t.down| && t.down[i].Batch? ensures Published(t, t.down[i]) {
      assert t.down[i] == s.down[i + 1];
    }
  }

  /** A step never fails and keeps the two sides in step. */
  lemma StepKeeps(s: State, step: Step)
    requires Inv(s) && Enabled(s, step)
    ensures Take(s, step).Some? && Inv(Take(s, step).value)
    ensures step.ReadsAck? ==> s.up[0] == s.expected[0]
  {
    hide Inv, Receive;
    match step
    case Publishes(frame) => PublishKeeps(s, frame);
    case Beats => BeatKeeps(s);
    case Sends =>
      Quiet(s);
      SendKeeps(s);
    case ReadsAck => AckKeeps(s);
    case Follows => FollowKeeps(s);
  }

  lemma {:induction false} Ahead(f: Follower, ms: seq<Message>)
    ensures f.position <= Settles(f, ms).position
    decreases |ms|
  {
    if ms != [] && Receive(f, ms[0]).Some? {
      Ahead(Receive(f, ms[0]).value, ms[1..]);
    }
  }

  lemma SendKeeps(s: State)
    requires Inv(s) && Enabled(s, Sends) && s.up == [] && s.down == [] && s.position == s.sent
    ensures Take(s, Sends).Some? && Inv(Take(s, Sends).value)
  {
    var t := Take(s, Sends).value;
    var beat, batch := Heartbeat(Head(s)), Message.Batch(s.sent + 1, s.published[s.sent - s.origin]);
    Appended(Now(s), [], beat);
    assert [] + [beat] == [beat];
    Appended(Now(s), [beat], batch);
    assert [beat] + [batch] == s.down + [beat, batch];
    assert [s.sent] + [s.sent + 1] == [s.sent, s.sent + 1];
    assert Now(t) == Now(s);
  }

  lemma {:induction false} RunKeeps(states: seq<State>, steps: seq<Step>, i: nat)
    requires Run(states, steps) && i <= |steps|
    ensures Inv(states[i])
  {
    hide Enabled, Take;
    if i == 0 {
      StartsInStep(states[0]);
    } else {
      RunKeeps(states, steps, i - 1);
      StepKeeps(states[i - 1], steps[i - 1]);
    }
  }

  lemma StartsInStep(s: State)
    requires Initial(s)
    ensures Inv(s)
  {
    assert s.up + [] == s.up;
  }

  /**
   * An honest peer is never rejected: in every run, whatever either side may do next
   * succeeds, and the acknowledgement the source reads is the one it expects. The follower
   * never stands beyond what the source has published.
   */
  lemma NeverRejects(states: seq<State>, steps: seq<Step>, i: nat, next: Step)
    requires Run(states, steps) && i <= |steps| && Enabled(states[i], next)
    ensures Take(states[i], next).Some?
    ensures next.ReadsAck? ==> states[i].up[0] == states[i].expected[0]
    ensures states[i].position <= Head(states[i])
  {
    hide Take, Enabled;
    RunKeeps(states, steps, i);
    StepKeeps(states[i], next);
  }

  /** What the follower has applied is every frame published since it resumed, once and in order. */
  lemma DeliversInOrder(states: seq<State>, steps: seq<Step>, i: nat)
    requires Run(states, steps) && i <= |steps|
    ensures var s := states[i];
            && s.origin <= s.start <= s.position <= Head(s)
            && s.applied == s.published[s.start - s.origin..s.position - s.origin]
  {
    hide Take, Enabled;
    RunKeeps(states, steps, i);
  }

  // ---------- The follower's loop ----------

  lemma AnswersStep(f: Follower, ms: seq<Message>)
    requires ms != []
    ensures Receive(f, ms[0]).None? ==> Answers(f, ms).None?
    ensures Receive(f, ms[0]).Some? ==>
              var g := Receive(f, ms[0]).value;
              && Answers(f, ms).Some? == Answers(g, ms[1..]).Some?
              && (Answers(f, ms).Some? ==> Answers(f, ms).value == [g.position] + Answers(g, ms[1..]).value)
              && Settles(f, ms) == Settles(g, ms[1..])
  {
  }

  /** Reads messages, applies batches in sequence, answers each; it stops at the first out of sequence. */
  method Follow(position: nat, previous: Option<Bytes>, ms: seq<Message>)
    returns (ok: bool, last: nat, kept: Option<Bytes>, acks: seq<nat>)
    ensures var f := Follower(position, previous);
            && (ok <==> Answers(f, ms).Some?)
            && (ok ==> acks == Answers(f, ms).value && Follower(last, kept) == Settles(f, ms))
  {
    hide Answers, Settles;
    last, kept, acks := position, previous, [];
    ghost var f := Follower(position, previous);
    assert ms[0..] == ms;
    for i := 0 to |ms|
      invariant Answers(f, ms).Some? <==> Answers(Follower(last, kept), ms[i..]).Some?
      invariant Answers(f, ms).Some? ==> Answers(f, ms).value == acks + Answers(Follower(last, kept), ms[i..]).value
      invariant Answers(f, ms).Some? ==> Settles(f, ms) == Settles(Follower(last, kept), ms[i..])
    {
      AnswersStep(Follower(last, kept), ms[i..]);
      assert ms[i..][1..] == ms[i + 1..];
      match ms[i] {
        case Heartbeat(head) =>
          if head < last {
            return false, last, kept, acks;
          }
        case Batch(sequence, frame) =>
          if sequence == last && kept == Some(frame) {
          } else {
            if sequence != last + 1 {
              return false, last, kept, acks;
            }
            last, kept := sequence, Some(frame);
          }
      }
      acks := acks + [last];
    }
    assert ms[|ms|..] == [];
    NothingLeft(Follower(last, kept));
    assert acks + [] == acks;
    ok := true;
  }

  lemma NothingLeft(f: Follower)
    ensures Answers(f, []) == Some([]) && Settles(f, []) == f
  {
  }
}
