/**
 * The decoder's scanner as a transition system over the bytes seen so far: one step per
 * iteration of its loop. What it does never depends on how the bytes were cut into calls,
 * and it completes exactly the frames of the grammar that respect the limits.
 */
module RespScanner {
  import opened Crc
  import opened Format
  import opened Resp
  import opened RespFlat

  datatype Payload = Payload(start: nat, end: nat)

  /** A validated node; payloads stay in the buffer until the frame is complete. */
  datatype Node =
    | SimpleNode(at: Payload)
    | ErrorNode(at: Payload)
    | IntegerNode(value: int)
    | BulkNode(body: Option<Payload>)
    | ArrayNode(length: Option<nat>, mark: byte)
    | ScalarNode(mark: byte, at: Payload)
    | NullNode
    | BooleanNode(truth: bool)

  datatype Where =
    | AtPrefix
    | InLine(mark: byte, start: nat, sawCr: bool)
    | InBody(mark: byte, body: Payload, sawCr: bool)

  datatype Scanner = Scanner(
    cursor: nat, at: Where, nodes: seq<Node>, arrays: seq<nat>, started: nat, pending: nat)

  datatype Limit = FrameBytes | BulkBytes | LineBytes | NodeCount | Levels

  datatype Fault = Malformed | Exceeded(limit: Limit) | BufferChanged | Poisoned

  datatype Step = Again(d: Scanner) | Done(d: Scanner) | More(d: Scanner) | Fail(fault: Fault)

  const START: Scanner := Scanner(0, AtPrefix, [], [], 0, 1)

  predicate WellFormed(d: Scanner) {
    && Positive(d.arrays)
    && match d.at
       case AtPrefix => true
       case InLine(b, start, cr) => IsPrefix(b) && start + (if cr then 2 else 1) <= d.cursor
       case InBody(b, p, cr) => IsBlob(b) && p.start <= p.end && p.start <= d.cursor && (cr ==> d.cursor == p.end + 1)
                                && (!cr ==> d.cursor <= p.end)
  }

  /** A step that did not stop for want of bytes leaves the cursor where it was told to. */
  predicate Settled(r: Step, cursor: nat) {
    !r.More? && (r.Again? || r.Done? ==> WellFormed(r.d) && r.d.cursor == cursor)
  }

  // ---------- One step ----------

  function FinishNode(d: Scanner): (r: Step)
    requires Positive(d.arrays)
    ensures Settled(r, d.cursor)
  {
    var closed := d.(arrays := Close(d.arrays), at := AtPrefix);
    if closed.arrays == [] then Done(closed) else Again(closed)
  }

  function PrefixStep(d: Scanner, s: Bytes, k: Codec): Step {
    if d.started > 0 && d.cursor + 3 > k.maxFrame then Fail(Exceeded(FrameBytes))
    else if d.cursor >= |s| then More(d)
    else if !IsPrefix(s[d.cursor]) then Fail(Malformed)
    else if IsAggregate(s[d.cursor]) && |d.arrays| >= k.maxDepth then Fail(Exceeded(Levels))
    else if d.started + 1 > k.maxNodes then Fail(Exceeded(NodeCount))
    else if d.pending == 0 then Fail(Malformed)
    else Again(d.(cursor := d.cursor + 1, started := d.started + 1, pending := d.pending - 1,
                  at := InLine(s[d.cursor], d.cursor, false)))
  }

  function LineNode(b: byte, text: Bytes, at: Payload, k: Codec): Option<Node> {
    match b
    case 43 => Some(SimpleNode(at))
    case 45 => Some(ErrorNode(at))
    case 58 => (match ReadInteger(text) case None => None case Some(v) => Some(IntegerNode(v)))
    case 95 => if text == [] then Some(NullNode) else None
    case 35 => if text == [116] then Some(BooleanNode(true)) else if text == [102] then Some(BooleanNode(false))
        else None
    case 44 => if k.isDouble(text) then Some(ScalarNode(44, at)) else None
    case 40 => if BigText(text) then Some(ScalarNode(40, at)) else None
    case _ => None
  }

  function StartBody(d: Scanner, b: byte, length: Length, k: Codec): (r: Step)
    requires Positive(d.arrays) && IsBlob(b)
    ensures Settled(r, d.cursor)
  {
    match length
    case BadLength => Fail(Malformed)
    case NoLength => if b == 36 then FinishNode(d.(nodes := d.nodes + [BulkNode(None)])) else Fail(Malformed)
    case Count(n) =>
      if n > k.maxBulk then Fail(Exceeded(BulkBytes))
      else if d.cursor + n + 2 > k.maxFrame then Fail(Exceeded(FrameBytes))
      else Again(d.(at := InBody(b, Payload(d.cursor, d.cursor + n), false)))
  }

  function StartItems(d: Scanner, b: byte, length: Length, k: Codec): (r: Step)
    requires Positive(d.arrays)
    ensures Settled(r, d.cursor)
  {
    match length
    case BadLength => Fail(Malformed)
    case NoLength => if b == 42 then FinishNode(d.(nodes := d.nodes + [ArrayNode(None, b)])) else Fail(Malformed)
    case Count(n) =>
      var m := if Paired(KindOf(b)) then 2 * n else n;
      var pending := d.pending + m;
      if d.started + pending > k.maxNodes then Fail(Exceeded(NodeCount))
      else if d.cursor + 3 * pending > k.maxFrame then Fail(Exceeded(FrameBytes))
      else
        var grown := d.(nodes := d.nodes + [ArrayNode(Some(m), b)], pending := pending);
        if m > 0 then Again(grown.(arrays := d.arrays + [m], at := AtPrefix)) else FinishNode(grown)
  }

  function FinishLine(d: Scanner, s: Bytes, b: byte, at: Payload, k: Codec): (r: Step)
    requires Positive(d.arrays) && at.start <= at.end <= |s|
    ensures Settled(r, d.cursor)
  {
    var text := s[at.start..at.end];
    if IsBlob(b) then StartBody(d, b, ReadLength(text), k)
    else if IsAggregate(b) then StartItems(d, b, ReadLength(text), k)
    else match LineNode(b, text, at, k)
         case None => Fail(Malformed)
         case Some(node) => FinishNode(d.(nodes := d.nodes + [node]))
  }

  function LineStep(d: Scanner, s: Bytes, k: Codec): (r: Step)
    requires WellFormed(d) && d.at.InLine? && d.cursor <= |s|
    ensures r.More? ==> r.d == d
    ensures r.Again? || r.Done? ==> WellFormed(r.d) && r.d.cursor == d.cursor + 1 <= |s|
  {
    var InLine(b, start, cr) := d.at;
    var least := d.cursor + if cr then 1 else 2;
    if least > k.maxFrame then Fail(Exceeded(FrameBytes))
    else if least - start > k.maxLine then Fail(Exceeded(LineBytes))
    else if d.cursor == |s| then More(d)
    else
      var next := d.(cursor := d.cursor + 1);
      if cr then
        if s[d.cursor] != LF then Fail(Malformed)
        else FinishLine(next, s, b, Payload(start + 1, d.cursor - 1), k)
      else if s[d.cursor] == LF then Fail(Malformed)
      else Again(next.(at := InLine(b, start, s[d.cursor] == CR)))
  }

  function BodyNode(b: byte, body: Bytes, at: Payload): Option<Node> {
    if b == 36 then Some(BulkNode(Some(at)))
    else if b == 61 && !VerbatimText(body) then None
    else Some(ScalarNode(b, at))
  }

  function BodyStep(d: Scanner, s: Bytes): (r: Step)
    requires WellFormed(d) && d.at.InBody? && d.cursor <= |s|
    ensures r.More? ==> WellFormed(r.d) && r.d.at == d.at && d.cursor <= r.d.cursor <= |s|
    ensures r.Again? || r.Done? ==> WellFormed(r.d) && d.cursor < r.d.cursor <= |s|
  {
    var InBody(b, p, cr) := d.at;
    var c := if d.cursor < p.end then (if |s| < p.end then |s| else p.end) else d.cursor;
    if c < p.end || c == |s| then More(d.(cursor := c))
    else if cr then
      if s[c] != LF then Fail(Malformed)
      else match BodyNode(b, s[p.start..p.end], p)
           case None => Fail(Malformed)
           case Some(node) => FinishNode(d.(cursor := c + 1, nodes := d.nodes + [node]))
    else if s[c] != CR then Fail(Malformed)
    else Again(d.(cursor := c + 1, at := InBody(b, p, true)))
  }

  /** One iteration of the loop: it consumes a byte, or ends the call. */
  function Advance(d: Scanner, s: Bytes, k: Codec): (r: Step)
    requires WellFormed(d) && d.cursor <= |s|
    ensures r.Again? ==> WellFormed(r.d) && d.cursor < r.d.cursor <= |s|
    ensures r.Done? ==> WellFormed(r.d) && d.cursor < r.d.cursor <= |s|
    ensures r.More? ==> WellFormed(r.d) && d.cursor <= r.d.cursor <= |s|
  {
    match d.at
    case AtPrefix => PrefixStep(d, s, k)
    case InLine(_, _, _) => LineStep(d, s, k)
    case InBody(_, _, _) => BodyStep(d, s)
  }

  function Run(d: Scanner, s: Bytes, k: Codec): (r: Step)
    requires WellFormed(d) && d.cursor <= |s|
    ensures !r.Again?
    ensures r.Done? || r.More? ==> WellFormed(r.d) && d.cursor <= r.d.cursor <= |s|
    decreases |s| - d.cursor
  {
    var step := Advance(d, s, k);
    if step.Again? then Run(step.d, s, k) else step
  }

  // ---------- However the bytes were cut ----------

  lemma BodyExtends(d: Scanner, s: Bytes, t: Bytes, k: Codec)
    requires WellFormed(d) && d.at.InBody? && d.cursor <= |s|
    ensures !BodyStep(d, s).More? ==> BodyStep(d, s + t) == BodyStep(d, s)
    ensures BodyStep(d, s).More? ==>
              WellFormed(BodyStep(d, s).d) && BodyStep(BodyStep(d, s).d, s + t) == BodyStep(d, s + t)
  {
    var p := d.at.body;
    if p.end <= |s| {
      assert (s + t)[p.start..p.end] == s[p.start..p.end];
    }
  }

  lemma LineExtends(d: Scanner, s: Bytes, t: Bytes, k: Codec)
    requires WellFormed(d) && d.at.InLine? && d.cursor <= |s|
    ensures !LineStep(d, s, k).More? ==> LineStep(d, s + t, k) == LineStep(d, s, k)
    ensures LineStep(d, s, k).More? ==> LineStep(d, s, k).d == d
  {
    hide StartBody, StartItems, LineNode, FinishNode;
    if d.at.sawCr {
      assert (s + t)[d.at.start + 1..d.cursor - 1] == s[d.at.start + 1..d.cursor - 1];
    }
  }

  /** More bytes never change a decision, and waiting loses nothing. */
  lemma AdvanceExtends(d: Scanner, s: Bytes, t: Bytes, k: Codec)
    requires WellFormed(d) && d.cursor <= |s|
    ensures !Advance(d, s, k).More? ==> Advance(d, s + t, k) == Advance(d, s, k)
    ensures Advance(d, s, k).More? ==> Advance(Advance(d, s, k).d, s + t, k) == Advance(d, s + t, k)
  {
    hide LineStep, BodyStep;
    match d.at
    case AtPrefix =>
    case InLine(_, _, _) => LineExtends(d, s, t, k);
    case InBody(_, _, _) => BodyExtends(d, s, t, k);
  }

  /**
   * Fragmentation: a call that ended, ended for good; one that asked for more resumes as if
   * the bytes had come together.
   */
  lemma {:induction false} RunExtends(d: Scanner, s: Bytes, t: Bytes, k: Codec)
    requires WellFormed(d) && d.cursor <= |s|
    ensures !Run(d, s, k).More? ==> Run(d, s + t, k) == Run(d, s, k)
    ensures Run(d, s, k).More? ==> Run(Run(d, s, k).d, s + t, k) == Run(d, s + t, k)
    decreases |s| - d.cursor
  {
    hide Advance;
    AdvanceExtends(d, s, t, k);
    var step := Advance(d, s, k);
    if step.Again? {
      RunExtends(step.d, s, t, k);
    }
  }
}
