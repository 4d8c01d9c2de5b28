/**
 * The scanner completes exactly the frames of the grammar that respect the limits: its
 * running checks on lines, nodes, depth and bytes add up to the limits on the whole frame.
 */
module RespScan {
  import opened Crc
  import opened Format
  import opened Resp
  import opened RespFlat
  import opened RespScanner

  // ---------- What a node stands for ----------

  predicate InBuffer(p: Payload, s: Bytes) { p.start <= p.end <= |s| }

  predicate NodeOk(node: Node, s: Bytes) {
    match node
    case SimpleNode(p) => InBuffer(p, s)
    case ErrorNode(p) => InBuffer(p, s)
    case BulkNode(Some(p)) => InBuffer(p, s)
    case ScalarNode(b, p) => InBuffer(p, s) && b in {44, 40, 33, 61}
    case _ => true
  }

  function Slice(s: Bytes, p: Payload): Bytes
    requires InBuffer(p, s)
  {
    s[p.start..p.end]
  }

  function ScalarOf(b: byte, text: Bytes): Frame {
    if b == 44 then Double(text) else if b == 40 then BigNumber(text) else if b == 33 then BlobError(text)
        else Verbatim(text)
  }

  function Resolve(node: Node, s: Bytes): Head
    requires NodeOk(node, s)
  {
    match node
    case SimpleNode(p) => Leaf(Simple(Slice(s, p)))
    case ErrorNode(p) => Leaf(Frame.Error(Slice(s, p)))
    case IntegerNode(v) => Leaf(Integer(v))
    case BulkNode(None) => Leaf(Bulk(None))
    case BulkNode(Some(p)) => Leaf(Bulk(Some(Slice(s, p))))
    case ArrayNode(None, _) => Leaf(NullArray)
    case ArrayNode(Some(n), b) => Open(KindOf(b), n)
    case ScalarNode(b, p) => Leaf(ScalarOf(b, Slice(s, p)))
    case NullNode => Leaf(Null)
    case BooleanNode(truth) => Leaf(Boolean(truth))
  }

  predicate NodesOk(nodes: seq<Node>, s: Bytes) {
    forall i :: 0 <= i < |nodes| ==> NodeOk(nodes[i], s)
  }

  function ResolveAll(nodes: seq<Node>, s: Bytes): (hs: seq<Head>)
    requires NodesOk(nodes, s)
    ensures |hs| == |nodes| && forall i :: 0 <= i < |nodes| ==> hs[i] == Resolve(nodes[i], s)
  {
    if nodes == [] then [] else ResolveAll(nodes[..|nodes| - 1], s) + [Resolve(nodes[|nodes| - 1], s)]
  }

  // ---------- One line ----------

  function Settle(step: Step, s: Bytes, k: Codec): Step
    requires step.Again? ==> WellFormed(step.d) && step.d.cursor <= |s|
  {
    if step.Again? then Run(step.d, s, k) else step
  }

  lemma {:induction false} LineEndFrom(s: Bytes, at: nat, j: nat)
    requires at <= j <= |s| && forall i :: at <= i < j ==> s[i] != CR && s[i] != LF
    ensures LineEnd(s, at) == LineEnd(s, j)
    decreases j - at
  {
    if at < j { LineEndFrom(s, at + 1, j); }
  }

  /** Finishing a line depends on the position it was at and not on how it got there. */
  lemma LineIgnoresPlace(d: Scanner, w: Where, s: Bytes, b: byte, p: Payload, k: Codec)
    requires Positive(d.arrays) && InBuffer(p, s)
    ensures FinishLine(d.(at := w), s, b, p, k) == FinishLine(d, s, b, p, k)
  {
    hide LineNode, ReadLength, Close;
  }

  lemma NodeIgnoresPlace(d: Scanner, w: Where)
    requires Positive(d.arrays)
    ensures FinishNode(d.(at := w)) == FinishNode(d)
  {
  }

  lemma RunLine(d: Scanner, s: Bytes, k: Codec)
    requires WellFormed(d) && d.cursor <= |s| && d.at.InLine?
    ensures Run(d, s, k) == Settle(LineStep(d, s, k), s, k)
  {
  }

  predicate MidLine(d: Scanner, s: Bytes) {
    && WellFormed(d) && d.cursor <= |s| && d.at.InLine? && !d.at.sawCr
    && forall j :: d.at.start < j < d.cursor ==> s[j] != CR && s[j] != LF
  }

  /** The line from c has no terminator yet and can still get one within the limits. */
  predicate LineOpen(s: Bytes, c: nat, k: Codec)
    requires c < |s|
  {
    var i := LineEnd(s, c + 1);
    && (i == |s| || (s[i] == CR && i + 1 == |s|))
    && i + 2 - c <= k.maxLine && i + 2 <= k.maxFrame
  }

  /** A line runs to its terminator, within the limits; otherwise it waits while it is open, and is refused when not. */
  ghost predicate LineOutcome(d: Scanner, s: Bytes, k: Codec)
    requires MidLine(d, s)
  {
    var i, start := LineEnd(s, d.cursor), d.at.start;
    if HasLine(s, start, k) && i + 2 <= k.maxFrame
    then i + 2 <= |s|
         && Run(d, s, k) == Settle(FinishLine(d.(cursor := i + 2), s, d.at.mark, Payload(start + 1, i), k), s, k)
    else !Run(d, s, k).Done? && (Run(d, s, k).More? <==> LineOpen(s, start, k))
  }

  lemma LineStuck(d: Scanner, s: Bytes, k: Codec)
    requires MidLine(d, s) && !LineStep(d, s, k).Again?
    ensures LineOutcome(d, s, k)
  {
    hide FinishLine, Run;
    LineEndFrom(s, d.at.start + 1, d.cursor);
    assert !LineStep(d, s, k).Done?;
    assert Run(d, s, k) == LineStep(d, s, k) by { RunLine(d, s, k); }
  }

  lemma LineTerminated(d: Scanner, s: Bytes, k: Codec)
    requires MidLine(d, s) && LineStep(d, s, k).Again? && s[d.cursor] == CR
    ensures LineOutcome(d, s, k)
  {
    hide FinishLine, Run;
    var InLine(b, start, _) := d.at;
    LineEndFrom(s, start + 1, d.cursor);
    RunLine(d, s, k);
    TerminatorRun(LineStep(d, s, k).d, s, k);
    if d.cursor + 1 < |s| {
      LineIgnoresPlace(d.(cursor := d.cursor + 2), InLine(b, start, true), s, b, Payload(start + 1, d.cursor), k);
    }
  }

  lemma {:induction false} LineRun(d: Scanner, s: Bytes, k: Codec)
    requires MidLine(d, s)
    ensures LineOutcome(d, s, k)
    decreases |s| - d.cursor
  {
    hide FinishLine, Run, HasLine, LineStep;
    var step := LineStep(d, s, k);
    if !step.Again? {
      LineStuck(d, s, k);
    } else if s[d.cursor] == CR {
      LineTerminated(d, s, k);
    } else {
      LineGoesOn(d, s, k);
      LineRun(step.d, s, k);
      RunLine(d, s, k);
      var i := LineEnd(s, d.cursor);
      if i + 2 <= |s| {
        LineIgnoresPlace(d.(cursor := i + 2), step.d.at, s, d.at.mark, Payload(d.at.start + 1, i), k);
      }
    }
  }

  lemma LineGoesOn(d: Scanner, s: Bytes, k: Codec)
    requires MidLine(d, s) && LineStep(d, s, k).Again? && s[d.cursor] != CR
    ensures MidLine(LineStep(d, s, k).d, s) && d.cursor < |s|
    ensures LineStep(d, s, k).d == d.(cursor := d.cursor + 1)
    ensures LineEnd(s, d.cursor) == LineEnd(s, d.cursor + 1)
  {
  }

  lemma TerminatorRun(d: Scanner, s: Bytes, k: Codec)
    requires WellFormed(d) && d.cursor <= |s| && d.at.InLine? && d.at.sawCr
    ensures if d.cursor < |s| && s[d.cursor] == LF && d.cursor + 1 - d.at.start <= k.maxLine
             && d.cursor + 1 <= k.maxFrame
            then
              var line := Payload(d.at.start + 1, d.cursor - 1);
              Run(d, s, k) == Settle(FinishLine(d.(cursor := d.cursor + 1), s, d.at.mark, line, k), s, k)
            else
              && !Run(d, s, k).Done?
              && (Run(d, s, k).More? <==>
                    d.cursor == |s| && d.cursor + 1 - d.at.start <= k.maxLine && d.cursor + 1 <= k.maxFrame)
  {
    hide FinishLine;
  }

  // ---------- One payload ----------

  /** A payload of n bytes and its terminator are not all there yet. */
  predicate BodyOpen(s: Bytes, at: nat, n: nat) {
    |s| <= at + n || (|s| == at + n + 1 && s[at + n] == CR)
  }

  lemma BodyRun(d: Scanner, s: Bytes, k: Codec)
    requires WellFormed(d) && d.cursor <= |s| && d.at.InBody? && !d.at.sawCr && d.cursor == d.at.body.start
    ensures var p := d.at.body;
            if HasBody(s, p.start, p.end - p.start)
            then var node := BodyNode(d.at.mark, s[p.start..p.end], p);
                 if node.None? then Run(d, s, k).Fail?
                 else Run(d, s, k) == Settle(FinishNode(d.(cursor := p.end + 2, nodes := d.nodes + [node.value])), s, k)
            else !Run(d, s, k).Done? && (Run(d, s, k).More? <==> BodyOpen(s, p.start, p.end - p.start))
  {
    hide BodyNode, FinishNode;
    var first := BodyStep(d, s);
    if first.Again? {
      var second := BodyStep(first.d, s);
      assert Run(d, s, k) == Run(first.d, s, k);
      assert Run(first.d, s, k) == Settle(second, s, k);
      var node := BodyNode(d.at.mark, s[d.at.body.start..d.at.body.end], d.at.body);
      if node.Some? {
        NodeIgnoresPlace(d.(cursor := d.at.body.end + 2, nodes := d.nodes + [node.value]), first.d.at);
      }
    }
  }

  // ---------- One head ----------

  /** The scanner past one head. */
  function Past(d: Scanner, node: Node, h: Head, end: nat): Scanner
    requires Positive(d.arrays) && d.pending >= 1
  {
    Scanner(end, AtPrefix, d.nodes + [node], After(h, d.arrays), d.started + 1, d.pending - 1 + Children(h))
  }

  /** Reading on from a head: the frame is complete when no aggregate stays open. */
  function Onward(d: Scanner, s: Bytes, k: Codec): Step
    requires WellFormed(d) && d.cursor <= |s|
  {
    if d.arrays == [] then Done(d) else Run(d, s, k)
  }

  /** Nothing more can fit once the nodes owed need more room than is left. */
  predicate Roomy(d: Scanner, h: Head, end: nat, k: Codec)
    requires d.pending >= 1
  {
    && d.started + d.pending + Children(h) <= k.maxNodes
    && end + 3 * (d.pending - 1 + Children(h)) <= k.maxFrame
    && (Nests(h) ==> |d.arrays| < k.maxDepth)
  }

  predicate Sound(d: Scanner, h: Head, end: nat, k: Codec) {
    d.started + 1 <= k.maxNodes && end <= k.maxFrame && (Nests(h) ==> |d.arrays| < k.maxDepth)
  }

  /** What is checked of one head: its own bytes, and the room for the nodes it announces. */
  predicate Passes(d: Scanner, h: Head, end: nat, k: Codec)
    requires d.pending >= 1
  {
    Sound(d, h, end, k) && (h.Open? ==> Roomy(d, h, end, k))
  }

  /** What a finished line or payload amounts to; `open` when it is not finished and may still be. */
  ghost predicate Effect(r: Step, d: Scanner, s: Bytes, l: Lexed, open: bool, k: Codec)
    requires WellFormed(d) && d.pending >= 1 && d.at.AtPrefix?
    requires l.HeadAt? ==> l.end <= |s|
  {
    if l.NoHead? then !r.Done? && (r.More? <==> open)
    else if Passes(d, l.head, l.end, k) then
      exists node :: NodeOk(node, s) && Resolve(node, s) == l.head && r == Onward(Past(d, node, l.head, l.end), s, k)
    else r.Fail?
  }

  lemma LeafEffect(r: Step, d: Scanner, node: Node, end: nat, s: Bytes, l: Lexed, open: bool, k: Codec)
    requires WellFormed(d) && d.pending >= 1 && d.at.AtPrefix? && end <= |s|
    requires NodeOk(node, s) && l == HeadAt(Resolve(node, s), end) && l.head.Leaf?
    requires Sound(d, l.head, end, k)
    requires r == Settle(FinishNode(Past(d, node, l.head, end).(arrays := d.arrays)), s, k)
    ensures Effect(r, d, s, l, open, k)
  {
    hide Resolve, Close, Run;
    assert r == Onward(Past(d, node, l.head, end), s, k);
  }

  /** The scanner as it stands at the end of a line. */
  function AtLineEnd(d: Scanner, start: nat, end: nat, b: byte): Scanner
    requires d.pending >= 1
  {
    d.(cursor := end, started := d.started + 1, pending := d.pending - 1, at := InLine(b, start, false))
  }

  lemma LineLeafNode(b: byte, text: Bytes, p: Payload, s: Bytes, k: Codec)
    requires InBuffer(p, s) && text == Slice(s, p) && IsPrefix(b) && !IsBlob(b) && !IsAggregate(b)
    ensures LineNode(b, text, p, k).Some? <==> LineLeaf(b, text, k).Some?
    ensures LineNode(b, text, p, k).Some? ==>
              && NodeOk(LineNode(b, text, p, k).value, s)
              && Resolve(LineNode(b, text, p, k).value, s) == Leaf(LineLeaf(b, text, k).value)
              && !Nests(Leaf(LineLeaf(b, text, k).value))
  {
  }

  lemma BlobLeafNode(b: byte, p: Payload, s: Bytes)
    requires InBuffer(p, s) && IsBlob(b)
    ensures BodyNode(b, Slice(s, p), p).Some? <==> BlobLeaf(b, Slice(s, p)).Some?
    ensures BodyNode(b, Slice(s, p), p).Some? ==>
              && NodeOk(BodyNode(b, Slice(s, p), p).value, s)
              && Resolve(BodyNode(b, Slice(s, p), p).value, s) == Leaf(BlobLeaf(b, Slice(s, p)).value)
              && !Nests(Leaf(BlobLeaf(b, Slice(s, p)).value))
  {
  }

  /** A plain line: the leaf it spells. */
  lemma LineEffect(d: Scanner, s: Bytes, start: nat, i: nat, b: byte, k: Codec)
    requires WellFormed(d) && d.pending >= 1 && d.at.AtPrefix?
    requires IsPrefix(b) && !IsBlob(b) && !IsAggregate(b) && start < i && i + 2 <= |s|
    requires d.started + 1 <= k.maxNodes && i + 2 <= k.maxFrame
    ensures var r := Settle(FinishLine(AtLineEnd(d, start, i + 2, b), s, b, Payload(start + 1, i), k), s, k);
            var leaf := LineLeaf(b, s[start + 1..i], k);
            Effect(r, d, s, if leaf.None? then NoHead else HeadAt(Leaf(leaf.value), i + 2), false, k)
  {
    hide LineNode, LineLeaf, Resolve, NodeOk, Effect, Run, Close;
    var p, text := Payload(start + 1, i), s[start + 1..i];
    LineLeafNode(b, text, p, s, k);
    var node := LineNode(b, text, p, k);
    var e := AtLineEnd(d, start, i + 2, b);
    if node.None? {
      NoEffect(d, s, k, Malformed);
    } else {
      var l := HeadAt(Leaf(LineLeaf(b, text, k).value), i + 2);
      var r := Settle(FinishNode(e.(nodes := e.nodes + [node.value])), s, k);
      NodeIgnoresPlace(Past(d, node.value, l.head, i + 2).(arrays := d.arrays), e.at);
      LeafEffect(r, d, node.value, i + 2, s, l, false, k);
    }
  }

  lemma NoEffect(d: Scanner, s: Bytes, k: Codec, fault: Fault)
    requires WellFormed(d) && d.pending >= 1 && d.at.AtPrefix?
    ensures Effect(Fail(fault), d, s, NoHead, false, k)
  {
  }

  /** The payload announced at the end of a line is allowed and not all there yet. */
  predicate PayloadOpen(s: Bytes, length: Length, at: nat, k: Codec) {
    length.Count? && length.n <= k.maxBulk && at + length.n + 2 <= k.maxFrame && BodyOpen(s, at, length.n)
  }

  /** A line that announces a payload: the payload, when it fits. */
  lemma BlobEffect(d: Scanner, s: Bytes, start: nat, i: nat, b: byte, k: Codec)
    requires WellFormed(d) && d.pending >= 1 && d.at.AtPrefix?
    requires IsBlob(b) && start < i && i + 2 <= |s| && d.started + 1 <= k.maxNodes && i + 2 <= k.maxFrame
    ensures var r := Settle(FinishLine(AtLineEnd(d, start, i + 2, b), s, b, Payload(start + 1, i), k), s, k);
            var length := ReadLength(s[start + 1..i]);
            Effect(r, d, s, ReadBlob(s, b, length, i + 2, k), PayloadOpen(s, length, i + 2, k), k)
  {
    hide ReadLength, Effect, Run, Close, BodyNode, BlobLeaf, Resolve;
    var e, at := AtLineEnd(d, start, i + 2, b), i + 2;
    var length := ReadLength(s[start + 1..i]);
    match length
    case BadLength => NoEffect(d, s, k, Malformed);
    case NoLength =>
      if b == 36 {
        var l := HeadAt(Leaf(Bulk(None)), at);
        assert Resolve(BulkNode(None), s) == l.head by { NullBulk(s); }
        NodeIgnoresPlace(Past(d, BulkNode(None), l.head, at).(arrays := d.arrays), e.at);
        LeafEffect(Settle(FinishNode(e.(nodes := e.nodes + [BulkNode(None)])), s, k), d, BulkNode(None), at, s, l,
                   false, k);
      } else {
        NoEffect(d, s, k, Malformed);
      }
    case Count(n) =>
      var l := ReadBlob(s, b, length, at, k);
      if n > k.maxBulk {
        NoEffect(d, s, k, Exceeded(BulkBytes));
      } else if at + n + 2 > k.maxFrame {
        TooFar(d, s, l, k);
      } else {
        BodyEffect(d, s, at, n, b, e, k);
      }
  }

  lemma NullBulk(s: Bytes)
    ensures Resolve(BulkNode(None), s) == Leaf(Bulk(None))
  {
  }

  lemma TooFar(d: Scanner, s: Bytes, l: Lexed, k: Codec)
    requires WellFormed(d) && d.pending >= 1 && d.at.AtPrefix?
    requires l.HeadAt? ==> k.maxFrame < l.end <= |s|
    ensures Effect(Fail(Exceeded(FrameBytes)), d, s, l, false, k)
  {
  }

  /** A head that breaks a limit is refused. */
  lemma NotPassed(r: Step, d: Scanner, s: Bytes, l: Lexed, open: bool, k: Codec)
    requires WellFormed(d) && d.pending >= 1 && d.at.AtPrefix? && !r.Done?
    requires l.NoHead? ==> (r.More? <==> open)
    requires l.HeadAt? ==> r.Fail? && l.end <= |s| && !Passes(d, l.head, l.end, k)
    ensures Effect(r, d, s, l, open, k)
  {
  }

  lemma BodyEffect(d: Scanner, s: Bytes, at: nat, n: nat, b: byte, e: Scanner, k: Codec)
    requires WellFormed(d) && d.pending >= 1 && d.at.AtPrefix? && IsBlob(b) && at <= |s|
    requires d.started + 1 <= k.maxNodes && n <= k.maxBulk && at + n + 2 <= k.maxFrame
    requires e == d.(cursor := at, started := d.started + 1, pending := d.pending - 1, at := e.at)
    ensures Effect(Run(e.(at := InBody(b, Payload(at, at + n), false)), s, k), d, s, ReadBlob(s, b, Count(n), at, k),
                   BodyOpen(s, at, n), k)
  {
    hide Effect, Run, Close, BodyNode, BlobLeaf, Resolve, NodeOk;
    var p := Payload(at, at + n);
    var body := e.(at := InBody(b, p, false));
    BodyRun(body, s, k);
    if HasBody(s, at, n) {
      BlobLeafNode(b, p, s);
      var node := BodyNode(b, s[at..at + n], p);
      if node.None? {
        NotPassed(Run(body, s, k), d, s, NoHead, false, k);
      } else {
        var l := ReadBlob(s, b, Count(n), at, k);
        NodeIgnoresPlace(Past(d, node.value, l.head, l.end).(arrays := d.arrays), body.at);
        LeafEffect(Run(body, s, k), d, node.value, l.end, s, l, false, k);
      }
    } else {
      NotPassed(Run(body, s, k), d, s, NoHead, BodyOpen(s, at, n), k);
    }
  }

  /** A line that opens an aggregate. */
  lemma OpenEffect(d: Scanner, s: Bytes, start: nat, i: nat, b: byte, k: Codec)
    requires WellFormed(d) && d.pending >= 1 && d.at.AtPrefix? && |d.arrays| < k.maxDepth
    requires IsAggregate(b) && start < i && i + 2 <= |s| && d.started + 1 <= k.maxNodes && i + 2 <= k.maxFrame
    ensures var r := Settle(FinishLine(AtLineEnd(d, start, i + 2, b), s, b, Payload(start + 1, i), k), s, k);
            Effect(r, d, s, ReadOpen(b, ReadLength(s[start + 1..i]), i + 2), false, k)
  {
    hide ReadLength, Effect, Run, Close;
    var e, at := AtLineEnd(d, start, i + 2, b), i + 2;
    var length := ReadLength(s[start + 1..i]);
    match length
    case BadLength => NoEffect(d, s, k, Malformed);
    case NoLength =>
      if b == 42 {
        var l, node := HeadAt(Leaf(NullArray), at), ArrayNode(None, b);
        NodeIgnoresPlace(Past(d, node, l.head, at).(arrays := d.arrays), e.at);
        LeafEffect(Settle(FinishNode(e.(nodes := e.nodes + [node])), s, k), d, node, at, s, l, false, k);
      } else {
        NoEffect(d, s, k, Malformed);
      }
    case Count(n) => ItemsEffect(d, s, at, n, b, e, k);
  }

  lemma ItemsEffect(d: Scanner, s: Bytes, at: nat, n: nat, b: byte, e: Scanner, k: Codec)
    requires WellFormed(d) && d.pending >= 1 && d.at.AtPrefix? && |d.arrays| < k.maxDepth
    requires IsAggregate(b) && at <= |s| && d.started + 1 <= k.maxNodes && at <= k.maxFrame
    requires e == d.(cursor := at, started := d.started + 1, pending := d.pending - 1, at := e.at)
    ensures Effect(Settle(StartItems(e, b, Count(n), k), s, k), d, s, ReadOpen(b, Count(n), at), false, k)
  {
    hide Run, Close;
    var l := ReadOpen(b, Count(n), at);
    var m := Children(l.head);
    var node := ArrayNode(Some(m), b);
    assert Resolve(node, s) == l.head && NodeOk(node, s);
    var step := StartItems(e, b, Count(n), k);
    if !step.Fail? {
      NodeIgnoresPlace(Past(d, node, l.head, at).(arrays := d.arrays), e.at);
      assert Settle(step, s, k) == Onward(Past(d, node, l.head, at), s, k);
    }
  }

  lemma HeadEnd(s: Bytes, c: nat, k: Codec)
    requires ReadHead(s, c, k).HeadAt?
    ensures c < |s| && IsPrefix(s[c]) && HasLine(s, c, k) && LineEnd(s, c + 1) + 2 <= ReadHead(s, c, k).end
    ensures IsAggregate(s[c]) ==> Nests(ReadHead(s, c, k).head)
  {
  }

  /**
   * A node that is owed is not all there yet, and nothing about it is wrong so far: nothing
   * of it has come, or it begins with a known mark, and its line or its payload goes on.
   */
  predicate HeadOpen(d: Scanner, s: Bytes, k: Codec) {
    && (d.started > 0 ==> d.cursor + 3 <= k.maxFrame)
    && (|| d.cursor == |s|
        || (&& d.cursor < |s| && IsPrefix(s[d.cursor]) && d.started + 1 <= k.maxNodes
            && (IsAggregate(s[d.cursor]) ==> |d.arrays| < k.maxDepth)
            && (LineOpen(s, d.cursor, k) || BlobOpen(s, d.cursor, k))))
  }

  /** The line from c is whole and announces a payload that is not all there yet. */
  predicate BlobOpen(s: Bytes, c: nat, k: Codec)
    requires c < |s|
  {
    && HasLine(s, c, k) && LineEnd(s, c + 1) + 2 <= k.maxFrame && IsBlob(s[c])
    && PayloadOpen(s, ReadLength(s[c + 1..LineEnd(s, c + 1)]), LineEnd(s, c + 1) + 2, k)
  }

  lemma PrefixRefused(d: Scanner, s: Bytes, k: Codec)
    requires WellFormed(d) && d.cursor <= |s| && d.pending >= 1 && d.at.AtPrefix?
    requires !PrefixStep(d, s, k).Again?
    ensures Effect(Run(d, s, k), d, s, ReadHead(s, d.cursor, k), HeadOpen(d, s, k), k)
  {
    hide Effect, ReadHead, HasLine, LineEnd, BlobOpen, LineOpen;
    if ReadHead(s, d.cursor, k).HeadAt? { HeadEnd(s, d.cursor, k); }
    NotPassed(Run(d, s, k), d, s, ReadHead(s, d.cursor, k), HeadOpen(d, s, k), k);
  }

  lemma LineFinished(d: Scanner, s: Bytes, k: Codec)
    requires WellFormed(d) && d.cursor < |s| && d.pending >= 1 && d.at.AtPrefix? && d.started + 1 <= k.maxNodes
    requires IsPrefix(s[d.cursor]) && HasLine(s, d.cursor, k) && LineEnd(s, d.cursor + 1) + 2 <= k.maxFrame
    requires IsAggregate(s[d.cursor]) ==> |d.arrays| < k.maxDepth
    ensures LineEnd(s, d.cursor + 1) + 2 <= |s|
    ensures var c, i := d.cursor, LineEnd(s, d.cursor + 1);
            var r := Settle(FinishLine(AtLineEnd(d, c, i + 2, s[c]), s, s[c], Payload(c + 1, i), k), s, k);
            Effect(r, d, s, ReadHead(s, c, k), BlobOpen(s, c, k), k)
  {
    hide Effect, ReadHead, HasLine, LineEnd, Run, FinishLine, PayloadOpen;
    var c := d.cursor;
    LineBound(s, c, k);
    ReadHeadIs(s, c, k);
    var i, b := LineEnd(s, c + 1), s[c];
    if IsBlob(b) {
      BlobEffect(d, s, c, i, b, k);
    } else if IsAggregate(b) {
      OpenEffect(d, s, c, i, b, k);
    } else {
      LineEffect(d, s, c, i, b, k);
    }
  }

  lemma StepOnce(d: Scanner, s: Bytes, k: Codec)
    requires WellFormed(d) && d.cursor <= |s| && d.at.AtPrefix? && PrefixStep(d, s, k).Again?
    ensures Run(d, s, k) == Run(PrefixStep(d, s, k).d, s, k)
  {
  }

  /** From one prefix to the next, the scanner does what one head of the grammar says. */
  lemma HeadEffect(d: Scanner, s: Bytes, k: Codec)
    requires WellFormed(d) && d.cursor <= |s| && d.pending >= 1 && d.at.AtPrefix?
    ensures Effect(Run(d, s, k), d, s, ReadHead(s, d.cursor, k), HeadOpen(d, s, k), k)
  {
    hide Effect, ReadHead, HasLine, LineEnd, Run, FinishLine, Settle, LineOpen, BlobOpen;
    var c := d.cursor;
    var step := PrefixStep(d, s, k);
    if !step.Again? {
      PrefixRefused(d, s, k);
    } else {
      StepOnce(d, s, k);
      LineRun(step.d, s, k);
      var i, b := LineEnd(s, c + 1), s[c];
      if HasLine(s, c, k) && i + 2 <= k.maxFrame {
        LineFinished(d, s, k);
        assert step.d.(cursor := i + 2) == AtLineEnd(d, c, i + 2, b);
        WholeLine(s, c, k);
      } else {
        if ReadHead(s, c, k).HeadAt? {
          HeadEnd(s, c, k);
          FarLine(s, c, k);
        }
        assert !BlobOpen(s, c, k) by { NoLineNoBlob(s, c, k); }
        NotPassed(Run(d, s, k), d, s, ReadHead(s, c, k), HeadOpen(d, s, k), k);
      }
    }
  }

  lemma WholeLine(s: Bytes, c: nat, k: Codec)
    requires c < |s| && HasLine(s, c, k)
    ensures !LineOpen(s, c, k)
  {
  }

  lemma FarLine(s: Bytes, c: nat, k: Codec)
    requires c < |s| && LineEnd(s, c + 1) + 2 > k.maxFrame
    ensures !LineOpen(s, c, k)
  {
  }

  lemma NoLineNoBlob(s: Bytes, c: nat, k: Codec)
    requires c < |s| && !(HasLine(s, c, k) && LineEnd(s, c + 1) + 2 <= k.maxFrame)
    ensures !BlobOpen(s, c, k)
  {
  }

  lemma LineBound(s: Bytes, c: nat, k: Codec)
    requires c < |s| && HasLine(s, c, k)
    ensures c < LineEnd(s, c + 1) && LineEnd(s, c + 1) + 2 <= |s|
  {
  }

  lemma ReadHeadIs(s: Bytes, c: nat, k: Codec)
    requires c < |s| && IsPrefix(s[c]) && HasLine(s, c, k)
    ensures var i, b := LineEnd(s, c + 1), s[c];
            var leaf := LineLeaf(b, s[c + 1..i], k);
            ReadHead(s, c, k) == if IsBlob(b) then ReadBlob(s, b, ReadLength(s[c + 1..i]), i + 2, k)
                                 else if IsAggregate(b) then ReadOpen(b, ReadLength(s[c + 1..i]), i + 2)
                                 else if leaf.None? then NoHead else HeadAt(Leaf(leaf.value), i + 2)
  {
  }

  // ---------- A whole frame ----------

  /** At a prefix, the nodes still owed are the ones the open aggregates wait for. */
  predicate Waiting(d: Scanner) {
    && WellFormed(d) && d.at.AtPrefix?
    && (if d.started == 0 then d.arrays == [] && d.pending == 1 else d.arrays != [] && d.pending == Owed(d.arrays))
  }

  lemma PastWaits(d: Scanner, node: Node, h: Head, end: nat)
    requires Waiting(d)
    ensures d.pending >= 1
    ensures var next := Past(d, node, h, end);
            && Positive(next.arrays) && (next.arrays == [] ==> next.pending == 0)
            && (next.arrays != [] ==> Waiting(next))
  {
    assert d.pending == Excess(d.arrays) + 1;
    if Children(h) > 0 {
      OpenOwed(d.arrays, Children(h));
    } else {
      CloseOwed(d.arrays);
    }
  }

  /** The whole of the remaining heads fits. */
  predicate AllFit(d: Scanner, hs: Heads, k: Codec)
    requires Positive(d.arrays)
  {
    hs.HeadsAt? && d.started + |hs.heads| <= k.maxNodes && hs.end <= k.maxFrame
    && Track(hs.heads, d.arrays, k.maxDepth).Some?
  }

  ghost predicate Completed(r: Step, d: Scanner, s: Bytes, hs: Heads, k: Codec)
    requires Positive(d.arrays)
  {
    && (r.Done? <==> AllFit(d, hs, k))
    && (r.Done? && NodesOk(d.nodes, s) ==>
          && r.d.cursor == hs.end && NodesOk(r.d.nodes, s)
          && ResolveAll(r.d.nodes, s) == ResolveAll(d.nodes, s) + hs.heads)
  }

  lemma {:induction false} HeadsRun(d: Scanner, s: Bytes, k: Codec)
    requires Waiting(d) && d.cursor <= |s|
    ensures Completed(Run(d, s, k), d, s, ReadHeads(s, d.cursor, d.pending, k), k)
    decreases |s| - d.cursor
  {
    hide ReadHead, ReadHeads, Run, Owed, Track, Resolve, NodeOk, Completed;
    var l, r, hs := ReadHead(s, d.cursor, k), Run(d, s, k), ReadHeads(s, d.cursor, d.pending, k);
    PastWaits(d, NullNode, Leaf(Null), 0);
    HeadEffect(d, s, k);
    if l.NoHead? {
      NothingRead(s, d.cursor, d.pending, k);
      NeverCompleted(r, d, s, hs, k);
    } else {
      HeadsStep(s, d.cursor, d.pending, k);
      var later := ReadHeads(s, l.end, d.pending - 1 + Children(l.head), k);
      if r.Done? || Roomy(d, l.head, l.end, k) {
        var node :| NodeOk(node, s) && Resolve(node, s) == l.head && r == Onward(Past(d, node, l.head, l.end), s, k);
        PastWaits(d, node, l.head, l.end);
        var next := Past(d, node, l.head, l.end);
        if next.arrays == [] {
          NoneOwed(s, l.end, k);
          EndReached(next, s, later, k);
        } else {
          HeadsRun(next, s, k);
        }
        OneMore(r, d, next, node, l, s, hs, later, k);
      } else {
        NoRoomLeft(r, d, l, hs, later, s, k);
      }
    }
  }

  lemma NeverCompleted(r: Step, d: Scanner, s: Bytes, hs: Heads, k: Codec)
    requires Positive(d.arrays) && !r.Done? && !AllFit(d, hs, k)
    ensures Completed(r, d, s, hs, k)
  {
  }

  lemma EndReached(d: Scanner, s: Bytes, hs: Heads, k: Codec)
    requires WellFormed(d) && d.arrays == [] && hs == HeadsAt([], d.cursor)
    requires d.started <= k.maxNodes && d.cursor <= k.maxFrame
    ensures Completed(Done(d), d, s, hs, k)
  {
    if NodesOk(d.nodes, s) {
      assert ResolveAll(d.nodes, s) + [] == ResolveAll(d.nodes, s);
    }
  }

  lemma TrackMore(h: Head, hs: seq<Head>, arrays: seq<nat>, maxDepth: nat)
    requires Positive(arrays) && (Nests(h) ==> |arrays| < maxDepth)
    ensures Track([h] + hs, arrays, maxDepth) == Track(hs, After(h, arrays), maxDepth)
  {
    assert ([h] + hs)[1..] == hs;
  }

  lemma OneMore(r: Step, d: Scanner, next: Scanner, node: Node, l: Lexed, s: Bytes, hs: Heads, later: Heads, k: Codec)
    requires Waiting(d) && l.HeadAt? && d.pending >= 1
    requires NodeOk(node, s) && Resolve(node, s) == l.head && next == Past(d, node, l.head, l.end)
    requires Nests(l.head) ==> |d.arrays| < k.maxDepth
    requires hs == if later.NoHeads? then NoHeads else HeadsAt([l.head] + later.heads, later.end)
    requires Completed(r, next, s, later, k)
    ensures Completed(r, d, s, hs, k)
  {
    hide Resolve, NodeOk, Track, Owed;
    if later.HeadsAt? {
      TrackMore(l.head, later.heads, d.arrays, k.maxDepth);
      if r.Done? && NodesOk(d.nodes, s) {
        assert next.nodes[..|d.nodes|] == d.nodes;
        assert ResolveAll(next.nodes, s) == ResolveAll(d.nodes, s) + [l.head];
        assert (ResolveAll(d.nodes, s) + [l.head]) + later.heads == ResolveAll(d.nodes, s) + hs.heads;
      }
    }
  }

  lemma NoRoomLeft(r: Step, d: Scanner, l: Lexed, hs: Heads, later: Heads, s: Bytes, k: Codec)
    requires Waiting(d) && l.HeadAt? && d.pending >= 1 && !r.Done? && !Roomy(d, l.head, l.end, k)
    requires hs == if later.NoHeads? then NoHeads else HeadsAt([l.head] + later.heads, later.end)
    requires later.HeadsAt? ==>
               l.end + 3 * |later.heads| <= later.end && d.pending - 1 + Children(l.head) <= |later.heads|
    ensures Completed(r, d, s, hs, k)
  {
    hide Track, Owed;
    if later.HeadsAt? && Nests(l.head) && |d.arrays| >= k.maxDepth {
      TooDeep(l.head, later.heads, d.arrays, k.maxDepth);
    }
  }

  lemma TooDeep(h: Head, hs: seq<Head>, arrays: seq<nat>, maxDepth: nat)
    requires Positive(arrays) && Nests(h) && |arrays| >= maxDepth
    ensures Track([h] + hs, arrays, maxDepth).None?
  {
  }

  // ---------- When it waits ----------

  /** A place between two nodes: how many were read, how many are owed, and which aggregates wait for them. */
  function Spot(c: nat, started: nat, pending: nat, arrays: seq<nat>): Scanner {
    Scanner(c, AtPrefix, [], arrays, started, pending)
  }

  /**
   * More bytes may still complete what the grammar reads from here: every whole node so far
   * passed its limits, nodes are still owed, and the next one is open.
   */
  predicate Undecided(d: Scanner, s: Bytes, k: Codec)
    requires Waiting(d) && d.cursor <= |s|
    decreases |s| - d.cursor
  {
    PastWaits(d, NullNode, Leaf(Null), 0);
    match ReadHead(s, d.cursor, k)
    case NoHead => HeadOpen(d, s, k)
    case HeadAt(h, end) =>
      PastWaits(d, NullNode, h, end);
      var next := Spot(end, d.started + 1, d.pending - 1 + Children(h), After(h, d.arrays));
      Passes(d, h, end, k) && next.arrays != [] && Undecided(next, s, k)
  }

  /** Which nodes were collected does not matter. */
  lemma {:induction false} UndecidedByPlace(d: Scanner, nodes: seq<Node>, s: Bytes, k: Codec)
    requires Waiting(d) && d.cursor <= |s|
    ensures Undecided(d.(nodes := nodes), s, k) == Undecided(d, s, k)
  {
    hide ReadHead;
  }

  /** The scanner waits exactly while the grammar is undecided. */
  lemma {:induction false} WaitsWhileUndecided(d: Scanner, s: Bytes, k: Codec)
    requires Waiting(d) && d.cursor <= |s|
    ensures Run(d, s, k).More? <==> Undecided(d, s, k)
    decreases |s| - d.cursor
  {
    hide ReadHead, Run, Owed, Resolve, NodeOk, HeadOpen;
    PastWaits(d, NullNode, Leaf(Null), 0);
    HeadEffect(d, s, k);
    var l := ReadHead(s, d.cursor, k);
    if l.HeadAt? && Passes(d, l.head, l.end, k) {
      var node :| NodeOk(node, s) && Resolve(node, s) == l.head
                  && Run(d, s, k) == Onward(Past(d, node, l.head, l.end), s, k);
      PastWaits(d, node, l.head, l.end);
      var next := Past(d, node, l.head, l.end);
      if next.arrays != [] {
        WaitsWhileUndecided(next, s, k);
        UndecidedByPlace(next, [], s, k);
      }
    }
  }

  /** Reading whole nodes from the start of a frame gets to c with nodes still owed. */
  predicate Gets(s: Bytes, c: nat, at: nat, owed: nat, k: Codec)
    requires at <= |s|
    decreases |s| - at
  {
    owed > 0 &&
    (c == at || (ReadHead(s, at, k).HeadAt?
                 && Gets(s, c, ReadHead(s, at, k).end, owed - 1 + Children(ReadHead(s, at, k).head), k)))
  }

  /** What the next node of an undecided frame lacks. */
  predicate Lacks(s: Bytes, c: nat, k: Codec) {
    || c == |s|
    || (c < |s| && IsPrefix(s[c]) && (LineOpen(s, c, k) || BlobOpen(s, c, k)))
  }

  lemma {:induction false} UndecidedLacks(d: Scanner, s: Bytes, k: Codec) returns (c: nat)
    requires Waiting(d) && d.cursor <= |s| && Undecided(d, s, k)
    ensures Gets(s, c, d.cursor, d.pending, k) && Lacks(s, c, k)
    decreases |s| - d.cursor
  {
    hide ReadHead, LineOpen, BlobOpen;
    PastWaits(d, NullNode, Leaf(Null), 0);
    var l := ReadHead(s, d.cursor, k);
    if l.NoHead? {
      c := d.cursor;
    } else {
      PastWaits(d, NullNode, l.head, l.end);
      c := UndecidedLacks(Spot(l.end, d.started + 1, d.pending - 1 + Children(l.head), After(l.head, d.arrays)), s, k);
    }
  }

  // ---------- The theorem ----------

  lemma OneFrame(s: Bytes, k: Codec)
    ensures ReadHeads(s, 0, 1, k).HeadsAt? <==> ParseFrame(s, 0, k).FrameAt?
    ensures ParseFrame(s, 0, k).FrameAt? ==>
              ReadHeads(s, 0, 1, k) == HeadsAt(Flatten(ParseFrame(s, 0, k).frame), ParseFrame(s, 0, k).end)
  {
    hide ReadHead, ParseFrame;
    FlatIsGrammar(s, 0, 1, k);
    var p := ParseFrame(s, 0, k);
    if p.FrameAt? {
      FlatStep(s, 0, 1, k, p.frame, p.end);
      assert Flatten(p.frame) + [] == Flatten(p.frame);
    }
  }

  /**
   * The scanner completes a frame exactly when the grammar reads one from the same bytes
   * and it respects the limits; the nodes it collected are that frame, and the bytes it
   * consumed are that frame's bytes.
   */
  lemma ScannerIsGrammar(s: Bytes, k: Codec)
    requires k.maxDepth > 0
    ensures var r, p := Run(START, s, k), ParseFrame(s, 0, k);
            && (r.Done? <==> p.FrameAt? && Fits(p.frame, p.end, k))
            && (r.Done? ==> && r.d.cursor == p.end && NodesOk(r.d.nodes, s)
                            && ResolveAll(r.d.nodes, s) == Flatten(p.frame)
                            && Build(ResolveAll(r.d.nodes, s)) == Some([p.frame]))
  {
    hide ParseFrame, Run, ReadHeads, Track, Flatten, Build, Nodes;
    HeadsRun(START, s, k);
    OneFrame(s, k);
    var p := ParseFrame(s, 0, k);
    if p.FrameAt? {
      var hs := Flatten(p.frame);
      TrackWhole(p.frame, k.maxDepth);
      BuildWhole(p.frame);
      assert [] + hs == hs;
    }
  }

  lemma TrackWhole(f: Frame, maxDepth: nat)
    requires maxDepth > 0
    ensures Track(Flatten(f), [], maxDepth).Some? <==> Depth(f) <= maxDepth
  {
    TrackFrame(f, [], [], maxDepth);
    assert Flatten(f) + [] == Flatten(f);
  }

  lemma BuildWhole(f: Frame)
    ensures Build(Flatten(f)) == Some([f])
  {
    BuildFrame(f, []);
    assert Flatten(f) + [] == Flatten(f) && [f] + [] == [f];
  }
}
