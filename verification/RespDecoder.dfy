/**
 * The incremental decoder as it runs: cursor, place, nodes, open aggregates and counters
 * kept across calls. Each call is proved to give what one call on everything received so
 * far would give, which is the grammar's frame.
 */
module RespDecoder {
  import opened Crc
  import opened Format
  import opened Resp
  import opened RespFlat
  import opened RespScanner
  import opened RespScan

  /** What a call answers: wait, a frame and the bytes it used, or a terminal fault. */
  datatype Answer = Wait | Frames(frame: Frame, used: nat) | Broken(fault: Fault)

  // ---------- Number loops ----------

  /** A length, accumulated digit by digit with the machine word's overflow checks. */
  method ParseLength(s: Bytes) returns (r: Length)
    ensures r == ReadLength(s)
  {
    if s == [MINUS, 49] {
      return NoLength;
    }
    if s == [] {
      return BadLength;
    }
    var value: nat := 0;
    for i := 0 to |s|
      invariant forall j :: 0 <= j < i ==> IsDigit(s[j])
      invariant value == Number(s[..i]) <= MAX_SIZE
    {
      if !IsDigit(s[i]) {
        return BadLength;
      }
      assert s[..i + 1][..i] == s[..i];
      var next := value * 10 + (s[i] - 48);
      assert next == Number(s[..i + 1]);
      if next > MAX_SIZE {
        if Digits(s) { ValueGrows(s, i + 1); }
        return BadLength;
      }
      value := next;
    }
    assert s[..|s|] == s;
    r := Count(value);
  }

  /** A signed number, accumulated below zero so that the least one needs no special case. */
  method ParseInteger(s: Bytes) returns (r: Option<int>)
    ensures r == ReadInteger(s)
  {
    var negative := s != [] && s[0] == MINUS;
    var digits := Magnitude(s);
    if digits == [] {
      return None;
    }
    var value: int := 0;
    for i := 0 to |digits|
      invariant forall j :: 0 <= j < i ==> IsDigit(digits[j])
      invariant value == 0 - Number(digits[..i]) && -(LONG / 2) <= value
    {
      if !IsDigit(digits[i]) {
        return None;
      }
      assert digits[..i + 1][..i] == digits[..i];
      var next: int := value * 10 - (digits[i] - 48);
      assert next == 0 - Number(digits[..i + 1]);
      if next < -(LONG / 2) {
        if Digits(digits) { ValueGrows(digits, i + 1); }
        return None;
      }
      value := next;
    }
    assert digits[..|digits|] == digits;
    r := if negative then Some(value) else if value == -(LONG / 2) then None else Some(-value);
  }

  // ---------- Building the tree ----------

  function Reversed(fs: seq<Frame>): (r: seq<Frame>)
    ensures |r| == |fs| && forall i :: 0 <= i < |fs| ==> r[i] == fs[|fs| - 1 - i]
  {
    if fs == [] then [] else Reversed(fs[1..]) + [fs[0]]
  }

  lemma ReversedSplit(fs: seq<Frame>, n: nat)
    requires n <= |fs|
    ensures Reversed(fs)[..|fs| - n] == Reversed(fs[n..])
  {
  }

  /** Pops n frames off the stack; the last pushed is the first child. */
  method PopChildren(stack: seq<Frame>, n: nat) returns (children: seq<Frame>, rest: seq<Frame>)
    requires n <= |stack|
    ensures forall all :: stack == Reversed(all) ==> children == all[..n] && rest == Reversed(all[n..])
  {
    children, rest := [], stack;
    for i := 0 to n
      invariant rest == stack[..|stack| - i] && |children| == i
      invariant forall j :: 0 <= j < i ==> children[j] == stack[|stack| - 1 - j]
    {
      children := children + [rest[|rest| - 1]];
      rest := rest[..|rest| - 1];
    }
    forall all | stack == Reversed(all) ensures children == all[..n] && rest == Reversed(all[n..]) {
      ReversedSplit(all, n);
    }
  }

  lemma BuildStep(hs: seq<Head>, i: nat)
    requires i < |hs| && Build(hs[i..]).Some?
    ensures Build(hs[i + 1..]).Some?
    ensures var fs := Build(hs[i + 1..]).value;
            match hs[i]
            case Leaf(f) => Build(hs[i..]).value == [f] + fs
            case Open(kind, n) => n <= |fs| && Build(hs[i..]).value == [Many(kind, fs[..n])] + fs[n..]
  {
    assert hs[i..][0] == hs[i] && hs[i..][1..] == hs[i + 1..];
  }

  lemma {:induction false} BuildSuffix(hs: seq<Head>, i: nat)
    requires i <= |hs| && Build(hs).Some?
    ensures Build(hs[i..]).Some?
  {
    if i == 0 {
      assert hs[0..] == hs;
    } else {
      BuildSuffix(hs, i - 1);
      BuildStep(hs, i - 1);
    }
  }

  /** Builds the frame from the last node to the first, copying payloads out of the buffer. */
  method Materialize(nodes: seq<Node>, s: Bytes, ghost f: Frame) returns (frame: Frame)
    requires NodesOk(nodes, s) && Build(ResolveAll(nodes, s)) == Some([f])
    ensures frame == f
  {
    hide Resolve, Build;
    var stack: seq<Frame> := [];
    ghost var hs := ResolveAll(nodes, s);
    var i := |nodes|;
    assert hs[i..] == [];
    assert Build([]) == Some([]) by { BuildNone(); }
    assert Reversed([]) == [];
    while i > 0
      invariant 0 <= i <= |nodes| && Build(hs[i..]).Some? && stack == Reversed(Build(hs[i..]).value)
    {
      i := i - 1;
      assert Build(hs[i..]).Some? by { BuildSuffix(hs, i); }
      BuildStep(hs, i);
      ghost var all := Build(hs[i + 1..]).value;
      var head := Resolve(nodes[i], s);
      if head.Leaf? {
        ReversedCons(head.frame, all);
        stack := stack + [head.frame];
      } else {
        var children, rest := PopChildren(stack, head.count);
        ReversedCons(Many(head.kind, all[..head.count]), all[head.count..]);
        stack := rest + [Many(head.kind, children)];
      }
    }
    assert hs[0..] == hs;
    assert Reversed([f]) == [f];
    frame := stack[|stack| - 1];
  }

  lemma BuildNone()
    ensures Build([]) == Some([])
  {
  }

  lemma ReversedCons(f: Frame, fs: seq<Frame>)
    ensures Reversed([f] + fs) == Reversed(fs) + [f]
  {
    assert ([f] + fs)[1..] == fs;
  }

  // ---------- The decoder ----------

  /** The answer one call would give on all the bytes received since the last frame. */
  function Expected(s: Bytes, k: Codec): Answer {
    match Run(START, s, k)
    case Done(d) => var p := ParseFrame(s, 0, k); if p.FrameAt? then Frames(p.frame, p.end) else Wait
    case Fail(fault) => Broken(fault)
    case _ => Wait
  }

  class Decoder {
    const k: Codec
    var cursor: nat
    var previousLen: nat
    var at: Where
    var nodes: seq<Node>
    var arrays: seq<nat>
    var started: nat
    var pending: nat
    var poisoned: bool
    ghost var seen: Bytes

    ghost function View(): Scanner
      reads this
    {
      Scanner(cursor, at, nodes, arrays, started, pending)
    }

    ghost predicate Valid()
      reads this
    {
      && k.maxDepth > 0
      && (!poisoned ==> previousLen == |seen| && Run(START, seen, k) == More(View()))
    }

    constructor (k: Codec)
      requires ValidCodec(k)
      ensures Valid() && !poisoned && seen == [] && this.k == k
    {
      this.k := k;
      cursor, previousLen, at, nodes, arrays, started, pending := 0, 0, AtPrefix, [], [], 0, 1;
      poisoned := false;
      seen := [];
    }

    /** A node is complete: so is every aggregate it was the last child of. */
    method CompleteNode() returns (turn: Turn)
      requires Positive(arrays)
      modifies this`arrays, this`at
      ensures StepOf(turn, View()) == FinishNode(old(View()))
    {
      at := AtPrefix;
      while arrays != []
        invariant Positive(arrays) && Close(arrays) == Close(old(arrays)) && at == AtPrefix
        decreases |arrays|
      {
        var n := |arrays| - 1;
        if arrays[n] > 1 {
          arrays := arrays[n := arrays[n] - 1];
          return Continue;
        }
        arrays := arrays[..n];
      }
      turn := Complete;
    }

    method ScanPrefix(src: Bytes) returns (turn: Turn)
      requires WellFormed(View()) && at.AtPrefix?
      modifies this`cursor, this`at, this`started, this`pending
      ensures StepOf(turn, View()) == PrefixStep(old(View()), src, k)
    {
      if started > 0 && cursor + 3 > k.maxFrame {
        return Reject(Exceeded(FrameBytes));
      }
      if cursor >= |src| {
        return Starve;
      }
      var mark := src[cursor];
      if !IsPrefix(mark) {
        return Reject(Malformed);
      }
      if IsAggregate(mark) && |arrays| >= k.maxDepth {
        return Reject(Exceeded(Levels));
      }
      if started + 1 > k.maxNodes {
        return Reject(Exceeded(NodeCount));
      }
      if pending == 0 {
        return Reject(Malformed);
      }
      started, pending := started + 1, pending - 1;
      at := InLine(mark, cursor, false);
      cursor := cursor + 1;
      turn := Continue;
    }

    /** The end of a line: a leaf, a payload to read, or an aggregate to open. */
    method CompleteLine(src: Bytes, mark: byte, p: Payload) returns (turn: Turn)
      requires Positive(arrays) && InBuffer(p, src)
      modifies this`at, this`nodes, this`arrays, this`pending
      ensures StepOf(turn, View()) == FinishLine(old(View()), src, mark, p, k)
    {
      hide ReadLength, ReadInteger, Close;
      var text := src[p.start..p.end];
      if IsBlob(mark) {
        var length := ParseLength(text);
        if length.BadLength? || (length.NoLength? && mark != 36) {
          return Reject(Malformed);
        }
        if length.Count? {
          if length.n > k.maxBulk {
            return Reject(Exceeded(BulkBytes));
          }
          if cursor + length.n + 2 > k.maxFrame {
            return Reject(Exceeded(FrameBytes));
          }
          at := InBody(mark, Payload(cursor, cursor + length.n), false);
          return Continue;
        }
        nodes := nodes + [BulkNode(None)];
      } else if IsAggregate(mark) {
        turn := OpenItems(text, mark);
        return;
      } else if mark == 58 {
        var value := ParseInteger(text);
        if value.None? {
          return Reject(Malformed);
        }
        nodes := nodes + [IntegerNode(value.value)];
      } else {
        var node := LineNode(mark, text, p, k);
        if node.None? {
          return Reject(Malformed);
        }
        nodes := nodes + [node.value];
      }
      turn := CompleteNode();
    }

    method OpenItems(text: Bytes, mark: byte) returns (turn: Turn)
      requires Positive(arrays) && IsAggregate(mark)
      modifies this`at, this`nodes, this`arrays, this`pending
      ensures StepOf(turn, View()) == StartItems(old(View()), mark, ReadLength(text), k)
    {
      hide ReadLength, Close;
      var length := ParseLength(text);
      if length.BadLength? || (length.NoLength? && mark != 42) {
        return Reject(Malformed);
      }
      if length.Count? {
        var m := if Paired(KindOf(mark)) then 2 * length.n else length.n;
        pending := pending + m;
        if started + pending > k.maxNodes {
          return Reject(Exceeded(NodeCount));
        }
        if cursor + 3 * pending > k.maxFrame {
          return Reject(Exceeded(FrameBytes));
        }
        nodes := nodes + [ArrayNode(Some(m), mark)];
        if m > 0 {
          arrays := arrays + [m];
          at := AtPrefix;
          return Continue;
        }
      } else {
        nodes := nodes + [ArrayNode(None, mark)];
      }
      turn := CompleteNode();
    }

    method ScanLine(src: Bytes) returns (turn: Turn)
      requires WellFormed(View()) && at.InLine? && cursor <= |src|
      modifies this`cursor, this`at, this`nodes, this`arrays, this`pending
      ensures StepOf(turn, View()) == LineStep(old(View()), src, k)
    {
      hide FinishLine;
      var InLine(mark, start, sawCr) := at;
      var least := cursor + if sawCr then 1 else 2;
      if least > k.maxFrame {
        return Reject(Exceeded(FrameBytes));
      }
      if least - start > k.maxLine {
        return Reject(Exceeded(LineBytes));
      }
      if cursor == |src| {
        return Starve;
      }
      var b := src[cursor];
      cursor := cursor + 1;
      if sawCr {
        if b != LF {
          return Reject(Malformed);
        }
        turn := CompleteLine(src, mark, Payload(start + 1, cursor - 2));
      } else {
        if b == LF {
          return Reject(Malformed);
        }
        at := InLine(mark, start, b == CR);
        turn := Continue;
      }
    }

    /** Payload bytes are skipped without being looked at; then comes their terminator. */
    method ScanBody(src: Bytes) returns (turn: Turn)
      requires WellFormed(View()) && at.InBody? && cursor <= |src|
      modifies this`cursor, this`at, this`nodes, this`arrays
      ensures StepOf(turn, View()) == BodyStep(old(View()), src)
    {
      hide FinishNode;
      var InBody(mark, p, sawCr) := at;
      if cursor < p.end {
        cursor := if |src| < p.end then |src| else p.end;
        if cursor < p.end {
          return Starve;
        }
      }
      if cursor == |src| {
        return Starve;
      }
      var b := src[cursor];
      cursor := cursor + 1;
      if sawCr {
        if b != LF {
          return Reject(Malformed);
        }
        var node := BodyNode(mark, src[p.start..p.end], p);
        if node.None? {
          return Reject(Malformed);
        }
        nodes := nodes + [node.value];
        turn := CompleteNode();
      } else {
        if b != CR {
          return Reject(Malformed);
        }
        at := InBody(mark, p, true);
        turn := Continue;
      }
    }

    method Scan(src: Bytes) returns (turn: Turn)
      requires WellFormed(View()) && cursor <= |src|
      modifies this`cursor, this`at, this`nodes, this`arrays, this`started, this`pending
      ensures StepOf(turn, View()) == Run(old(View()), src, k) && !turn.Continue?
    {
      hide PrefixStep, LineStep, BodyStep, WellFormed;
      while true
        invariant WellFormed(View()) && cursor <= |src|
        invariant Run(View(), src, k) == Run(old(View()), src, k)
        decreases |src| - cursor
      {
        ghost var d := View();
        match at {
          case AtPrefix => turn := ScanPrefix(src);
          case InLine(_, _, _) => turn := ScanLine(src);
          case InBody(_, _, _) => turn := ScanBody(src);
        }
        ghost var step := Advance(d, src, k);
        assert step == StepOf(turn, View());
        if !turn.Continue? {
          return;
        }
      }
    }

    /** A failure is final, whatever comes later. */
    method Poison()
      modifies this`poisoned, this`nodes, this`arrays
      ensures poisoned
    {
      poisoned, nodes, arrays := true, [], [];
    }

    /**
     * One call. If the caller only ever appended to the unconsumed bytes, the answer is the
     * one a single call on all of them would give, and a frame takes exactly its bytes off
     * the front; otherwise the buffer is left alone and a fault is final.
     */
    method Decode(src: Bytes) returns (answer: Answer, rest: Bytes)
      requires Valid() && (!poisoned && previousLen <= |src| ==> seen <= src)
      modifies this
      ensures Valid()
      ensures old(poisoned) ==> answer == Broken(Poisoned)
      ensures !old(poisoned) && |src| < old(previousLen) ==> answer == Broken(BufferChanged)
      ensures !old(poisoned) && old(previousLen) <= |src| ==> answer == Expected(src, k)
      ensures answer.Broken? ==> poisoned && rest == src
      ensures answer.Wait? ==> !poisoned && rest == src && seen == src
      ensures answer.Frames? ==> !poisoned && answer.used <= |src| && rest == src[answer.used..] && seen == []
    {
      hide Run, Fits, ParseFrame, Flatten, ResolveAll, NodesOk, Build, WellFormed;
      rest := src;
      if poisoned {
        return Broken(Poisoned), rest;
      }
      if |src| < previousLen {
        Poison();
        return Broken(BufferChanged), rest;
      }
      Resume(seen, src, k);
      previousLen := |src|;
      var turn := Scan(src);
      if turn.Reject? {
        Poison();
        return Broken(turn.fault), rest;
      }
      if turn.Starve? {
        seen := src;
        return Wait, rest;
      }
      ScannerIsGrammar(src, k);
      ghost var p := ParseFrame(src, 0, k);
      var frame := Materialize(nodes, src, p.frame);
      answer, rest := Frames(frame, cursor), src[cursor..];
      cursor, previousLen, at, nodes, arrays, started, pending := 0, 0, AtPrefix, [], [], 0, 1;
      seen := [];
      Resume([], [], k);
    }
  }

  datatype Turn = Continue | Complete | Starve | Reject(fault: Fault)

  function StepOf(turn: Turn, d: Scanner): Step {
    match turn
    case Continue => Again(d)
    case Complete => Done(d)
    case Starve => More(d)
    case Reject(fault) => Fail(fault)
  }

  /** Scanning on from where an earlier call stopped is scanning from the start. */
  lemma Resume(seen: Bytes, src: Bytes, k: Codec)
    requires seen <= src
    ensures Run(START, [], k) == More(START)
    ensures Run(START, seen, k).More? ==>
              var d := Run(START, seen, k).d;
              WellFormed(d) && d.cursor <= |src| && Run(d, src, k) == Run(START, src, k)
  {
    hide Advance;
    assert Run(START, [], k) == More(START) by { StartsWaiting(k); }
    RunExtends(START, seen, src[|seen|..], k);
    assert seen + src[|seen|..] == src;
  }

  lemma StartsWaiting(k: Codec)
    ensures Run(START, [], k) == More(START)
  {
  }
}
