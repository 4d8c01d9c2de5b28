/**
 * A byte stream cut into any chunks: the decoder yields the same frames and the same
 * terminal fault as one pass over all the bytes.
 */
module RespStream {
  import opened Crc
  import opened Format
  import opened Resp
  import opened RespFlat
  import opened RespScanner
  import opened RespScan
  import opened RespDecoder

  /** What a reader has: the frames so far, the bytes not yet used, and how it ended, if it did. */
  datatype Session = Session(frames: seq<Frame>, rest: Bytes, fault: Option<Fault>)

  lemma UsedBytes(s: Bytes, k: Codec)
    requires Expected(s, k).Frames?
    ensures 3 <= Expected(s, k).used <= |s|
  {
  }

  /** One pass over all the bytes. */
  function Whole(s: Bytes, k: Codec): Session
    decreases |s|
  {
    match Expected(s, k)
    case Wait => Session([], s, None)
    case Broken(fault) => Session([], s, Some(fault))
    case Frames(f, used) =>
      UsedBytes(s, k);
      var later := Whole(s[used..], k);
      Session([f] + later.frames, later.rest, later.fault)
  }

  function Feed(session: Session, chunk: Bytes, k: Codec): Session {
    if session.fault.Some? then session.(rest := session.rest + chunk)
    else
      var next := Whole(session.rest + chunk, k);
      Session(session.frames + next.frames, next.rest, next.fault)
  }

  function FeedAll(chunks: seq<Bytes>, k: Codec): Session {
    if chunks == [] then Session([], [], None)
    else Feed(FeedAll(chunks[..|chunks| - 1], k), chunks[|chunks| - 1], k)
  }

  function Joined(chunks: seq<Bytes>): Bytes {
    if chunks == [] then [] else Joined(chunks[..|chunks| - 1]) + chunks[|chunks| - 1]
  }

  lemma ResolveExtends(nodes: seq<Node>, s: Bytes, t: Bytes)
    requires NodesOk(nodes, s)
    ensures NodesOk(nodes, s + t) && ResolveAll(nodes, s + t) == ResolveAll(nodes, s)
  {
    forall i | 0 <= i < |nodes| ensures NodeOk(nodes[i], s + t) && Resolve(nodes[i], s + t) == Resolve(nodes[i], s) {
      OneExtends(nodes[i], s, t);
    }
  }

  lemma OneExtends(node: Node, s: Bytes, t: Bytes)
    requires NodeOk(node, s)
    ensures NodeOk(node, s + t) && Resolve(node, s + t) == Resolve(node, s)
  {
    match node
    case SimpleNode(p) => assert Slice(s + t, p) == Slice(s, p);
    case ErrorNode(p) => assert Slice(s + t, p) == Slice(s, p);
    case BulkNode(Some(p)) => assert Slice(s + t, p) == Slice(s, p);
    case ScalarNode(_, p) => assert Slice(s + t, p) == Slice(s, p);
    case _ =>
  }

  /** A frame or a fault is not changed by what follows it. */
  lemma ExpectedExtends(s: Bytes, t: Bytes, k: Codec)
    requires k.maxDepth > 0
    ensures !Expected(s, k).Wait? ==> Expected(s + t, k) == Expected(s, k)
  {
    hide Run, ParseFrame, Build, Flatten, ResolveAll, NodesOk, Fits;
    RunExtends(START, s, t, k);
    ScannerIsGrammar(s, k);
    ScannerIsGrammar(s + t, k);
    if Run(START, s, k).Done? {
      ResolveExtends(Run(START, s, k).d.nodes, s, t);
      assert [ParseFrame(s, 0, k).frame] == [ParseFrame(s + t, 0, k).frame];
      assert [ParseFrame(s, 0, k).frame][0] == [ParseFrame(s + t, 0, k).frame][0];
    }
  }

  lemma WholeStops(s: Bytes, k: Codec)
    requires !Expected(s, k).Frames?
    ensures Whole(s, k) == Session([], s, if Expected(s, k).Wait? then None else Some(Expected(s, k).fault))
  {
    hide Expected;
  }

  lemma WholeStep(s: Bytes, k: Codec)
    requires Expected(s, k).Frames?
    ensures 3 <= Expected(s, k).used <= |s|
    ensures var later := Whole(s[Expected(s, k).used..], k);
            Whole(s, k) == Session([Expected(s, k).frame] + later.frames, later.rest, later.fault)
  {
    hide Expected;
    UsedBytes(s, k);
  }

  lemma {:induction false} WholeExtends(s: Bytes, t: Bytes, k: Codec)
    requires k.maxDepth > 0
    ensures Whole(s + t, k) == Feed(Whole(s, k), t, k)
    decreases |s|
  {
    hide Expected, Whole;
    ExpectedExtends(s, t, k);
    var e := Expected(s, k);
    if !e.Frames? {
      WholeStops(s, k);
      if e.Wait? {
        assert [] + Whole(s + t, k).frames == Whole(s + t, k).frames;
      } else {
        WholeStops(s + t, k);
      }
    } else {
      WholeStep(s, k);
      WholeStep(s + t, k);
      var left := s[e.used..];
      assert (s + t)[e.used..] == left + t;
      WholeExtends(left, t, k);
      var later := Whole(left, k);
      if later.fault.None? {
        var next := Whole(later.rest + t, k);
        assert [e.frame] + (later.frames + next.frames) == ([e.frame] + later.frames) + next.frames;
      }
    }
  }

  /** However a stream is cut, its frames, its leftover and its fault are the same. */
  lemma {:induction false} ChunksDoNotMatter(chunks: seq<Bytes>, k: Codec)
    requires k.maxDepth > 0
    ensures FeedAll(chunks, k) == Whole(Joined(chunks), k)
  {
    hide Expected;
    if chunks == [] {
      assert Expected([], k).Wait? by { NothingYet(k); }
    } else {
      ChunksDoNotMatter(chunks[..|chunks| - 1], k);
      WholeExtends(Joined(chunks[..|chunks| - 1]), chunks[|chunks| - 1], k);
    }
  }

  lemma NothingYet(k: Codec)
    ensures Expected([], k) == Wait
  {
  }

  /** Every frame of a stream is what the grammar reads there, and it respects the limits. */
  lemma FramesAreGrammar(s: Bytes, k: Codec)
    requires k.maxDepth > 0
    ensures Expected(s, k).Frames? <==>
              ParseFrame(s, 0, k).FrameAt? && Fits(ParseFrame(s, 0, k).frame, ParseFrame(s, 0, k).end, k)
    ensures Expected(s, k).Frames? ==> Expected(s, k) == Frames(ParseFrame(s, 0, k).frame, ParseFrame(s, 0, k).end)
  {
    hide Run, ParseFrame, Build, Flatten, ResolveAll, NodesOk, Fits;
    ScannerIsGrammar(s, k);
  }

  /** The decoder waits exactly while the grammar is undecided, and refuses everything else that is no frame. */
  lemma WaitsExactly(s: Bytes, k: Codec)
    requires k.maxDepth > 0
    ensures Expected(s, k).Wait? <==> Undecided(START, s, k)
  {
    hide Run, ParseFrame, Build, Flatten, ResolveAll, NodesOk, Fits, Undecided;
    WaitsWhileUndecided(START, s, k);
    ScannerIsGrammar(s, k);
  }

  /**
   * It waits only for what is missing: whole nodes lead to a place where one is owed, and
   * there nothing has come yet, or a known mark has and its line or payload is not all there.
   */
  lemma WaitsForSomething(s: Bytes, k: Codec) returns (c: nat)
    requires k.maxDepth > 0 && Expected(s, k).Wait?
    ensures Gets(s, c, 0, 1, k) && Lacks(s, c, k)
  {
    hide Expected, Undecided;
    WaitsExactly(s, k);
    c := UndecidedLacks(START, s, k);
  }

  /** Every proper prefix of an acceptable frame waits. */
  lemma PrefixesWait(s: Bytes, n: nat, k: Codec)
    requires k.maxDepth > 0 && Expected(s, k).Frames? && n < Expected(s, k).used
    ensures n <= |s| && Expected(s[..n], k).Wait?
  {
    hide Expected;
    UsedBytes(s, k);
    assert s == s[..n] + s[n..];
    ExpectedExtends(s[..n], s[n..], k);
    if Expected(s[..n], k).Frames? { UsedBytes(s[..n], k); }
  }

  /** A stream that does not begin with a known mark is refused at its first byte. */
  lemma UnknownMarkRefused(s: Bytes, k: Codec)
    requires k.maxDepth > 0 && s != [] && !IsPrefix(s[0])
    ensures Expected(s, k) == Broken(Malformed)
  {
  }

  /** A refused stream stays refused: no continuation of it starts with an acceptable frame. */
  lemma RefusalIsFinal(s: Bytes, t: Bytes, k: Codec)
    requires k.maxDepth > 0 && Expected(s, k).Broken?
    ensures ParseFrame(s + t, 0, k).FrameAt? ==> !Fits(ParseFrame(s + t, 0, k).frame, ParseFrame(s + t, 0, k).end, k)
  {
    hide Expected, ParseFrame, Fits;
    ExpectedExtends(s, t, k);
    FramesAreGrammar(s + t, k);
  }

  /** A connection: chunks appended to its buffer, the decoder called until it waits or fails. */
  method Receive(chunks: seq<Bytes>, k: Codec) returns (session: Session)
    requires ValidCodec(k)
    ensures session == Whole(Joined(chunks), k)
  {
    hide Expected, ValidCodec;
    assert k.maxDepth > 0 by { DepthPositive(k); }
    var decoder := new Decoder(k);
    session := Session([], [], None);
    for i := 0 to |chunks|
      invariant fresh(decoder) && decoder.Valid() && decoder.k == k
      invariant session == FeedAll(chunks[..i], k)
      invariant session.fault.None? ==> !decoder.poisoned && decoder.seen == session.rest
    {
      assert chunks[..i + 1][..i] == chunks[..i];
      if session.fault.Some? {
        session := session.(rest := session.rest + chunks[i]);
      } else {
        session := Pump(decoder, session, session.rest + chunks[i], k);
      }
    }
    assert chunks[..|chunks|] == chunks;
    ChunksDoNotMatter(chunks, k);
  }

  lemma DepthPositive(k: Codec)
    requires ValidCodec(k)
    ensures k.maxDepth > 0
  {
  }

  method Pump(decoder: Decoder, before: Session, buffer: Bytes, k: Codec) returns (session: Session)
    requires decoder.Valid() && !decoder.poisoned && decoder.seen <= buffer && decoder.k == k
    modifies decoder
    ensures decoder.Valid()
    ensures var next := Whole(buffer, k);
            session == Session(before.frames + next.frames, next.rest, next.fault)
    ensures session.fault.None? ==> !decoder.poisoned && decoder.seen == session.rest
  {
    hide Expected, Run;
    var frames, rest := before.frames, buffer;
    while true
      invariant decoder.Valid() && !decoder.poisoned && decoder.seen <= rest && decoder.k == k
      invariant Whole(buffer, k).rest == Whole(rest, k).rest && Whole(buffer, k).fault == Whole(rest, k).fault
      invariant before.frames + Whole(buffer, k).frames == frames + Whole(rest, k).frames
      decreases |rest|
    {
      var answer, left := decoder.Decode(rest);
      match answer {
        case Wait => return Session(frames, rest, None);
        case Broken(fault) => return Session(frames, rest, Some(fault));
        case Frames(frame, used) =>
          UsedBytes(rest, k);
          assert frames + ([frame] + Whole(left, k).frames) == (frames + [frame]) + Whole(left, k).frames;
          frames, rest := frames + [frame], left;
      }
    }
  }
}
