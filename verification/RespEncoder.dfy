/**
 * The two-pass encoder and its agreement with the decoder: what it accepts under some
 * limits the grammar reads back under the same limits, and whatever was read can be written
 * again in no more bytes.
 */
module RespEncoder {
  import opened Crc
  import opened Format
  import opened Resp
  import RespDecoder
  import RespStream

  // ---------- The bytes of a frame ----------

  const CRLF: Bytes := [13, 10]

  function Line(b: byte, text: Bytes): Bytes { [b] + text + CRLF }

  function Blob(b: byte, body: Bytes): Bytes { Line(b, Decimal(|body|)) + body + CRLF }

  function Mark(kind: Kind): byte {
    match kind
    case ArrayKind => 42
    case MapKind => 37
    case SetKind => 126
    case PushKind => 62
    case AttributeKind => 124
  }

  /** The number written after an aggregate's mark. */
  function Announced(kind: Kind, n: nat): nat { if Paired(kind) then n / 2 else n }

  /** A frame's own bytes, without its children's. */
  function Own(f: Frame): Bytes {
    match f
    case Simple(t) => Line(43, t)
    case Error(t) => Line(45, t)
    case Integer(v) => Line(58, Text(v))
    case Bulk(None) => Line(36, [45, 49])
    case Bulk(Some(body)) => Blob(36, body)
    case NullArray => Line(42, [45, 49])
    case Null => Line(95, [])
    case Boolean(t) => Line(35, if t then [116] else [102])
    case Double(t) => Line(44, t)
    case BigNumber(t) => Line(40, t)
    case BlobError(body) => Blob(33, body)
    case Verbatim(body) => Blob(61, body)
    case Many(kind, items) => Line(Mark(kind), Decimal(Announced(kind, |items|)))
  }

  function Children(f: Frame): seq<Frame> { if f.Many? then f.items else [] }

  function Wire(f: Frame): Bytes
    decreases f
  {
    if f.Many? then Own(f) + WireAll(f.items) else Own(f)
  }

  function WireAll(fs: seq<Frame>): Bytes
    decreases fs
  {
    if fs == [] then [] else Wire(fs[0]) + WireAll(fs[1..])
  }

  // ---------- What may be encoded ----------

  function HeaderLength(f: Frame): nat {
    match f
    case Bulk(Some(body)) => |Decimal(|body|)| + 3
    case BlobError(body) => |Decimal(|body|)| + 3
    case Verbatim(body) => |Decimal(|body|)| + 3
    case _ => |Own(f)|
  }

  function PayloadLength(f: Frame): nat {
    match f
    case Bulk(Some(body)) => |body|
    case BlobError(body) => |body|
    case Verbatim(body) => |body|
    case _ => 0
  }

  /** A node on its own: well-formed content, a line and a payload within the limits. */
  predicate OwnOk(f: Frame, k: Codec) {
    && HeaderLength(f) <= k.maxLine && PayloadLength(f) <= k.maxBulk
    && match f
       case Simple(t) => Plain(t)
       case Error(t) => Plain(t)
       case Integer(v) => -(LONG / 2) <= v < LONG / 2
       case Double(t) => k.isDouble(t)
       case BigNumber(t) => BigText(t)
       case Verbatim(body) => VerbatimText(body)
       case Many(kind, items) => Paired(kind) ==> |items| % 2 == 0
       case _ => true
  }

  predicate Sound(f: Frame, k: Codec)
    decreases f
  {
    OwnOk(f, k) && (f.Many? ==> SoundAll(f.items, k))
  }

  predicate SoundAll(fs: seq<Frame>, k: Codec)
    decreases fs
  {
    fs == [] || (Sound(fs[0], k) && SoundAll(fs[1..], k))
  }

  predicate Encodable(f: Frame, k: Codec) {
    Sound(f, k) && Fits(f, |Wire(f)|, k)
  }

  // ---------- Reading back ----------

  lemma {:induction false} LineEndIs(s: Bytes, at: nat, i: nat)
    requires at <= i < |s| && (s[i] == CR || s[i] == LF)
    requires forall j :: at <= j < i ==> s[j] != CR && s[j] != LF
    ensures LineEnd(s, at) == i
    decreases i - at
  {
    if at < i { LineEndIs(s, at + 1, i); }
  }

  /** These bytes stand at this position. */
  predicate Holds(s: Bytes, c: nat, w: Bytes) {
    c + |w| <= |s| && s[c..c + |w|] == w
  }

  lemma HoldsSplit(s: Bytes, c: nat, a: Bytes, b: Bytes)
    requires Holds(s, c, a + b)
    ensures Holds(s, c, a) && Holds(s, c + |a|, b)
  {
    var w := s[c..c + |a + b|];
    assert s[c..c + |a|] == w[..|a|] == a;
    assert s[c + |a|..c + |a| + |b|] == w[|a|..] == b;
  }

  lemma HoldsAt(s: Bytes, c: nat, w: Bytes)
    requires Holds(s, c, w)
    ensures forall i :: 0 <= i < |w| ==> s[c + i] == w[i]
  {
    forall i | 0 <= i < |w| ensures s[c + i] == w[i] {
      assert s[c + i] == s[c..c + |w|][i];
    }
  }

  lemma HoldsCrlf(s: Bytes, c: nat)
    requires Holds(s, c, CRLF)
    ensures c + 2 <= |s| && s[c] == CR && s[c + 1] == LF
  {
    assert s[c] == s[c..c + 2][0] && s[c + 1] == s[c..c + 2][1];
  }

  /** A line written at a position is the line found there. */
  lemma LineBack(s: Bytes, c: nat, b: byte, text: Bytes, k: Codec)
    requires Holds(s, c, Line(b, text))
    requires Plain(text) && |text| + 3 <= k.maxLine
    ensures c < |s| && s[c] == b && HasLine(s, c, k) && LineEnd(s, c + 1) == c + 1 + |text|
    ensures s[c + 1..c + 1 + |text|] == text
  {
    hide LineEnd, Holds;
    assert Line(b, text) == [b] + (text + CRLF);
    HoldsSplit(s, c, [b], text + CRLF);
    HoldsSplit(s, c + 1, text, CRLF);
    HoldsCrlf(s, c + 1 + |text|);
    HoldsAt(s, c, [b]);
    TextThere(s, c + 1, text);
    LineEndIs(s, c + 1, c + 1 + |text|);
  }

  lemma TextThere(s: Bytes, c: nat, text: Bytes)
    requires Holds(s, c, text) && Plain(text)
    ensures c + |text| <= |s| && s[c..c + |text|] == text
    ensures forall j :: c <= j < c + |text| ==> s[j] != CR && s[j] != LF
  {
    forall j | c <= j < c + |text| ensures s[j] != CR && s[j] != LF {
      assert s[j] == s[c..c + |text|][j - c] == text[j - c];
    }
  }

  lemma {:induction false} DigitsPlain(s: Bytes)
    requires Digits(s)
    ensures Plain(s)
  {
    forall i | 0 <= i < |s| ensures s[i] != CR && s[i] != LF {
      assert IsDigit(s[i]);
    }
  }

  lemma TextPlain(v: int)
    ensures Plain(Text(v))
  {
    DigitsPlain(Decimal(if v < 0 then -v else v));
  }

  lemma BigPlain(t: Bytes)
    requires BigText(t)
    ensures Plain(t)
  {
    var digits := if t[0] == MINUS then t[1..] else t;
    DigitsPlain(digits);
    assert t[0] == MINUS ==> t == [MINUS] + digits;
  }

  lemma BlobBack(s: Bytes, c: nat, b: byte, body: Bytes, k: Codec)
    requires IsBlob(b) && Holds(s, c, Blob(b, body))
    requires |Decimal(|body|)| + 3 <= k.maxLine && |body| <= k.maxBulk && |body| <= MAX_SIZE
    ensures var leaf := BlobLeaf(b, body);
            ReadHead(s, c, k) == if leaf.None? then NoHead else HeadAt(Leaf(leaf.value), c + |Blob(b, body)|)
  {
    hide Decimal, ReadHead, ReadLength, BlobLeaf, Holds, LineLeaf;
    var line := Line(b, Decimal(|body|));
    assert Blob(b, body) == line + (body + CRLF);
    HoldsSplit(s, c, line, body + CRLF);
    HoldsSplit(s, c + |line|, body, CRLF);
    DigitsPlain(Decimal(|body|));
    LineRead(s, c, b, Decimal(|body|), k);
    LengthBack(|body|);
    HoldsCrlf(s, c + |line| + |body|);
    assert s[c + |line|..c + |line| + |body|] == body by { BodyThere(s, c + |line|, body); }
  }

  lemma BodyThere(s: Bytes, c: nat, body: Bytes)
    requires Holds(s, c, body)
    ensures c + |body| <= |s| && s[c..c + |body|] == body
  {
  }

  lemma CodecFacts(f: Frame, k: Codec)
    requires ValidCodec(k) && OwnOk(f, k)
    ensures k.maxBulk <= MAX_SIZE && k.maxNodes <= MAX_SIZE && (f.Double? ==> Plain(f.text))
  {
  }

  /** A leaf written at a position is the head read there. */
  lemma LeafBack(s: Bytes, c: nat, f: Frame, k: Codec)
    requires ValidCodec(k) && !f.Many? && OwnOk(f, k)
    requires Holds(s, c, Own(f))
    ensures ReadHead(s, c, k) == HeadAt(Leaf(f), c + |Own(f)|)
  {
    hide Decimal, ReadHead, Holds, ValidCodec, Plain;
    assert k.maxBulk <= MAX_SIZE by { CodecFacts(f, k); }
    match f
    case Bulk(Some(body)) => BlobBack(s, c, 36, body, k);
    case BlobError(body) => BlobBack(s, c, 33, body, k);
    case Verbatim(body) => BlobBack(s, c, 61, body, k);
    case Bulk(None) => NullBack(s, c, f, 36, k);
    case NullArray => NullBack(s, c, f, 42, k);
    case _ => TextBack(s, c, f, k);
  }

  lemma NullBack(s: Bytes, c: nat, f: Frame, b: byte, k: Codec)
    requires (f == Bulk(None) && b == 36) || (f == NullArray && b == 42)
    requires OwnOk(f, k) && Holds(s, c, Own(f))
    ensures ReadHead(s, c, k) == HeadAt(Leaf(f), c + |Own(f)|)
  {
    hide ReadHead, Holds;
    LineRead(s, c, b, [45, 49], k);
  }

  lemma TextBack(s: Bytes, c: nat, f: Frame, k: Codec)
    requires ValidCodec(k) && OwnOk(f, k) && Holds(s, c, Own(f))
    requires f.Simple? || f.Error? || f.Integer? || f.Null? || f.Boolean? || f.Double? || f.BigNumber?
    ensures ReadHead(s, c, k) == HeadAt(Leaf(f), c + |Own(f)|)
  {
    hide Decimal, ReadHead, Holds, ValidCodec, Plain, ReadInteger, BigText;
    assert f.Double? ==> Plain(f.text) by { CodecFacts(f, k); }
    match f
    case Simple(t) => LineRead(s, c, 43, t, k);
    case Error(t) => LineRead(s, c, 45, t, k);
    case Integer(v) =>
      TextPlain(v);
      IntegerBack(v);
      LineRead(s, c, 58, Text(v), k);
    case Null =>
      ShortPlain();
      LineRead(s, c, 95, [], k);
    case Boolean(t) =>
      ShortPlain();
      LineRead(s, c, 35, if t then [116] else [102], k);
    case Double(t) => LineRead(s, c, 44, t, k);
    case BigNumber(t) =>
      BigPlain(t);
      LineRead(s, c, 40, t, k);
  }

  lemma ShortPlain()
    ensures Plain([]) && Plain([116]) && Plain([102])
  {
  }

  /** What a line written at a position reads as. */
  lemma LineRead(s: Bytes, c: nat, b: byte, text: Bytes, k: Codec)
    requires IsPrefix(b) && Holds(s, c, Line(b, text))
    requires Plain(text) && |text| + 3 <= k.maxLine
    ensures var end := c + |Line(b, text)|;
            var leaf := LineLeaf(b, text, k);
            ReadHead(s, c, k) == if IsBlob(b) then ReadBlob(s, b, ReadLength(text), end, k)
                                 else if IsAggregate(b) then ReadOpen(b, ReadLength(text), end)
                                 else if leaf.None? then NoHead else HeadAt(Leaf(leaf.value), end)
  {
    hide ReadLength, LineLeaf, LineEnd, HasLine;
    LineBack(s, c, b, text, k);
  }

  lemma OpenBack(s: Bytes, c: nat, f: Frame, k: Codec)
    requires f.Many? && OwnOk(f, k) && |f.items| <= MAX_SIZE
    requires Holds(s, c, Own(f))
    ensures ReadHead(s, c, k) == HeadAt(Open(f.kind, |f.items|), c + |Own(f)|)
  {
    hide Decimal, ReadHead;
    var n := Announced(f.kind, |f.items|);
    DigitsPlain(Decimal(n));
    LengthBack(n);
    LineRead(s, c, Mark(f.kind), Decimal(n), k);
  }

  /** A frame written at a position is the frame the grammar reads there. */
  lemma {:induction false} FrameBack(s: Bytes, c: nat, f: Frame, k: Codec)
    requires ValidCodec(k) && Sound(f, k) && Nodes(f) <= k.maxNodes
    requires Holds(s, c, Wire(f))
    ensures ParseFrame(s, c, k) == FrameAt(f, c + |Wire(f)|)
    decreases f
  {
    hide ReadHead, Own, OwnOk;
    if f.Many? {
      HoldsSplit(s, c, Own(f), WireAll(f.items));
      OpenBack(s, c, f, k);
      ForestBack(s, c + |Own(f)|, f.items, k);
    } else {
      LeafBack(s, c, f, k);
    }
  }

  lemma {:induction false} ForestBack(s: Bytes, c: nat, fs: seq<Frame>, k: Codec)
    requires ValidCodec(k) && SoundAll(fs, k) && NodesAll(fs) <= k.maxNodes
    requires Holds(s, c, WireAll(fs))
    ensures c <= |s| && ParseForest(s, c, |fs|, k) == ForestAt(fs, c + |WireAll(fs)|)
    decreases fs
  {
    hide ReadHead, Own, OwnOk, ParseFrame;
    if fs != [] {
      HoldsSplit(s, c, Wire(fs[0]), WireAll(fs[1..]));
      FrameBack(s, c, fs[0], k);
      ForestBack(s, c + |Wire(fs[0])|, fs[1..], k);
    }
  }

  // ---------- Writing again what was read ----------

  /** No longer than a line and a payload actually read, and as well-formed. */
  predicate NoLonger(f: Frame, read: nat, k: Codec) {
    OwnOk(f, k) && |Own(f)| <= read
  }

  lemma LengthShortest(text: Bytes)
    requires ReadLength(text).Count?
    ensures |Decimal(ReadLength(text).n)| <= |text|
  {
    DecimalShortest(text);
  }

  lemma TextSound(b: byte, text: Bytes, k: Codec)
    requires LineLeaf(b, text, k).Some? && Plain(text) && |text| + 3 <= k.maxLine
    ensures NoLonger(LineLeaf(b, text, k).value, |text| + 3, k)
  {
    if b == 58 { IntegerShortest(text); }
  }

  lemma BlobSound(b: byte, text: Bytes, body: Bytes, k: Codec)
    requires ReadLength(text) == Count(|body|) && BlobLeaf(b, body).Some?
    requires |text| + 3 <= k.maxLine && |body| <= k.maxBulk
    ensures NoLonger(BlobLeaf(b, body).value, |text| + 5 + |body|, k)
  {
    hide Decimal, ReadLength;
    LengthShortest(text);
  }

  lemma NullSound(f: Frame, text: Bytes, k: Codec)
    requires (f == Bulk(None) || f == NullArray) && ReadLength(text).NoLength? && |text| + 3 <= k.maxLine
    ensures NoLonger(f, |text| + 3, k)
  {
  }

  lemma OpenSound(kind: Kind, items: seq<Frame>, n: nat, text: Bytes, k: Codec)
    requires ReadLength(text) == Count(n) && |text| + 3 <= k.maxLine
    requires |items| == if Paired(kind) then 2 * n else n
    ensures NoLonger(Many(kind, items), |text| + 3, k)
  {
    hide Decimal, ReadLength;
    LengthShortest(text);
  }

  lemma HeadSound(s: Bytes, c: nat, k: Codec, f: Frame)
    requires ReadHead(s, c, k).HeadAt?
    requires var h := ReadHead(s, c, k).head;
             if h.Leaf? then f == h.frame else f.Many? && f.kind == h.kind && |f.items| == h.count
    ensures NoLonger(f, ReadHead(s, c, k).end - c, k)
  {
    hide NoLonger, ReadLength, LineLeaf, BlobLeaf;
    var i := LineEnd(s, c + 1);
    var b, text := s[c], s[c + 1..i];
    var length := ReadLength(text);
    if IsBlob(b) {
      if length.Count? {
        BlobSound(b, text, s[i + 2..i + 2 + length.n], k);
      } else {
        NullSound(f, text, k);
      }
    } else if IsAggregate(b) {
      if length.Count? {
        OpenSound(f.kind, f.items, length.n, text, k);
      } else {
        NullSound(f, text, k);
      }
    } else {
      TextSound(b, text, k);
    }
  }

  /** A frame that was read is well-formed, and its canonical bytes are no more than it took. */
  lemma {:induction false} ParsedSound(s: Bytes, c: nat, k: Codec)
    requires ParseFrame(s, c, k).FrameAt?
    ensures var p := ParseFrame(s, c, k); Sound(p.frame, k) && |Wire(p.frame)| <= p.end - c
    decreases |s| - c, 0
  {
    hide ReadHead, Own, OwnOk;
    var p := ParseFrame(s, c, k);
    HeadSound(s, c, k, p.frame);
    assert NoLonger(p.frame, ReadHead(s, c, k).end - c, k);
    if p.frame.Many? {
      ForestSound(s, ReadHead(s, c, k).end, |p.frame.items|, k);
    }
  }

  lemma {:induction false} ForestSound(s: Bytes, c: nat, n: nat, k: Codec)
    requires c <= |s| && ParseForest(s, c, n, k).ForestAt?
    ensures var p := ParseForest(s, c, n, k); SoundAll(p.frames, k) && |WireAll(p.frames)| <= p.end - c
    decreases |s| - c, 1
  {
    hide ReadHead, ParseFrame, Sound, Wire;
    if n > 0 {
      var first := ParseFrame(s, c, k);
      ParsedSound(s, c, k);
      ForestSound(s, first.end, n - 1, k);
      var rest := ParseForest(s, first.end, n - 1, k);
      assert ([first.frame] + rest.frames)[1..] == rest.frames;
    }
  }

  // ---------- The two directions ----------

  /** Whatever the encoder accepts, the decoder gives back, from exactly its bytes, whatever follows. */
  lemma RoundTrip(f: Frame, suffix: Bytes, k: Codec)
    requires ValidCodec(k) && Encodable(f, k)
    ensures RespDecoder.Expected(Wire(f) + suffix, k) == RespDecoder.Frames(f, |Wire(f)|)
  {
    hide ParseFrame, Sound, Wire, RespDecoder.Expected, Nodes, Depth;
    var s := Wire(f) + suffix;
    assert s[0..|Wire(f)|] == Wire(f);
    FrameBack(s, 0, f, k);
    RespStream.FramesAreGrammar(s, k);
  }

  /** Whatever the decoder gives, the encoder accepts under the same limits, in no more bytes. */
  lemma ReencodesNoLonger(s: Bytes, k: Codec)
    requires ValidCodec(k) && RespDecoder.Expected(s, k).Frames?
    ensures var a := RespDecoder.Expected(s, k); Encodable(a.frame, k) && |Wire(a.frame)| <= a.used
  {
    hide ParseFrame, Sound, Wire, RespDecoder.Expected, Nodes, Depth;
    RespStream.FramesAreGrammar(s, k);
    ParsedSound(s, 0, k);
  }

  // ---------- The encoder ----------

  /** A frame waiting to be measured, at its depth. The next one is the first of the list. */
  datatype Item = Item(frame: Frame, depth: nat)

  function Items(fs: seq<Frame>, depth: nat): (r: seq<Item>)
    ensures |r| == |fs| && forall i :: 0 <= i < |fs| ==> r[i] == Item(fs[i], depth)
  {
    if fs == [] then [] else [Item(fs[0], depth)] + Items(fs[1..], depth)
  }

  function WireTotal(items: seq<Item>): nat {
    if items == [] then 0 else |Wire(items[0].frame)| + WireTotal(items[1..])
  }

  function NodeTotal(items: seq<Item>): (n: nat)
    ensures n >= |items|
  {
    if items == [] then 0 else Nodes(items[0].frame) + NodeTotal(items[1..])
  }

  predicate AllSound(items: seq<Item>, k: Codec) {
    items == [] || (Sound(items[0].frame, k) && items[0].depth + Depth(items[0].frame) <= k.maxDepth
        && AllSound(items[1..], k))
  }

  lemma {:induction false} Expand(fs: seq<Frame>, depth: nat, rest: seq<Item>, k: Codec)
    ensures WireTotal(Items(fs, depth) + rest) == |WireAll(fs)| + WireTotal(rest)
    ensures NodeTotal(Items(fs, depth) + rest) == NodesAll(fs) + NodeTotal(rest)
    ensures depth <= k.maxDepth ==>
              (AllSound(Items(fs, depth) + rest, k) <==>
                  SoundAll(fs, k) && depth + DepthAll(fs) <= k.maxDepth && AllSound(rest, k))
  {
    hide Wire, Sound, Depth, Nodes;
    if fs == [] {
      assert Items(fs, depth) + rest == rest;
    } else {
      Expand(fs[1..], depth, rest, k);
      assert (Items(fs, depth) + rest)[1..] == Items(fs[1..], depth) + rest;
    }
  }

  /** One item taken off the list: its own share, then its children's. */
  lemma Unfold(items: seq<Item>, k: Codec)
    requires items != []
    ensures var f, d := items[0].frame, items[0].depth;
            var deeper := Items(Children(f), d + 1) + items[1..];
            && WireTotal(items) == |Own(f)| + WireTotal(deeper)
            && NodeTotal(items) == 1 + NodeTotal(deeper)
            && |deeper| == |Children(f)| + |items| - 1
            && (AllSound(items, k) ==> OwnOk(f, k) && (f.Many? || f.NullArray? ==> d + 1 <= k.maxDepth))
            && (OwnOk(f, k) && d <= k.maxDepth && (f.Many? || f.NullArray? ==> d + 1 <= k.maxDepth) ==>
                  (AllSound(items, k) <==> AllSound(deeper, k)))
  {
    hide Own, OwnOk;
    var f, d := items[0].frame, items[0].depth;
    Expand(Children(f), d + 1, items[1..], k);
    if !f.Many? {
      assert Items(Children(f), d + 1) + items[1..] == items[1..];
    }
  }

  /** Where the measuring pass stands: what is left decides acceptance. */
  ghost predicate Measured(f: Frame, items: seq<Item>, nodes: nat, size: nat, k: Codec) {
    && size + WireTotal(items) == |Wire(f)| && nodes + NodeTotal(items) == Nodes(f)
    && (Encodable(f, k) <==> AllSound(items, k) && Nodes(f) <= k.maxNodes && |Wire(f)| <= k.maxFrame)
    && forall i :: 0 <= i < |items| ==> items[i].depth <= k.maxDepth
  }

  lemma MeasuredStart(f: Frame, k: Codec)
    ensures Measured(f, [Item(f, 0)], 0, 0, k)
  {
    hide Wire, Sound, Nodes, Depth;
    assert [Item(f, 0)][1..] == [];
    assert WireTotal([]) == 0 && NodeTotal([]) == 0 && AllSound([], k);
  }

  lemma MeasuredNext(f: Frame, items: seq<Item>, nodes: nat, size: nat, k: Codec)
    requires items != [] && Measured(f, items, nodes, size, k)
    requires var g, d := items[0].frame, items[0].depth;
             OwnOk(g, k) && (g.Many? || g.NullArray? ==> d + 1 <= k.maxDepth)
    ensures var g, d := items[0].frame, items[0].depth;
            Measured(f, Items(Children(g), d + 1) + items[1..], nodes + 1, size + |Own(g)|, k)
  {
    hide Wire, Sound, Nodes, Depth, Own, OwnOk, Encodable, AllSound, WireTotal, NodeTotal;
    Unfold(items, k);
  }

  /** The first pass: the exact size, or a refusal of exactly the frames that are not encodable. */
  method EncodedSize(f: Frame, k: Codec) returns (r: Option<nat>)
    ensures r.Some? <==> Encodable(f, k)
    ensures r.Some? ==> r.value == |Wire(f)|
  {
    hide Wire, Sound, Nodes, Depth, Own, OwnOk, Encodable, AllSound, WireTotal;
    var items, nodes: nat, size: nat := [Item(f, 0)], 0, 0;
    MeasuredStart(f, k);
    while items != []
      invariant Measured(f, items, nodes, size, k) && nodes <= k.maxNodes && size <= k.maxFrame
      decreases NodeTotal(items)
    {
      var Item(g, depth) := items[0];
      ghost var was := items;
      Unfold(items, k);
      items := items[1..];
      nodes := nodes + 1;
      if nodes > k.maxNodes || !OwnOk(g, k) {
        return None;
      }
      if g.Many? || g.NullArray? {
        if depth + 1 > k.maxDepth || nodes + |items| + |Children(g)| > k.maxNodes {
          return None;
        }
      }
      MeasuredNext(f, was, nodes - 1, size, k);
      items := Items(Children(g), depth + 1) + items;
      size := size + |Own(g)|;
      if size > k.maxFrame {
        return None;
      }
    }
    MeasuredEnd(f, nodes, size, k);
    r := Some(size);
  }

  lemma MeasuredEnd(f: Frame, nodes: nat, size: nat, k: Codec)
    requires Measured(f, [], nodes, size, k) && nodes <= k.maxNodes && size <= k.maxFrame
    ensures Encodable(f, k) && size == |Wire(f)|
  {
    hide Wire, Encodable;
  }

  lemma {:induction false} WireConcat(a: seq<Frame>, b: seq<Frame>)
    ensures WireAll(a + b) == WireAll(a) + WireAll(b)
  {
    hide Wire;
    if a == [] {
      assert a + b == b;
    } else {
      WireConcat(a[1..], b);
      assert (a + b)[0] == a[0] && (a + b)[1..] == a[1..] + b;
      assert Wire(a[0]) + WireAll(a[1..]) + WireAll(b) == Wire(a[0]) + (WireAll(a[1..]) + WireAll(b));
    }
  }

  lemma WireNext(fs: seq<Frame>)
    requires fs != []
    ensures WireAll(fs) == Own(fs[0]) + WireAll(Children(fs[0]) + fs[1..])
  {
    hide Own;
    WireConcat(Children(fs[0]), fs[1..]);
    if !fs[0].Many? {
      assert Children(fs[0]) + fs[1..] == fs[1..];
    }
  }

  /** Appends the frame's bytes to the output, or leaves the output alone. */
  method Encode(f: Frame, dst: Bytes, k: Codec) returns (ok: bool, out: Bytes)
    ensures ok <==> ValidLimits(k) && Encodable(f, k) && |dst| + |Wire(f)| <= MAX_SIZE
    ensures out == if ok then dst + Wire(f) else dst
  {
    hide Wire, Own, Encodable, Nodes;
    out := dst;
    if !ValidLimits(k) {
      return false, dst;
    }
    var size := EncodedSize(f, k);
    if size.None? || |dst| + size.value > MAX_SIZE {
      return false, dst;
    }
    var pending := [f];
    assert WireAll([f]) == Wire(f) by { WireOne(f); }
    while pending != []
      invariant out + WireAll(pending) == dst + Wire(f)
      decreases NodesAll(pending)
    {
      var g := pending[0];
      WireNext(pending);
      FewerNodes(pending);
      out := out + Own(g);
      pending := Children(g) + pending[1..];
    }
    assert out + [] == out;
    ok := true;
  }

  lemma WireOne(f: Frame)
    ensures WireAll([f]) == Wire(f)
  {
    assert [f][1..] == [] && Wire(f) + [] == Wire(f);
  }

  lemma {:induction false} NodesConcat(a: seq<Frame>, b: seq<Frame>)
    ensures NodesAll(a + b) == NodesAll(a) + NodesAll(b)
  {
    if a == [] {
      assert a + b == b;
    } else {
      NodesConcat(a[1..], b);
      assert (a + b)[1..] == a[1..] + b;
    }
  }

  lemma FewerNodes(fs: seq<Frame>)
    requires fs != []
    ensures NodesAll(Children(fs[0]) + fs[1..]) < NodesAll(fs)
  {
    NodesConcat(Children(fs[0]), fs[1..]);
  }
}
