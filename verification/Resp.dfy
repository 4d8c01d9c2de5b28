/**
 * The RESP2/RESP3 wire format: frames, the lexical level (one head per node), a plain
 * recursive-descent grammar over it, and the limits a frame must respect.
 */
module Resp {
  import opened Crc
  import opened Format

  const CR: byte := 13
  const LF: byte := 10
  const MINUS: byte := 45
  const PLUS: byte := 43

  /** The largest value of the machine word that counts bytes and nodes. */
  const MAX_SIZE: nat := 0xffff_ffff_ffff_ffff

  datatype Kind = ArrayKind | MapKind | SetKind | PushKind | AttributeKind

  datatype Frame =
    | Simple(text: Bytes)
    | Error(text: Bytes)
    | Integer(value: int)
    | Bulk(payload: Option<Bytes>)
    | NullArray
    | Null
    | Boolean(truth: bool)
    | Double(text: Bytes)
    | BigNumber(text: Bytes)
    | BlobError(blob: Bytes)
    | Verbatim(blob: Bytes)
    | Many(kind: Kind, items: seq<Frame>)

  /** The limits of a connection, and which texts are doubles. */
  datatype Codec = Codec(
    maxFrame: nat, maxBulk: nat, maxLine: nat, maxNodes: nat, maxDepth: nat, isDouble: Bytes -> bool)

  /** No carriage return and no line feed. */
  predicate Plain(s: Bytes) {
    forall i :: 0 <= i < |s| ==> s[i] != CR && s[i] != LF
  }

  predicate ValidLimits(k: Codec) {
    && 0 < k.maxBulk <= k.maxFrame <= MAX_SIZE && 0 < k.maxLine <= k.maxFrame
    && 0 < k.maxNodes <= MAX_SIZE && 0 < k.maxDepth <= 128
  }

  ghost predicate ValidCodec(k: Codec) {
    ValidLimits(k) && forall s :: k.isDouble(s) ==> Plain(s)
  }

  // ---------- Decimal numbers ----------

  predicate IsDigit(b: byte) { 48 <= b <= 57 }

  predicate Digits(s: Bytes) {
    s != [] && forall i :: 0 <= i < |s| ==> IsDigit(s[i])
  }

  function Number(s: Bytes): nat
    requires forall i :: 0 <= i < |s| ==> IsDigit(s[i])
  {
    if s == [] then 0
    else
      var last := s[|s| - 1];
      assert IsDigit(last);
      10 * Number(s[..|s| - 1]) + (last - 48)
  }

  function Decimal(n: nat): (s: Bytes)
    ensures Digits(s)
  {
    if n < 10 then [48 + n] else Decimal(n / 10) + [48 + n % 10]
  }

  lemma {:induction false} DecimalValue(n: nat)
    ensures Number(Decimal(n)) == n
  {
    if n < 10 {
      assert [48 + n][..0] == [];
    } else {
      DecimalValue(n / 10);
      assert Decimal(n)[..|Decimal(n)| - 1] == Decimal(n / 10);
    }
  }

  lemma {:induction false} DecimalMonotone(a: nat, b: nat)
    requires a <= b
    ensures |Decimal(a)| <= |Decimal(b)|
  {
    if a >= 10 { DecimalMonotone(a / 10, b / 10); }
  }

  /** No text of a number is shorter than its canonical one. */
  lemma {:induction false} DecimalShortest(s: Bytes)
    requires Digits(s)
    ensures |Decimal(Number(s))| <= |s|
  {
    var n := |s| - 1;
    if n == 0 {
      assert s[..0] == [];
    } else {
      DecimalShortest(s[..n]);
      var v, d := Number(s[..n]), s[n] - 48;
      assert (10 * v + d) / 10 == v;
    }
  }

  lemma {:induction false} ValueGrows(s: Bytes, i: nat)
    requires i <= |s| && forall j :: 0 <= j < |s| ==> IsDigit(s[j])
    ensures Number(s[..i]) <= Number(s)
  {
    if i < |s| {
      ValueGrows(s[..|s| - 1], i);
      assert s[..|s| - 1][..i] == s[..i];
    } else {
      assert s[..i] == s;
    }
  }

  function Text(v: int): Bytes {
    if v < 0 then [MINUS] + Decimal(-v) else Decimal(v)
  }

  /** A length: absent for "-1", refused beyond the machine word. */
  datatype Length = NoLength | BadLength | Count(n: nat)

  function ReadLength(s: Bytes): Length {
    if s == [MINUS, 49] then NoLength
    else if Digits(s) && Number(s) <= MAX_SIZE then Count(Number(s))
    else BadLength
  }

  function Magnitude(s: Bytes): Bytes {
    if s != [] && (s[0] == MINUS || s[0] == PLUS) then s[1..] else s
  }

  /** A signed 64-bit number with an optional sign. */
  function ReadInteger(s: Bytes): Option<int> {
    if !Digits(Magnitude(s)) then None
    else
      var n: int := Number(Magnitude(s));
      if s[0] == MINUS then (if n <= LONG / 2 then Some(-n) else None)
      else (if n < LONG / 2 then Some(n) else None)
  }

  lemma LengthBack(n: nat)
    requires n <= MAX_SIZE
    ensures ReadLength(Decimal(n)) == Count(n)
  {
    DecimalValue(n);
    assert IsDigit(Decimal(n)[0]);
  }

  lemma IntegerBack(v: int)
    requires -(LONG / 2) <= v < LONG / 2
    ensures ReadInteger(Text(v)) == Some(v)
  {
    var n := if v < 0 then -v else v;
    DecimalValue(n);
    assert IsDigit(Decimal(n)[0]);
    if v < 0 {
      assert Text(v)[1..] == Decimal(n);
    }
  }

  lemma IntegerShortest(s: Bytes)
    requires ReadInteger(s).Some?
    ensures -(LONG / 2) <= ReadInteger(s).value < LONG / 2
    ensures |Text(ReadInteger(s).value)| <= |s|
  {
    DecimalShortest(Magnitude(s));
  }

  // ---------- Heads ----------

  /** One node as it appears on the wire: a complete leaf, or the start of an aggregate. */
  datatype Head = Leaf(frame: Frame) | Open(kind: Kind, count: nat)

  function Children(h: Head): nat { if h.Open? then h.count else 0 }

  datatype Lexed = NoHead | HeadAt(head: Head, end: nat)

  predicate IsPrefix(b: byte) {
    b in {43, 45, 58, 36, 42, 95, 35, 44, 40, 33, 61, 37, 126, 62, 124}
  }

  predicate IsAggregate(b: byte) { b in {42, 37, 126, 62, 124} }

  predicate IsBlob(b: byte) { b in {36, 33, 61} }

  function KindOf(b: byte): Kind {
    match b
    case 37 => MapKind
    case 126 => SetKind
    case 62 => PushKind
    case 124 => AttributeKind
    case _ => ArrayKind
  }

  function Paired(kind: Kind): bool { kind.MapKind? || kind.AttributeKind? }

  /** The first carriage return or line feed at or after a position. */
  function LineEnd(s: Bytes, at: nat): (i: nat)
    requires at <= |s|
    ensures at <= i <= |s| && (i < |s| ==> s[i] == CR || s[i] == LF)
    ensures forall j :: at <= j < i ==> s[j] != CR && s[j] != LF
    decreases |s| - at
  {
    if at == |s| || s[at] == CR || s[at] == LF then at else LineEnd(s, at + 1)
  }

  /** A line from c: its last content position, when it is terminated and not too long. */
  predicate HasLine(s: Bytes, c: nat, k: Codec)
    requires c < |s|
  {
    var i := LineEnd(s, c + 1);
    i + 1 < |s| && s[i] == CR && s[i + 1] == LF && i + 2 - c <= k.maxLine
  }

  predicate BigText(s: Bytes) {
    Digits(if s != [] && s[0] == MINUS then s[1..] else s)
  }

  predicate VerbatimText(s: Bytes) { |s| >= 4 && s[3] == 58 }

  /** A node whose whole content is its line. */
  function LineLeaf(b: byte, text: Bytes, k: Codec): Option<Frame> {
    match b
    case 43 => Some(Simple(text))
    case 45 => Some(Error(text))
    case 58 => (match ReadInteger(text) case None => None case Some(v) => Some(Integer(v)))
    case 95 => if text == [] then Some(Null) else None
    case 35 => if text == [116] then Some(Boolean(true)) else if text == [102] then Some(Boolean(false)) else None
    case 44 => if k.isDouble(text) then Some(Double(text)) else None
    case 40 => if BigText(text) then Some(BigNumber(text)) else None
    case _ => None
  }

  function BlobLeaf(b: byte, body: Bytes): Option<Frame> {
    match b
    case 36 => Some(Bulk(Some(body)))
    case 33 => Some(BlobError(body))
    case 61 => if VerbatimText(body) then Some(Verbatim(body)) else None
    case _ => None
  }

  /** A length-prefixed payload of n bytes at a position, with its terminator. */
  predicate HasBody(s: Bytes, at: nat, n: nat) {
    at + n + 2 <= |s| && s[at + n] == CR && s[at + n + 1] == LF
  }

  function ReadBlob(s: Bytes, b: byte, length: Length, at: nat, k: Codec): Lexed {
    match length
    case BadLength => NoHead
    case NoLength => if b == 36 then HeadAt(Leaf(Bulk(None)), at) else NoHead
    case Count(n) =>
      if n > k.maxBulk || !HasBody(s, at, n) then NoHead
      else match BlobLeaf(b, s[at..at + n])
           case None => NoHead
           case Some(f) => HeadAt(Leaf(f), at + n + 2)
  }

  function ReadOpen(b: byte, length: Length, at: nat): Lexed {
    match length
    case BadLength => NoHead
    case NoLength => if b == 42 then HeadAt(Leaf(NullArray), at) else NoHead
    case Count(n) => HeadAt(Open(KindOf(b), if Paired(KindOf(b)) then 2 * n else n), at)
  }

  /** The node that starts at a position, within the limits on lines and payloads. */
  function ReadHead(s: Bytes, c: nat, k: Codec): (l: Lexed)
    ensures l.HeadAt? ==> c + 3 <= l.end <= |s| && (l.head.Leaf? ==> !l.head.frame.Many?)
  {
    if c >= |s| || !IsPrefix(s[c]) || !HasLine(s, c, k) then NoHead
    else
      var i := LineEnd(s, c + 1);
      var b, text := s[c], s[c + 1..i];
      if IsBlob(b) then ReadBlob(s, b, ReadLength(text), i + 2, k)
      else if IsAggregate(b) then ReadOpen(b, ReadLength(text), i + 2)
      else match LineLeaf(b, text, k)
           case None => NoHead
           case Some(f) => HeadAt(Leaf(f), i + 2)
  }

  // ---------- The grammar ----------

  datatype Parsed = NoFrame | FrameAt(frame: Frame, end: nat)

  datatype Forest = NoForest | ForestAt(frames: seq<Frame>, end: nat)

  function ParseFrame(s: Bytes, c: nat, k: Codec): (p: Parsed)
    ensures p.FrameAt? ==> c + 3 <= p.end <= |s|
    decreases |s| - c, 0
  {
    match ReadHead(s, c, k)
    case NoHead => NoFrame
    case HeadAt(Leaf(f), end) => FrameAt(f, end)
    case HeadAt(Open(kind, n), end) =>
      match ParseForest(s, end, n, k)
      case NoForest => NoFrame
      case ForestAt(items, last) => FrameAt(Many(kind, items), last)
  }

  function ParseForest(s: Bytes, c: nat, n: nat, k: Codec): (p: Forest)
    requires c <= |s|
    ensures p.ForestAt? ==> |p.frames| == n && c + 3 * n <= p.end <= |s|
    decreases |s| - c, 1
  {
    if n == 0 then ForestAt([], c)
    else match ParseFrame(s, c, k)
         case NoFrame => NoForest
         case FrameAt(f, end) =>
           match ParseForest(s, end, n - 1, k)
           case NoForest => NoForest
           case ForestAt(rest, last) => ForestAt([f] + rest, last)
  }

  // ---------- Structural limits ----------

  function Nodes(f: Frame): (n: nat)
    ensures n >= 1
    decreases f
  {
    if f.Many? then 1 + NodesAll(f.items) else 1
  }

  function NodesAll(fs: seq<Frame>): (n: nat)
    ensures n >= |fs|
    decreases fs
  {
    if fs == [] then 0 else Nodes(fs[0]) + NodesAll(fs[1..])
  }

  function Max(a: nat, b: nat): nat { if a < b then b else a }

  /** Levels of aggregates; a null array is one too. */
  function Depth(f: Frame): nat
    decreases f
  {
    match f
    case Many(_, items) => 1 + DepthAll(items)
    case NullArray => 1
    case _ => 0
  }

  function DepthAll(fs: seq<Frame>): nat
    decreases fs
  {
    if fs == [] then 0 else Max(Depth(fs[0]), DepthAll(fs[1..]))
  }

  /** A frame of so many bytes within the limits on nodes, depth and size. */
  predicate Fits(f: Frame, bytes: nat, k: Codec) {
    Nodes(f) <= k.maxNodes && Depth(f) <= k.maxDepth && bytes <= k.maxFrame
  }
}
