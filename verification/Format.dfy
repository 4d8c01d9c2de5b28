/**
 * The record-1 codec of the append-only file: sizes computed before anything is written,
 * the framed encoding, and the reader that checks length, complement and checksum.
 *
 * Ordered containers are the strictly ascending sequences their iteration yields, so a
 * value equals another exactly when the containers are equal.
 */
module Format {
  import opened Crc

  type Bytes = seq<byte>

  datatype Option<+T> = None | Some(value: T)

  datatype Result<+T> = Ok(value: T) | Err(error: Error) {
    predicate IsFailure() { Err? }
    function PropagateFailure<U>(): Result<U> requires Err? { Err(error) }
    function Extract(): T requires Ok? { value }
  }

  datatype Error = Limit | Corrupt

  /** What a cursor operation yields: the value and the bytes that remain. */
  datatype Parse<+T> = Bad | Good(value: T, rest: Bytes) {
    predicate IsFailure() { Bad? }
    function PropagateFailure<U>(): Parse<U> requires Bad? { Bad }
    function Extract(): (T, Bytes) requires Good? { (value, rest) }
  }

  const WORD: nat := 0x1_0000_0000
  const LONG: nat := 0x1_0000_0000_0000_0000
  const MAX_RECORD_BYTES: nat := 0x400_0000

  // ---------- Data ----------

  datatype Field = Field(name: Bytes, value: Bytes)

  datatype Scored = Scored(score: nat, member: Bytes)

  datatype Value =
    | String(bytes: Bytes)
    | Hash(fields: seq<Field>)
    | List(values: seq<Bytes>)
    | Set(members: seq<Bytes>)
    | SortedSet(entries: seq<Scored>)

  datatype Mutation =
    | Put(key: Bytes, value: Value, deadline: Option<int>)
    | Delete(key: Bytes)

  datatype Origin = Client | Expiration

  datatype Record =
    | Snapshot(mutation: Mutation)
    | Seal(sequence: nat, entries: nat, digest: nat)
    | Batch(sequence: nat, origin: Origin, mutations: seq<Mutation>)

  datatype Limits = Limits(maxRecordBytes: nat, maxMutations: nat)

  datatype Next =
    | End
    | IncompleteTail
    | Read(record: Record, rest: Bytes)
    | Failed(error: Error)

  // ---------- Order ----------

  /** Lexicographic order of binary strings. */
  predicate Less(a: Bytes, b: Bytes) {
    b != [] && (a == [] || a[0] < b[0] || (a[0] == b[0] && Less(a[1..], b[1..])))
  }

  lemma {:induction false} LessAsymmetric(a: Bytes, b: Bytes)
    requires Less(a, b)
    ensures !Less(b, a) && a != b
  {
    if a != [] && a[0] == b[0] {
      LessAsymmetric(a[1..], b[1..]);
    }
  }

  lemma {:induction false} LessTotal(a: Bytes, b: Bytes)
    ensures Less(a, b) || a == b || Less(b, a)
  {
    if a != [] && b != [] && a[0] == b[0] {
      LessTotal(a[1..], b[1..]);
      assert a == [a[0]] + a[1..] && b == [b[0]] + b[1..];
    }
  }

  lemma {:induction false} LessTransitive(a: Bytes, b: Bytes, c: Bytes)
    requires Less(a, b) && Less(b, c)
    ensures Less(a, c)
  {
    if a != [] && a[0] == b[0] == c[0] {
      LessTransitive(a[1..], b[1..], c[1..]);
    }
  }

  /** Scores are ordered by the total order of their binary64 patterns. */
  function Rank(score: nat): int {
    if score < LONG / 2 then score else LONG / 2 - 1 - score
  }

  predicate ScoredLess(a: Scored, b: Scored) {
    Rank(a.score) < Rank(b.score) || (a.score == b.score && Less(a.member, b.member))
  }

  /** A number, with zero in its canonical pattern. */
  predicate CanonicalScore(score: nat) {
    score < LONG && score % (LONG / 2) <= 0x7ff0_0000_0000_0000 && score != LONG / 2
  }

  predicate Ascending(keys: seq<Bytes>) {
    forall i, j :: 0 <= i < j < |keys| ==> Less(keys[i], keys[j])
  }

  predicate AscendingScored(entries: seq<Scored>) {
    && (forall i, j :: 0 <= i < j < |entries| ==> ScoredLess(entries[i], entries[j]))
    && (forall i, j :: 0 <= i < j < |entries| ==> entries[i].member != entries[j].member)
  }

  function Fields(pairs: seq<Field>): (keys: seq<Bytes>)
    ensures |keys| == |pairs| && forall i :: 0 <= i < |pairs| ==> keys[i] == pairs[i].name
  {
    if pairs == [] then [] else Fields(pairs[..|pairs| - 1]) + [pairs[|pairs| - 1].name]
  }

  /** The invariants of the container types; every value in memory satisfies them. */
  predicate ValidValue(v: Value) {
    match v
    case Hash(fields) => Ascending(Fields(fields))
    case Set(members) => Ascending(members)
    case SortedSet(entries) =>
      AscendingScored(entries) && forall e :: e in entries ==> CanonicalScore(e.score)
    case _ => true
  }

  predicate ValidMutation(m: Mutation) {
    m.Put? ==>
      && ValidValue(m.value)
      && (m.deadline.Some? ==> -(LONG / 2) <= m.deadline.value < LONG / 2)
  }

  predicate ValidRecord(r: Record) {
    match r
    case Snapshot(m) => ValidMutation(m)
    case Seal(sequence, entries, digest) => sequence < LONG && entries < LONG && digest < WORD
    case Batch(sequence, _, ms) => sequence < LONG && forall m :: m in ms ==> ValidMutation(m)
  }

  // ---------- Little-endian integers ----------

  function Pow256(k: nat): (p: nat)
    ensures p >= 1
  {
    if k == 0 then 1 else 256 * Pow256(k - 1)
  }

  function LE(n: nat, k: nat): (s: Bytes)
    ensures |s| == k
    decreases k, n
  {
    if k == 0 then [] else [n % 256] + LE(n / 256, k - 1)
  }

  function FromLE(s: Bytes): (n: nat)
    ensures n < Pow256(|s|)
  {
    if s == [] then 0 else s[0] + 256 * FromLE(s[1..])
  }

  lemma Widths()
    ensures Pow256(1) == 256 && Pow256(4) == WORD && Pow256(8) == LONG
  {
    assert Pow256(4) == WORD;
  }

  lemma {:induction false} LERoundTrip(n: nat, k: nat)
    requires n < Pow256(k)
    ensures FromLE(LE(n, k)) == n
    decreases k
  {
    if k > 0 {
      LERoundTrip(n / 256, k - 1);
    }
  }

  lemma {:induction false} FromLEInjective(a: Bytes, b: Bytes)
    requires |a| == |b| && FromLE(a) == FromLE(b)
    ensures a == b
  {
    if a != [] {
      FromLEInjective(a[1..], b[1..]);
      assert a == [a[0]] + a[1..] && b == [b[0]] + b[1..];
    }
  }

  /** Two's complement of a 64-bit deadline. */
  function Unsigned(d: int): (n: nat)
    ensures n < LONG
  {
    d % LONG
  }

  function Signed(n: nat): int {
    if n >= LONG / 2 then n - LONG else n
  }

  // ---------- Sizes ----------

  function BlobSize(b: Bytes): Result<nat> {
    if |b| >= WORD then Err(Limit) else Ok(|b| + 4)
  }

  function BlobsSize(bs: seq<Bytes>): Result<nat>
    decreases |bs|
  {
    if bs == [] then Ok(4)
    else
      var before :- BlobsSize(bs[..|bs| - 1]);
      var last :- BlobSize(bs[|bs| - 1]);
      Ok(before + last)
  }

  function PairsSize(ps: seq<Field>): Result<nat>
    decreases |ps|
  {
    if ps == [] then Ok(4)
    else
      var before :- PairsSize(ps[..|ps| - 1]);
      var field :- BlobSize(ps[|ps| - 1].name);
      var value :- BlobSize(ps[|ps| - 1].value);
      Ok(before + field + value)
  }

  function ScoredSize(es: seq<Scored>): Result<nat>
    decreases |es|
  {
    if es == [] then Ok(4)
    else
      var before :- ScoredSize(es[..|es| - 1]);
      var member :- BlobSize(es[|es| - 1].member);
      Ok(before + member + 8)
  }

  function Counted(count: nat, size: Result<nat>): Result<nat> {
    if count == 0 || count >= WORD then Err(Corrupt) else size
  }

  function ValueSize(v: Value): Result<nat> {
    match v
    case String(b) => BlobSize(b)
    case Hash(fields) => Counted(|fields|, PairsSize(fields))
    case List(values) => Counted(|values|, BlobsSize(values))
    case Set(members) => Counted(|members|, BlobsSize(members))
    case SortedSet(entries) => Counted(|entries|, ScoredSize(entries))
  }

  function MutationSize(m: Mutation): Result<nat> {
    match m
    case Put(key, value, _) =>
      var size :- ValueSize(value);
      if |key| >= WORD then Err(Limit) else Ok(|key| + 5 + size + 9)
    case Delete(key) => if |key| >= WORD then Err(Limit) else Ok(|key| + 5)
  }

  /** Inside a batch every size failure is reported as a limit. */
  function MutationsSize(ms: seq<Mutation>): Result<nat>
    decreases |ms|
  {
    if ms == [] then Ok(14)
    else
      var before :- MutationsSize(ms[..|ms| - 1]);
      match MutationSize(ms[|ms| - 1])
      case Ok(size) => Ok(before + size)
      case Err(_) => Err(Limit)
  }

  function BodySize(r: Record, limits: Limits): Result<nat> {
    match r
    case Snapshot(m) =>
      var size :- MutationSize(m);
      Ok(1 + size)
    case Seal(_, _, _) => Ok(21)
    case Batch(_, _, ms) =>
      if ms == [] || |ms| > limits.maxMutations || |ms| >= WORD then Err(Limit) else MutationsSize(ms)
  }

  // ---------- Encoding ----------

  function EncodeBlob(b: Bytes): Bytes { LE(|b|, 4) + b }

  function EncodeBlobs(bs: seq<Bytes>): Bytes {
    if bs == [] then [] else EncodeBlobs(bs[..|bs| - 1]) + EncodeBlob(bs[|bs| - 1])
  }

  function EncodePair(p: Field): Bytes { EncodeBlob(p.name) + EncodeBlob(p.value) }

  function EncodePairs(ps: seq<Field>): Bytes {
    if ps == [] then [] else EncodePairs(ps[..|ps| - 1]) + EncodePair(ps[|ps| - 1])
  }

  function EncodeEntry(e: Scored): Bytes { EncodeBlob(e.member) + LE(e.score, 8) }

  function EncodeScored(es: seq<Scored>): Bytes {
    if es == [] then [] else EncodeScored(es[..|es| - 1]) + EncodeEntry(es[|es| - 1])
  }

  function Tag(m: Mutation): byte {
    match m
    case Delete(_) => 2
    case Put(_, v, _) =>
      match v
      case String(_) => 1
      case Hash(_) => 3
      case List(_) => 4
      case Set(_) => 5
      case SortedSet(_) => 6
  }

  function EncodeValue(v: Value): Bytes {
    match v
    case String(b) => EncodeBlob(b)
    case Hash(fields) => LE(|fields|, 4) + EncodePairs(fields)
    case List(values) => LE(|values|, 4) + EncodeBlobs(values)
    case Set(members) => LE(|members|, 4) + EncodeBlobs(members)
    case SortedSet(entries) => LE(|entries|, 4) + EncodeScored(entries)
  }

  function EncodeDeadline(d: Option<int>): (s: Bytes)
    ensures |s| == 9
  {
    match d
    case None => [0] + LE(0, 8)
    case Some(at) => [1] + LE(Unsigned(at), 8)
  }

  function EncodeMutation(m: Mutation): Bytes {
    [Tag(m)] + EncodeBlob(m.key) + if m.Put? then EncodeValue(m.value) + EncodeDeadline(m.deadline) else []
  }

  function EncodeMutations(ms: seq<Mutation>): Bytes {
    if ms == [] then [] else EncodeMutations(ms[..|ms| - 1]) + EncodeMutation(ms[|ms| - 1])
  }

  function OriginByte(o: Origin): byte { if o == Client then 1 else 2 }

  function Body(r: Record): Bytes {
    match r
    case Snapshot(m) => [1] + EncodeMutation(m)
    case Seal(sequence, entries, digest) => [2] + LE(sequence, 8) + LE(entries, 8) + LE(digest, 4)
    case Batch(sequence, origin, ms) =>
      [3] + LE(sequence, 8) + [OriginByte(origin)] + LE(|ms|, 4) + EncodeMutations(ms)
  }

  function Frame(size: nat, body: Bytes): Bytes {
    LE(size, 4) + LE(WORD - 1 - size % WORD, 4) + LE(Checksum(body), 4) + body
  }

  function Encode(r: Record, limits: Limits): Result<Bytes> {
    var size :- BodySize(r, limits);
    if size > limits.maxRecordBytes || size > MAX_RECORD_BYTES then Err(Limit) else Ok(Frame(size, Body(r)))
  }

  // ---------- Decoding ----------

  function Take(s: Bytes, n: nat): Parse<Bytes> {
    if n <= |s| then Good(s[..n], s[n..]) else Bad
  }

  function Uint(s: Bytes, k: nat): Parse<nat> {
    var (b, rest) :- Take(s, k);
    Good(FromLE(b), rest)
  }

  function Blob(s: Bytes): Parse<Bytes> {
    var (n, rest) :- Uint(s, 4);
    Take(rest, n)
  }

  function Blobs(s: Bytes, n: nat): Parse<seq<Bytes>> {
    if n == 0 then Good([], s)
    else
      var (bs, rest) :- Blobs(s, n - 1);
      var (b, rest) :- Blob(rest);
      Good(bs + [b], rest)
  }

  function Pair(s: Bytes): Parse<Field> {
    var (field, rest) :- Blob(s);
    var (value, rest) :- Blob(rest);
    Good(Field(field, value), rest)
  }

  function Pairs(s: Bytes, n: nat): Parse<seq<Field>> {
    if n == 0 then Good([], s)
    else
      var (ps, rest) :- Pairs(s, n - 1);
      var (p, rest) :- Pair(rest);
      Good(ps + [p], rest)
  }

  /** A score that is not a number is refused; negative zero becomes zero. */
  function Entry(s: Bytes): Parse<Scored> {
    var (member, rest) :- Blob(s);
    var (score, rest) :- Uint(rest, 8);
    if score % (LONG / 2) > 0x7ff0_0000_0000_0000 then Bad
    else Good(Scored(if score == LONG / 2 then 0 else score, member), rest)
  }

  function ScoredList(s: Bytes, n: nat): Parse<seq<Scored>> {
    if n == 0 then Good([], s)
    else
      var (es, rest) :- ScoredList(s, n - 1);
      var (e, rest) :- Entry(rest);
      Good(es + [e], rest)
  }

  /** Inserts into a strictly ascending container; a member already present is refused. */
  function Insert(keys: seq<Bytes>, key: Bytes): Option<seq<Bytes>> {
    if keys == [] then Some([key])
    else
      var n := |keys| - 1;
      if keys[n] == key then None
      else if Less(keys[n], key) then Some(keys + [key])
      else match Insert(keys[..n], key)
           case None => None
           case Some(front) => Some(front + [keys[n]])
  }

  function InsertAll(keys: seq<Bytes>): Option<seq<Bytes>> {
    if keys == [] then Some([])
    else match InsertAll(keys[..|keys| - 1])
         case None => None
         case Some(front) => Insert(front, keys[|keys| - 1])
  }

  function InsertPair(pairs: seq<Field>, pair: Field): Option<seq<Field>> {
    if pairs == [] then Some([pair])
    else
      var n := |pairs| - 1;
      if pairs[n].name == pair.name then None
      else if Less(pairs[n].name, pair.name) then Some(pairs + [pair])
      else match InsertPair(pairs[..n], pair)
           case None => None
           case Some(front) => Some(front + [pairs[n]])
  }

  function InsertAllPairs(pairs: seq<Field>): Option<seq<Field>> {
    if pairs == [] then Some([])
    else match InsertAllPairs(pairs[..|pairs| - 1])
         case None => None
         case Some(front) => InsertPair(front, pairs[|pairs| - 1])
  }

  predicate HasMember(entries: seq<Scored>, member: Bytes) {
    exists i :: 0 <= i < |entries| && entries[i].member == member
  }

  function InsertScored(entries: seq<Scored>, entry: Scored): seq<Scored> {
    if entries == [] || ScoredLess(entries[|entries| - 1], entry) then entries + [entry]
    else InsertScored(entries[..|entries| - 1], entry) + [entries[|entries| - 1]]
  }

  function InsertAllScored(entries: seq<Scored>): Option<seq<Scored>> {
    if entries == [] then Some([])
    else match InsertAllScored(entries[..|entries| - 1])
         case None => None
         case Some(front) =>
           if HasMember(front, entries[|entries| - 1].member) then None
           else Some(InsertScored(front, entries[|entries| - 1]))
  }

  function Count(s: Bytes, unit: nat): Parse<nat>
    requires unit > 0
  {
    var (n, rest) :- Uint(s, 4);
    if n == 0 || n > |rest| / unit then Bad else Good(n, rest)
  }

  function DecodeValue(tag: nat, s: Bytes): Parse<Value>
    requires tag == 1 || 3 <= tag <= 6
  {
    match tag
    case 1 =>
      var (b, rest) :- Blob(s);
      Good(String(b), rest)
    case 3 =>
      var (n, rest) :- Count(s, 8);
      var (ps, rest) :- Pairs(rest, n);
      (match InsertAllPairs(ps) case None => Bad case Some(fields) => Good(Hash(fields), rest))
    case 4 =>
      var (n, rest) :- Count(s, 4);
      var (bs, rest) :- Blobs(rest, n);
      Good(List(bs), rest)
    case 5 =>
      var (n, rest) :- Count(s, 4);
      var (bs, rest) :- Blobs(rest, n);
      (match InsertAll(bs) case None => Bad case Some(members) => Good(Set(members), rest))
    case _ =>
      var (n, rest) :- Count(s, 12);
      var (es, rest) :- ScoredList(rest, n);
      (match InsertAllScored(es) case None => Bad case Some(entries) => Good(SortedSet(entries), rest))
  }

  function DecodeDeadline(s: Bytes): Parse<Option<int>> {
    var (flag, rest) :- Uint(s, 1);
    var (raw, rest) :- Uint(rest, 8);
    if flag == 0 && raw == 0 then Good(None, rest)
    else if flag == 1 then Good(Some(Signed(raw)), rest)
    else Bad
  }

  function DecodeMutation(s: Bytes): Parse<Mutation> {
    var (tag, rest) :- Uint(s, 1);
    var (key, rest) :- Blob(rest);
    if tag == 2 then Good(Delete(key), rest)
    else if tag == 1 || 3 <= tag <= 6 then
      var (value, rest) :- DecodeValue(tag, rest);
      var (deadline, rest) :- DecodeDeadline(rest);
      Good(Put(key, value, deadline), rest)
    else Bad
  }

  function DecodeMutations(s: Bytes, n: nat): Parse<seq<Mutation>> {
    if n == 0 then Good([], s)
    else
      var (ms, rest) :- DecodeMutations(s, n - 1);
      var (m, rest) :- DecodeMutation(rest);
      Good(ms + [m], rest)
  }

  function Whole(p: Parse<Record>): Result<Record> {
    if p.Good? && p.rest == [] then Ok(p.value) else Err(Corrupt)
  }

  function DecodeSnapshot(s: Bytes): Parse<Record> {
    var (m, rest) :- DecodeMutation(s);
    Good(Snapshot(m), rest)
  }

  function DecodeSeal(s: Bytes): Parse<Record> {
    var (sequence, rest) :- Uint(s, 8);
    var (entries, rest) :- Uint(rest, 8);
    var (digest, rest) :- Uint(rest, 4);
    Good(Seal(sequence, entries, digest), rest)
  }

  function DecodeBatchHead(s: Bytes): Parse<(nat, Origin, nat)> {
    var (sequence, rest) :- Uint(s, 8);
    var (origin, rest) :- Uint(rest, 1);
    var (count, rest) :- Uint(rest, 4);
    if origin == 1 then Good((sequence, Client, count), rest)
    else if origin == 2 then Good((sequence, Expiration, count), rest)
    else Bad
  }

  function DecodeBatch(s: Bytes, limits: Limits): Result<Record> {
    match DecodeBatchHead(s)
    case Bad => Err(Corrupt)
    case Good((sequence, origin, count), rest) =>
      if count == 0 || count > limits.maxMutations || count > |rest| / 5 then Err(Limit)
      else match DecodeMutations(rest, count)
           case Bad => Err(Corrupt)
           case Good(ms, rest) => if rest == [] then Ok(Batch(sequence, origin, ms)) else Err(Corrupt)
  }

  function Decode(body: Bytes, limits: Limits): Result<Record> {
    match Uint(body, 1)
    case Bad => Err(Corrupt)
    case Good(tag, rest) =>
      if tag == 1 then Whole(DecodeSnapshot(rest))
      else if tag == 2 then Whole(DecodeSeal(rest))
      else if tag == 3 then DecodeBatch(rest, limits)
      else Err(Corrupt)
  }

  /** Length and complement before the body; checksum before decoding. */
  function ReadRecord(s: Bytes, limits: Limits): Next {
    if s == [] then End
    else if |s| < 12 then IncompleteTail
    else
      var size := FromLE(s[..4]);
      if FromLE(s[4..8]) != WORD - 1 - size then Failed(Corrupt)
      else if size == 0 || size > limits.maxRecordBytes || size > MAX_RECORD_BYTES then Failed(Limit)
      else if |s| < 12 + size then IncompleteTail
      else if Checksum(s[12..12 + size]) != FromLE(s[8..12]) then Failed(Corrupt)
      else match Decode(s[12..12 + size], limits)
           case Err(error) => Failed(error)
           case Ok(record) => Read(record, s[12 + size..])
  }
}
