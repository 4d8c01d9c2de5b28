/**
 * The dataset a log rebuilds: routing, charges and quotas, and the all-or-nothing replay
 * of one batch of post-images with per-shard accounting.
 */
module Replay {
  import opened Crc
  import opened Format

  datatype Entry = Entry(value: Value, deadline: Option<int>)
  type Store = map<Bytes, Entry>

  /** The durable partitioning, the dataset quota, and whether a batch may cross shards. */
  datatype Layout = Layout(shards: nat, total: nat, mixed: bool)

  const ENTRY_OVERHEAD: nat := 128
  const USIZE: nat := LONG

  predicate ValidLayout(layout: Layout) {
    1 <= layout.shards <= 256 && layout.shards <= layout.total < USIZE
  }

  // ---------- Routing ----------

  function Find(s: Bytes, b: byte): (i: nat)
    ensures i <= |s| && (i < |s| ==> s[i] == b) && b !in s[..i]
  {
    if s == [] || s[0] == b then 0 else
      var i := 1 + Find(s[1..], b);
      assert s[..i] == [s[0]] + s[1..][..i - 1];
      i
  }

  /** The bytes inside the first brace pair when it is closed and not empty, else the key. */
  function HashTag(key: Bytes): Bytes {
    var open := Find(key, 0x7b);
    if open == |key| then key
    else
      var suffix := key[open + 1..];
      var close := Find(suffix, 0x7d);
      if 0 < close < |suffix| then suffix[..close] else key
  }

  /** 64-bit FNV-1a. */
  function StableHash(s: Bytes): (h: nat)
    ensures h < LONG
    decreases |s|
  {
    if s == [] then 0xcbf2_9ce4_8422_2325
    else
      var before := StableHash(s[..|s| - 1]);
      var mixed := NatOf(Xor(BitsOf(before, 64), BitsOf(s[|s| - 1], 64)));
      mixed * 0x100_0000_01b3 % LONG
  }

  function ShardFor(key: Bytes, layout: Layout): (shard: nat)
    requires ValidLayout(layout)
    ensures shard < layout.shards
  {
    StableHash(HashTag(key)) % layout.shards
  }

  lemma FindIs(s: Bytes, b: byte, i: nat)
    requires i <= |s| && b !in s[..i] && (i < |s| ==> s[i] == b)
    ensures Find(s, b) == i
  {
  }

  /** Keys with one nonempty tag between their first braces live on one shard, whatever surrounds it. */
  lemma TagsRouteTogether(before: Bytes, tag: Bytes, after: Bytes, layout: Layout)
    requires ValidLayout(layout) && 0x7b !in before && tag != [] && 0x7d !in tag
    ensures ShardFor(before + [0x7b] + tag + [0x7d] + after, layout) == ShardFor([0x7b] + tag + [0x7d], layout)
  {
    hide StableHash;
    TagIs(before, tag, after);
    TagIs([], tag, []);
    assert [] + [0x7b] + tag + [0x7d] + [] == [0x7b] + tag + [0x7d];
  }

  lemma TagIs(before: Bytes, tag: Bytes, after: Bytes)
    requires 0x7b !in before && tag != [] && 0x7d !in tag
    ensures HashTag(before + [0x7b] + tag + [0x7d] + after) == tag
  {
    hide Find;
    var key := before + [0x7b] + tag + [0x7d] + after;
    assert key[..|before|] == before;
    FindIs(key, 0x7b, |before|);
    var suffix := key[|before| + 1..];
    assert suffix == tag + ([0x7d] + after) && suffix[..|tag|] == tag;
    FindIs(suffix, 0x7d, |tag|);
  }

  /** A key without a closed, nonempty first pair of braces is its own tag. */
  lemma UntaggedIs(before: Bytes, rest: Bytes)
    requires 0x7b !in before
    ensures HashTag(before) == before
    ensures 0x7d !in rest ==> HashTag(before + [0x7b] + rest) == before + [0x7b] + rest
    ensures rest != [] && rest[0] == 0x7d ==> HashTag(before + [0x7b] + rest) == before + [0x7b] + rest
  {
    hide Find;
    assert before[..|before|] == before;
    FindIs(before, 0x7b, |before|);
    var key := before + [0x7b] + rest;
    assert key[..|before|] == before && key[|before| + 1..] == rest;
    FindIs(key, 0x7b, |before|);
    if 0x7d !in rest {
      assert rest[..|rest|] == rest;
      FindIs(rest, 0x7d, |rest|);
    }
    if rest != [] && rest[0] == 0x7d { FindIs(rest, 0x7d, 0); }
  }

  // ---------- Quotas ----------

  function Quota(layout: Layout, shard: nat): nat
    requires ValidLayout(layout)
  {
    layout.total / layout.shards + (if shard < layout.total % layout.shards then 1 else 0)
  }

  function QuotaSum(layout: Layout, n: nat): nat
    requires ValidLayout(layout)
  {
    if n == 0 then 0 else QuotaSum(layout, n - 1) + Quota(layout, n - 1)
  }

  lemma {:induction false} QuotaSumPrefix(layout: Layout, n: nat)
    requires ValidLayout(layout) && n <= layout.shards
    ensures QuotaSum(layout, n)
            == n * (layout.total / layout.shards)
               + (if n < layout.total % layout.shards then n else layout.total % layout.shards)
  {
    if n > 0 {
      QuotaSumPrefix(layout, n - 1);
      var q := layout.total / layout.shards;
      assert n * q == (n - 1) * q + q;
    }
  }

  /** The shard quotas divide the dataset quota exactly: nothing is lost or counted twice. */
  lemma QuotasSumToTotal(layout: Layout)
    requires ValidLayout(layout)
    ensures QuotaSum(layout, layout.shards) == layout.total
  {
    QuotaSumPrefix(layout, layout.shards);
  }

  /** No shard gets two bytes more than another, and the first ones get the rest: with the sum, that fixes them all. */
  lemma QuotasBalanced(layout: Layout, s: nat, t: nat)
    requires ValidLayout(layout) && s <= t < layout.shards
    ensures 1 <= Quota(layout, t) <= Quota(layout, s) <= Quota(layout, t) + 1
  {
    assert layout.total / layout.shards >= 1;
  }

  // ---------- Charges ----------

  function BlobCharges(bs: seq<Bytes>, overhead: nat): nat {
    if bs == [] then 0 else BlobCharges(bs[..|bs| - 1], overhead) + |bs[|bs| - 1]| + overhead
  }

  function FieldCharges(ps: seq<Field>): nat {
    if ps == [] then 0 else FieldCharges(ps[..|ps| - 1]) + |ps[|ps| - 1].name| + |ps[|ps| - 1].value| + 64
  }

  function EntryCharges(es: seq<Scored>): nat {
    if es == [] then 0 else EntryCharges(es[..|es| - 1]) + |es[|es| - 1].member| + 96
  }

  /** Logical bytes of one entry; an empty collection has no charge and cannot be stored. */
  function Charge(key: Bytes, value: Value): nat {
    |key| + ENTRY_OVERHEAD +
    match value
    case String(b) => |b|
    case Hash(fields) => FieldCharges(fields)
    case List(values) => BlobCharges(values, 32)
    case Set(members) => BlobCharges(members, 64)
    case SortedSet(entries) => EntryCharges(entries)
  }

  function BlobBytes(bs: seq<Bytes>): nat {
    if bs == [] then 0 else |bs[0]| + BlobBytes(bs[1..])
  }

  /** A charge is the key, the overhead of an entry, every byte of the value and an overhead for each item. */
  lemma ChargeCovers(key: Bytes, value: Value)
    ensures Charge(key, value) >= |key| + 128
    ensures value.String? ==> Charge(key, value) == |key| + 128 + |value.bytes|
    ensures value.List? ==> Charge(key, value) == |key| + 128 + BlobBytes(value.values) + 32 * |value.values|
    ensures value.Set? ==> Charge(key, value) == |key| + 128 + BlobBytes(value.members) + 64 * |value.members|
    ensures value == Hash([]) || value == SortedSet([]) ==> Charge(key, value) == |key| + 128
  {
    if value.List? { BlobChargesAre(value.values, 32); }
    if value.Set? { BlobChargesAre(value.members, 64); }
  }

  lemma {:induction false} BlobBytesPush(bs: seq<Bytes>, b: Bytes)
    ensures BlobBytes(bs + [b]) == BlobBytes(bs) + |b|
  {
    if bs == [] {
      assert bs + [b] == [b] && [b][1..] == [];
    } else {
      assert (bs + [b])[1..] == bs[1..] + [b];
      BlobBytesPush(bs[1..], b);
    }
  }

  lemma {:induction false} BlobChargesAre(bs: seq<Bytes>, overhead: nat)
    ensures BlobCharges(bs, overhead) == BlobBytes(bs) + overhead * |bs|
  {
    if bs != [] {
      var n := |bs| - 1;
      BlobChargesAre(bs[..n], overhead);
      BlobBytesPush(bs[..n], bs[n]);
      assert bs[..n] + [bs[n]] == bs;
      assert overhead * (n + 1) == overhead * n + overhead;
    }
  }

  /** What one more field, element, member or scored member adds to a charge. */
  lemma ChargeGrows(key: Bytes, fields: seq<Field>, field: Field, blobs: seq<Bytes>, blob: Bytes,
                    entries: seq<Scored>, entry: Scored)
    ensures Charge(key, Hash(fields + [field])) == Charge(key, Hash(fields)) + |field.name| + |field.value| + 64
    ensures Charge(key, List(blobs + [blob])) == Charge(key, List(blobs)) + |blob| + 32
    ensures Charge(key, Set(blobs + [blob])) == Charge(key, Set(blobs)) + |blob| + 64
    ensures Charge(key, SortedSet(entries + [entry])) == Charge(key, SortedSet(entries)) + |entry.member| + 96
  {
    assert (fields + [field])[..|fields|] == fields && (blobs + [blob])[..|blobs|] == blobs;
    assert (entries + [entry])[..|entries|] == entries;
  }

  predicate Chargeable(value: Value) {
    match value
    case String(_) => true
    case Hash(fields) => fields != []
    case List(values) => values != []
    case Set(members) => members != []
    case SortedSet(entries) => entries != []
  }

  /** Which keys a sum ranges over: all of them, or those routed to one shard. */
  datatype Scope = Everything | Shard(index: nat)

  predicate InScope(key: Bytes, layout: Layout, scope: Scope)
    requires ValidLayout(layout)
  {
    scope.Everything? || ShardFor(key, layout) == scope.index
  }

  ghost function Charges(store: Store, keys: set<Bytes>): nat
    requires keys <= store.Keys
    decreases |keys|
  {
    if keys == {} then 0
    else
      var k :| k in keys;
      Charge(k, store[k].value) + Charges(store, keys - {k})
  }

  lemma {:induction false} ChargesWithout(store: Store, keys: set<Bytes>, k: Bytes)
    requires keys <= store.Keys && k in keys
    ensures Charges(store, keys) == Charge(k, store[k].value) + Charges(store, keys - {k})
    decreases |keys|
  {
    hide Charge;
    var p :| p in keys && Charges(store, keys) == Charge(p, store[p].value) + Charges(store, keys - {p});
    if p != k {
      ChargesWithout(store, keys - {p}, k);
      ChargesWithout(store, keys - {k}, p);
      assert keys - {p} - {k} == keys - {k} - {p};
    }
  }

  lemma {:induction false} ChargesAgree(a: Store, b: Store, keys: set<Bytes>)
    requires keys <= a.Keys && keys <= b.Keys && forall k :: k in keys ==> a[k] == b[k]
    ensures Charges(a, keys) == Charges(b, keys)
    decreases |keys|
  {
    hide Charge;
    if keys != {} {
      var k :| k in keys;
      ChargesWithout(a, keys, k);
      ChargesWithout(b, keys, k);
      ChargesAgree(a, b, keys - {k});
    }
  }

  lemma {:induction false} ChargesMonotone(store: Store, few: set<Bytes>, many: set<Bytes>)
    requires few <= many <= store.Keys
    ensures Charges(store, few) <= Charges(store, many)
    decreases |many|
  {
    hide Charge;
    if !(many <= few) {
      var k :| k in many && k !in few;
      ChargesWithout(store, many, k);
      ChargesMonotone(store, few, many - {k});
    } else {
      assert few == many;
    }
  }

  ghost function Usage(store: Store, layout: Layout, scope: Scope): nat
    requires ValidLayout(layout)
  {
    Charges(store, set k | k in store && InScope(k, layout, scope))
  }

  /** A part of a dataset never uses more than the whole. */
  lemma UsageMonotone(few: Store, many: Store, layout: Layout, scope: Scope)
    requires ValidLayout(layout)
    requires few.Keys <= many.Keys && forall k :: k in few ==> few[k] == many[k]
    ensures Usage(few, layout, scope) <= Usage(many, layout, scope)
  {
    hide Charge, ShardFor, Charges;
    var f := set k | k in few && InScope(k, layout, scope);
    var m := set k | k in many && InScope(k, layout, scope);
    ChargesAgree(few, many, f);
    ChargesMonotone(many, f, m);
  }

  lemma UsageEmpty(layout: Layout, scope: Scope)
    requires ValidLayout(layout)
    ensures Usage(map[], layout, scope) == 0
  {
    var none: Store := map[];
    assert (set k | k in none && InScope(k, layout, scope)) == {};
  }

  // ---------- One mutation ----------

  function ApplyOne(store: Store, m: Mutation): Store {
    match m
    case Put(key, value, deadline) => store[key := Entry(value, deadline)]
    case Delete(key) => store - {key}
  }

  function Before(store: Store, key: Bytes): nat {
    if key in store then Charge(key, store[key].value) else 0
  }

  function After(m: Mutation): nat {
    if m.Put? then Charge(m.key, m.value) else 0
  }

  /** Replacing one key moves its shard's usage by exactly the two charges. */
  lemma UsageApply(store: Store, m: Mutation, layout: Layout, scope: Scope)
    requires ValidLayout(layout)
    ensures InScope(m.key, layout, scope) ==>
              && Before(store, m.key) <= Usage(store, layout, scope)
              && Usage(ApplyOne(store, m), layout, scope)
                 == Usage(store, layout, scope) - Before(store, m.key) + After(m)
    ensures !InScope(m.key, layout, scope) ==>
              Usage(ApplyOne(store, m), layout, scope) == Usage(store, layout, scope)
  {
    hide Charge, ShardFor, Charges;
    var next := ApplyOne(store, m);
    var was := set k | k in store && InScope(k, layout, scope);
    var now := set k | k in next && InScope(k, layout, scope);
    var rest := was - {m.key};
    assert rest == now - {m.key};
    ChargesAgree(store, next, rest);
    if m.key in was { ChargesWithout(store, was, m.key); } else { assert was == rest; }
    if m.key in now { ChargesWithout(next, now, m.key); } else { assert now == rest; }
  }

  // ---------- One batch ----------

  function ApplyAll(store: Store, ms: seq<Mutation>): Store {
    if ms == [] then store else ApplyOne(ApplyAll(store, ms[..|ms| - 1]), ms[|ms| - 1])
  }

  predicate DistinctKeys(ms: seq<Mutation>) {
    forall i, j :: 0 <= i < j < |ms| ==> ms[i].key != ms[j].key
  }

  predicate SameShard(ms: seq<Mutation>, layout: Layout)
    requires ValidLayout(layout)
  {
    forall i, j :: 0 <= i < j < |ms| ==> ShardFor(ms[i].key, layout) == ShardFor(ms[j].key, layout)
  }

  ghost predicate WithinQuotas(store: Store, layout: Layout)
    requires ValidLayout(layout)
  {
    && Usage(store, layout, Everything) <= layout.total
    && forall s :: 0 <= s < layout.shards ==> Usage(store, layout, Shard(s)) <= Quota(layout, s)
  }

  /** When a batch of post-images may be replayed on a dataset. */
  ghost predicate Accepts(store: Store, ms: seq<Mutation>, layout: Layout)
    requires ValidLayout(layout)
  {
    && (layout.mixed || SameShard(ms, layout))
    && DistinctKeys(ms)
    && (forall i :: 0 <= i < |ms| && ms[i].Put? ==> Chargeable(ms[i].value))
    && WithinQuotas(ApplyAll(store, ms), layout)
  }

  lemma {:induction false} ApplyAllUntouched(store: Store, ms: seq<Mutation>, key: Bytes)
    requires forall i :: 0 <= i < |ms| ==> ms[i].key != key
    ensures key in ApplyAll(store, ms) <==> key in store
    ensures key in store ==> ApplyAll(store, ms)[key] == store[key]
  {
    if ms != [] {
      ApplyAllUntouched(store, ms[..|ms| - 1], key);
    }
  }

  lemma {:induction false} UsageUntouched(store: Store, ms: seq<Mutation>, layout: Layout, shard: nat)
    requires ValidLayout(layout)
    requires forall i :: 0 <= i < |ms| ==> ShardFor(ms[i].key, layout) != shard
    ensures Usage(ApplyAll(store, ms), layout, Shard(shard)) == Usage(store, layout, Shard(shard))
  {
    hide ShardFor, Usage;
    if ms != [] {
      UsageUntouched(store, ms[..|ms| - 1], layout, shard);
      UsageApply(ApplyAll(store, ms[..|ms| - 1]), ms[|ms| - 1], layout, Shard(shard));
    }
  }

  lemma {:induction false} ApplyAllTouched(store: Store, ms: seq<Mutation>, i: nat)
    requires DistinctKeys(ms) && i < |ms|
    ensures ms[i].Delete? ==> ms[i].key !in ApplyAll(store, ms)
    ensures ms[i].Put? ==>
              && ms[i].key in ApplyAll(store, ms)
              && ApplyAll(store, ms)[ms[i].key] == Entry(ms[i].value, ms[i].deadline)
    decreases |ms|
  {
    var n := |ms| - 1;
    if i < n {
      ApplyAllTouched(store, ms[..n], i);
    }
  }

  function Tombstones(ms: seq<Mutation>): (ds: seq<Mutation>)
    ensures |ds| == |ms| && forall i :: 0 <= i < |ms| ==> ds[i] == Delete(ms[i].key)
  {
    if ms == [] then [] else Tombstones(ms[..|ms| - 1]) + [Delete(ms[|ms| - 1].key)]
  }

  /** Removing the touched keys first does not change what a batch leaves behind. */
  lemma RemoveThenApply(store: Store, ms: seq<Mutation>)
    requires DistinctKeys(ms)
    ensures ApplyAll(ApplyAll(store, Tombstones(ms)), ms) == ApplyAll(store, ms)
  {
    var removed := ApplyAll(store, Tombstones(ms));
    var a, b := ApplyAll(removed, ms), ApplyAll(store, ms);
    forall k ensures (k in a <==> k in b) && (k in a ==> a[k] == b[k]) {
      if i :| 0 <= i < |ms| && ms[i].key == k {
        ApplyAllTouched(removed, ms, i);
        ApplyAllTouched(store, ms, i);
      } else {
        ApplyAllUntouched(store, Tombstones(ms), k);
        ApplyAllUntouched(removed, ms, k);
        ApplyAllUntouched(store, ms, k);
      }
    }
  }

  /** The charge before the batch is the charge when the mutation's turn comes: keys are distinct. */
  lemma ProjectStep(store: Store, ms: seq<Mutation>, i: nat, layout: Layout, s: nat)
    requires ValidLayout(layout) && DistinctKeys(ms) && i < |ms|
    ensures var before, usage := Before(store, ms[i].key), Usage(ApplyAll(store, ms[..i]), layout, Shard(s));
            var owns := ShardFor(ms[i].key, layout) == s;
            && (owns ==> before <= usage)
            && Usage(ApplyAll(store, ms[..i + 1]), layout, Shard(s))
               == usage + if owns then After(ms[i]) - before else 0
  {
    hide Charge, ShardFor, Usage;
    assert ms[..i + 1][..i] == ms[..i];
    ApplyAllUntouched(store, ms[..i], ms[i].key);
    UsageApply(ApplyAll(store, ms[..i]), ms[i], layout, Shard(s));
  }

  lemma ReleaseStart(store: Store, ms: seq<Mutation>, layout: Layout)
    requires ValidLayout(layout)
    ensures Usage(ApplyAll(store, ms[..0]), layout, Everything) == Usage(store, layout, Everything)
  {
  }

  lemma ReleaseStep(store: Store, ms: seq<Mutation>, i: nat, layout: Layout)
    requires ValidLayout(layout) && i < |ms| && forall j :: 0 <= j < i ==> ms[j].key != ms[i].key
    ensures var tombs := Tombstones(ms);
            && Before(store, ms[i].key) <= Usage(ApplyAll(store, tombs[..i]), layout, Everything)
            && Usage(ApplyAll(store, tombs[..i + 1]), layout, Everything)
               == Usage(ApplyAll(store, tombs[..i]), layout, Everything) - Before(store, ms[i].key)
  {
    hide Charge, Usage;
    var tombs := Tombstones(ms);
    assert tombs[..i + 1][..i] == tombs[..i];
    ApplyAllUntouched(store, tombs[..i], ms[i].key);
    UsageApply(ApplyAll(store, tombs[..i]), tombs[i], layout, Everything);
  }

  lemma ReserveStep(store: Store, ms: seq<Mutation>, i: nat, layout: Layout)
    requires ValidLayout(layout) && i < |ms| && DistinctKeys(ms)
    ensures var removed := ApplyAll(store, Tombstones(ms));
            Usage(ApplyAll(removed, ms[..i + 1]), layout, Everything)
            == Usage(ApplyAll(removed, ms[..i]), layout, Everything) + After(ms[i])
  {
    hide Charge, Usage;
    var tombs := Tombstones(ms);
    var removed := ApplyAll(store, tombs);
    assert ms[..i + 1][..i] == ms[..i];
    ApplyAllTouched(store, tombs, i);
    ApplyAllUntouched(removed, ms[..i], ms[i].key);
    UsageApply(ApplyAll(removed, ms[..i]), ms[i], layout, Everything);
  }

  datatype Outcome = Applied | CrossShard | DuplicateKey | OverQuota | OverShardQuota

  method RoutesTogether(ms: seq<Mutation>, layout: Layout) returns (ok: bool)
    requires ValidLayout(layout)
    ensures ok <==> layout.mixed || SameShard(ms, layout)
  {
    hide ShardFor;
    var selected: Option<nat> := None;
    for i := 0 to |ms|
      invariant selected.Some? <==> i > 0
      invariant i > 0 ==> selected.value == ShardFor(ms[i - 1].key, layout)
      invariant !layout.mixed ==> forall j :: 0 <= j < i ==> ShardFor(ms[j].key, layout) == selected.value
    {
      var shard := ShardFor(ms[i].key, layout);
      if !layout.mixed && selected.Some? && selected.value != shard {
        return false;
      }
      selected := Some(shard);
    }
    ok := true;
  }

  /** The dataset with its charges, as recovery and installation update them in place. */
  class Dataset {
    const layout: Layout
    var store: Store
    var used: nat
    var usage: seq<nat>

    ghost predicate Valid()
      reads this
    {
      && ValidLayout(layout)
      && |usage| == layout.shards
      && used == Usage(store, layout, Everything)
      && (forall s :: 0 <= s < layout.shards ==> usage[s] == Usage(store, layout, Shard(s)))
      && WithinQuotas(store, layout)
    }

    constructor (layout: Layout)
      requires ValidLayout(layout)
      ensures Valid() && this.layout == layout && store == map[]
    {
      this.layout := layout;
      store := map[];
      used := 0;
      usage := seq(layout.shards, _ => 0);
      new;
      UsageEmpty(layout, Everything);
      forall s | 0 <= s < layout.shards ensures usage[s] == Usage(store, layout, Shard(s)) {
        UsageEmpty(layout, Shard(s));
      }
    }

    /** Refuses a repeated key, and gives the usage left once the touched keys are gone. */
    method Release(ms: seq<Mutation>) returns (distinct: bool, total: nat)
      requires Valid()
      ensures distinct <==> DistinctKeys(ms)
      ensures distinct ==> total == Usage(ApplyAll(store, Tombstones(ms)), layout, Everything)
    {
      hide Charge, Usage, WithinQuotas, ApplyAll, Tombstones, Before;
      var keys: set<Bytes> := {};
      total := used;
      ghost var tombs := Tombstones(ms);
      ReleaseStart(store, tombs, layout);
      for i := 0 to |ms|
        invariant forall j :: 0 <= j < i ==> ms[j].key in keys
        invariant forall k :: k in keys ==> exists j :: 0 <= j < i && ms[j].key == k
        invariant forall j, k :: 0 <= j < k < i ==> ms[j].key != ms[k].key
        invariant total == Usage(ApplyAll(store, tombs[..i]), layout, Everything)
      {
        var key := ms[i].key;
        if key in keys {
          return false, total;
        }
        ReleaseStep(store, ms, i, layout);
        total := total - Before(store, key);
        keys := keys + {key};
      }
      assert tombs[..|ms|] == tombs;
      distinct := true;
    }

    /** The store's own check: distinct keys, chargeable values, and the dataset quota. */
    method Prepare(ms: seq<Mutation>) returns (outcome: Outcome, total: nat)
      requires Valid()
      ensures outcome == DuplicateKey <==> !DistinctKeys(ms)
      ensures outcome == Applied <==>
                && DistinctKeys(ms)
                && (forall i :: 0 <= i < |ms| && ms[i].Put? ==> Chargeable(ms[i].value))
                && Usage(ApplyAll(store, ms), layout, Everything) <= layout.total
      ensures outcome in {Applied, DuplicateKey, OverQuota}
      ensures outcome == Applied ==> total == Usage(ApplyAll(store, ms), layout, Everything)
    {
      hide Charge, Usage, Chargeable, WithinQuotas;
      var distinct;
      distinct, total := Release(ms);
      if !distinct {
        return DuplicateKey, total;
      }
      ghost var removed := ApplyAll(store, Tombstones(ms));
      for i := 0 to |ms|
        invariant forall j :: 0 <= j < i && ms[j].Put? ==> Chargeable(ms[j].value)
        invariant total == Usage(ApplyAll(removed, ms[..i]), layout, Everything)
      {
        if ms[i].Put? && !Chargeable(ms[i].value) {
          return OverQuota, total;
        }
        ReserveStep(store, ms, i, layout);
        total := total + After(ms[i]);
      }
      assert ms[..|ms|] == ms;
      RemoveThenApply(store, ms);
      outcome := if total > layout.total then OverQuota else Applied;
    }

    /** Per-shard usage after the batch, starting from the recorded one. */
    method Project(ms: seq<Mutation>) returns (projected: map<nat, nat>)
      requires Valid() && DistinctKeys(ms)
      ensures forall i :: 0 <= i < |ms| ==> ShardFor(ms[i].key, layout) in projected
      ensures forall s :: s in projected ==>
                s < layout.shards && projected[s] == Usage(ApplyAll(store, ms), layout, Shard(s))
    {
      hide Charge, ShardFor, Usage, WithinQuotas;
      projected := map[];
      for i := 0 to |ms|
        invariant forall j :: 0 <= j < i ==> ShardFor(ms[j].key, layout) in projected
        invariant forall s :: s in projected ==> s < layout.shards
        invariant forall s :: 0 <= s < layout.shards ==>
                    (if s in projected then projected[s] else usage[s])
                    == Usage(ApplyAll(store, ms[..i]), layout, Shard(s))
      {
        var key := ms[i].key;
        var shard := ShardFor(key, layout);
        var current := if shard in projected then projected[shard] else usage[shard];
        forall s | 0 <= s < layout.shards
          ensures s == shard ==> Before(store, key) <= Usage(ApplyAll(store, ms[..i]), layout, Shard(s))
          ensures Usage(ApplyAll(store, ms[..i + 1]), layout, Shard(s))
                  == Usage(ApplyAll(store, ms[..i]), layout, Shard(s))
                     + if s == shard then After(ms[i]) - Before(store, key) else 0
        {
          ProjectStep(store, ms, i, layout, s);
        }
        projected := projected[shard := current - Before(store, key) + After(ms[i])];
      }
      assert ms[..|ms|] == ms;
    }

    /**
     * All or nothing: the batch is applied exactly when it is acceptable, the charges stay
     * exact, and a refused batch changes neither the store nor any usage.
     */
    method Replay(ms: seq<Mutation>) returns (outcome: Outcome)
      requires Valid()
      modifies this
      ensures Valid()
      ensures outcome == Applied <==> Accepts(old(store), ms, layout)
      ensures outcome == CrossShard <==> !layout.mixed && !SameShard(ms, layout)
      ensures outcome == DuplicateKey <==> (layout.mixed || SameShard(ms, layout)) && !DistinctKeys(ms)
      ensures outcome == Applied ==> store == ApplyAll(old(store), ms)
      ensures outcome != Applied ==> store == old(store) && used == old(used) && usage == old(usage)
    {
      hide Charge, ShardFor, Usage, Chargeable;
      var together := RoutesTogether(ms, layout);
      if !together {
        return CrossShard;
      }
      var total;
      outcome, total := Prepare(ms);
      if outcome != Applied {
        return;
      }
      var projected := Project(ms);
      ghost var next := ApplyAll(store, ms);
      for s := 0 to layout.shards
        invariant forall t :: 0 <= t < s && t in projected ==> projected[t] <= Quota(layout, t)
      {
        if s in projected && projected[s] > Quota(layout, s) {
          return OverShardQuota;
        }
      }
      forall s | 0 <= s < layout.shards && s !in projected
        ensures Usage(next, layout, Shard(s)) == usage[s]
      {
        UsageUntouched(store, ms, layout, s);
      }
      ApplyPrepared(ms);
      used := total;
      for s := 0 to layout.shards
        invariant |usage| == layout.shards && store == next && used == total
        invariant forall t :: s <= t < layout.shards ==> usage[t] == old(usage)[t]
        invariant forall t :: 0 <= t < s ==> usage[t] == Usage(next, layout, Shard(t))
      {
        if s in projected {
          usage := usage[s := projected[s]];
        }
      }
    }

    method ApplyPrepared(ms: seq<Mutation>)
      modifies this`store
      ensures store == ApplyAll(old(store), ms)
    {
      for i := 0 to |ms|
        invariant store == ApplyAll(old(store), ms[..i])
      {
        assert ms[..i + 1][..i] == ms[..i];
        store := ApplyOne(store, ms[i]);
      }
      assert ms[..|ms|] == ms;
    }
  }
}
