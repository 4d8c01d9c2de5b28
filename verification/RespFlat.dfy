/**
 * Frames in document order. A frame is a list of heads; reading heads until none is owed
 * is the recursive grammar; the stack of open aggregates measures depth; and building from
 * the last head to the first gives the frame back.
 */
module RespFlat {
  import opened Format
  import opened Resp

  function Flatten(f: Frame): (hs: seq<Head>)
    ensures |hs| == Nodes(f)
    decreases f
  {
    if f.Many? then [Open(f.kind, |f.items|)] + FlattenAll(f.items) else [Leaf(f)]
  }

  function FlattenAll(fs: seq<Frame>): (hs: seq<Head>)
    ensures |hs| == NodesAll(fs)
    decreases fs
  {
    if fs == [] then [] else Flatten(fs[0]) + FlattenAll(fs[1..])
  }

  // ---------- Reading heads is the grammar ----------

  datatype Heads = NoHeads | HeadsAt(heads: seq<Head>, end: nat)

  /** Heads read one after another until no node is owed. */
  function ReadHeads(s: Bytes, c: nat, owed: nat, k: Codec): (r: Heads)
    requires c <= |s|
    ensures r.HeadsAt? ==> c + 3 * |r.heads| <= r.end <= |s| && owed <= |r.heads|
    decreases |s| - c
  {
    if owed == 0 then HeadsAt([], c)
    else match ReadHead(s, c, k)
         case NoHead => NoHeads
         case HeadAt(h, end) =>
           match ReadHeads(s, end, owed - 1 + Children(h), k)
           case NoHeads => NoHeads
           case HeadsAt(hs, last) => HeadsAt([h] + hs, last)
  }

  function Then(s: Bytes, first: Heads, owed: nat, k: Codec): Heads
    requires first.HeadsAt? ==> first.end <= |s|
  {
    if first.NoHeads? then NoHeads
    else match ReadHeads(s, first.end, owed, k)
         case NoHeads => NoHeads
         case HeadsAt(hs, last) => HeadsAt(first.heads + hs, last)
  }

  lemma {:induction false} HeadsSplit(s: Bytes, c: nat, a: nat, b: nat, k: Codec)
    requires c <= |s|
    ensures ReadHeads(s, c, a + b, k) == Then(s, ReadHeads(s, c, a, k), b, k)
    decreases |s| - c
  {
    hide ReadHead, ReadHeads;
    if a == 0 {
      NoneOwed(s, c, k);
      var r := ReadHeads(s, c, b, k);
      assert r.HeadsAt? ==> [] + r.heads == r.heads;
    } else if ReadHead(s, c, k).NoHead? {
      NothingRead(s, c, a, k);
      NothingRead(s, c, a + b, k);
    } else {
      var l := ReadHead(s, c, k);
      HeadsStep(s, c, a, k);
      HeadsStep(s, c, a + b, k);
      HeadsSplit(s, l.end, a - 1 + Children(l.head), b, k);
      var first := ReadHeads(s, l.end, a - 1 + Children(l.head), k);
      if first.HeadsAt? {
        var second := ReadHeads(s, first.end, b, k);
        if second.HeadsAt? {
          assert [l.head] + (first.heads + second.heads) == ([l.head] + first.heads) + second.heads;
        }
      }
    }
  }

  function Flat(p: Forest): Heads {
    if p.NoForest? then NoHeads else HeadsAt(FlattenAll(p.frames), p.end)
  }

  /** The flat reader and the recursive grammar agree everywhere. */
  lemma {:induction false} FlatIsGrammar(s: Bytes, c: nat, n: nat, k: Codec)
    requires c <= |s|
    ensures ReadHeads(s, c, n, k) == Flat(ParseForest(s, c, n, k))
    decreases |s| - c
  {
    hide ReadHead, ReadHeads, ParseFrame, ParseForest, Flatten, FlattenAll;
    if n == 0 {
      NoneOwed(s, c, k);
    } else if ReadHead(s, c, k).NoHead? {
      NothingRead(s, c, n, k);
    } else {
      var l := ReadHead(s, c, k);
      var m := Children(l.head);
      HeadsStep(s, c, n, k);
      FrameStep(s, c, k);
      FlatIsGrammar(s, l.end, m, k);
      var inner := ParseForest(s, l.end, m, k);
      HeadsSplit(s, l.end, m, n - 1, k);
      if inner.ForestAt? {
        FlatIsGrammar(s, inner.end, n - 1, k);
        var f := ParseFrame(s, c, k).frame;
        FlatStep(s, c, n, k, f, inner.end);
        var rest := ParseForest(s, inner.end, n - 1, k);
        if rest.ForestAt? {
          assert [l.head] + (FlattenAll(inner.frames) + FlattenAll(rest.frames))
              == Flatten(f) + FlattenAll(rest.frames);
        }
      } else {
        ForestFails(s, c, n, k);
      }
    }
  }

  lemma NoneOwed(s: Bytes, c: nat, k: Codec)
    requires c <= |s|
    ensures ReadHeads(s, c, 0, k) == HeadsAt([], c) == Flat(ParseForest(s, c, 0, k))
  {
  }

  lemma NothingRead(s: Bytes, c: nat, n: nat, k: Codec)
    requires c <= |s| && n > 0 && ReadHead(s, c, k).NoHead?
    ensures ReadHeads(s, c, n, k).NoHeads? && ParseForest(s, c, n, k).NoForest?
  {
    hide ReadHead;
  }

  lemma ForestFails(s: Bytes, c: nat, n: nat, k: Codec)
    requires c <= |s| && n > 0 && ParseFrame(s, c, k).NoFrame?
    ensures ParseForest(s, c, n, k).NoForest?
  {
    hide ReadHead, ParseFrame;
  }

  lemma HeadsStep(s: Bytes, c: nat, n: nat, k: Codec)
    requires c <= |s| && n > 0 && ReadHead(s, c, k).HeadAt?
    ensures var l := ReadHead(s, c, k);
            var later := ReadHeads(s, l.end, n - 1 + Children(l.head), k);
            ReadHeads(s, c, n, k) == if later.NoHeads? then NoHeads else HeadsAt([l.head] + later.heads, later.end)
  {
    hide ReadHead;
  }

  /** A frame is its head and as many frames as the head announces. */
  lemma FrameStep(s: Bytes, c: nat, k: Codec)
    requires c <= |s| && ReadHead(s, c, k).HeadAt?
    ensures var l := ReadHead(s, c, k);
            var inner := ParseForest(s, l.end, Children(l.head), k);
            && (inner.NoForest? ==> ParseFrame(s, c, k).NoFrame?)
            && (inner.ForestAt? ==>
                  && ParseFrame(s, c, k).FrameAt? && ParseFrame(s, c, k).end == inner.end
                  && Flatten(ParseFrame(s, c, k).frame) == [l.head] + FlattenAll(inner.frames))
  {
    hide ReadHead;
    var l := ReadHead(s, c, k);
    if l.head.Leaf? {
      assert [l.head] + [] == [l.head];
    }
  }

  lemma FlatStep(s: Bytes, c: nat, n: nat, k: Codec, f: Frame, end: nat)
    requires c <= |s| && n > 0 && ParseFrame(s, c, k) == FrameAt(f, end)
    ensures Flat(ParseForest(s, c, n, k))
            == match ParseForest(s, end, n - 1, k)
               case NoForest => NoHeads
               case ForestAt(rest, last) => HeadsAt(Flatten(f) + FlattenAll(rest), last)
  {
    hide ReadHead, ParseFrame;
    var rest := ParseForest(s, end, n - 1, k);
    if rest.ForestAt? {
      assert ([f] + rest.frames)[1..] == rest.frames;
    }
  }

  // ---------- The stack of open aggregates ----------

  predicate Positive(arrays: seq<nat>) {
    forall i :: 0 <= i < |arrays| ==> arrays[i] > 0
  }

  /** One child of the innermost aggregate is complete. */
  function Close(arrays: seq<nat>): (r: seq<nat>)
    requires Positive(arrays)
    ensures Positive(r) && |r| <= |arrays|
  {
    if arrays == [] then []
    else
      var n := |arrays| - 1;
      if arrays[n] > 1 then arrays[n := arrays[n] - 1] else Close(arrays[..n])
  }

  /** Children owed by the open aggregates beyond the ones in progress. */
  function Excess(arrays: seq<nat>): nat
    requires Positive(arrays)
  {
    if arrays == [] then 0 else Excess(arrays[..|arrays| - 1]) + arrays[|arrays| - 1] - 1
  }

  /** Nodes not yet started. */
  function Owed(arrays: seq<nat>): nat
    requires Positive(arrays)
  {
    Excess(arrays) + if arrays == [] then 0 else 1
  }

  lemma {:induction false} CloseOwed(arrays: seq<nat>)
    requires Positive(arrays)
    ensures Owed(Close(arrays)) == Excess(arrays)
  {
    if arrays != [] {
      var n := |arrays| - 1;
      if arrays[n] > 1 {
        assert arrays[n := arrays[n] - 1][..n] == arrays[..n];
      } else {
        CloseOwed(arrays[..n]);
      }
    }
  }

  lemma CloseTop(arrays: seq<nat>, n: nat)
    requires Positive(arrays) && n > 0
    ensures Close(arrays + [n]) == if n > 1 then arrays + [n - 1] else Close(arrays)
  {
    assert (arrays + [n])[..|arrays|] == arrays;
  }

  lemma OpenOwed(arrays: seq<nat>, n: nat)
    requires Positive(arrays) && n > 0
    ensures Owed(arrays + [n]) == Excess(arrays) + n
  {
    assert (arrays + [n])[..|arrays|] == arrays;
  }

  predicate Nests(h: Head) { h.Open? || h.frame.NullArray? }

  function After(h: Head, arrays: seq<nat>): (r: seq<nat>)
    requires Positive(arrays)
    ensures Positive(r)
  {
    if Children(h) > 0 then arrays + [Children(h)] else Close(arrays)
  }

  /** The stack after some heads, unless one of them nests too deep. */
  function Track(hs: seq<Head>, arrays: seq<nat>, maxDepth: nat): (r: Option<seq<nat>>)
    requires Positive(arrays)
    ensures r.Some? ==> Positive(r.value)
  {
    if hs == [] then Some(arrays)
    else if Nests(hs[0]) && |arrays| >= maxDepth then None
    else Track(hs[1..], After(hs[0], arrays), maxDepth)
  }

  /** A frame passes the depth check exactly when its depth fits under the open aggregates. */
  lemma {:induction false} TrackFrame(f: Frame, arrays: seq<nat>, rest: seq<Head>, maxDepth: nat)
    requires Positive(arrays) && |arrays| <= maxDepth
    ensures Track(Flatten(f) + rest, arrays, maxDepth)
            == if |arrays| + Depth(f) <= maxDepth then Track(rest, Close(arrays), maxDepth) else None
    decreases f
  {
    var hs := Flatten(f) + rest;
    if f.Many? {
      assert hs[1..] == FlattenAll(f.items) + rest;
      if f.items != [] && |arrays| < maxDepth {
        TrackForest(f.items, arrays, |f.items|, rest, maxDepth);
      }
    } else {
      assert hs[1..] == rest;
    }
  }

  lemma {:induction false} TrackForest(fs: seq<Frame>, arrays: seq<nat>, n: nat, rest: seq<Head>, maxDepth: nat)
    requires Positive(arrays) && |arrays| < maxDepth && 0 < |fs| <= n
    ensures Track(FlattenAll(fs) + rest, arrays + [n], maxDepth)
            == if |arrays| + 1 + DepthAll(fs) <= maxDepth
               then Track(rest, if n == |fs| then Close(arrays) else arrays + [n - |fs|], maxDepth)
               else None
    decreases fs
  {
    hide Track, Flatten, Depth, Close;
    var open := arrays + [n];
    assert FlattenAll(fs) + rest == Flatten(fs[0]) + (FlattenAll(fs[1..]) + rest);
    TrackFrame(fs[0], open, FlattenAll(fs[1..]) + rest, maxDepth);
    CloseTop(arrays, n);
    if |fs| > 1 {
      TrackForest(fs[1..], arrays, n - 1, rest, maxDepth);
    } else {
      assert FlattenAll(fs[1..]) + rest == rest;
    }
  }

  // ---------- Building from the last head to the first ----------

  function Build(hs: seq<Head>): Option<seq<Frame>> {
    if hs == [] then Some([])
    else match Build(hs[1..])
         case None => None
         case Some(fs) =>
           match hs[0]
           case Leaf(f) => Some([f] + fs)
           case Open(kind, n) => if n > |fs| then None else Some([Many(kind, fs[..n])] + fs[n..])
  }

  lemma {:induction false} BuildFrame(f: Frame, rest: seq<Head>)
    requires Build(rest).Some?
    ensures Build(Flatten(f) + rest) == Some([f] + Build(rest).value)
    decreases f
  {
    var hs := Flatten(f) + rest;
    if f.Many? {
      assert hs[1..] == FlattenAll(f.items) + rest;
      BuildForest(f.items, rest);
      var all := f.items + Build(rest).value;
      assert all[..|f.items|] == f.items && all[|f.items|..] == Build(rest).value;
    } else {
      assert hs[1..] == rest;
    }
  }

  /** Building undoes flattening, whatever follows. */
  lemma {:induction false} BuildForest(fs: seq<Frame>, rest: seq<Head>)
    requires Build(rest).Some?
    ensures Build(FlattenAll(fs) + rest) == Some(fs + Build(rest).value)
    decreases fs
  {
    hide Build, Flatten;
    if fs == [] {
      assert FlattenAll(fs) + rest == rest && fs + Build(rest).value == Build(rest).value;
    } else {
      BuildForest(fs[1..], rest);
      assert FlattenAll(fs) + rest == Flatten(fs[0]) + (FlattenAll(fs[1..]) + rest);
      BuildFrame(fs[0], FlattenAll(fs[1..]) + rest);
      assert [fs[0]] + (fs[1..] + Build(rest).value) == fs + Build(rest).value;
    }
  }
}
