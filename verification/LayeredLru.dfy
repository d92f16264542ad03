/** Per-layer budgets, and why a partition may be scored one block at a time. */
module LayeredLru {
  import opened Orders
  import opened Quotients
  import opened Recency
  import opened LruCaches

  /** The accesses of one layer, in order. */
  function OfLayer<T>(s: seq<T>, layer: T -> int, l: int): seq<T> {
    if s == [] then []
    else
      var p, x := s[..|s| - 1], s[|s| - 1];
      if layer(x) == l then OfLayer(p, layer, l) + [x] else OfLayer(p, layer, l)
  }

  lemma OfLayerNext<T>(s: seq<T>, x: T, layer: T -> int, l: int)
    ensures OfLayer(s + [x], layer, l) == if layer(x) == l then OfLayer(s, layer, l) + [x] else OfLayer(s, layer, l)
  {
    assert (s + [x])[..|s|] == s;
  }

  lemma {:induction false} OfLayerAppend<T>(a: seq<T>, b: seq<T>, layer: T -> int, l: int)
    ensures OfLayer(a + b, layer, l) == OfLayer(a, layer, l) + OfLayer(b, layer, l)
  {
    if b == [] {
      assert a + b == a;
    } else {
      var n := |b| - 1;
      assert a + b == (a + b[..n]) + [b[n]];
      OfLayerNext(a + b[..n], b[n], layer, l);
      OfLayerAppend(a, b[..n], layer, l);
    }
  }

  lemma {:induction false} OfLayerHas<T(!new)>(s: seq<T>, layer: T -> int, l: int)
    ensures forall x :: x in OfLayer(s, layer, l) <==> x in s && layer(x) == l
  {
    if s != [] {
      var p, y := s[..|s| - 1], s[|s| - 1];
      OfLayerHas(p, layer, l);
      assert s == p + [y];
    }
  }

  /** What a layer's own cache of `each` entries holds after the whole trace. */
  function LayerHolds<T(!new, ==)>(trace: seq<T>, layer: T -> int, l: int, each: nat): seq<T> {
    Residents(OfLayer(trace, layer, l), One, each)
  }

  /** One access to one layer's list: evict the oldest entry when full, then insert. */
  function AccessList<T(!new, ==)>(r: seq<T>, k: T, cap: nat): seq<T>
    requires cap > 0
  {
    if k in r then MoveToEnd(r, k) else (if |r| >= cap then r[1..] else r) + [k]
  }

  lemma LayerHoldsNext<T(!new)>(seen: seq<T>, k: T, layer: T -> int, m: int, cap: nat)
    requires cap > 0
    ensures var r := LayerHolds(seen, layer, m, cap);
      LayerHolds(seen + [k], layer, m, cap) == if layer(k) == m then AccessList(r, k, cap) else r
  {
    hide Residents, Keep, OfLayer;
    var mine := OfLayer(seen, layer, m);
    OfLayerNext(seen, k, layer, m);
    ResidentsNext(mine, k, One, cap);
    KeepCountedResidents(mine, cap);
    EvictOrder(Residents(mine, One, cap), k, cap);
  }

  class PerLayer<T(==, !new)> {
    const cap: nat
    const layer: T -> int
    var d: map<int, seq<T>>
    ghost var seen: seq<T>

    constructor (cap: nat, nLayers: nat, layer: T -> int)
      ensures Valid() && this.cap == Share(cap, nLayers) && this.layer == layer && seen == []
    {
      this.cap, this.layer := Share(cap, nLayers), layer;
      d, seen := map[], [];
    }

    ghost predicate Valid()
      reads this
    {
      && cap > 0
      && forall l :: (if l in d then d[l] else []) == LayerHolds(seen, layer, l, cap)
    }

    method Access(k: T) returns (hit: bool)
      requires Valid()
      modifies this
      ensures Valid() && seen == old(seen) + [k]
      ensures hit <==> k in LayerHolds(old(seen), layer, layer(k), cap)
    {
      hide LayerHolds;
      var l := layer(k);
      var r := if l in d then d[l] else [];
      forall m ensures LayerHolds(seen + [k], layer, m, cap) ==
        if l == m then AccessList(r, k, cap) else LayerHolds(seen, layer, m, cap) {
        LayerHoldsNext(seen, k, layer, m, cap);
      }
      seen := seen + [k];
      if k in r {
        d := d[l := MoveToEnd(r, k)];
        return true;
      }
      if |r| >= cap {
        r := r[1..];
      }
      d := d[l := r + [k]];
      return false;
    }
  }

  /** Slots each layer gets: the largest equal share, and never none. */
  function Share(cap: nat, nLayers: nat): (each: nat)
    ensures var n := if nLayers > 0 then nLayers else 1;
      if n <= cap then n * each <= cap < n * (each + 1) else each == 1
    ensures each >= 1
  {
    var n := if nLayers > 0 then nLayers else 1;
    ShareFits(cap, n);
    if cap / n > 0 then cap / n else 1
  }

  lemma ShareFits(cap: nat, n: nat)
    requires n > 0
    ensures n * (cap / n) <= cap < n * (cap / n + 1)
    ensures n <= cap <==> cap / n > 0
  {
    DivBounds(cap, n);
    assert n * (cap / n + 1) == cap / n * n + n;
  }

  /** A layer holds as many of its keys as its share has room for, from the moment it has seen that
      many, whatever the other layers do. */
  lemma LayerFills<T(!new)>(trace: seq<T>, layer: T -> int, l: int, each: nat)
    ensures var keys, held := (set x | x in trace && layer(x) == l), Elems(LayerHolds(trace, layer, l, each));
      held <= keys && |held| == if |keys| <= each then |keys| else each
  {
    hide Residents, OfLayer;
    var mine := OfLayer(trace, layer, l);
    OfLayerHas(trace, layer, l);
    HeldWasSeen(mine, each);
    KeepCountedResidents(mine, each);
    ResidentsNoDup(mine, One, each);
    NoDupSize(Residents(mine, One, each));
    assert Elems(mine) == (set x | x in trace && layer(x) == l);
  }

  // ---- one block at a time ------------------------------------------------------------------

  /** Weight of the accesses that miss when every layer has its own cache. */
  function LayeredMissed<T(!new, ==)>(trace: seq<T>, layer: T -> int, each: nat, weight: T -> nat): nat {
    if trace == [] then 0
    else
      var p, x := trace[..|trace| - 1], trace[|trace| - 1];
      LayeredMissed(p, layer, each, weight) + if x in LayerHolds(p, layer, layer(x), each) then 0 else weight(x)
  }

  function MissedPerLayer<T(!new, ==)>(ls: seq<int>, trace: seq<T>, layer: T -> int, each: nat, weight: T -> nat): nat {
    if ls == [] then 0
    else
      MissedPerLayer(ls[..|ls| - 1], trace, layer, each, weight) +
      Missed(OfLayer(trace, layer, ls[|ls| - 1]), One, each, weight)
  }

  lemma {:induction false} NothingPerLayer<T(!new)>(ls: seq<int>, layer: T -> int, each: nat, weight: T -> nat)
    ensures MissedPerLayer<T>(ls, [], layer, each, weight) == 0
  {
    if ls != [] {
      NothingPerLayer(ls[..|ls| - 1], layer, each, weight);
    }
  }

  /** An access changes the miss count of its own layer only. */
  lemma {:induction false} OneLayerChanges<T(!new)>(ls: seq<int>, p: seq<T>, x: T, layer: T -> int, each: nat,
                                 weight: T -> nat)
    requires NoDup(ls)
    ensures MissedPerLayer(ls, p + [x], layer, each, weight) == MissedPerLayer(ls, p, layer, each, weight) +
      if layer(x) !in ls || x in LayerHolds(p, layer, layer(x), each) then 0 else weight(x)
  {
    hide Missed, Residents, OfLayer;
    if ls != [] {
      var n := |ls| - 1;
      OneLayerChanges(ls[..n], p, x, layer, each, weight);
      OfLayerNext(p, x, layer, ls[n]);
      if layer(x) == ls[n] {
        MissedNext(OfLayer(p, layer, ls[n]), x, One, each, weight);
      }
      assert ls == ls[..n] + [ls[n]];
    }
  }

  /** The per-layer policy misses exactly the accesses that independent caches miss on each
      layer's own accesses, however the layers are interleaved. */
  lemma {:induction false} LayersAreIndependent<T(!new)>(trace: seq<T>, ls: seq<int>, layer: T -> int, each: nat,
                                 weight: T -> nat)
    requires NoDup(ls) && forall x :: x in trace ==> layer(x) in ls
    ensures LayeredMissed(trace, layer, each, weight) == MissedPerLayer(ls, trace, layer, each, weight)
  {
    hide MissedPerLayer, LayerHolds;
    if trace == [] {
      NothingPerLayer(ls, layer, each, weight);
    } else {
      var p, x := trace[..|trace| - 1], trace[|trace| - 1];
      LayersAreIndependent(p, ls, layer, each, weight);
      OneLayerChanges(ls, p, x, layer, each, weight);
      assert trace == p + [x];
    }
  }

  method ReplayPerLayer<T(==, !new)>(trace: seq<T>, cap: nat, nLayers: nat, layer: T -> int) returns (misses: nat)
    ensures misses == LayeredMissed(trace, layer, Share(cap, nLayers), One)
  {
    hide LayerHolds, Share;
    var sim := new PerLayer(cap, nLayers, layer);
    misses := 0;
    for i := 0 to |trace|
      invariant sim.Valid() && sim.cap == Share(cap, nLayers) && sim.layer == layer && sim.seen == trace[..i]
      invariant misses == LayeredMissed(trace[..i], layer, Share(cap, nLayers), One)
    {
      assert trace[..i + 1][..i] == trace[..i];
      assert trace[..i + 1] == trace[..i] + [trace[i]];
      var hit := sim.Access(trace[i]);
      if !hit {
        misses := misses + 1;
      }
    }
    assert trace[..|trace|] == trace;
  }

  // ---- the partitioned score ------------------------------------------------------------------

  type Key = (int, int)

  function BlockOf(k: Key): int {
    k.0
  }

  /** One block's requests over `n` steps, as keys. */
  function Keys(b: int, es: seq<int>): seq<Key> {
    if es == [] then [] else Keys(b, es[..|es| - 1]) + [(b, es[|es| - 1])]
  }

  function BlockKeys(b: int, steps: seq<seq<int>>): seq<Key> {
    if steps == [] then [] else BlockKeys(b, steps[..|steps| - 1]) + Keys(b, steps[|steps| - 1])
  }

  lemma {:induction false} KeysOfLayer(b: int, es: seq<int>, l: int)
    ensures OfLayer(Keys(b, es), BlockOf, l) == if b == l then Keys(b, es) else []
  {
    if es != [] {
      KeysOfLayer(b, es[..|es| - 1], l);
      OfLayerNext(Keys(b, es[..|es| - 1]), (b, es[|es| - 1]), BlockOf, l);
    }
  }

  lemma {:induction false} KeysAt(b: int, es: seq<int>)
    ensures |Keys(b, es)| == |es| && forall m :: 0 <= m < |es| ==> Keys(b, es)[m] == (b, es[m])
  {
    if es != [] {
      KeysAt(b, es[..|es| - 1]);
    }
  }

  /** Where an access comes from: which step, which of the listed blocks, which of its requests. */
  datatype Place = Place(step: nat, block: nat, pos: nat)

  predicate Traced(p: Place, blocks: seq<int>, trace: map<int, seq<seq<int>>>, steps: nat) {
    && p.block < |blocks| && blocks[p.block] in trace
    && p.step < steps && p.step < |trace[blocks[p.block]]| && p.pos < |trace[blocks[p.block]][p.step]|
  }

  predicate Earlier(p: Place, q: Place) {
    p.step < q.step || (p.step == q.step && (p.block < q.block || (p.block == q.block && p.pos < q.pos)))
  }

  /** `s` lists exactly the requests traced before block `j` of step `i`: in order of steps, inside a
      step in order of blocks, and a block's as it made them. */
  ghost predicate InOrder(s: seq<Key>, at: seq<Place>, blocks: seq<int>, trace: map<int, seq<seq<int>>>,
                          steps: nat, i: nat, j: nat)
  {
    && |at| == |s|
    && (forall x :: 0 <= x < |s| ==>
      && Earlier(at[x], Place(i, j, 0)) && Traced(at[x], blocks, trace, steps)
      && s[x] == (blocks[at[x].block], trace[blocks[at[x].block]][at[x].step][at[x].pos]))
    && (forall x, y :: 0 <= x < y < |s| ==> Earlier(at[x], at[y]))
    && (forall p :: Earlier(p, Place(i, j, 0)) && Traced(p, blocks, trace, steps) ==> p in at)
  }

  lemma OrderNext(s: seq<Key>, at: seq<Place>, blocks: seq<int>, trace: map<int, seq<seq<int>>>,
                  steps: nat, i: nat, j: nat, more: seq<Place>)
    requires InOrder(s, at, blocks, trace, steps, i, j) && i < steps && j < |blocks|
    requires blocks[j] in trace && i < |trace[blocks[j]]|
    requires more == seq(|trace[blocks[j]][i]|, (m: nat) => Place(i, j, m))
    ensures InOrder(s + Keys(blocks[j], trace[blocks[j]][i]), at + more, blocks, trace, steps, i, j + 1)
  {
    hide Keys;
    KeysAt(blocks[j], trace[blocks[j]][i]);
    forall p | Earlier(p, Place(i, j + 1, 0)) && Traced(p, blocks, trace, steps) ensures p in at + more {
      if !Earlier(p, Place(i, j, 0)) {
        assert more[p.pos] == p;
      }
    }
  }

  lemma OrderRow(s: seq<Key>, at: seq<Place>, blocks: seq<int>, trace: map<int, seq<seq<int>>>, steps: nat, i: nat)
    requires InOrder(s, at, blocks, trace, steps, i, |blocks|)
    ensures InOrder(s, at, blocks, trace, steps, i + 1, 0)
  {}

  /** Execution order: step by step, each block in turn. The blocks may have been traced for
      different numbers of steps; only the common ones are used. */
  method Interleave(blocks: seq<int>, trace: map<int, seq<seq<int>>>)
    returns (s: seq<Key>, steps: nat, ghost at: seq<Place>)
    requires blocks != [] && NoDup(blocks) && forall b :: b in blocks ==> b in trace
    ensures forall b :: b in blocks ==> steps <= |trace[b]|
    ensures exists b :: b in blocks && steps == |trace[b]|
    ensures InOrder(s, at, blocks, trace, steps, steps, 0)
    ensures forall b :: b in blocks ==> OfLayer(s, BlockOf, b) == BlockKeys(b, trace[b][..steps])
    ensures forall k :: k in s ==> BlockOf(k) in blocks
  {
    steps := FewestSteps(blocks, trace);
    s, at := [], [];
    for i := 0 to steps
      invariant InOrder(s, at, blocks, trace, steps, i, 0)
      invariant forall b :: b in blocks ==> OfLayer(s, BlockOf, b) == BlockKeys(b, trace[b][..i])
      invariant forall k :: k in s ==> BlockOf(k) in blocks
    {
      hide InOrder;
      s, at := OneStep(blocks, trace, steps, i, s, at);
    }
  }

  method FewestSteps(blocks: seq<int>, trace: map<int, seq<seq<int>>>) returns (steps: nat)
    requires blocks != [] && forall b :: b in blocks ==> b in trace
    ensures forall b :: b in blocks ==> steps <= |trace[b]|
    ensures exists b :: b in blocks && steps == |trace[b]|
  {
    var first := blocks[0];
    assert first in blocks;
    steps := |trace[first]|;
    forall j | 0 <= j < |blocks| ensures blocks[j] in trace {
      var b := blocks[j];
      assert b in blocks;
    }
    for i := 1 to |blocks|
      invariant forall j :: 0 <= j < |blocks| ==> blocks[j] in trace
      invariant forall j :: 0 <= j < i ==> steps <= |trace[blocks[j]]|
      invariant exists b :: b in blocks && steps == |trace[b]|
    {
      var b := blocks[i];
      assert b in blocks;
      if |trace[b]| < steps {
        steps := |trace[b]|;
      }
    }
  }

  method OneStep(blocks: seq<int>, trace: map<int, seq<seq<int>>>, ghost steps: nat, i: nat, start: seq<Key>,
                 ghost from: seq<Place>)
    returns (s: seq<Key>, ghost at: seq<Place>)
    requires NoDup(blocks) && i < steps && forall b :: b in blocks ==> b in trace && i < |trace[b]|
    requires InOrder(start, from, blocks, trace, steps, i, 0)
    requires forall b :: b in blocks ==> OfLayer(start, BlockOf, b) == BlockKeys(b, trace[b][..i])
    requires forall k :: k in start ==> BlockOf(k) in blocks
    ensures InOrder(s, at, blocks, trace, steps, i + 1, 0)
    ensures forall b :: b in blocks ==> OfLayer(s, BlockOf, b) == BlockKeys(b, trace[b][..i + 1])
    ensures forall k :: k in s ==> BlockOf(k) in blocks
  {
    hide OfLayer, Keys, InOrder;
    s, at := start, from;
    for j := 0 to |blocks|
      invariant InOrder(s, at, blocks, trace, steps, i, j)
      invariant forall m :: 0 <= m < j ==>
        OfLayer(s, BlockOf, blocks[m]) == BlockKeys(blocks[m], trace[blocks[m]][..i + 1])
      invariant forall m :: j <= m < |blocks| ==>
        OfLayer(s, BlockOf, blocks[m]) == BlockKeys(blocks[m], trace[blocks[m]][..i])
      invariant forall k :: k in s ==> BlockOf(k) in blocks
    {
      var b := blocks[j];
      var more := AddKeys(b, trace[b][i]);
      ghost var places := seq(|trace[b][i]|, (m: nat) => Place(i, j, m));
      OrderNext(s, at, blocks, trace, steps, i, j, places);
      forall m | 0 <= m < |blocks|
        ensures OfLayer(s + more, BlockOf, blocks[m]) ==
          OfLayer(s, BlockOf, blocks[m]) + if m == j then more else []
      {
        OfLayerAppend(s, more, BlockOf, blocks[m]);
        KeysOfLayer(b, trace[b][i], blocks[m]);
      }
      assert trace[b][..i + 1][..i] == trace[b][..i];
      s, at := s + more, at + places;
    }
    OrderRow(s, at, blocks, trace, steps, i);
  }

  method AddKeys(b: int, es: seq<int>) returns (s: seq<Key>)
    ensures s == Keys(b, es) && forall k :: k in s ==> k.0 == b
  {
    s := [];
    for n := 0 to |es|
      invariant s == Keys(b, es[..n]) && forall k :: k in s ==> k.0 == b
    {
      assert es[..n + 1][..n] == es[..n];
      s := s + [(b, es[n])];
    }
    assert es[..|es|] == es;
  }

  function BlocksMissed(ls: seq<int>, trace: map<int, seq<seq<int>>>, each: nat, weight: Key -> nat): nat
    requires forall i :: 0 <= i < |ls| ==> ls[i] in trace
  {
    if ls == [] then 0
    else
      BlocksMissed(ls[..|ls| - 1], trace, each, weight) +
      Missed(BlockKeys(ls[|ls| - 1], trace[ls[|ls| - 1]]), One, each, weight)
  }

  /** Score each block on its own with an equal share of the slots. */
  method PartitionedMisses(blocks: seq<int>, trace: map<int, seq<seq<int>>>, cap: nat, weight: Key -> nat)
    returns (missB: nat)
    requires forall i :: 0 <= i < |blocks| ==> blocks[i] in trace
    ensures missB == BlocksMissed(blocks, trace, Share(cap, |blocks|), weight)
  {
    hide Missed, Residents, Total;
    var per := Share(cap, |blocks|);
    missB := 0;
    for j := 0 to |blocks|
      invariant missB == BlocksMissed(blocks[..j], trace, per, weight)
    {
      var sub: seq<Key> := [];
      var steps := trace[blocks[j]];
      for i := 0 to |steps|
        invariant sub == BlockKeys(blocks[j], steps[..i])
      {
        var more := AddKeys(blocks[j], steps[i]);
        assert steps[..i + 1][..i] == steps[..i];
        sub := sub + more;
      }
      assert steps[..|steps|] == steps;
      var _, m := LruHits(sub, per, weight);
      assert blocks[..j + 1][..j] == blocks[..j];
      missB := missB + m;
    }
    assert blocks[..|blocks|] == blocks;
  }

  lemma {:induction false} SameSubsequences(ls: seq<int>, trace: map<int, seq<seq<int>>>, s: seq<Key>, each: nat,
                                 weight: Key -> nat)
    requires forall i :: 0 <= i < |ls| ==>
      ls[i] in trace && OfLayer(s, BlockOf, ls[i]) == BlockKeys(ls[i], trace[ls[i]])
    ensures BlocksMissed(ls, trace, each, weight) == MissedPerLayer(ls, s, BlockOf, each, weight)
  {
    hide Missed;
    if ls != [] {
      SameSubsequences(ls[..|ls| - 1], trace, s, each, weight);
    }
  }

  /** Scoring a partition block by block gives the misses of the per-layer policy on the
      real execution order, provided every block was traced for the same number of steps. */
  lemma PartitionScoreIsExact(blocks: seq<int>, trace: map<int, seq<seq<int>>>, s: seq<Key>, each: nat,
                              weight: Key -> nat)
    requires NoDup(blocks) && forall k :: k in s ==> BlockOf(k) in blocks
    requires forall i :: 0 <= i < |blocks| ==>
      blocks[i] in trace && OfLayer(s, BlockOf, blocks[i]) == BlockKeys(blocks[i], trace[blocks[i]])
    ensures BlocksMissed(blocks, trace, each, weight) == LayeredMissed(s, BlockOf, each, weight)
  {
    SameSubsequences(blocks, trace, s, each, weight);
    LayersAreIndependent(s, blocks, BlockOf, each, weight);
  }

  // ---- blocks traced for different numbers of steps ----------------------------------------------

  /** Access `i` repeats a key with fewer than `each` distinct keys since. */
  ghost predicate Reused<T(!new)>(s: seq<T>, i: nat, each: nat)
    requires i < |s|
  {
    exists j: nat :: LastAt(s[..i], j) && s[..i][j] == s[i] && |Elems(s[..i][j + 1..])| < each
  }

  ghost predicate TailReused<T(!new)>(s: seq<T>, n: nat, m: nat, each: nat)
    requires m <= |s|
  {
    forall i :: n <= i < m ==> Reused(s, i, each)
  }

  /** A longer trace misses no less, and no more exactly when everything it adds is reuse within
      the capacity. */
  lemma {:induction false} MissedTail<T(!new)>(s: seq<T>, n: nat, m: nat, each: nat)
    requires n <= m <= |s|
    ensures Missed(s[..n], One, each, One) <= Missed(s[..m], One, each, One)
    ensures Missed(s[..n], One, each, One) == Missed(s[..m], One, each, One) <==> TailReused(s, n, m, each)
    decreases m
  {
    hide Missed, Residents, Reused;
    if n < m {
      var k := m - 1;
      MissedTail(s, n, k, each);
      assert s[..m] == s[..k] + [s[k]];
      MissedNext(s[..k], s[k], One, each, One);
      ReusedHits(s, k, each);
    }
  }

  lemma ReusedHits<T(!new)>(s: seq<T>, i: nat, each: nat)
    requires i < |s|
    ensures Reused(s, i, each) <==> s[i] in Residents(s[..i], One, each)
  {
    StackDistanceCount(s[..i], s[i], each);
  }

  lemma {:induction false} BlockKeysPrefix(b: int, steps: seq<seq<int>>, n: nat)
    requires n <= |steps|
    ensures BlockKeys(b, steps[..n]) <= BlockKeys(b, steps)
  {
    if n == |steps| {
      assert steps[..n] == steps;
    } else {
      BlockKeysPrefix(b, steps[..|steps| - 1], n);
      assert steps[..|steps| - 1][..n] == steps[..n];
    }
  }

  /** Requests of a block beyond the common steps only repeat keys its own cache still holds. */
  ghost predicate SurplusReused(b: int, steps: seq<seq<int>>, common: nat, each: nat)
    requires common <= |steps|
  {
    var keys := BlockKeys(b, steps);
    TailReused(keys, |BlockKeys(b, steps[..common])|, |keys|, each)
  }

  lemma SurplusMisses(b: int, steps: seq<seq<int>>, common: nat, each: nat)
    requires common <= |steps|
    ensures var part := Missed(BlockKeys(b, steps[..common]), One, each, One);
      var all := Missed(BlockKeys(b, steps), One, each, One);
      part <= all && (part == all <==> SurplusReused(b, steps, common, each))
  {
    hide Missed, Residents, BlockKeys, TailReused;
    BlockKeysPrefix(b, steps, common);
    var keys, n := BlockKeys(b, steps), |BlockKeys(b, steps[..common])|;
    assert keys[..n] == BlockKeys(b, steps[..common]) && keys[..|keys|] == keys;
    MissedTail(keys, n, |keys|, each);
  }

  /** The common steps of these blocks are what `s` interleaves. */
  ghost predicate Interleaves(s: seq<Key>, ls: seq<int>, trace: map<int, seq<seq<int>>>, common: nat) {
    forall i :: 0 <= i < |ls| ==> InterleavesBlock(s, ls[i], trace, common)
  }

  ghost predicate InterleavesBlock(s: seq<Key>, b: int, trace: map<int, seq<seq<int>>>, common: nat) {
    b in trace && common <= |trace[b]| && OfLayer(s, BlockOf, b) == BlockKeys(b, trace[b][..common])
  }

  lemma {:induction false} CommonAtMostAll(ls: seq<int>, trace: map<int, seq<seq<int>>>, s: seq<Key>, common: nat,
                                 each: nat)
    requires Interleaves(s, ls, trace, common)
    requires forall i :: 0 <= i < |ls| ==> ls[i] in trace && common <= |trace[ls[i]]|
    ensures MissedPerLayer(ls, s, BlockOf, each, One) <= BlocksMissed(ls, trace, each, One)
    ensures MissedPerLayer(ls, s, BlockOf, each, One) == BlocksMissed(ls, trace, each, One) <==>
      (forall i :: 0 <= i < |ls| ==> SurplusReused(ls[i], trace[ls[i]], common, each))
  {
    hide Missed, OfLayer, BlockKeys, SurplusReused;
    if ls != [] {
      var n := |ls| - 1;
      var p, b := ls[..n], ls[n];
      assert forall i :: 0 <= i < n ==> p[i] == ls[i];
      CommonAtMostAll(p, trace, s, common, each);
      assert InterleavesBlock(s, b, trace, common);
      SurplusMisses(b, trace[b], common, each);
    }
  }

  /** The two orders of the tool: the interleaved replay of the per-layer policy over the steps all
      blocks have in common, and the block-by-block score over everything each block was traced for.
      The parts never miss less than the whole, and as little exactly when the requests past the
      common steps only repeat keys their own block still holds. */
  method ScoreBothWays(blocks: seq<int>, trace: map<int, seq<seq<int>>>, cap: nat)
    returns (whole: nat, parts: nat, common: nat)
    requires blocks != [] && NoDup(blocks) && forall b :: b in blocks ==> b in trace
    ensures forall b :: b in blocks ==> common <= |trace[b]|
    ensures exists b :: b in blocks && common == |trace[b]|
    ensures whole <= parts
    ensures whole == parts <==>
      (forall b :: b in blocks ==> SurplusReused(b, trace[b], common, Share(cap, |blocks|)))
    ensures (forall b, c :: b in blocks && c in blocks ==> |trace[b]| == |trace[c]|) ==> whole == parts
  {
    hide OfLayer, BlockKeys, LayeredMissed, BlocksMissed, Share, NoDup, SurplusReused, MissedPerLayer;
    var s;
    ghost var at;
    s, common, at := Interleave(blocks, trace);
    BlocksListed(blocks, trace, s, common);
    whole := ReplayPerLayer(s, cap, |blocks|, BlockOf);
    parts := PartitionedMisses(blocks, trace, cap, One);
    var each := Share(cap, |blocks|);
    LayersAreIndependent(s, blocks, BlockOf, each, One);
    CommonAtMostAll(blocks, trace, s, common, each);
    forall b | b in blocks && |trace[b]| == common ensures SurplusReused(b, trace[b], common, each) {
      NoSurplus(b, trace[b], each);
    }
    ByBlock(blocks, trace, common, each);
  }

  lemma BlocksListed(blocks: seq<int>, trace: map<int, seq<seq<int>>>, s: seq<Key>, common: nat)
    requires forall b :: b in blocks ==> InterleavesBlock(s, b, trace, common)
    ensures Interleaves(s, blocks, trace, common)
    ensures forall i :: 0 <= i < |blocks| ==> blocks[i] in trace && common <= |trace[blocks[i]]|
  {
    hide OfLayer, BlockKeys;
    forall i | 0 <= i < |blocks| ensures InterleavesBlock(s, blocks[i], trace, common) {
      var b := blocks[i];
      assert b in blocks;
    }
  }

  lemma NoSurplus(b: int, steps: seq<seq<int>>, each: nat)
    ensures SurplusReused(b, steps, |steps|, each)
  {
    assert steps[..|steps|] == steps;
  }

  lemma ByBlock(blocks: seq<int>, trace: map<int, seq<seq<int>>>, common: nat, each: nat)
    requires forall i :: 0 <= i < |blocks| ==> blocks[i] in trace && common <= |trace[blocks[i]]|
    requires forall b :: b in blocks ==> b in trace && common <= |trace[b]|
    ensures (forall b :: b in blocks ==> SurplusReused(b, trace[b], common, each)) <==>
            (forall i :: 0 <= i < |blocks| ==> SurplusReused(blocks[i], trace[blocks[i]], common, each))
  {
    hide SurplusReused;
    forall i | 0 <= i < |blocks| ensures blocks[i] in blocks {
      var b := blocks[i];
      assert b in blocks;
    }
  }

  // ---- and an input on which they differ --------------------------------------------------------

  lemma {:induction false} AllCold<T(!new)>(s: seq<T>, each: nat)
    requires NoDup(s)
    ensures Missed(s, One, each, One) == |s|
  {
    hide Residents, Keep;
    if s != [] {
      AllCold(s[..|s| - 1], each);
      HeldWasSeen(s[..|s| - 1], each);
    }
  }

  lemma HeldWasSeen<T(!new)>(s: seq<T>, each: nat)
    ensures forall x :: x in Residents(s, One, each) ==> x in s
  {}

  /** Block 1 was traced one step longer: two misses in execution order, three block by block,
      whatever the capacity. */
  lemma SurplusExample(trace: map<int, seq<seq<int>>>, s: seq<Key>, each: nat)
    requires trace == map[0 := [[1]], 1 := [[2], [3]]] && s == [(0, 1), (1, 2)]
    ensures Interleaves(s, [0, 1], trace, 1)
    ensures LayeredMissed(s, BlockOf, each, One) == 2 && BlocksMissed([0, 1], trace, each, One) == 3
  {
    ExampleKeys();
    ExampleLayers(s);
    hide Missed, OfLayer, BlockKeys;
    assert trace[1][..1] == [[2]] && trace[0][..1] == [[1]];
    assert InterleavesBlock(s, 0, trace, 1) && InterleavesBlock(s, 1, trace, 1);
    ExampleWhole(s, each);
    ExampleParts(trace, each);
  }

  lemma ExampleWhole(s: seq<Key>, each: nat)
    requires s == [(0, 1), (1, 2)]
    ensures LayeredMissed(s, BlockOf, each, One) == 2
  {
    hide Missed, OfLayer, LayeredMissed;
    ExampleLayers(s);
    AllCold([(0, 1)], each);
    AllCold([(1, 2)], each);
    LayersAreIndependent(s, [0, 1], BlockOf, each, One);
    var one := [0];
    assert one[..0] == [] && [0, 1][..1] == one;
    assert MissedPerLayer(one, s, BlockOf, each, One) == 1;
  }

  lemma ExampleParts(trace: map<int, seq<seq<int>>>, each: nat)
    requires trace == map[0 := [[1]], 1 := [[2], [3]]]
    ensures BlocksMissed([0, 1], trace, each, One) == 3
  {
    ExampleKeys();
    hide Missed, BlockKeys;
    AllCold([(0, 1)], each);
    AllCold([(1, 2), (1, 3)], each);
    var one := [0];
    assert one[..0] == [] && [0, 1][..1] == one;
    assert BlocksMissed(one, trace, each, One) == 1;
  }

  lemma ExampleKeys()
    ensures BlockKeys(0, [[1]]) == [(0, 1)]
    ensures BlockKeys(1, [[2]]) == [(1, 2)]
    ensures BlockKeys(1, [[2], [3]]) == [(1, 2), (1, 3)]
  {
    hide BlockKeys;
    OneKey(0, 1);
    OneKey(1, 2);
    OneKey(1, 3);
    NoKeys();
    KeysNext(0, [], [1]);
    KeysNext(1, [], [2]);
    KeysNext(1, [[2]], [3]);
    assert [] + [[1]] == [[1]] && [] + [[2]] == [[2]] && [[2]] + [[3]] == [[2], [3]];
  }

  lemma OneKey(b: int, e: int)
    ensures Keys(b, [e]) == [(b, e)]
  {
    assert [e][..0] == [];
  }

  lemma NoKeys()
    ensures forall b :: BlockKeys(b, []) == []
  {}

  lemma KeysNext(b: int, steps: seq<seq<int>>, es: seq<int>)
    ensures BlockKeys(b, steps + [es]) == BlockKeys(b, steps) + Keys(b, es)
  {
    assert (steps + [es])[..|steps|] == steps;
  }

  lemma ExampleLayers(s: seq<Key>)
    requires s == [(0, 1), (1, 2)]
    ensures OfLayer(s, BlockOf, 0) == [(0, 1)] && OfLayer(s, BlockOf, 1) == [(1, 2)]
  {
    assert s == ([] + [(0, 1)]) + [(1, 2)];
    OfLayerNext([(0, 1)], (1, 2), BlockOf, 0);
    OfLayerNext([(0, 1)], (1, 2), BlockOf, 1);
    OfLayerNext([], (0, 1), BlockOf, 0);
    OfLayerNext([], (0, 1), BlockOf, 1);
  }
}
