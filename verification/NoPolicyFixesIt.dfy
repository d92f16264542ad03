/** No policy fixes it: the offline optimum bounds every policy the tools replay. */
module NoPolicyFixesIt {
  import opened Orders
  import opened Recency
  import opened LruCaches
  import opened LayeredLru
  import opened Schedules
  import opened Belady
  import opened Policies
  import opened Arc

  lemma LruNeverBeats(trace: seq<int>, cap: nat, m: nat)
    requires cap > 0 && IsOptimum(trace, cap, m)
    ensures m <= Missed(trace, One, cap, One)
  {
    hide Missed, Residents, Reaches, Attains;
    LruReaches(trace, cap, |trace|);
    assert trace[..|trace|] == trace;
    ReachesAttains(trace, cap, Missed(trace, One, cap, One), Elems(Residents(trace, One, cap)));
  }

  lemma LfuNeverBeats(trace: seq<int>, cap: nat, m: nat)
    requires cap > 0 && IsOptimum(trace, cap, m)
    ensures m <= LfuMissed(trace, cap)
  {
    hide LfuMissed, LfuAfter, Reaches, Attains;
    LfuReaches(trace, cap, |trace|);
    assert trace[..|trace|] == trace;
    ReachesAttains(trace, cap, LfuMissed(trace, cap), LfuAfter(trace, cap).Keys);
  }

  lemma ArcNeverBeats(trace: seq<int>, cap: nat, m: nat)
    requires cap >= 2 && IsOptimum(trace, cap, m)
    ensures m <= ArcMissed(trace, cap)
  {
    hide ArcMissed, ArcAfter, Reaches, Attains;
    ArcReaches(trace, cap, |trace|);
    assert trace[..|trace|] == trace;
    ReachesAttains(trace, cap, ArcMissed(trace, cap), ArcAfter(trace, cap).Residents());
  }

  function LayersOf(trace: seq<int>, layer: int -> int): set<int> {
    set x | x in trace :: layer(x)
  }

  /** A partition needs a slot for every layer that occurs. */
  lemma PerLayerNeverBeats(trace: seq<int>, layer: int -> int, cap: nat, nLayers: nat, m: nat)
    requires |LayersOf(trace, layer)| <= nLayers <= cap && IsOptimum(trace, cap, m)
    ensures m <= LayeredMissed(trace, layer, Share(cap, nLayers), One)
  {
    hide LayeredMissed, LayerHolds, Share, Reaches, Attains;
    var each := Share(cap, nLayers);
    LayersReach(trace, layer, cap, nLayers, LayersOf(trace, layer), |trace|);
    assert trace[..|trace|] == trace;
    ReachesAttains(trace, cap, LayeredMissed(trace, layer, each, One), LayersHold(trace, layer, each));
  }

  /** Replay one trace under every policy at the same capacity: each count is that policy's own, and
      none is below the optimum. */
  method ReplayAll(trace: seq<int>, cap: nat, nLayers: nat, layer: int -> int)
    returns (best: nat, lru: nat, lfu: nat, arc: nat, perLayer: nat)
    requires cap > 0
    ensures IsOptimum(trace, cap, best)
    ensures lru == Missed(trace, One, cap, One) && best <= lru
    ensures lfu == LfuMissed(trace, cap) && best <= lfu
    ensures arc == ArcMissed(trace, ArcCapacity(cap)) && (cap >= 2 ==> best <= arc)
    ensures perLayer == LayeredMissed(trace, layer, Share(cap, nLayers), One)
    ensures |LayersOf(trace, layer)| <= nLayers <= cap ==> best <= perLayer
  {
    hide IsOptimum, Missed, LfuMissed, ArcMissed, LayeredMissed, LayersOf, Share;
    best := OfflineMisses(trace, cap);
    lru := ReplayLru(trace, cap);
    LruNeverBeats(trace, cap, best);
    lfu := ReplayLfu(trace, cap);
    LfuNeverBeats(trace, cap, best);
    arc := ReplayArc(trace, cap);
    if cap >= 2 {
      ArcNeverBeats(trace, cap, best);
    }
    perLayer := ReplayPerLayer(trace, cap, nLayers, layer);
    if |LayersOf(trace, layer)| <= nLayers <= cap {
      PerLayerNeverBeats(trace, layer, cap, nLayers, best);
    }
  }

  /** A larger slab never needs more loads, at the optimum. */
  lemma OptimumShrinks(trace: seq<int>, small: nat, big: nat, m: nat, n: nat)
    requires small <= big && IsOptimum(trace, small, m) && IsOptimum(trace, big, n)
    ensures n <= m
  {
    MoreRoom(trace, small, big, m);
  }
}
