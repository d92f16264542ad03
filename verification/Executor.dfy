/** Running routed blocks through the tier, with and without prefetch. */
module Executor {
  import opened Orders
  import opened Gpu
  import opened HotTier
  import T = HotTier

  /** One routed block: the router's expert ids and their weights. */
  datatype Work = Work(block: int, ids: seq<int>, weights: seq<real>)

  datatype Outcome = Ran | WeightCount | TooManyIds | Refused(why: Admission)

  /** Everything a plan's kernels must read: the named experts' own bytes, in order. */
  function PlanReads(plan: seq<Work>, w: Weights): seq<Read> {
    if plan == [] then []
    else PlanReads(plan[..|plan| - 1], w) + BlockReads(plan[|plan| - 1].block, plan[|plan| - 1].ids, w)
  }

  class MoEExecutor {
    const tier: T.HotTier
    const maxUsed: nat
    var blocksExecuted: nat

    constructor (tier: T.HotTier, maxUsed: nat)
      ensures this.tier == tier && this.maxUsed == maxUsed && blocksExecuted == 0
    {
      this.tier, this.maxUsed, blocksExecuted := tier, maxUsed, 0;
    }

    /** Run one block: admit exactly the router's ids, submit the kernel, mark its readers. */
    method RunBlock(block: int, ids: seq<int>, weights: seq<real>) returns (r: Outcome)
      requires tier.Valid()
      modifies this, tier, tier.gpu, tier.PoolSet(block)
      ensures r.WeightCount? <==> |ids| != |weights|
      ensures r.TooManyIds? <==> |ids| == |weights| && |ids| > maxUsed
      ensures r.Ran? <==> (|ids| == |weights| && |ids| <= maxUsed && block in tier.pools && tier.slotsEach > 0
                           && |Elems(ids)| <= old(tier.Usable(block)))
      ensures r == Refused(AllProtected) || tier.Valid()
      ensures r.Ran? ==>
        Program(tier.gpu.d, tier.gpu.w) == old(Program(tier.gpu.d, tier.gpu.w)) + BlockReads(block, ids, tier.gpu.w)
      ensures blocksExecuted == old(blocksExecuted) + if r.Ran? then 1 else 0
    {
      hide Program, BlockReads, SlotsMatch, Landed, T.HotTier.ValidBut, T.HotTier.ReserveKept, T.HotTier.Views;
      hide BatchLru.Ensured, Without;
      if |ids| != |weights| {
        return WeightCount;
      }
      if |ids| > maxUsed {
        return TooManyIds;
      }
      var a := tier.Ensure(block, ids);
      if !a.Slots? {
        return Refused(a);
      }
      tier.SubmitKernel(block, a.slots, ids);
      tier.MarkSubmitted(block, {block});
      assert {block} - {block} == {};
      blocksExecuted := blocksExecuted + 1;
      return Ran;
    }

    /** An item every reachable tier can serve: its distinct experts fit beside the reserve. */
    predicate Fits(item: Work) {
      |item.ids| == |item.weights| && |item.ids| <= maxUsed && item.block in tier.pools
      && tier.slotsEach > 0 && |Elems(item.ids)| <= tier.slotsEach - tier.prefetchSlots
    }

    /** Run all blocks in sequence; stops at the first one refused. On success the reads
        delivered are exactly those the plan names. */
    method RunModel(plan: seq<Work>) returns (ok: bool)
      requires tier.Valid()
      modifies this, tier, tier.gpu, tier.pools.Values
      ensures (forall item :: item in plan ==> Fits(item)) ==> ok
      ensures ok ==> tier.Valid()
      ensures ok ==> tier.gpu.d.trace == old(Program(tier.gpu.d, tier.gpu.w)) + PlanReads(plan, tier.gpu.w)
    {
      hide BlockReads, Program, T.HotTier.ValidBut, T.HotTier.Valid;
      ghost var p0 := Program(tier.gpu.d, tier.gpu.w);
      assert plan[..0] == [];
      for i := 0 to |plan|
        invariant tier.Valid()
        invariant Program(tier.gpu.d, tier.gpu.w) == p0 + PlanReads(plan[..i], tier.gpu.w)
      {
        UsableBound(plan[i]);
        var r := RunBlock(plan[i].block, plan[i].ids, plan[i].weights);
        if !r.Ran? {
          assert plan[i] in plan;
          return false;
        }
        assert plan[..i + 1][..i] == plan[..i];
      }
      assert plan[..|plan|] == plan;
      Download();
      ok := true;
    }

    lemma UsableBound(item: Work)
      requires tier.Valid()
      ensures Fits(item) ==> |Elems(item.ids)| <= tier.Usable(item.block)
    {
      if item.block in tier.pools {
        assert tier.PoolSteady(tier.pools[item.block]);
      }
    }

    /** Fetch the output: returns once the compute stream has drained. */
    method Download()
      requires tier.Valid()
      modifies tier.gpu
      ensures tier.Valid()
      ensures tier.gpu.d.trace == Program(tier.gpu.d, tier.gpu.w) == old(Program(tier.gpu.d, tier.gpu.w))
    {
      tier.Drain();
    }
  }

  /** Drives the tier's prefetch from a predictor. The predictor may answer anything at
      all, at every call: that is the adversary the results below hold against. */
  class ExpertPrefetcher {
    var enabled: bool
    var calls: nat
    var issued: nat

    constructor (enabled: bool)
      ensures this.enabled == enabled && calls == 0 && issued == 0
    {
      this.enabled, calls, issued := enabled, 0, 0;
    }

    method Warm(tier: T.HotTier, block: int) returns (n: nat)
      requires tier.Valid() && block in tier.pools
      modifies this, tier, tier.gpu, tier.PoolSet(block)
      ensures tier.Valid() && Program(tier.gpu.d, tier.gpu.w) == old(Program(tier.gpu.d, tier.gpu.w))
      ensures enabled == old(enabled) && issued == old(issued) + n
      ensures !enabled ==> n == 0 && calls == old(calls)
      ensures enabled ==> calls == old(calls) + 1
    {
      hide Program, T.HotTier.ValidBut, T.HotTier.Valid, BatchLru.Prefetched, FirstOcc, T.HotTier.Views;
      if !enabled {
        return 0;
      }
      var cands: seq<int> := *;
      calls := calls + 1;
      if cands == [] {
        return 0;
      }
      ghost var k: nat;
      n, k := tier.Prefetch(block, cands);
      issued := issued + n;
    }
  }

  /** One token's blocks, each followed by warming the same block for the next token. */
  method RunBlocksWithPrefetch(executor: MoEExecutor, prefetcher: ExpertPrefetcher, plan: seq<Work>) returns (ok: bool)
    requires executor.tier.Valid()
    modifies executor, prefetcher, executor.tier, executor.tier.gpu, executor.tier.pools.Values
    ensures (forall item :: item in plan ==> executor.Fits(item)) ==> ok
    ensures ok ==> executor.tier.Valid()
    ensures ok ==> var gpu := executor.tier.gpu; gpu.d.trace == old(Program(gpu.d, gpu.w)) + PlanReads(plan, gpu.w)
  {
    hide BlockReads, Program, T.HotTier.ValidBut, T.HotTier.Valid;
    var tier := executor.tier;
    ghost var p0 := Program(tier.gpu.d, tier.gpu.w);
    assert plan[..0] == [];
    for i := 0 to |plan|
      invariant tier.Valid()
      invariant Program(tier.gpu.d, tier.gpu.w) == p0 + PlanReads(plan[..i], tier.gpu.w)
    {
      executor.UsableBound(plan[i]);
      var r := executor.RunBlock(plan[i].block, plan[i].ids, plan[i].weights);
      if !r.Ran? {
        assert plan[i] in plan;
        return false;
      }
      assert plan[..i + 1][..i] == plan[..i];
      var n := prefetcher.Warm(tier, plan[i].block);
    }
    assert plan[..|plan|] == plan;
    executor.Download();
    ok := true;
  }

  lemma NothingRead(d: Device, w: Weights)
    requires d.computeQ == []
    ensures Program(d, w) == []
  {}

  /** Prefetch changes timing, never values: from fresh tiers over the same weights, of any
      sizes and with any prediction, both runs make the kernels read the same bytes. */
  method PrefetchIsInvisible(plain: MoEExecutor, warmed: MoEExecutor, prefetcher: ExpertPrefetcher, plan: seq<Work>)
    returns (a: bool, b: bool)
    requires plain.tier.Valid() && warmed.tier.Valid() && plain.tier.gpu.w == warmed.tier.gpu.w
    requires plain.tier.gpu.d.computeQ == [] == warmed.tier.gpu.d.computeQ
    requires plain != warmed && plain.tier != warmed.tier && plain.tier.gpu != warmed.tier.gpu
    requires plain.tier.pools.Values !! warmed.tier.pools.Values
    modifies plain, plain.tier, plain.tier.gpu, plain.tier.pools.Values
    modifies warmed, prefetcher, warmed.tier, warmed.tier.gpu, warmed.tier.pools.Values
    ensures a && b ==> plain.tier.gpu.d.trace == warmed.tier.gpu.d.trace == PlanReads(plan, plain.tier.gpu.w)
  {
    hide *;
    NothingRead(plain.tier.gpu.d, plain.tier.gpu.w);
    NothingRead(warmed.tier.gpu.d, warmed.tier.gpu.w);
    ghost var gpu, other := plain.tier.gpu, warmed.tier.gpu;
    ghost var due := PlanReads(plan, gpu.w);
    a := plain.RunModel(plan);
    ghost var first := gpu.d.trace;
    assert a ==> first == due;
    b := RunBlocksWithPrefetch(warmed, prefetcher, plan);
    assert gpu.d.trace == first;
    assert b ==> other.d.trace == due;
  }
}
