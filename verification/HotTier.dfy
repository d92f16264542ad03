/** The VRAM residency layer: fixed-slot pools, admission, eviction, prefetch. */
module HotTier {
  import opened Orders
  import opened Gpu
  import opened Driver
  import opened TierBooks
  import opened TierMoves
  import opened BatchLru
  import opened SlotLayout

  /** Fixed-size expert slots for one transformer block. */
  class BlockPool {
    const block: int
    const nSlots: nat
    var freeSlots: seq<nat>
    var slotOf: map<int, nat>
    var expertOf: map<nat, int>
    var state: map<int, Residency>
    var lru: seq<int>
    var inflight: map<int, nat>

    constructor (block: int, nSlots: nat)
      ensures this.block == block && this.nSlots == nSlots
      ensures View() == PoolView(nSlots, Iota(nSlots), map[], map[], map[], [], map[])
    {
      this.block, this.nSlots := block, nSlots;
      freeSlots := Iota(nSlots);
      slotOf, expertOf, state, lru, inflight := map[], map[], map[], [], map[];
    }

    ghost function View(): PoolView
      reads this
    {
      PoolView(nSlots, freeSlots, slotOf, expertOf, state, lru, inflight)
    }
  }

  ghost predicate FreshPool(p: BlockPool, b: int, n: nat)
    reads p
  {
    p.block == b && p.View() == PoolView(n, Iota(n), map[], map[], map[], [], map[])
  }

  lemma FreshSteady(p: PoolView, n: nat, reserve: nat)
    requires p == PoolView(n, Iota(n), map[], map[], map[], [], map[])
    ensures StatesBut(p, map[]) && LossBounded(p, reserve)
  {}

  lemma EmptyLedgerOk(d: Device, views: map<int, PoolView>, pending: map<int, map<int, nat>>,
                      marks: seq<bool>)
    requires d.copyQ == [] && d.computeQ == [] && d.copyDone == 0 && d.events == map[]
    requires pending.Keys == views.Keys && forall b :: b in pending ==> pending[b] == map[]
    requires forall b :: b in views ==>
      views[b] == PoolView(views[b].nSlots, Iota(views[b].nSlots), map[], map[], map[], [], map[])
    requires |marks| == STAGING_SLOTS && forall i :: 0 <= i < STAGING_SLOTS ==> !marks[i]
    ensures TierOk(d, Books(views, pending, {}, {}, marks, [], 0))
  {
    forall b | b in views ensures PoolOk(views[b]) && PoolData(d, b, views[b], pending[b]) {}
    forall i: nat | i < STAGING_SLOTS ensures BufferCovered(d, i, marks[i]) {}
  }

  /** One empty pool per named block. */
  method BuildPools(blocks: seq<int>, n: nat) returns (ps: map<int, BlockPool>)
    ensures ps.Keys == Elems(blocks) && fresh(ps.Values)
    ensures forall b :: b in ps ==> FreshPool(ps[b], b, n)
    ensures forall b, c :: b in ps && c in ps && ps[b] == ps[c] ==> b == c
  {
    ps := map[];
    for i := 0 to |blocks|
      invariant ps.Keys == Elems(blocks[..i])
      invariant forall b :: b in ps ==> FreshPool(ps[b], b, n) && fresh(ps[b])
      invariant forall b, c :: b in ps && c in ps && ps[b] == ps[c] ==> b == c
    {
      var p := new BlockPool(blocks[i], n);
      ps := ps[blocks[i] := p];
      assert blocks[..i + 1] == blocks[..i] + [blocks[i]];
    }
    assert blocks[..|blocks|] == blocks;
  }

  /** The outcomes of `ensure`: the slots, or one of the source's raises. */
  datatype Admission = Slots(slots: seq<nat>) | NoBlock | NoSlots | TooMany | AllProtected

  class HotTier {
    const gpu: GpuRuntime
    const pools: map<int, BlockPool>
    const slotsEach: nat
    const prefetchSlots: nat
    const direct: bool          // the whole bank is pinned: no staging buffers exist
    var warm: set<int>          // blocks the warm tier has pinned so far
    var readEv: set<int>        // blocks whose read event exists
    var stageI: nat
    var stageInflight: seq<bool>
    var evFree: seq<nat>
    var evCreated: nat
    ghost var peak: nat         // most transfers ever outstanding at once
    var stallI: nat
    var stallPending: nat
    var hits: nat
    var misses: nat
    var requests: nat
    var evictions: nat
    var prefetchIssued: nat
    var prefetchHits: nat

    // Stall pairs are numbered as they are recorded; a ring entry remembers its number.
    ghost var ring: seq<nat>
    ghost var recorded: nat
    ghost var drained: seq<nat>

    constructor (w: Weights, blocks: seq<int>, per: map<int, nat>, nExperts: nat, live: nat,
                 capacity: int, prefetchSlots: int, direct: bool)
      requires blocks != [] && forall b :: b in blocks ==> b in per && per[b] > 0
      ensures Valid() && fresh(gpu) && fresh(pools.Values) && gpu.w == w
      ensures pools.Keys == Elems(blocks)
      ensures slotsEach == SlotsEach(capacity, Biggest(blocks, per), |blocks|, nExperts)
      ensures MostSlots(slotsEach, capacity, Biggest(blocks, per), |blocks|, nExperts)
      ensures this.prefetchSlots == ReserveFor(prefetchSlots, slotsEach, live)
      ensures MostReserve(this.prefetchSlots, prefetchSlots, slotsEach, live)
      ensures forall b :: b in pools ==>
        pools[b].nSlots == slotsEach && pools[b].slotOf == map[] && |pools[b].freeSlots| == slotsEach
      ensures gpu.d.computeQ == [] && gpu.d.trace == []
      ensures |stageInflight| == 32 && |ring| == 512
    {
      hide MostSlots, MostReserve, SlotsEach, ReserveFor;
      var b0 := blocks[0];
      assert b0 in blocks;
      var n := SlotsEach(capacity, Biggest(blocks, per), |blocks|, nExperts);
      SlotsAreMost(capacity, Biggest(blocks, per), |blocks|, nExperts);
      ReserveIsMost(prefetchSlots, n, live);
      this.slotsEach := n;
      this.prefetchSlots := ReserveFor(prefetchSlots, n, live);
      this.direct := direct;
      var g := new GpuRuntime(w, if n > 0 && !direct then STAGING_SLOTS else 0);
      var ps := BuildPools(blocks, n);
      this.gpu := g;
      this.pools := ps;
      warm, readEv, stageI, stageInflight := {}, {}, 0, seq(STAGING_SLOTS, i => false);
      evFree, evCreated, peak, stallI, stallPending := [], 0, 0, 0, 0;
      hits, misses, requests, evictions, prefetchIssued, prefetchHits := 0, 0, 0, 0, 0, 0;
      ring, recorded, drained := seq(STALL_RING, i => 0), 0, [];
      new;
      FreshTierOk();
    }

    /** Empty pools and an idle device are a sound start. */
    lemma FreshTierOk()
      requires forall b :: b in pools ==> FreshPool(pools[b], b, slotsEach)
      requires forall b, c :: b in pools && c in pools && pools[b] == pools[c] ==> b == c
      requires Inv(gpu.d, gpu.w) && gpu.d.copyQ == [] && gpu.d.computeQ == []
      requires gpu.d.copyDone == 0 && gpu.d.events == map[]
      requires slotsEach > 0 && !direct ==> |gpu.d.stage| == STAGING_SLOTS
      requires readEv == {} && stageI == 0 && stageInflight == seq(STAGING_SLOTS, i => false)
      requires evFree == [] && evCreated == peak == stallI == stallPending == hits == misses == requests == 0
      requires |ring| == STALL_RING && recorded == 0 && drained == []
      ensures Valid()
    {
      hide TierOk, Inv;
      assert Distinct();
      forall b | b in pools ensures PoolSteady(pools[b]) { FreshSteady(pools[b].View(), slotsEach, prefetchSlots); }
      ghost var views, flights := Views(), Inflights();
      assert Ledger(views, flights, {}) == Books(views, flights, {}, {}, stageInflight, [], 0);
      EmptyLedgerOk(gpu.d, views, flights, stageInflight);
    }

    ghost function Views(): map<int, PoolView>
      reads pools.Values
    {
      map b | b in pools :: pools[b].View()
    }

    ghost function Inflights(): map<int, map<int, nat>>
      reads pools.Values
    {
      map b | b in pools :: pools[b].inflight
    }

    /** Between calls: pools are sound, what each slot holds is settled, and no slot
        beyond the prefetch reserve has been lost. */
    ghost predicate Valid()
      reads this, gpu, pools.Values
    {
      ValidBut({})
    }

    /** The same while the kernels of the blocks in `open` are submitted but not marked. */
    ghost predicate ValidBut(open: set<int>)
      reads this, gpu, pools.Values
    {
      && HostOk() && StallsOk() && Distinct() && requests == hits + misses
      && (forall b :: b in pools ==> PoolSteady(pools[b]))
      && TierOk(gpu.d, Ledger(Views(), Inflights(), open))
    }

    ghost function PoolSet(block: int): set<BlockPool>
    {
      if block in pools then {pools[block]} else {}
    }

    ghost predicate Distinct()
    {
      && (forall b :: b in pools ==> pools[b].block == b && pools[b].nSlots == slotsEach)
      && forall b, c :: b in pools && c in pools && pools[b] == pools[c] ==> b == c
    }

    ghost predicate PoolSteady(p: BlockPool)
      reads p
    {
      StatesBut(p.View(), map[]) && LossBounded(p.View(), prefetchSlots)
    }

    /** Pairs still to drain sit at the front of the ring in recording order; those
        drained so far are exactly the earlier ones, each once. */
    ghost predicate StallsOk()
      reads `stallI, `stallPending, `ring, `recorded, `drained
    {
      && |ring| == STALL_RING && stallPending <= STALL_RING && stallI == stallPending % STALL_RING
      && |drained| + stallPending == recorded
      && (forall i :: 0 <= i < |drained| ==> drained[i] == i)
      && (forall i :: 0 <= i < stallPending ==> ring[i] == |drained| + i)
    }

    ghost function Ledger(views: map<int, PoolView>, pending: map<int, map<int, nat>>, open: set<int>): Books
      reads `readEv, `stageInflight, `evFree, `evCreated
    {
      Books(views, pending, readEv, open, stageInflight, evFree, evCreated)
    }

    ghost predicate HostOk()
      reads `stageI, `evFree, `evCreated, `peak, gpu
    {
      && Inv(gpu.d, gpu.w)
      && stageI < STAGING_SLOTS
      && (slotsEach > 0 && !direct ==> |gpu.d.stage| == STAGING_SLOTS)
      && evCreated <= peak && evCreated - |evFree| <= peak
    }

    /** Take the next staging buffer, waiting only for its own last transfer. */
    method AcquireStage(ghost t: Books) returns (i: nat)
      requires HostOk() && t == Ledger(t.pools, t.pending, t.open) && TierOk(gpu.d, t)
      modifies gpu, `stageI, `stageInflight
      ensures HostOk() && Later(old(gpu.d), gpu.d, gpu.w)
      ensures i == old(stageI) < STAGING_SLOTS && stageI == (i + 1) % STAGING_SLOTS
      ensures |stageInflight| == STAGING_SLOTS && stageInflight == old(stageInflight)[i := false]
      ensures TierOk(gpu.d, Ledger(t.pools, t.pending, t.open)) && BufferIdle(gpu.d, i)
    {
      i := stageI;
      stageI := (stageI + 1) % STAGING_SLOTS;
      ghost var d0 := gpu.d;
      assert BufferCovered(d0, i, stageInflight[i]);
      if stageInflight[i] {
        gpu.EventSync(StageEvent(i));
        LaterIsQuiet(d0, gpu.d, gpu.w);
        TierQuiet(d0, gpu.d, t);
        stageInflight := stageInflight[i := false];
        forall j: nat | j < STAGING_SLOTS ensures BufferCovered(gpu.d, j, stageInflight[j]) {
          assert BufferCovered(gpu.d, j, t.stageInflight[j]);
        }
      }
      assert BufferCovered(gpu.d, i, stageInflight[i]);
    }

    method EvGet(ghost pending: map<int, map<int, nat>>, ghost b: int, ghost e: int) returns (id: nat)
      requires EventsOwned(pending, evFree, evCreated) && b in pending && e !in pending[b]
      requires evCreated <= peak && evCreated - |evFree| <= peak
      modifies `evFree, `evCreated, `peak
      ensures EventsOwned(Start(pending, b, e, id), evFree, evCreated)
      ensures evCreated <= peak && evCreated - |evFree| <= peak
      ensures evCreated - |evFree| == old(evCreated - |evFree|) + 1
      ensures peak == old(peak) || peak == evCreated - |evFree|
      ensures evCreated > old(evCreated) ==> old(evFree) == []
      ensures old(evFree) != [] ==> evFree + [id] == old(evFree) && evCreated == old(evCreated)
    {
      TakeKeepsOwned(pending, evFree, evCreated, b, e);
      if evFree != [] {
        id := evFree[|evFree| - 1];
        evFree := evFree[..|evFree| - 1];
      } else {
        id := evCreated;
        evCreated := evCreated + 1;
      }
      if peak < evCreated - |evFree| {
        peak := evCreated - |evFree|;
      }
    }

    method EvPut(id: nat)
      modifies `evFree
      ensures evFree == old(evFree) + [id]
    {
      evFree := evFree + [id];
    }

    /** Make the copy stream follow every kernel that may read the block's slots. */
    method HoldOff(b: int, ghost t: Books)
      requires HostOk() && t == Ledger(t.pools, t.pending, t.open) && TierOk(gpu.d, t)
      requires b !in t.open
      modifies gpu
      ensures HostOk() && TierOk(gpu.d, t)
      ensures gpu.d.computeQ == old(gpu.d.computeQ) && |gpu.d.stage| == old(|gpu.d.stage|)
      ensures BlockOverwritable(gpu.d, b)
    {
      ghost var d0 := gpu.d;
      if b in readEv {
        gpu.WaitEvent(CopyStream, ReadEvent(b));
        WaitIsQuiet(d0, gpu.d, CopyStream, ReadEvent(b), gpu.w);
        TierQuiet(d0, gpu.d, t);
      }
      WaitMakesOverwritable(d0, gpu.d, b, t, gpu.w);
    }

    /** Three in-place transfers straight out of pinned memory. */
    method CopyDirect(b: int, e: int, slot: nat, ghost t: Books)
      requires HostOk() && t == Ledger(t.pools, t.pending, t.open) && TierOk(gpu.d, t)
      requires BlockOverwritable(gpu.d, b)
      requires forall r: nat :: Vacant(t.pools, Cell(b, slot, r))
      modifies gpu
      ensures HostOk() && TierOk(gpu.d, t)
      ensures gpu.d.computeQ == old(gpu.d.computeQ)
      ensures AllCarried(gpu.d, b, slot, e, ROLES)
    {
      ghost var d0 := gpu.d;
      for r := 0 to ROLES
        invariant HostOk() && TierOk(gpu.d, t)
        invariant d0.copyQ <= gpu.d.copyQ && gpu.d.computeQ == d0.computeQ
        invariant AllCarried(gpu.d, b, slot, e, r)
      {
        ghost var d1 := gpu.d;
        var x := Cell(b, slot, r);
        OverwritableGrow(d0, d1, x);
        gpu.CopyAsync(x, e, InPlace);
        CopyKeepsData(d1, gpu.d, x, e, InPlace, t, gpu.w);
        forall i: nat | i < STAGING_SLOTS ensures BufferCovered(gpu.d, i, t.stageInflight[i]) {
          StageGrow(d1, gpu.d, i, t.stageInflight[i]);
        }
        AllCarriedGrow(d1, gpu.d, b, slot, e, r);
      }
    }

    /** One contiguous transfer through the staging ring. */
    method CopyStaged(b: int, e: int, slot: nat, ghost t: Books)
      requires HostOk() && t == Ledger(t.pools, t.pending, t.open) && TierOk(gpu.d, t)
      requires BlockOverwritable(gpu.d, b) && |gpu.d.stage| == STAGING_SLOTS
      requires forall r: nat :: Vacant(t.pools, Cell(b, slot, r))
      modifies gpu, `stageI, `stageInflight
      ensures HostOk() && TierOk(gpu.d, Ledger(t.pools, t.pending, t.open))
      ensures gpu.d.computeQ == old(gpu.d.computeQ) && |gpu.d.stage| == old(|gpu.d.stage|)
      ensures AllCarried(gpu.d, b, slot, e, ROLES)
    {
      hide TierOk, Inv, AllCarried, BlockOverwritable, Vacant, BooksBut;
      ghost var d0 := gpu.d;
      var i := AcquireStage(t);
      ghost var u := Ledger(t.pools, t.pending, t.open);
      var parts := seq(ROLES, r requires 0 <= r < ROLES => gpu.w(b, e, r));
      ghost var d1 := gpu.d;
      TypedIn(d1, u);
      gpu.FillStage(i, parts);
      TierQuiet(d1, gpu.d, u);
      BlockOverwritableGrow(d0, gpu.d, b);
      SendParts(b, e, slot, i, u);
      ghost var d2 := gpu.d;
      gpu.RecordEvent(CopyStream, StageEvent(i));
      stageInflight := stageInflight[i := true];
      RecordIsQuiet(d2, gpu.d, CopyStream, StageEvent(i), gpu.w);
      SentOk(d2, gpu.d, u, Ledger(t.pools, t.pending, t.open), i);
      AllCarriedGrow(d2, gpu.d, b, slot, e, ROLES);
    }

    /** The DMA of the staged parts, one cell at a time. */
    method SendParts(b: int, e: int, slot: nat, i: nat, ghost u: Books)
      requires Inv(gpu.d, gpu.w) && TierOk(gpu.d, u) && i < STAGING_SLOTS
      requires BlockOverwritable(gpu.d, b) && |gpu.d.stage| == STAGING_SLOTS
      requires |gpu.d.stage[i]| == ROLES && forall r: nat :: r < ROLES ==> gpu.d.stage[i][r] == gpu.w(b, e, r)
      requires forall r: nat :: Vacant(u.pools, Cell(b, slot, r))
      modifies gpu
      ensures Inv(gpu.d, gpu.w) && BooksBut(gpu.d, u, i)
      ensures gpu.d.computeQ == old(gpu.d.computeQ) && gpu.d.stage == old(gpu.d.stage)
      ensures AllCarried(gpu.d, b, slot, e, ROLES)
    {
      ghost var d0 := gpu.d;
      for r := 0 to ROLES
        invariant Inv(gpu.d, gpu.w) && d0.copyQ <= gpu.d.copyQ
        invariant gpu.d.computeQ == d0.computeQ && gpu.d.stage == d0.stage
        invariant BooksBut(gpu.d, u, i)
        invariant AllCarried(gpu.d, b, slot, e, r)
      {
        ghost var d3 := gpu.d;
        var x := Cell(b, slot, r);
        OverwritableGrow(d0, d3, x);
        gpu.CopyAsync(x, e, Staged(i));
        PartSent(d3, gpu.d, x, e, i, u, gpu.w);
        AllCarriedGrow(d3, gpu.d, b, slot, e, r);
      }
    }

    /** Wait for the slot's readers, then transfer: in place from pinned memory when the
        whole bank or this block is pinned, else through the staging ring. */
    method IssueCopy(b: int, e: int, slot: nat, ghost t: Books)
      requires HostOk() && t == Ledger(t.pools, t.pending, t.open) && TierOk(gpu.d, t)
      requires b !in t.open && slotsEach > 0
      requires forall r: nat :: Vacant(t.pools, Cell(b, slot, r))
      modifies gpu, `stageI, `stageInflight
      ensures HostOk() && TierOk(gpu.d, Ledger(t.pools, t.pending, t.open))
      ensures gpu.d.computeQ == old(gpu.d.computeQ)
      ensures AllCarried(gpu.d, b, slot, e, ROLES)
    {
      hide TierOk, Inv, BlockOverwritable, AllCarried;
      HoldOff(b, t);
      if direct || b in warm {
        CopyDirect(b, e, slot, t);
      } else {
        CopyStaged(b, e, slot, t);
      }
    }

    /** Start the expert's copy into a vacant slot; the event returned is recorded behind it. */
    method StartCopy(b: int, e: int, slot: nat, ghost t: Books) returns (id: nat)
      requires HostOk() && t == Ledger(t.pools, t.pending, t.open) && TierOk(gpu.d, t)
      requires b in t.pools && b !in t.open && slotsEach > 0
      requires e !in t.pending[b] && e !in t.pools[b].slotOf
      requires slot !in t.pools[b].expertOf && slot !in t.pools[b].freeSlots
      modifies gpu, `stageI, `stageInflight, `evFree, `evCreated, `peak
      ensures HostOk() && TierOk(gpu.d, Ledger(t.pools, Start(t.pending, b, e, id), t.open))
      ensures SlotHolds(gpu.d, b, slot, e, t.pending[b][e := id])
      ensures gpu.d.computeQ == old(gpu.d.computeQ)
      ensures evCreated > old(evCreated) ==> old(evFree) == []
    {
      hide Inv, AllCarried, SlotHolds, NoTraffic, Later, TierOk, EventsOwned, RecordOn;
      IssueCopy(b, e, slot, t);
      ghost var d1, u := gpu.d, Ledger(t.pools, t.pending, t.open);
      OwnedIn(d1, u);
      id := EvGet(t.pending, b, e);
      gpu.RecordEvent(CopyStream, TransferEvent(id));
      Recorded(d1, gpu.d, u, Ledger(t.pools, Start(t.pending, b, e, id), t.open), b, slot, e, id, gpu.w);
    }

    // ---- pools ---------------------------------------------------------------------------

    /** The ledger seen from inside a call working on `p`; `held` are the transfers this
        call has started and not yet made the compute stream wait for. */
    ghost function Now(p: BlockPool, t: Books, held: map<int, nat>): Books
      reads `readEv, `stageInflight, `evFree, `evCreated, p
    {
      Books(t.pools[p.block := p.View()], t.pending[p.block := Union(p.inflight, held)],
            readEv, t.open, stageInflight, evFree, evCreated)
    }

    /** Drop the oldest resident not needed this step, and hand over its slot. */
    method Evict(p: BlockPool, protected: set<int>, ghost t: Books, ghost held: map<int, nat>)
      returns (ok: bool, slot: nat, ghost i: nat)
      requires HostOk() && TierOk(gpu.d, Now(p, t, held)) && StatesBut(p.View(), held)
      requires held.Keys !! p.inflight.Keys && held.Keys <= protected
      modifies p, `evFree, `evictions
      ensures HostOk() && TierOk(gpu.d, Now(p, t, held)) && StatesBut(p.View(), held)
      ensures held.Keys !! p.inflight.Keys
      ensures ok <==> exists e :: e in old(p.lru) && e !in protected
      ensures !ok ==> p.View() == old(p.View()) && evFree == old(evFree) && evictions == old(evictions)
      ensures ok ==>
        && i < |old(p.lru)| && old(p.lru)[i] !in protected && old(p.lru)[i] in old(p.slotOf)
        && (forall j :: 0 <= j < i ==> old(p.lru)[j] in protected)
        && p.View() == EvictView(old(p.View()), i)
        && slot == old(p.slotOf)[old(p.lru)[i]] && slot < p.nSlots && slot !in p.expertOf && slot !in p.freeSlots
        && evictions == old(evictions) + 1
    {
      hide TierOk, StatesBut, Inv;
      slot, i := 0, 0;
      var k := 0;
      while k < |p.lru| && p.lru[k] in protected
        invariant k <= |p.lru| && forall j :: 0 <= j < k ==> p.lru[j] in protected
      {
        k := k + 1;
      }
      ok := k < |p.lru|;
      if ok {
        i := k;
        ghost var before, view := Now(p, t, held), p.View();
        ResidentAt(gpu.d, before, p.block, view, k);
        slot := Detach(p, k);
        EvictLedger(gpu.d, before, Now(p, t, held), t, p.block, view, k, held);
      }
    }

    /** Take the resident at recency position `k` out of every map. */
    method Detach(p: BlockPool, k: nat) returns (slot: nat)
      requires k < |p.lru| && p.lru[k] in p.slotOf && NoDup(p.lru)
      modifies p, `evFree, `evictions
      ensures p.View() == EvictView(old(p.View()), k)
      ensures slot == old(p.slotOf)[old(p.lru)[k]]
      ensures evFree == old(evFree) +
        if old(p.lru)[k] in old(p.inflight) then [old(p.inflight)[old(p.lru)[k]]] else []
      ensures evictions == old(evictions) + 1
    {
      ghost var view := p.View();
      var v := p.lru[k];
      if v in p.inflight {
        EvPut(p.inflight[v]);
        p.inflight := Drop(p.inflight, v);
      }
      p.state := p.state[v := EvictPending];
      slot := p.slotOf[v];
      p.slotOf := Drop(p.slotOf, v);
      p.expertOf := p.expertOf - {slot};
      p.lru := Without(p.lru, {v});
      p.state := p.state[v := RamOnly];
      evictions := evictions + 1;
      WithoutAt(view.lru, k);
      EvictFields(view, k, p.View());
    }

    // ---- admission -----------------------------------------------------------------------

    /** A prefetched expert is usable once its own transfer lands: the compute stream
        waits for exactly that event, which then returns to the pool. */
    method AwaitPrefetch(p: BlockPool, e: int, ghost t: Books)
      requires HostOk() && TierOk(gpu.d, Now(p, t, map[])) && StatesBut(p.View(), map[])
      requires e in p.inflight
      modifies gpu, p`inflight, p`state, `evFree, `prefetchHits
      ensures HostOk() && TierOk(gpu.d, Now(p, t, map[])) && StatesBut(p.View(), map[])
      ensures NoTraffic(old(gpu.d), gpu.d)
      ensures p.inflight == Drop(old(p.inflight), e) && prefetchHits == old(prefetchHits) + 1
    {
      hide TierOk, StatesBut, NoTraffic, Inv;
      ghost var d0, before, view := gpu.d, Now(p, t, map[]), p.View();
      TransferTyped(d0, before, t, p.block, view, e);
      var ev := p.inflight[e];
      p.inflight := Drop(p.inflight, e);
      gpu.WaitEvent(ComputeStream, TransferEvent(ev));
      EvPut(ev);
      p.state := p.state[e := GpuResident];
      prefetchHits := prefetchHits + 1;
      LandedLedger(d0, gpu.d, before, Now(p, t, map[]), t, p.block, view, p.View(), e, gpu.w);
    }

    /** A requested expert that is resident. */
    method TouchOne(p: BlockPool, e: int, ghost t: Books)
      requires HostOk() && TierOk(gpu.d, Now(p, t, map[])) && StatesBut(p.View(), map[])
      requires e in p.slotOf
      modifies gpu, p, `evFree, `hits, `prefetchHits
      ensures HostOk() && TierOk(gpu.d, Now(p, t, map[])) && StatesBut(p.View(), map[])
      ensures NoTraffic(old(gpu.d), gpu.d)
      ensures p.View() == old(p.View()).(lru := MoveToEnd(old(p.lru), e), state := p.state, inflight := p.inflight)
      ensures p.inflight.Keys == old(p.inflight).Keys - {e} && Kept(old(p.View()), p.View())
      ensures hits == old(hits) + 1
      ensures prefetchHits == old(prefetchHits) + if e in old(p.inflight) then 1 else 0
    {
      hide TierOk, StatesBut, NoTraffic, Inv, HostOk, MoveToEnd;
      QuietRefl(gpu.d, Now(p, t, map[]));
      if e in p.inflight {
        AwaitPrefetch(p, e, t);
      }
      hits := hits + 1;
      ghost var before, view := Now(p, t, map[]), p.View();
      p.lru := MoveToEnd(p.lru, e);
      TouchLedger(gpu.d, before, Now(p, t, map[]), t, p.block, view, p.View(), e);
    }

    lemma FlightsResident(p: BlockPool, t: Books)
      requires TierOk(gpu.d, Now(p, t, map[]))
      ensures p.inflight.Keys <= p.slotOf.Keys
    {
      ResidentKeys(gpu.d, Now(p, t, map[]), p.block, p.View());
    }

    method TouchHits(p: BlockPool, want: seq<int>, ghost t: Books) returns (missed: seq<int>)
      requires HostOk() && TierOk(gpu.d, Now(p, t, map[])) && StatesBut(p.View(), map[])
      modifies gpu, p, `evFree, `hits, `misses, `prefetchHits
      ensures HostOk() && TierOk(gpu.d, Now(p, t, map[])) && StatesBut(p.View(), map[])
      ensures NoTraffic(old(gpu.d), gpu.d)
      ensures missed == Without(want, old(p.slotOf).Keys)
      ensures p.View() == old(p.View()).(lru := p.lru, state := p.state, inflight := p.inflight)
      ensures p.lru == Touched(old(p.lru), Only(want, old(p.slotOf).Keys))
      ensures p.inflight.Keys == old(p.inflight).Keys - Elems(want) && Kept(old(p.View()), p.View())
      ensures hits == old(hits) + |want| - |missed| && misses == old(misses) + |missed|
      ensures prefetchHits == old(prefetchHits) + Landed(old(p.inflight).Keys, want)
    {
      hide TierOk, StatesBut, NoTraffic, Inv, HostOk, Now, Touched, MoveToEnd, Only, Without, Elems, Landed;
      missed := [];
      NoneAsked(want, p.slotOf.Keys);
      NoneLanded(want, p.inflight.Keys);
      ghost var d0, view := gpu.d, p.View();
      QuietRefl(d0, Now(p, t, map[]));
      TouchedNone(p.lru);
      for i := 0 to |want|
        invariant HostOk() && TierOk(gpu.d, Now(p, t, map[])) && StatesBut(p.View(), map[])
        invariant NoTraffic(d0, gpu.d)
        invariant missed == Without(want[..i], view.slotOf.Keys)
        invariant p.View() == view.(lru := p.lru, state := p.state, inflight := p.inflight)
        invariant p.lru == Touched(view.lru, Only(want[..i], view.slotOf.Keys))
        invariant p.inflight.Keys == view.inflight.Keys - Elems(want[..i]) && Kept(view, p.View())
        invariant hits == old(hits) + i - |missed| && misses == old(misses) + |missed|
        invariant prefetchHits == old(prefetchHits) + Landed(view.inflight.Keys, want[..i])
      {
        var e := want[i];
        OneMoreAsked(want, i, view.slotOf.Keys);
        OneMoreLanded(view.inflight.Keys, want, i);
        if e in p.slotOf {
          ghost var d1 := gpu.d;
          TouchedNext(view.lru, Only(want[..i], view.slotOf.Keys), e);
          TouchOne(p, e, t);
          QuietTrans(d0, d1, gpu.d);
        } else {
          FlightsResident(p, t);
          misses := misses + 1;
          missed := missed + [e];
        }
      }
      assert want[..|want|] == want;
    }

    /** A free slot if there is one, else the oldest resident this step does not need. */
    method NextSlot(p: BlockPool, protected: set<int>, ghost t: Books, ghost held: map<int, nat>)
      returns (ok: bool, slot: nat, ghost i: nat)
      requires HostOk() && TierOk(gpu.d, Now(p, t, held)) && StatesBut(p.View(), held)
      requires held.Keys !! p.inflight.Keys && held.Keys <= protected
      modifies p, `evFree, `evictions
      ensures HostOk() && TierOk(gpu.d, Now(p, t, held)) && StatesBut(p.View(), held)
      ensures held.Keys !! p.inflight.Keys
      ensures ok <==> old(p.freeSlots) != [] || exists e :: e in old(p.lru) && e !in protected
      ensures ok ==> slot < p.nSlots && slot !in p.expertOf && slot !in p.freeSlots
      ensures ok ==> NextView(old(p.View()), p.View(), protected, i)
      ensures ok ==> evictions == old(evictions) + if old(p.freeSlots) == [] then 1 else 0
    {
      hide TierOk, StatesBut, Inv;
      i := 0;
      if p.freeSlots != [] {
        ghost var before, view := Now(p, t, held), p.View();
        slot := p.freeSlots[0];
        p.freeSlots := p.freeSlots[1..];
        ok := true;
        TakeLedger(gpu.d, before, Now(p, t, held), t, p.block, view, held);
      } else {
        ok, slot, i := Evict(p, protected, t, held);
      }
    }

    /** Make `e` the resident of the vacant `slot`, and start its copy. */
    method Admit(p: BlockPool, e: int, slot: nat, ghost t: Books, ghost held: map<int, nat>) returns (id: nat)
      requires HostOk() && TierOk(gpu.d, Now(p, t, held)) && StatesBut(p.View(), held)
      requires held.Keys !! p.inflight.Keys && e !in p.slotOf && e !in held
      requires slot < p.nSlots && slot !in p.expertOf && slot !in p.freeSlots
      requires p.block !in t.open && slotsEach > 0
      modifies gpu, p, `stageI, `stageInflight, `evFree, `evCreated, `peak
      ensures HostOk() && TierOk(gpu.d, Now(p, t, held[e := id])) && StatesBut(p.View(), held[e := id])
      ensures gpu.d.computeQ == old(gpu.d.computeQ)
      ensures held[e := id].Keys !! p.inflight.Keys
      ensures p.View() == AdmitView(old(p.View()), e, slot, Transferring)
      ensures evCreated > old(evCreated) ==> old(evFree) == []
    {
      hide TierOk, StatesBut, Inv, HostOk;
      ghost var before, view := Now(p, t, held), p.View();
      NotPending(gpu.d, before, t, p.block, view, e, held);
      p.slotOf := p.slotOf[e := slot];
      p.expertOf := p.expertOf[slot := e];
      p.state := p.state[e := Transferring];
      p.lru := p.lru + [e];
      id := StartCopy(p.block, e, slot, before);
      AdmitLedger(gpu.d, Ledger(before.pools, Start(before.pending, p.block, e, id), before.open),
                  Now(p, t, held[e := id]), t, p.block, view, e, slot, id, held);
    }

    lemma NowHas(p: BlockPool, t: Books, held: map<int, nat>)
      ensures p.block in Now(p, t, held).pools && Now(p, t, held).pools[p.block] == p.View()
    {}

    /** Admit number `k` of the newly wanted experts, if a slot can be had for it. */
    method AdmitNext(p: BlockPool, protected: set<int>, newly: seq<int>, k: nat, ghost t: Books,
                     ghost base: seq<int>, ghost tail: seq<int>, ghost v: PoolView,
                     ghost held: map<int, nat>, ghost events: seq<nat>)
      returns (ok: bool, id: nat)
      requires HostOk() && TierOk(gpu.d, Now(p, t, held)) && StatesBut(p.View(), held)
      requires Splits(v.lru, base, tail, protected) && NoDup(newly) && k < |newly|
      requires (forall e :: e in v.lru ==> e in v.slotOf) && forall x :: x in newly ==> x in protected && x !in v.slotOf
      requires Progress(v, base, tail, newly, p.View(), k) && HeldIs(held, newly[..k], events)
      requires held.Keys !! p.inflight.Keys && p.block !in t.open && slotsEach > 0
      modifies gpu, p, `stageI, `stageInflight, `evFree, `evCreated, `peak, `evictions
      ensures HostOk() && gpu.d.computeQ == old(gpu.d.computeQ)
      ensures ok ==> TierOk(gpu.d, Now(p, t, held[newly[k] := id])) && StatesBut(p.View(), held[newly[k] := id])
      ensures ok ==> Progress(v, base, tail, newly, p.View(), k + 1)
      ensures ok ==> HeldIs(held[newly[k] := id], newly[..k + 1], events + [id])
      ensures ok ==> held[newly[k] := id].Keys !! p.inflight.Keys
      ensures !ok ==> TierOk(gpu.d, Now(p, t, held)) && StatesBut(p.View(), held) && held.Keys !! p.inflight.Keys
      ensures !ok ==> Max(0, |newly| - |v.freeSlots|) > |base|
      ensures ok ==> evictions == old(evictions) + if k < |v.freeSlots| then 0 else 1
    {
      hide TierOk, StatesBut, Inv, HostOk, Progress, HeldIs, Kept, PoolOk, NoDup, Splits;
      id := 0;
      ghost var before := p.View();
      Absent(gpu.d, Now(p, t, held), v, p.block, before, base, tail, newly, k, protected, held, events);
      ghost var i: nat;
      var slot: nat;
      FreeLeft(v, base, tail, newly, before, k);
      ok, slot, i := NextSlot(p, protected, t, held);
      if !ok {
        return;
      }
      ghost var mid := p.View();
      NextKeeps(before, mid, protected, i, newly[k]);
      id := Admit(p, newly[k], slot, t, held);
      ProgressStep(v, base, tail, newly, before, k, mid, protected, i, slot);
      HeldNext(held, newly, events, k, id);
    }

    /** Admit the distinct misses in request order, each into a free slot or the oldest
        unprotected one. Fails part-way when every slot left is protected. */
    method AdmitMisses(p: BlockPool, protected: set<int>, newly: seq<int>, ghost t: Books,
                       ghost base: seq<int>, ghost tail: seq<int>)
      returns (ok: bool, events: seq<nat>, ghost held: map<int, nat>)
      requires HostOk() && TierOk(gpu.d, Now(p, t, map[])) && StatesBut(p.View(), map[])
      requires Splits(p.lru, base, tail, protected) && NoDup(newly)
      requires forall x :: x in newly ==> x in protected && x !in p.slotOf
      requires p.block !in t.open && slotsEach > 0
      modifies gpu, p, `stageI, `stageInflight, `evFree, `evCreated, `peak, `evictions
      ensures HostOk() && TierOk(gpu.d, Now(p, t, held)) && StatesBut(p.View(), held)
      ensures gpu.d.computeQ == old(gpu.d.computeQ)
      ensures ok <==> Max(0, |newly| - |old(p.freeSlots)|) <= |base|
      ensures ok ==> Progress(old(p.View()), base, tail, newly, p.View(), |newly|) && HeldIs(held, newly, events)
      ensures held.Keys !! p.inflight.Keys
      ensures ok ==> evictions == old(evictions) + Max(0, |newly| - |old(p.freeSlots)|)
    {
      hide TierOk, StatesBut, Inv, HostOk, Progress, HeldIs, Splits, NoDup, Now;
      ghost var v := p.View();
      ok, events, held := true, [], map[];
      NowHas(p, t, held);
      StartProgress(gpu.d, Now(p, t, held), p.block, v, base, tail, newly, protected);
      var k := 0;
      while k < |newly|
        invariant 0 <= k <= |newly|
        invariant HostOk() && TierOk(gpu.d, Now(p, t, held)) && StatesBut(p.View(), held)
        invariant gpu.d.computeQ == old(gpu.d.computeQ)
        invariant Progress(v, base, tail, newly, p.View(), k) && HeldIs(held, newly[..k], events)
        invariant held.Keys !! p.inflight.Keys
        invariant evictions == old(evictions) + Max(0, k - |v.freeSlots|)
      {
        var id;
        ok, id := AdmitNext(p, protected, newly, k, t, base, tail, v, held, events);
        if !ok {
          return;
        }
        held := held[newly[k] := id];
        events := events + [id];
        k := k + 1;
      }
      FullProgress(v, base, tail, newly, p.View(), k);
      assert newly[..k] == newly;
    }

    /** Keep the prefetch reserve clear: shed the oldest unprotected residents. The slots
        they leave are not put back on the free list. */
    method ShedReserve(p: BlockPool, protected: set<int>, softCap: int, ghost t: Books, ghost held: map<int, nat>,
                       ghost base: seq<int>, ghost tail: seq<int>)
      requires HostOk() && TierOk(gpu.d, Now(p, t, held)) && StatesBut(p.View(), held)
      requires held.Keys !! p.inflight.Keys && held.Keys <= protected
      requires Splits(p.lru, base, tail, protected) && |p.slotOf| - softCap <= |base|
      modifies p, `evFree, `evictions
      ensures HostOk() && TierOk(gpu.d, Now(p, t, held)) && StatesBut(p.View(), held)
      ensures held.Keys !! p.inflight.Keys
      ensures ShedProgress(old(p.View()), base, tail, p.View(), Max(0, |old(p.slotOf)| - softCap))
      ensures evictions == old(evictions) + Max(0, |old(p.slotOf)| - softCap)
    {
      hide TierOk, StatesBut, Inv, HostOk, Kept;
      ghost var v, m: nat := p.View(), 0;
      assert base[0..] == base;
      KeptSelf(v);
      while |p.slotOf| > softCap
        invariant HostOk() && TierOk(gpu.d, Now(p, t, held)) && StatesBut(p.View(), held)
        invariant held.Keys !! p.inflight.Keys
        invariant ShedProgress(v, base, tail, p.View(), m)
        invariant m <= Max(0, |v.slotOf| - softCap) && evictions == old(evictions) + m
        decreases |p.slotOf|
      {
        ghost var before := p.View();
        SoundPool(gpu.d, Now(p, t, held), p.block, before);
        NothingUnwanted(base[m..], tail, protected, p.lru);
        ghost var i: nat;
        var ok: bool, slot: nat;
        ok, slot, i := Evict(p, protected, t, held);
        if !ok {
          assert false;
          break;
        }
        ShedStep(v, base, tail, before, m, protected, i);
        m := m + 1;
      }
    }

    // ---- stall measurement ------------------------------------------------------------------

    /** Read back every pending stall pair, once each, in recording order. */
    method DrainStalls()
      requires Inv(gpu.d, gpu.w) && StallsOk()
      modifies gpu, `stallI, `stallPending, `drained
      ensures Inv(gpu.d, gpu.w) && Later(old(gpu.d), gpu.d, gpu.w)
      ensures StallsOk() && stallPending == 0 && |drained| == recorded
      ensures drained == old(drained) + old(ring)[..old(stallPending)]
    {
      hide Inv;
      ghost var was := drained;
      var n := if stallPending <= STALL_RING then stallPending else STALL_RING;
      for i := 0 to n
        invariant Inv(gpu.d, gpu.w) && Later(old(gpu.d), gpu.d, gpu.w)
        invariant stallPending == old(stallPending) && stallI == old(stallI)
        invariant drained == was + ring[..i]
      {
        gpu.EventSync(StallBegin(i));
        gpu.EventSync(StallEnd(i));
        drained := drained + [ring[i]];
        assert ring[..i + 1] == ring[..i] + [ring[i]];
      }
      stallPending, stallI := 0, 0;
    }

    /** Wait on each transfer's own event, returning it to the pool. */
    method AwaitTransfers(p: BlockPool, newly: seq<int>, events: seq<nat>, ghost t: Books, ghost held: map<int, nat>)
      requires HostOk() && TierOk(gpu.d, Now(p, t, held))
      requires HeldIs(held, newly, events) && NoDup(newly) && held.Keys !! p.inflight.Keys
      modifies gpu, `evFree
      ensures HostOk() && TierOk(gpu.d, Now(p, t, map[]))
      ensures NoTraffic(old(gpu.d), gpu.d)
    {
      hide TierOk, Inv, NoTraffic;
      ghost var d0, view, rest := gpu.d, p.View(), held;
      QuietRefl(d0, Now(p, t, held));
      for k := 0 to |events|
        invariant HostOk() && TierOk(gpu.d, Now(p, t, rest)) && rest.Keys <= held.Keys
        invariant NoTraffic(d0, gpu.d) && HeldIs(rest, newly[k..], events[k..])
      {
        ghost var d1, before := gpu.d, Now(p, t, rest);
        HeldTyped(d1, before, t, p.block, view, newly[k..], events[k..], rest);
        gpu.WaitEvent(ComputeStream, TransferEvent(events[k]));
        EvPut(events[k]);
        HeldRest(rest, newly, events, k);
        HeldLanded(d1, gpu.d, before, Now(p, t, Drop(rest, newly[k])), t, p.block, view, newly[k], rest, gpu.w);
        QuietTrans(d0, d1, gpu.d);
        rest := Drop(rest, newly[k]);
      }
      assert rest == map[] by { assert newly[|events|..] == []; }
    }

    /** The awaited experts become usable. */
    method Settle(p: BlockPool, newly: seq<int>)
      modifies p`state
      ensures p.state == SetResident(old(p.state), newly)
    {
      for k := 0 to |newly|
        invariant p.state == SetResident(old(p.state), newly[..k])
      {
        assert newly[..k + 1] == newly[..k] + [newly[k]];
        p.state := p.state[newly[k] := GpuResident];
      }
      assert newly[..|newly|] == newly;
    }

    method BeginStall(ghost ledger: Books) returns (pair: nat)
      requires Inv(gpu.d, gpu.w) && StallsOk() && TierOk(gpu.d, ledger)
      modifies gpu, `stallI, `stallPending, `drained
      ensures Inv(gpu.d, gpu.w) && StallsOk() && TierOk(gpu.d, ledger)
      ensures NoTraffic(old(gpu.d), gpu.d) && pair == stallI && stallPending < STALL_RING
      ensures |gpu.d.stage| == old(|gpu.d.stage|)
    {
      ghost var d0 := gpu.d;
      if stallPending >= STALL_RING {
        DrainStalls();
      }
      QuietAfter(d0, gpu.d, ledger, gpu.w);
      pair := stallI;
      ghost var d1 := gpu.d;
      gpu.RecordEvent(ComputeStream, StallBegin(pair));
      QuietRecord(d0, d1, gpu.d, ledger, StallBegin(pair), gpu.w);
    }

    method EndStall(pair: nat, ghost ledger: Books)
      requires Inv(gpu.d, gpu.w) && StallsOk() && TierOk(gpu.d, ledger)
      requires pair == stallI && stallPending < STALL_RING
      modifies gpu, `stallI, `stallPending, `ring, `recorded
      ensures Inv(gpu.d, gpu.w) && StallsOk() && TierOk(gpu.d, ledger)
      ensures NoTraffic(old(gpu.d), gpu.d) && recorded == old(recorded) + 1
      ensures |gpu.d.stage| == old(|gpu.d.stage|)
    {
      ghost var d0 := gpu.d;
      QuietRefl(d0, ledger);
      gpu.RecordEvent(ComputeStream, StallEnd(pair));
      QuietRecord(d0, d0, gpu.d, ledger, StallEnd(pair), gpu.w);
      ring := ring[stallI := recorded];
      recorded := recorded + 1;
      stallI := (stallI + 1) % STALL_RING;
      stallPending := stallPending + 1;
    }

    /** Make the compute stream wait for this call's transfers, between two stall marks. */
    method AwaitMisses(p: BlockPool, newly: seq<int>, events: seq<nat>, ghost t: Books, ghost held: map<int, nat>)
      requires HostOk() && StallsOk() && TierOk(gpu.d, Now(p, t, held)) && StatesBut(p.View(), held)
      requires HeldIs(held, newly, events) && NoDup(newly) && held.Keys !! p.inflight.Keys
      requires forall x :: x in newly ==> x in p.slotOf
      modifies gpu, p`state, `evFree, `stallI, `stallPending, `ring, `recorded, `drained
      ensures HostOk() && StallsOk() && TierOk(gpu.d, Now(p, t, map[])) && StatesBut(p.View(), map[])
      ensures NoTraffic(old(gpu.d), gpu.d)
      ensures recorded == old(recorded) + 1
    {
      hide TierOk, StatesBut, Inv, NoTraffic, HeldIs, StallsOk;
      ghost var d0, view := gpu.d, p.View();
      var pair := BeginStall(Now(p, t, held));
      ghost var d1 := gpu.d;
      AwaitTransfers(p, newly, events, t, held);
      QuietTrans(d0, d1, gpu.d);
      ghost var d2 := gpu.d;
      EndStall(pair, Now(p, t, map[]));
      QuietTrans(d0, d2, gpu.d);
      ghost var before := Now(p, t, map[]);
      Settle(p, newly);
      SettleLedger(gpu.d, before, Now(p, t, map[]), t, p.block, view, p.View(), newly, events, held);
    }

    /** Touch the hits, admit the misses, shed down to the reserve, wait for the transfers. */
    method Serve(p: BlockPool, want: seq<int>, ghost t: Books, ghost v: PoolView) returns (ok: bool)
      requires HostOk() && StallsOk() && TierOk(gpu.d, Now(p, t, map[])) && StatesBut(p.View(), map[])
      requires LossBounded(p.View(), prefetchSlots) && p.block !in t.open && slotsEach > 0 && v == p.View()
      modifies gpu, p, `stageI, `stageInflight, `evFree, `evCreated, `peak, `evictions, `hits, `misses, `prefetchHits
      modifies `stallI, `stallPending, `ring, `recorded, `drained
      ensures ok <==> |Elems(want)| <= |v.freeSlots| + |v.slotOf|
      ensures hits + misses == old(hits + misses) + |want|
      ensures misses == old(misses) + |Without(want, v.slotOf.Keys)|
      ensures prefetchHits == old(prefetchHits) + Landed(v.inflight.Keys, want)
      ensures ok ==> evictions == old(evictions) + Evicted(v, want) + Shed(v, want, prefetchSlots)
      ensures ok ==> HostOk() && StallsOk() && TierOk(gpu.d, Now(p, t, map[])) && StatesBut(p.View(), map[])
      ensures ok ==> Ensured(v, p.View(), want, prefetchSlots)
      ensures ok ==> Program(gpu.d, gpu.w) == old(Program(gpu.d, gpu.w))
    {
      hide TierOk, StatesBut, Inv, HostOk, NoTraffic, Program, Ensured, Touched, HeldIs, Kept, StallsOk;
      hide Without, Only, LastOcc, FirstOcc, NoDup, PoolOk, Landed, Evicted, Shed, LossBounded;
      ghost var d0 := gpu.d;
      SoundPool(d0, Now(p, t, map[]), p.block, v);
      var missed := TouchHits(p, want, t);
      SameProgram(d0, gpu.d, gpu.w);
      ok := ServeMisses(p, want, missed, t, v);
    }

    /** The rest of an admission, once the hits are touched. */
    method ServeMisses(p: BlockPool, want: seq<int>, missed: seq<int>, ghost t: Books, ghost v: PoolView)
      returns (ok: bool)
      requires HostOk() && StallsOk() && TierOk(gpu.d, Now(p, t, map[])) && StatesBut(p.View(), map[])
      requires PoolOk(v) && LossBounded(v, prefetchSlots) && p.block !in t.open && slotsEach > 0
      requires p.View() == v.(lru := p.lru, state := p.state, inflight := p.inflight)
      requires p.lru == Touched(v.lru, Only(want, v.slotOf.Keys)) && FirstOcc(missed) == Fresh(v, want)
      requires p.inflight.Keys == v.inflight.Keys - Elems(want) && Kept(v, p.View())
      modifies gpu, p, `stageI, `stageInflight, `evFree, `evCreated, `peak, `evictions
      modifies `stallI, `stallPending, `ring, `recorded, `drained
      ensures ok <==> |Elems(want)| <= |v.freeSlots| + |v.slotOf|
      ensures ok ==> evictions == old(evictions) + Evicted(v, want) + Shed(v, want, prefetchSlots)
      ensures ok ==> HostOk() && StallsOk() && TierOk(gpu.d, Now(p, t, map[])) && StatesBut(p.View(), map[])
      ensures ok ==> Ensured(v, p.View(), want, prefetchSlots)
      ensures ok ==> Program(gpu.d, gpu.w) == old(Program(gpu.d, gpu.w))
    {
      hide TierOk, StatesBut, Inv, HostOk, NoTraffic, Program, Ensured, Touched, HeldIs, Kept, StallsOk;
      hide Without, Only, LastOcc, FirstOcc, Fresh, NoDup, PoolOk, Evicted, Shed, LossBounded;
      var newly := FirstOcc(missed);
      ghost var held: map<int, nat>;
      var events: seq<nat>;
      ghost var d1 := gpu.d;
      ok, events, held := FillAndShed(p, want, newly, t, v);
      if !ok {
        return;
      }
      ghost var d2, shed := gpu.d, p.View();
      Collect(p, missed, newly, events, t, held);
      ProgramAfter(d1, d2, gpu.d, gpu.w);
      EnsuredSettled(v, shed, p.View(), want, prefetchSlots);
    }

    /** Wait for this call's own transfers, if it made any. */
    method Collect(p: BlockPool, missed: seq<int>, newly: seq<int>, events: seq<nat>, ghost t: Books,
                   ghost held: map<int, nat>)
      requires HostOk() && StallsOk() && TierOk(gpu.d, Now(p, t, held)) && StatesBut(p.View(), held)
      requires newly == FirstOcc(missed) && HeldIs(held, newly, events) && held.Keys !! p.inflight.Keys
      requires forall x :: x in newly ==> x in p.slotOf
      modifies gpu, p`state, `evFree, `stallI, `stallPending, `ring, `recorded, `drained
      ensures HostOk() && StallsOk() && TierOk(gpu.d, Now(p, t, map[])) && StatesBut(p.View(), map[])
      ensures NoTraffic(old(gpu.d), gpu.d)
      ensures p.View() == old(p.View()).(state := p.state)
    {
      hide TierOk, StatesBut, Inv, HostOk, NoTraffic, HeldIs, StallsOk, FirstOcc;
      if missed != [] {
        FirstOccNoDup(missed);
        AwaitMisses(p, newly, events, t, held);
      } else {
        NothingHeld(held, missed, newly, events);
        QuietRefl(gpu.d, Now(p, t, held));
      }
    }

    lemma SoundNow(p: BlockPool, t: Books, held: map<int, nat>)
      requires TierOk(gpu.d, Now(p, t, held))
      ensures PoolOk(p.View())
    {
      SoundPool(gpu.d, Now(p, t, held), p.block, p.View());
    }

    /** The first half of admission: every distinct miss gets a slot and its copy started. */
    method Fill(p: BlockPool, want: seq<int>, newly: seq<int>, ghost t: Books, ghost v: PoolView)
      returns (ok: bool, events: seq<nat>, ghost held: map<int, nat>)
      requires HostOk() && TierOk(gpu.d, Now(p, t, map[])) && StatesBut(p.View(), map[])
      requires PoolOk(v) && p.block !in t.open && slotsEach > 0
      requires p.View() == v.(lru := p.lru, state := p.state, inflight := p.inflight)
      requires p.lru == Touched(v.lru, Only(want, v.slotOf.Keys)) && newly == Fresh(v, want)
      modifies gpu, p, `stageI, `stageInflight, `evFree, `evCreated, `peak, `evictions
      ensures ok <==> |Elems(want)| <= |v.freeSlots| + |v.slotOf|
      ensures ok ==> HostOk() && TierOk(gpu.d, Now(p, t, held)) && StatesBut(p.View(), held)
      ensures ok ==> HeldIs(held, newly, events) && held.Keys !! p.inflight.Keys && PoolOk(p.View())
      ensures ok ==> FilledFrom(v, old(p.View()), p.View(), want)
      ensures ok ==> evictions == old(evictions) + Evicted(v, want)
      ensures gpu.d.computeQ == old(gpu.d.computeQ)
    {
      hide TierOk, StatesBut, Inv, HostOk, Program, Progress, Touched, HeldIs, Kept;
      hide Without, Only, LastOcc, FirstOcc, NoDup, PoolOk, Now, Splits;
      ghost var base, tail := Without(v.lru, Elems(want)), LastOcc(Only(want, v.slotOf.Keys));
      TouchedSplits(v, want);
      FirstOccNoDup(Without(want, v.slotOf.Keys));
      FitsExactly(v, want);
      FreshIsAbsent(v, want);
      ok, events, held := AdmitMisses(p, Elems(want), newly, t, base, tail);
      if ok {
        SoundNow(p, t, held);
      }
    }

    /** Admission proper, from the pool `v` the request found. */
    method FillAndShed(p: BlockPool, want: seq<int>, newly: seq<int>, ghost t: Books, ghost v: PoolView)
      returns (ok: bool, events: seq<nat>, ghost held: map<int, nat>)
      requires HostOk() && TierOk(gpu.d, Now(p, t, map[])) && StatesBut(p.View(), map[])
      requires PoolOk(v) && LossBounded(v, prefetchSlots) && p.block !in t.open && slotsEach > 0
      requires p.View() == v.(lru := p.lru, state := p.state, inflight := p.inflight)
      requires p.lru == Touched(v.lru, Only(want, v.slotOf.Keys)) && newly == Fresh(v, want)
      requires p.inflight.Keys == v.inflight.Keys - Elems(want) && Kept(v, p.View())
      modifies gpu, p, `stageI, `stageInflight, `evFree, `evCreated, `peak, `evictions
      ensures ok <==> |Elems(want)| <= |v.freeSlots| + |v.slotOf|
      ensures ok ==> HostOk() && TierOk(gpu.d, Now(p, t, held)) && StatesBut(p.View(), held)
      ensures ok ==> HeldIs(held, newly, events) && held.Keys !! p.inflight.Keys
      ensures ok ==> forall x :: x in newly ==> x in p.slotOf
      ensures ok ==> Ensured(v, p.View(), want, prefetchSlots)
      ensures ok ==> evictions == old(evictions) + Evicted(v, want) + Shed(v, want, prefetchSlots)
      ensures gpu.d.computeQ == old(gpu.d.computeQ)
    {
      hide TierOk, StatesBut, Inv, HostOk, Program, Progress, ShedProgress, Ensured, Touched, HeldIs, Kept;
      hide Without, Only, LastOcc, FirstOcc, NoDup, PoolOk, Now, Splits, LossBounded;
      ghost var touched := p.View();
      ok, events, held := Fill(p, want, newly, t, v);
      if !ok {
        return;
      }
      ghost var filled := p.View();
      ghost var base, tail := Without(v.lru, Elems(want)), LastOcc(Only(want, v.slotOf.Keys));
      Filled(v, touched, filled, want, prefetchSlots, held, events);
      var reserve := Min(prefetchSlots, Max(0, p.nSlots - |Elems(want)|));
      ShedReserve(p, Elems(want), p.nSlots - reserve, t, held, base[Evicted(v, want)..], tail + newly);
      SoundNow(p, t, held);
      Finished(v, touched, filled, p.View(), want, prefetchSlots);
    }

    // ---- the tier's entry points --------------------------------------------------------------

    /** The newcomers fill the free slots and then replace residents; what then exceeds both the
        request and the slots beside the prefetch reserve is shed, and its slots are lost. */
    ghost predicate ReserveKept(v: PoolView, p: PoolView, want: seq<int>) {
      var came := |Elems(want) - v.slotOf.Keys|;
      var filled := |v.slotOf| + Min(came, |v.freeSlots|);
      && |p.slotOf| == Min(filled, Max(slotsEach - prefetchSlots, |Elems(want)|))
      && |p.freeSlots| == Max(0, |v.freeSlots| - came)
    }

    /** Make every requested expert resident and return their slots, in request order. */
    method Ensure(block: int, want: seq<int>) returns (r: Admission)
      requires Valid()
      modifies this, gpu, PoolSet(block)
      ensures r.NoBlock? <==> block !in pools
      ensures r.NoSlots? <==> block in pools && slotsEach == 0
      ensures r.TooMany? <==> block in pools && 0 < slotsEach < |Elems(want)|
      ensures r.Slots? <==> (block in pools && slotsEach > 0 && |Elems(want)| <= old(Usable(block)))
      ensures !r.AllProtected? ==> Valid()
      ensures r.NoBlock? || r.NoSlots? || r.TooMany? ==> gpu.d == old(gpu.d) && Views() == old(Views())
      ensures r.Slots? ==> SlotsMatch(pools[block].View(), want, r.slots)
      ensures r.Slots? ==> Ensured(old(pools[block].View()), pools[block].View(), want, prefetchSlots)
      ensures r.Slots? ==> Program(gpu.d, gpu.w) == old(Program(gpu.d, gpu.w))
      ensures r.Slots? || r.AllProtected? ==> requests == old(requests) + |want|
      ensures r.Slots? || r.AllProtected? ==>
        var p := old(pools[block].View());
        && misses == old(misses) + |Without(want, p.slotOf.Keys)|
        && prefetchHits == old(prefetchHits) + Landed(p.inflight.Keys, want)
      ensures r.Slots? ==> ReserveKept(old(pools[block].View()), pools[block].View(), want)
      ensures r.Slots? ==>
        var was := old(pools[block].slotOf).Keys;
        evictions == old(evictions) + |was + Elems(want)| - |pools[block].slotOf|
    {
      hide TierOk, StatesBut, Inv, HostOk, Program, Ensured;
      hide StallsOk, LossBounded, PoolOk, Now, SteadyViews, SlotsMatch, Views;
      hide ReserveKept, Landed, Evicted, Shed, Without, Elems;
      if block !in pools {
        return NoBlock;
      }
      var p := pools[block];
      if p.nSlots == 0 {
        return NoSlots;
      }
      ghost var t := Ledger(Views(), Inflights(), {});
      OpenPool(p, t, {});
      LruBound(p.View(), prefetchSlots);
      if |Elems(want)| > p.nSlots {
        return TooMany;
      }
      requests := requests + |want|;
      ghost var v := p.View();
      r := Respond(p, want, t, v, Program(gpu.d, gpu.w));
      assert r.Slots? ==> ValidBut({});
      if r.Slots? {
        Counted(v, p.View(), want);
      }
    }

    lemma Counted(v: PoolView, p: PoolView, want: seq<int>)
      requires LossBounded(v, prefetchSlots) && v.nSlots == slotsEach && Ensured(v, p, want, prefetchSlots)
      ensures ReserveKept(v, p, want)
      ensures Evicted(v, want) + Shed(v, want, prefetchSlots) == |v.slotOf.Keys + Elems(want)| - |p.slotOf|
    {
      hide Ensured, LossBounded, Evicted, Shed, Elems;
      ResidentCount(v, p, want, prefetchSlots);
      VictimCount(v, p, want, prefetchSlots);
    }

    method Respond(p: BlockPool, want: seq<int>, ghost t: Books, ghost v: PoolView, ghost program: seq<Read>)
      returns (r: Admission)
      requires HostOk() && StallsOk() && Distinct() && p.block in pools && pools[p.block] == p && slotsEach > 0
      requires t == Ledger(Views(), Inflights(), {}) && SteadyViews(t.pools, prefetchSlots)
      requires TierOk(gpu.d, Now(p, t, map[])) && StatesBut(p.View(), map[]) && LossBounded(p.View(), prefetchSlots)
      requires requests == hits + misses + |want| && v == p.View() && program == Program(gpu.d, gpu.w)
      modifies this, gpu, p
      ensures requests == old(requests)
      ensures r == AllProtected || r.Slots?
      ensures r.Slots? <==> |Elems(want)| <= |v.freeSlots| + |v.slotOf|
      ensures r.Slots? ==> ValidBut({}) && SlotsMatch(p.View(), want, r.slots)
      ensures r.Slots? ==> Ensured(v, p.View(), want, prefetchSlots) && Program(gpu.d, gpu.w) == program
      ensures misses == old(misses) + |Without(want, v.slotOf.Keys)|
      ensures prefetchHits == old(prefetchHits) + Landed(v.inflight.Keys, want)
      ensures r.Slots? ==> evictions == old(evictions) + Evicted(v, want) + Shed(v, want, prefetchSlots)
    {
      hide TierOk, StatesBut, Inv, HostOk, Program, Ensured, StallsOk, LossBounded, PoolOk, Now, FirstOcc;
      hide SteadyViews, ValidBut, SlotsMatch, SlotList, Distinct, OthersAre, Views, Inflights;
      OthersNow(p, t);
      var ok := Serve(p, want, t, v);
      if !ok {
        return AllProtected;
      }
      EnsuredKeepsBound(v, p.View(), want, prefetchSlots);
      CloseOver(p, t);
      Answered(p, t, v, want);
      return Slots(SlotList(p.slotOf, want));
    }

    lemma Answered(p: BlockPool, t: Books, v: PoolView, want: seq<int>)
      requires TierOk(gpu.d, Now(p, t, map[])) && Ensured(v, p.View(), want, prefetchSlots)
      ensures forall i :: 0 <= i < |want| ==> want[i] in p.slotOf
      ensures SlotsMatch(p.View(), want, SlotList(p.slotOf, want))
    {
      hide TierOk, Ensured, PoolOk, SlotsMatch;
      SoundNow(p, t, map[]);
      WantedResident(v, p.View(), want, prefetchSlots);
      SlotsAnswer(p.View(), want);
    }

    /** Slots a request can still use: those shed were lost. */
    ghost function Usable(block: int): nat
      requires block in pools
      reads pools[block]
    {
      |pools[block].freeSlots| + |pools[block].slotOf|
    }

    lemma PoolIsSound(block: int)
      requires Valid() && block in pools
      ensures PoolOk(pools[block].View())
    {
      assert block in Views();
    }

    /** The bank has pinned a block: from now on its experts are copied straight from memory. */
    method NotePinned(block: int)
      requires Valid()
      modifies `warm
      ensures Valid() && warm == old(warm) + {block}
      ensures gpu.d == old(gpu.d) && Views() == old(Views())
    {
      warm := warm + {block};
    }

    /** Advice: copy experts not yet asked for into slots that are already free. Evicts and
        moves nothing; `k` is how many of the distinct candidates were looked at. */
    method Prefetch(block: int, cands: seq<int>) returns (n: nat, ghost k: nat)
      requires Valid() && block in pools
      modifies this, gpu, PoolSet(block)
      ensures Valid() && Program(gpu.d, gpu.w) == old(Program(gpu.d, gpu.w))
      ensures slotsEach == 0 || prefetchSlots == 0 ==>
        n == 0 && k == 0 && gpu.d == old(gpu.d) && Views() == old(Views())
      ensures slotsEach > 0 && prefetchSlots > 0 ==>
        Prefetched(old(pools[block].View()), pools[block].View(), FirstOcc(cands), n, k)
      ensures prefetchIssued == old(prefetchIssued) + n
      ensures requests == old(requests) && evictions == old(evictions)
    {
      hide TierOk, Inv, HostOk, Program, StallsOk, FirstOcc, Prefetched, PoolSteady, Views;
      n, k := 0, 0;
      var p := pools[block];
      if p.nSlots == 0 || prefetchSlots == 0 {
        return;
      }
      n, k := PrefetchBlock(p, cands);
      prefetchIssued := prefetchIssued + n;
    }

    method PrefetchBlock(p: BlockPool, cands: seq<int>) returns (n: nat, ghost k: nat)
      requires Valid() && p.block in pools && pools[p.block] == p && slotsEach > 0 && prefetchSlots > 0
      modifies gpu, p, `stageI, `stageInflight, `evFree, `evCreated, `peak
      ensures Valid() && Program(gpu.d, gpu.w) == old(Program(gpu.d, gpu.w))
      ensures Prefetched(old(p.View()), p.View(), FirstOcc(cands), n, k)
    {
      hide TierOk, StatesBut, Inv, HostOk, Program, StallsOk;
      hide LossBounded, PoolOk, Now, SteadyViews, FirstOcc, Prefetched;
      ghost var t := Ledger(Views(), Inflights(), {});
      OpenPool(p, t, {});
      FirstOccNoDup(cands);
      ghost var d0 := gpu.d;
      n, k := PrefetchInto(p, FirstOcc(cands), t);
      ProgramOfQueue(d0, gpu.d, gpu.w);
      ClosePool(p, t, {});
    }

    method PrefetchInto(p: BlockPool, todo: seq<int>, ghost t: Books) returns (n: nat, ghost k: nat)
      requires HostOk() && TierOk(gpu.d, Now(p, t, map[])) && StatesBut(p.View(), map[])
      requires LossBounded(p.View(), prefetchSlots) && p.block !in t.open && slotsEach > 0 && NoDup(todo)
      modifies gpu, p, `stageI, `stageInflight, `evFree, `evCreated, `peak
      ensures HostOk() && TierOk(gpu.d, Now(p, t, map[])) && StatesBut(p.View(), map[])
      ensures LossBounded(p.View(), prefetchSlots)
      ensures gpu.d.computeQ == old(gpu.d.computeQ)
      ensures Prefetched(old(p.View()), p.View(), todo, n, k)
    {
      hide TierOk, StatesBut, Inv, HostOk, PoolOk, Now, PrefetchedSoFar, PrefetchedLru, Newcomers, NoDup, LossBounded;
      ghost var v := p.View();
      n, k := 0, 0;
      var j := 0;
      PrefetchStart(v, todo);
      SoundNow(p, t, map[]);
      FlightsResident(p, t);
      while j < |todo|
        invariant 0 <= j <= |todo| && k == j
        invariant HostOk() && TierOk(gpu.d, Now(p, t, map[])) && StatesBut(p.View(), map[])
        invariant gpu.d.computeQ == old(gpu.d.computeQ)
        invariant PrefetchedSoFar(v, p.View(), todo, n, j)
      {
        var e := todo[j];
        ghost var before := p.View();
        NotYetPrefetched(v, before, todo, n, j);
        if e in p.slotOf {
          if e !in p.inflight {
            Refresh(p, e, t);
          }
          PrefetchResident(v, before, p.View(), todo, n, j);
        } else {
          if p.freeSlots == [] {
            break;
          }
          var id := FetchAhead(p, e, t);
          PrefetchNewcomer(v, before, p.View(), todo, n, j, id);
          n := n + 1;
        }
        j := j + 1;
        k := j;
      }
      PrefetchEnd(v, p.View(), todo, n, k, prefetchSlots);
    }

    /** A settled resident named again moves to the fresh end of the recency list. */
    method Refresh(p: BlockPool, e: int, ghost t: Books)
      requires TierOk(gpu.d, Now(p, t, map[])) && StatesBut(p.View(), map[]) && e in p.slotOf
      modifies p`lru
      ensures TierOk(gpu.d, Now(p, t, map[])) && StatesBut(p.View(), map[])
      ensures p.lru == MoveToEnd(old(p.lru), e)
    {
      hide TierOk, StatesBut, MoveToEnd;
      ghost var before, view := Now(p, t, map[]), p.View();
      p.lru := MoveToEnd(p.lru, e);
      TouchLedger(gpu.d, before, Now(p, t, map[]), t, p.block, view, p.View(), e);
    }

    /** Start a speculative copy into the first free slot; no one waits for it yet. */
    method FetchAhead(p: BlockPool, e: int, ghost t: Books) returns (id: nat)
      requires HostOk() && TierOk(gpu.d, Now(p, t, map[])) && StatesBut(p.View(), map[])
      requires e !in p.slotOf && p.freeSlots != [] && p.block !in t.open && slotsEach > 0
      modifies gpu, p, `stageI, `stageInflight, `evFree, `evCreated, `peak
      ensures HostOk() && TierOk(gpu.d, Now(p, t, map[])) && StatesBut(p.View(), map[])
      ensures gpu.d.computeQ == old(gpu.d.computeQ)
      ensures var a := AdmitView(TakeFree(old(p.View())), e, old(p.freeSlots)[0], Transferring);
        p.View() == a.(inflight := a.inflight[e := id])
    {
      hide TierOk, StatesBut, Inv, HostOk;
      ghost var before, view := Now(p, t, map[]), p.View();
      var slot := p.freeSlots[0];
      p.freeSlots := p.freeSlots[1..];
      TakeLedger(gpu.d, before, Now(p, t, map[]), t, p.block, view, map[]);
      id := Admit(p, e, slot, t, map[]);
      ghost var admitted, mid := p.View(), Now(p, t, map[e := id]);
      p.inflight := p.inflight[e := id];
      FlightLedger(gpu.d, mid, Now(p, t, map[]), t, p.block, admitted, p.View(), e, id);
    }

    /** Seed a block's pool synchronously; returns how many experts fit. */
    method Preload(block: int, experts: seq<int>) returns (n: nat)
      requires Valid() && block in pools
      modifies gpu, PoolSet(block)
      ensures Valid() && Program(gpu.d, gpu.w) == old(Program(gpu.d, gpu.w))
      ensures var todo := Wanted(old(pools[block].View()), experts);
        n == Min(|todo|, |old(pools[block].freeSlots)|) &&
          Seeded(old(pools[block].View()), pools[block].View(), todo[..n])
    {
      hide TierOk, StatesBut, Inv, HostOk, Program, StallsOk, LossBounded, PoolOk, Now, SteadyViews, Wanted, Seeded;
      var p := pools[block];
      ghost var t := Ledger(Views(), Inflights(), {});
      OpenPool(p, t, {});
      ghost var d0 := gpu.d;
      n := PreloadInto(p, experts, t);
      ProgramOfQueue(d0, gpu.d, gpu.w);
      ClosePool(p, t, {});
    }

    method PreloadInto(p: BlockPool, experts: seq<int>, ghost t: Books) returns (n: nat)
      requires HostOk() && TierOk(gpu.d, Now(p, t, map[])) && StatesBut(p.View(), map[]) &&
        LossBounded(p.View(), prefetchSlots)
      modifies gpu, p
      ensures HostOk() && TierOk(gpu.d, Now(p, t, map[])) && StatesBut(p.View(), map[]) &&
        LossBounded(p.View(), prefetchSlots)
      ensures gpu.d.computeQ == old(gpu.d.computeQ)
      ensures var todo := Wanted(old(p.View()), experts);
        n == Min(|todo|, |old(p.freeSlots)|) && Seeded(old(p.View()), p.View(), todo[..n])
    {
      hide TierOk, StatesBut, Inv, HostOk, LossBounded, Now, Wanted, Seeded;
      ghost var v := p.View();
      n := 0;
      SeededStart(v, experts);
      var j := 0;
      while j < |experts|
        invariant 0 <= j <= |experts|
        invariant HostOk() && TierOk(gpu.d, Now(p, t, map[])) && StatesBut(p.View(), map[])
        invariant gpu.d.computeQ == old(gpu.d.computeQ)
        invariant n == |Wanted(v, experts[..j])| && Seeded(v, p.View(), Wanted(v, experts[..j]))
      {
        if p.freeSlots == [] {
          break;
        }
        var e := experts[j];
        ghost var before := p.View();
        SeededKeys(v, before, experts, j);
        if e !in p.slotOf {
          SeedFree(p, e, t);
          SeededNext(v, before, Wanted(v, experts[..j]), e);
          n := n + 1;
        }
        j := j + 1;
      }
      SeededEnd(v, p.View(), experts, j, prefetchSlots);
    }

    /** Copy one expert into the first free slot at once, outside both streams. The slot was
        never used, so no enqueued copy writes it and no enqueued kernel reads it. */
    method SeedFree(p: BlockPool, e: int, ghost t: Books)
      requires HostOk() && TierOk(gpu.d, Now(p, t, map[])) && StatesBut(p.View(), map[])
      requires e !in p.slotOf && p.freeSlots != []
      modifies gpu, p
      ensures HostOk() && TierOk(gpu.d, Now(p, t, map[])) && StatesBut(p.View(), map[])
      ensures gpu.d.computeQ == old(gpu.d.computeQ)
      ensures p.View() == AdmitView(TakeFree(old(p.View())), e, old(p.freeSlots)[0], GpuResident)
    {
      hide TierOk, StatesBut, Inv, SlotUntouched;
      ghost var before, view := Now(p, t, map[]), p.View();
      var slot := p.freeSlots[0];
      p.freeSlots := p.freeSlots[1..];
      ghost var mid, taken := Now(p, t, map[]), p.View();
      TakeLedger(gpu.d, before, mid, t, p.block, view, map[]);
      FirstFree(gpu.d, before, t, p.block, view, e);
      SeedRoles(p.block, slot, e, mid);
      p.slotOf := p.slotOf[e := slot];
      p.expertOf := p.expertOf[slot := e];
      p.state := p.state[e := GpuResident];
      p.lru := p.lru + [e];
      SeedLedger(gpu.d, mid, Now(p, t, map[]), t, p.block, taken, e, slot);
    }

    /** Blocking copies of every role into a slot no kernel or transfer has touched. */
    method SeedRoles(b: int, slot: nat, e: int, ghost u: Books)
      requires HostOk() && TierOk(gpu.d, u) && SlotUntouched(gpu.d, b, slot)
      requires forall r: nat :: Vacant(u.pools, Cell(b, slot, r))
      modifies gpu
      ensures HostOk() && TierOk(gpu.d, u) && gpu.d.computeQ == old(gpu.d.computeQ)
      ensures SlotUntouched(gpu.d, b, slot) && SeededRoles(gpu.d, b, slot, e, ROLES)
    {
      hide TierOk, Inv, SlotUntouched;
      for r := 0 to ROLES
        invariant HostOk() && TierOk(gpu.d, u) && gpu.d.computeQ == old(gpu.d.computeQ)
        invariant SlotUntouched(gpu.d, b, slot) && SeededRoles(gpu.d, b, slot, e, r)
      {
        ghost var d1 := gpu.d;
        var x := Cell(b, slot, r);
        CellUntouched(d1, b, slot, r);
        gpu.MemcpyToDevice(x, e);
        SeedTier(d1, gpu.d, u, x, e, gpu.w);
        SeedUntouched(d1, gpu.d, b, slot, x, e, gpu.w);
      }
    }

    // ---- the executor's side --------------------------------------------------------------------

    /** Enqueue a kernel that reads, role by role, the slots of `ids`. */
    method SubmitKernel(block: int, slots: seq<nat>, ids: seq<int>)
      requires Valid() && block in pools && SlotsMatch(pools[block].View(), ids, slots)
      modifies gpu
      ensures ValidBut({block})
      ensures Program(gpu.d, gpu.w) == old(Program(gpu.d, gpu.w)) + BlockReads(block, ids, gpu.w)
    {
      hide TierOk, Inv, StallsOk, PoolSteady, HostOk, Program, SlotsMatch;
      ghost var t, p0 := Ledger(Views(), Inflights(), {block}), Program(gpu.d, gpu.w);
      OpenTier(gpu.d, Ledger(Views(), Inflights(), {}), block);
      assert {} + {block} == {block};
      for r := 0 to ROLES
        invariant HostOk() && TierOk(gpu.d, t)
        invariant Program(gpu.d, gpu.w) == p0 + RolesReads(block, ids, gpu.w, r)
      {
        SubmitRole(block, slots, ids, r, t);
      }
    }

    method SubmitRole(block: int, slots: seq<nat>, ids: seq<int>, r: nat, ghost t: Books)
      requires HostOk() && TierOk(gpu.d, t) && r < ROLES
      requires block in t.pools && block in t.open && block in t.pending
      requires SlotsMatch(t.pools[block], ids, slots) && t.pending[block] == t.pools[block].inflight
      modifies gpu
      ensures HostOk() && TierOk(gpu.d, t)
      ensures Program(gpu.d, gpu.w) == old(Program(gpu.d, gpu.w)) + RoleReads(block, ids, gpu.w, r)
    {
      hide TierOk, Inv, Program;
      ghost var p1 := Program(gpu.d, gpu.w);
      assert ids[..0] == [];
      for k := 0 to |ids|
        invariant HostOk() && TierOk(gpu.d, t)
        invariant Program(gpu.d, gpu.w) == p1 + RoleReads(block, ids[..k], gpu.w, r)
      {
        ghost var d1 := gpu.d;
        var x := Cell(block, slots[k], r);
        ResidentReady(d1, t, block, ids[k], r);
        gpu.LaunchLoad(x, ids[k]);
        LoadTier(d1, gpu.d, t, x, ids[k], gpu.w);
        LoadAppends(d1, gpu.d, x, ids[k], gpu.w);
        assert ids[..k + 1][..k] == ids[..k];
      }
      assert ids[..|ids|] == ids;
    }

    /** Anchor the block's read event behind the kernel just submitted. */
    method MarkSubmitted(block: int, ghost open: set<int>)
      requires ValidBut(open)
      modifies `readEv, gpu
      ensures ValidBut(open - {block}) && readEv == old(readEv) + {block}
      ensures Program(gpu.d, gpu.w) == old(Program(gpu.d, gpu.w))
    {
      hide TierOk, Inv, StallsOk, PoolSteady;
      ghost var d0, t := gpu.d, Ledger(Views(), Inflights(), open);
      readEv := readEv + {block};
      gpu.RecordEvent(ComputeStream, ReadEvent(block));
      MarkTier(d0, gpu.d, t, Ledger(Views(), Inflights(), open - {block}), block, gpu.w);
      MarkProgram(d0, gpu.d, t, block, gpu.w);
    }

    /** Wait until the compute stream has executed everything submitted. */
    method Drain()
      requires Valid()
      modifies gpu
      ensures Valid()
      ensures gpu.d.trace == Program(gpu.d, gpu.w) == old(Program(gpu.d, gpu.w))
    {
      hide TierOk, Inv, StallsOk, PoolSteady;
      ghost var d0, t := gpu.d, Ledger(Views(), Inflights(), {});
      gpu.SyncCompute();
      QuietAfter(d0, gpu.d, t, gpu.w);
      SameProgram(d0, gpu.d, gpu.w);
    }

    /** The ledger of all pools is the ledger as seen from inside a call on `p`. */
    lemma OpenPool(p: BlockPool, t: Books, open: set<int>)
      requires ValidBut(open) && p.block in pools && pools[p.block] == p
      requires t == Ledger(Views(), Inflights(), open)
      ensures HostOk() && StallsOk() && Distinct() && requests == hits + misses && TierOk(gpu.d, t)
      ensures Now(p, t, map[]) == t && StatesBut(p.View(), map[]) && LossBounded(p.View(), prefetchSlots)
      ensures SteadyViews(t.pools, prefetchSlots)
    {
      hide TierOk, HostOk, StallsOk, Inv;
      hide StatesBut, LossBounded;
      UnionNothing(p.inflight);
      assert t.pools[p.block := p.View()] == t.pools;
      assert t.pending[p.block := p.inflight] == t.pending;
      forall b | b in t.pools ensures StatesBut(t.pools[b], map[]) && LossBounded(t.pools[b], prefetchSlots) {
        assert PoolSteady(pools[b]);
      }
    }

    /** Every other block's pool is as the ledger says. */
    ghost predicate OthersAre(p: BlockPool, t: Books)
      reads pools.Values - {p}
    {
      && t.pools.Keys == pools.Keys == t.pending.Keys
      && forall b :: b in pools && pools[b] != p ==> pools[b].View() == t.pools[b] && t.pending[b] == pools[b].inflight
    }

    lemma OthersNow(p: BlockPool, t: Books)
      requires t == Ledger(Views(), Inflights(), t.open)
      ensures OthersAre(p, t)
    {}

    lemma CloseOver(p: BlockPool, t: Books)
      requires Distinct() && p.block in pools && pools[p.block] == p && OthersAre(p, t)
      requires SteadyViews(t.pools, prefetchSlots) && t.open == {}
      requires HostOk() && StallsOk() && requests == hits + misses
      requires TierOk(gpu.d, Now(p, t, map[])) && StatesBut(p.View(), map[]) && LossBounded(p.View(), prefetchSlots)
      ensures ValidBut({})
    {
      hide TierOk, HostOk, StallsOk, StatesBut, LossBounded, ValidBut, SteadyViews;
      ClosePool(p, t, {});
    }

    /** Back to the whole ledger, when only `p` and the tier's own fields changed. */
    lemma ClosePool(p: BlockPool, t: Books, open: set<int>)
      requires Distinct() && p.block in pools && pools[p.block] == p
      requires SteadyViews(t.pools, prefetchSlots) && t.pools.Keys == pools.Keys == t.pending.Keys && t.open == open
      requires forall b :: b in pools && b != p.block ==>
        pools[b].View() == t.pools[b] && t.pending[b] == pools[b].inflight
      requires HostOk() && StallsOk() && requests == hits + misses
      requires TierOk(gpu.d, Now(p, t, map[])) && StatesBut(p.View(), map[]) && LossBounded(p.View(), prefetchSlots)
      ensures ValidBut(open)
      ensures Views() == t.pools[p.block := p.View()]
    {
      hide TierOk, HostOk, StallsOk, Inv;
      hide StatesBut, LossBounded;
      UnionNothing(p.inflight);
      assert Views().Keys == t.pools[p.block := p.View()].Keys;
      forall b | b in pools ensures Views()[b] == t.pools[p.block := p.View()][b] {}
      assert Views() == t.pools[p.block := p.View()];
      forall b | b in pools ensures Inflights()[b] == t.pending[p.block := p.inflight][b] {}
      assert Inflights() == t.pending[p.block := p.inflight];
      assert Ledger(Views(), Inflights(), open) == Now(p, t, map[]);
      forall b | b in pools ensures PoolSteady(pools[b]) {
        assert b != p.block ==> StatesBut(t.pools[b], map[]) && LossBounded(t.pools[b], prefetchSlots);
      }
    }
  }

  ghost predicate SteadyViews(views: map<int, PoolView>, reserve: nat) {
    forall b :: b in views ==> StatesBut(views[b], map[]) && LossBounded(views[b], reserve)
  }

  /** Each request position gets the slot that maps back to exactly its expert. */
  ghost predicate SlotsMatch(p: PoolView, want: seq<int>, slots: seq<nat>) {
    |slots| == |want| && forall i :: 0 <= i < |want| ==>
      want[i] in p.slotOf && slots[i] == p.slotOf[want[i]] && want[i] !in p.inflight
      && slots[i] in p.expertOf && p.expertOf[slots[i]] == want[i]
  }

  /** `[p.slot_of[e] for e in want]`. */
  function SlotList(slotOf: map<int, nat>, want: seq<int>): seq<nat>
    requires forall i :: 0 <= i < |want| ==> want[i] in slotOf
  {
    seq(|want|, i requires 0 <= i < |want| => slotOf[want[i]])
  }

  lemma SlotsAnswer(p: PoolView, want: seq<int>)
    requires PoolOk(p) && forall e :: e in want ==> e in p.slotOf && e !in p.inflight
    ensures forall i :: 0 <= i < |want| ==> want[i] in p.slotOf
    ensures SlotsMatch(p, want, SlotList(p.slotOf, want))
  {
    forall i | 0 <= i < |want| ensures want[i] in p.slotOf && want[i] !in p.inflight {
      var e := want[i];
      assert e in want;
    }
    var slots := SlotList(p.slotOf, want);
    forall i | 0 <= i < |want| ensures slots[i] in p.expertOf && p.expertOf[slots[i]] == want[i] {
      var e := want[i];
      assert e in p.slotOf;
    }
  }

  lemma LruBound(p: PoolView, reserve: nat)
    requires LossBounded(p, reserve)
    ensures |p.freeSlots| + |p.slotOf| <= p.nSlots
  {}

  /** Every fresh expert of `want` was admitted, starting from the touched pool. */
  ghost predicate FilledFrom(v: PoolView, touched: PoolView, filled: PoolView, want: seq<int>) {
    Progress(touched, Without(v.lru, Elems(want)), LastOcc(Only(want, v.slotOf.Keys)),
             Fresh(v, want), filled, |Fresh(v, want)|)
  }

  /** Everything the enqueued kernels will deliver, once executed. */
  ghost function Program(d: Device, w: Weights): seq<Read> {
    Expected(d.computeQ, |d.computeQ|, w)
  }

  lemma ProgramAfter(d: Device, e: Device, f: Device, w: Weights)
    requires e.computeQ == d.computeQ && NoTraffic(e, f)
    ensures Program(f, w) == Program(d, w)
  {
    SameProgram(e, f, w);
    ProgramOfQueue(d, e, w);
  }

  lemma SameProgram(d: Device, e: Device, w: Weights)
    requires NoTraffic(d, e)
    ensures Program(e, w) == Program(d, w)
  {
    QuietProgram(d, e, w);
  }

  lemma OneMoreAsked(want: seq<int>, i: nat, keys: set<int>)
    requires i < |want|
    ensures Without(want[..i + 1], keys) ==
      if want[i] in keys then Without(want[..i], keys) else Without(want[..i], keys) + [want[i]]
    ensures Only(want[..i + 1], keys) ==
      if want[i] in keys then Only(want[..i], keys) + [want[i]] else Only(want[..i], keys)
    ensures Elems(want[..i + 1]) == Elems(want[..i]) + {want[i]}
  {
    assert want[..i + 1][..i] == want[..i];
    assert want[..i + 1] == want[..i] + [want[i]];
  }

  /** Prefetched experts the request names: each lands once. */
  ghost function Landed(flying: set<int>, want: seq<int>): nat {
    |flying * Elems(want)|
  }

  lemma OneMoreLanded(flying: set<int>, want: seq<int>, i: nat)
    requires i < |want|
    ensures Landed(flying, want[..i + 1]) ==
      Landed(flying, want[..i]) + if want[i] in flying - Elems(want[..i]) then 1 else 0
  {
    var asked, e := Elems(want[..i]), want[i];
    assert want[..i + 1] == want[..i] + [e];
    assert Elems(want[..i + 1]) == asked + {e};
    assert flying * (asked + {e}) == flying * asked + if e in flying - asked then {e} else {};
  }

  lemma NoneLanded(want: seq<int>, flying: set<int>)
    ensures Landed(flying, want[..0]) == 0
  {}

  lemma NoneAsked(want: seq<int>, keys: set<int>)
    ensures Without(want[..0], keys) == [] && Only(want[..0], keys) == [] && Elems(want[..0]) == {}
    ensures want[..|want|] == want
  {}

  lemma ProgramOfQueue(d: Device, e: Device, w: Weights)
    requires e.computeQ == d.computeQ
    ensures Program(e, w) == Program(d, w)
  {}

  lemma FreshIsAbsent(v: PoolView, want: seq<int>)
    ensures forall x :: x in Fresh(v, want) ==> x in Elems(want) && x !in v.slotOf
  {}

  /** The pool once the misses are in: what shedding may still take, and that it is enough. */
  lemma Filled(v: PoolView, touched: PoolView, filled: PoolView,
               want: seq<int>, reserve: nat, held: map<int, nat>, events: seq<nat>)
    requires PoolOk(v) && LossBounded(v, reserve) && |Elems(want)| <= |v.freeSlots| + |v.slotOf|
    requires touched == v.(lru := touched.lru, state := touched.state, inflight := touched.inflight)
    requires touched.lru == Touched(v.lru, Only(want, v.slotOf.Keys)) && FilledFrom(v, touched, filled, want)
    requires HeldIs(held, Fresh(v, want), events)
    ensures var base := Without(v.lru, Elems(want));
      && Evicted(v, want) <= |base|
      && Splits(filled.lru, base[Evicted(v, want)..], LastOcc(Only(want, v.slotOf.Keys)) + Fresh(v, want), Elems(want))
      && |filled.slotOf| - SoftCap(v, want, reserve) <= |base| - Evicted(v, want)
      && Shed(v, want, reserve) == Max(0, |filled.slotOf| - SoftCap(v, want, reserve))
    ensures held.Keys <= Elems(want)
  {
    hide PoolOk, NoDup, Without, Only, LastOcc, FirstOcc;
    var base, newly := Without(v.lru, Elems(want)), Fresh(v, want);
    assert newly[..|newly|] == newly;
    ShedFits(v, want, reserve);
    TouchedSplits(v, want);
    FreshIsAbsent(v, want);
    SplitsAfter(base, Evicted(v, want), LastOcc(Only(want, v.slotOf.Keys)), newly, touched.lru, Elems(want));
  }

  lemma Finished(v: PoolView, touched: PoolView, filled: PoolView, p: PoolView,
                 want: seq<int>, reserve: nat)
    requires PoolOk(v) && PoolOk(filled) && PoolOk(p) && LossBounded(v, reserve) &&
      |Elems(want)| <= |v.freeSlots| + |v.slotOf|
    requires touched == v.(lru := touched.lru, state := touched.state, inflight := touched.inflight)
    requires touched.lru == Touched(v.lru, Only(want, v.slotOf.Keys))
    requires touched.inflight.Keys == v.inflight.Keys - Elems(want) && Kept(v, touched)
    requires FilledFrom(v, touched, filled, want)
    requires Evicted(v, want) <= |Without(v.lru, Elems(want))|
    requires ShedProgress(filled, Without(v.lru, Elems(want))[Evicted(v, want)..],
                          LastOcc(Only(want, v.slotOf.Keys)) + Fresh(v, want),
                          p, Max(0, |filled.slotOf| - SoftCap(v, want, reserve)))
    ensures Ensured(v, p, want, reserve)
    ensures forall x :: x in Fresh(v, want) ==> x in p.slotOf
  {
    hide NoDup, Without, Only, LastOcc, FirstOcc, Touched;
    assert Fresh(v, want)[..|Fresh(v, want)|] == Fresh(v, want);
    forall e | e in p.slotOf ensures e in filled.slotOf {
      assert e in p.lru;
      assert e in filled.lru;
    }
    EnsuredCompose(v, touched, filled, p, want, reserve);
    forall x | x in Fresh(v, want) ensures x in p.slotOf {
      assert x in p.lru;
    }
  }

  lemma NothingHeld(held: map<int, nat>, missed: seq<int>, newly: seq<int>, events: seq<nat>)
    requires HeldIs(held, newly, events) && missed == [] && newly == FirstOcc(missed)
    ensures held == map[]
  {}

  lemma EnsuredSettled(v: PoolView, p: PoolView, q: PoolView, want: seq<int>, reserve: nat)
    requires Ensured(v, p, want, reserve) && q == p.(state := q.state)
    ensures Ensured(v, q, want, reserve)
  {}

  function SetResident(state: map<int, Residency>, es: seq<int>): (r: map<int, Residency>)
    ensures r.Keys == state.Keys + Elems(es)
    ensures forall e :: e in r ==> r[e] == if e in es then GpuResident else state[e]
  {
    if es == [] then state else SetResident(state, es[..|es| - 1])[es[|es| - 1] := GpuResident]
  }

  lemma QuietAfter(d: Device, f: Device, t: Books, w: Weights)
    requires TierOk(d, t) && (Later(d, f, w) || f == d)
    ensures NoTraffic(d, f) && TierOk(f, t)
  {
    if f != d {
      LaterIsQuiet(d, f, w);
      TierQuiet(d, f, t);
    }
  }

  lemma QuietRecord(d: Device, e: Device, f: Device, t: Books, ev: Event, w: Weights)
    requires NoTraffic(d, e) && Inv(e, w) && TierOk(e, t) && (ev.StallBegin? || ev.StallEnd?)
    requires Later(RecordOn(e, ComputeStream, ev), f, w)
    ensures NoTraffic(d, f) && TierOk(f, t)
  {
    RecordIsQuiet(e, f, ComputeStream, ev, w);
    TierQuiet(e, f, t);
    QuietTrans(d, e, f);
  }

  lemma HeldTyped(d: Device, before: Books, t: Books, b: int, p: PoolView, newly: seq<int>, events: seq<nat>,
                  held: map<int, nat>)
    requires TierOk(d, before) && HeldIs(held, newly, events) && newly != []
    requires before.pools == t.pools[b := p] && before.pending == t.pending[b := Union(p.inflight, held)]
    ensures TransferEvent(events[0]) in d.events ==> d.events[TransferEvent(events[0])].stream != ComputeStream
  {}

  lemma HeldRest(held: map<int, nat>, newly: seq<int>, events: seq<nat>, k: nat)
    requires k < |newly| && |newly| == |events| && NoDup(newly) && HeldIs(held, newly[k..], events[k..])
    ensures newly[k] in held && held[newly[k]] == events[k]
    ensures HeldIs(Drop(held, newly[k]), newly[k + 1..], events[k + 1..])
  {
    var n, ev := newly[k..], events[k..];
    assert n[0] == newly[k] && ev[0] == events[k];
    assert newly[k + 1..] == n[1..] && events[k + 1..] == ev[1..];
    HeldTail(held, n, ev);
  }

  lemma HeldTail(held: map<int, nat>, n: seq<int>, ev: seq<nat>)
    requires n != [] && NoDup(n) && HeldIs(held, n, ev)
    ensures HeldIs(Drop(held, n[0]), n[1..], ev[1..])
  {
    var e := n[0];
    forall x: int ensures x in Drop(held, e) <==> x in n[1..] {
      if x in n[1..] {
        var j :| 0 <= j < |n[1..]| && n[1..][j] == x;
        assert n[j + 1] == x && x in n;
      }
      if x in Drop(held, e) {
        assert x in Elems(n);
        var j :| 0 <= j < |n| && n[j] == x;
        assert n[1..][j - 1] == x;
      }
    }
    assert Drop(held, e).Keys == Elems(n[1..]);
  }

  lemma HeldLanded(d: Device, f: Device, before: Books, after: Books, t: Books, b: int,
                   p: PoolView, e: int, held: map<int, nat>, w: Weights)
    requires TierOk(d, before) && e in held
    requires before.pools == t.pools[b := p] && before.pending == t.pending[b := Union(p.inflight, held)]
    requires e !in p.inflight
    requires Later(WaitOn(d, ComputeStream, TransferEvent(held[e])), f, w)
    requires after == before.(pending := t.pending[b := Union(p.inflight, Drop(held, e))],
                              evFree := before.evFree + [held[e]])
    ensures NoTraffic(d, f) && TierOk(f, after)
  {
    hide TierOk, Later, NoTraffic;
    TierLanded(d, f, before, b, e, w);
    assert Drop(Union(p.inflight, held), e) == Union(p.inflight, Drop(held, e));
    OverwritePending(t.pending, b, Union(p.inflight, held), Union(p.inflight, Drop(held, e)));
  }

  lemma SettleLedger(d: Device, before: Books, after: Books, t: Books, b: int, p: PoolView, q: PoolView,
                     newly: seq<int>, events: seq<nat>, held: map<int, nat>)
    requires TierOk(d, before) && StatesBut(p, held) && HeldIs(held, newly, events)
    requires forall x :: x in newly ==> x in p.slotOf
    requires held.Keys !! p.inflight.Keys
    requires before.pools == t.pools[b := p] && before.pending == t.pending[b := Union(p.inflight, map[])]
    requires q == p.(state := SetResident(p.state, newly)) && after == before.(pools := t.pools[b := q])
    ensures TierOk(d, after) && StatesBut(q, map[])
  {
    assert b in before.pools && PoolOk(before.pools[b]);
    TierRelabel(d, before, b, q);
    OverwritePool(t.pools, b, p, q);
    assert forall e :: e in held <==> e in newly;
  }

  lemma SoundPool(d: Device, t: Books, b: int, p: PoolView)
    requires TierOk(d, t) && b in t.pools && t.pools[b] == p
    ensures PoolOk(p)
  {}

  lemma KeptSelf(v: PoolView)
    ensures Kept(v, v)
  {}

  lemma StartProgress(d: Device, t: Books, b: int, v: PoolView, base: seq<int>, tail: seq<int>, newly: seq<int>,
                      want: set<int>)
    requires TierOk(d, t) && b in t.pools && t.pools[b] == v && Splits(v.lru, base, tail, want)
    ensures Progress(v, base, tail, newly, v, 0) && HeldIs(map[], newly[..0], [])
    ensures forall e :: e in v.lru ==> e in v.slotOf
  {
    assert PoolOk(v);
    assert Elems<int>([]) == {};
  }

  lemma FullProgress(v: PoolView, base: seq<int>, tail: seq<int>, newly: seq<int>, p: PoolView, k: nat)
    requires Progress(v, base, tail, newly, p, k) && k == |newly|
    ensures Max(0, |newly| - |v.freeSlots|) <= |base|
  {}

  /** Before admitting number `k`: it is absent, its transfers so far are protected, and
      a slot can be had exactly when a free or unprotected one is left. */
  lemma Absent(d: Device, t: Books, v: PoolView, b: int, p: PoolView, base: seq<int>, tail: seq<int>, newly: seq<int>,
               k: nat, want: set<int>, held: map<int, nat>, events: seq<nat>)
    requires TierOk(d, t) && b in t.pools && t.pools[b] == p
    requires Progress(v, base, tail, newly, p, k) && k < |newly| && NoDup(newly)
    requires Splits(v.lru, base, tail, want) && (forall e :: e in v.lru ==> e in v.slotOf)
    requires forall x :: x in newly ==> x in want && x !in v.slotOf
    requires HeldIs(held, newly[..k], events)
    ensures newly[k] !in p.slotOf && newly[k] !in v.slotOf && newly[k] !in held && held.Keys <= want
    ensures (p.freeSlots != [] || exists e :: e in p.lru && e !in want) <==>
      Max(0, k + 1 - |v.freeSlots|) <= |base|
    ensures Max(0, k + 1 - |v.freeSlots|) <= |base| || Max(0, |newly| - |v.freeSlots|) > |base|
  {
    hide TierOk, NoDup;
    LruIsResident(d, t, b, p);
    var e := newly[k];
    assert e in newly;
    StillAbsent(v, base, tail, newly, p, k);
    HeldNext(held, newly, events, k, 0);
    CanTake(v, base, tail, newly, p, k, want);
  }

  lemma LruIsResident(d: Device, t: Books, b: int, p: PoolView)
    requires TierOk(d, t) && b in t.pools && t.pools[b] == p
    ensures forall e :: e in p.slotOf ==> e in p.lru
  {
    assert PoolOk(p);
  }

  lemma FreeLeft(v: PoolView, base: seq<int>, tail: seq<int>, newly: seq<int>, p: PoolView, k: nat)
    requires Progress(v, base, tail, newly, p, k)
    ensures p.freeSlots == [] <==> k >= |v.freeSlots|
  {}

  lemma CanTake(v: PoolView, base: seq<int>, tail: seq<int>, newly: seq<int>, p: PoolView, k: nat, want: set<int>)
    requires Progress(v, base, tail, newly, p, k) && k < |newly|
    requires Splits(v.lru, base, tail, want) && forall x :: x in newly ==> x in want
    ensures (p.freeSlots != [] || exists e :: e in p.lru && e !in want) <==>
      Max(0, k + 1 - |v.freeSlots|) <= |base|
  {
    NothingUnwanted(base[Max(0, k - |v.freeSlots|)..], tail + newly[..k], want, p.lru);
  }

  lemma NextKeeps(p: PoolView, q: PoolView, want: set<int>, i: nat, e: int)
    requires NextView(p, q, want, i) && e !in p.slotOf
    ensures e !in q.slotOf
  {}

  /** What one kernel must read: for each role in turn, every named expert's bytes. */
  function BlockReads(block: int, ids: seq<int>, w: Weights): seq<Read> {
    RolesReads(block, ids, w, ROLES)
  }

  function RolesReads(block: int, ids: seq<int>, w: Weights, n: nat): seq<Read> {
    if n == 0 then [] else RolesReads(block, ids, w, n - 1) + RoleReads(block, ids, w, n - 1)
  }

  function RoleReads(block: int, ids: seq<int>, w: Weights, role: nat): seq<Read> {
    if ids == [] then []
    else RoleReads(block, ids[..|ids| - 1], w, role) + [Read(block, role, w(block, ids[|ids| - 1], role))]
  }

  lemma LoadAppends(d: Device, f: Device, x: Cell, e: int, w: Weights)
    requires Later(Enqueue(d, ComputeStream, Load(x, e)), f, w)
    ensures Program(f, w) == Program(d, w) + [Read(x.block, x.role, w(x.block, e, x.role))]
    ensures |f.stage| == |d.stage|
  {
    LoadProgram(d, f, x, e, w);
  }

  lemma MarkProgram(d: Device, f: Device, t: Books, b: int, w: Weights)
    requires Inv(d, w) && TierOk(d, t) && Later(RecordOn(d, ComputeStream, ReadEvent(b)), f, w)
    ensures Program(f, w) == Program(d, w)
  {
    RecordIsQuiet(d, f, ComputeStream, ReadEvent(b), w);
    QuietProgram(d, f, w);
  }

  lemma CellUntouched(d: Device, b: int, slot: nat, r: nat)
    requires SlotUntouched(d, b, slot)
    ensures Untouched(d, Cell(b, slot, r))
  {}

  lemma FirstFree(d: Device, before: Books, t: Books, b: int, p: PoolView, e: int)
    requires TierOk(d, before) && p.freeSlots != [] && e !in p.slotOf
    requires before.pools == t.pools[b := p]
    ensures SlotUntouched(d, b, p.freeSlots[0])
    ensures SeededRoles(d, b, p.freeSlots[0], e, 0)
  {
    assert b in before.pools && before.pools[b] == p;
    TierTakeFree(d, before, b);
  }

  lemma SeedLedger(d: Device, mid: Books, after: Books, t: Books, b: int, p: PoolView, e: int, slot: nat)
    requires TierOk(d, mid) && StatesBut(p, map[]) && e !in p.slotOf
    requires slot < p.nSlots && slot !in p.expertOf && slot !in p.freeSlots
    requires mid.pools == t.pools[b := p] && mid.pending == t.pending[b := Union(p.inflight, map[])]
    requires SlotUntouched(d, b, slot) && SeededRoles(d, b, slot, e, ROLES)
    requires after == mid.(pools := t.pools[b := AdmitView(p, e, slot, GpuResident)],
                           pending := t.pending[b := Union(p.inflight, map[])])
    ensures TierOk(d, after) && StatesBut(AdmitView(p, e, slot, GpuResident), map[])
  {
    hide TierOk, SlotHolds, SlotUntouched, SeededRoles;
    SoundPool(d, mid, b, p);
    UnionNothing(p.inflight);
    SeededHolds(d, b, slot, e, mid.pending[b]);
    TierAdmit(d, mid, b, e, slot, GpuResident);
    OverwritePool(t.pools, b, p, AdmitView(p, e, slot, GpuResident));
  }

  lemma SeededStart(v: PoolView, experts: seq<int>)
    ensures Wanted(v, experts[..0]) == [] && Seeded(v, v, Wanted(v, experts[..0]))
  {
    assert experts[..0] == [];
    SeededNone(v);
  }

  lemma SeededKeys(v: PoolView, p: PoolView, experts: seq<int>, j: nat)
    requires j < |experts| && Seeded(v, p, Wanted(v, experts[..j]))
    ensures experts[j] in p.slotOf ==> Wanted(v, experts[..j + 1]) == Wanted(v, experts[..j])
    ensures experts[j] !in p.slotOf ==> Wanted(v, experts[..j + 1]) == Wanted(v, experts[..j]) + [experts[j]]
  {
    WantedNext(v, experts, j, p);
  }

  lemma SeededEnd(v: PoolView, p: PoolView, experts: seq<int>, j: nat, reserve: nat)
    requires j <= |experts| && Seeded(v, p, Wanted(v, experts[..j])) && LossBounded(v, reserve)
    requires j == |experts| || p.freeSlots == []
    ensures LossBounded(p, reserve)
    ensures var todo := Wanted(v, experts);
      |Wanted(v, experts[..j])| == Min(|todo|, |v.freeSlots|) &&
      todo[..|Wanted(v, experts[..j])|] == Wanted(v, experts[..j])
  {
    hide Without, FirstOcc;
    FirstOccPrefix(experts, j, v.slotOf.Keys);
    if j == |experts| {
      assert experts[..j] == experts;
    }
  }

  lemma PrefetchEnd(v: PoolView, p: PoolView, todo: seq<int>, n: nat, k: nat, reserve: nat)
    requires PrefetchedSoFar(v, p, todo, n, k) && LossBounded(v, reserve)
    ensures LossBounded(p, reserve)
  {}

  /** A transfer held by the call becomes the pool's own in-flight entry. */
  lemma FlightLedger(d: Device, mid: Books, after: Books, t: Books, b: int, p: PoolView, q: PoolView, e: int, id: nat)
    requires TierOk(d, mid) && StatesBut(p, map[e := id]) && e in p.slotOf
    requires mid.pools == t.pools[b := p] && mid.pending == t.pending[b := Union(p.inflight, map[e := id])]
    requires q == p.(inflight := p.inflight[e := id])
    requires after == mid.(pools := t.pools[b := q], pending := t.pending[b := Union(q.inflight, map[])])
    ensures TierOk(d, after) && StatesBut(q, map[])
  {
    hide TierOk, PoolOk;
    SoundPool(d, mid, b, p);
    UnionNothing(q.inflight);
    assert Union(p.inflight, map[e := id]) == q.inflight;
    FlightShape(p, q, e, id);
    TierRelabel(d, mid, b, q);
    OverwritePool(t.pools, b, p, q);
  }

  lemma FlightShape(p: PoolView, q: PoolView, e: int, id: nat)
    requires PoolOk(p) && StatesBut(p, map[e := id]) && e in p.slotOf && q == p.(inflight := p.inflight[e := id])
    ensures StatesBut(q, map[])
    ensures NoDup(q.lru) && (forall x :: x in q.lru <==> x in q.slotOf) && q.inflight.Keys <= q.slotOf.Keys
  {}

  lemma TakeLedger(d: Device, before: Books, after: Books, t: Books, b: int, p: PoolView, held: map<int, nat>)
    requires TierOk(d, before) && StatesBut(p, held) && p.freeSlots != []
    requires before.pools == t.pools[b := p] && before.pending == t.pending[b := Union(p.inflight, held)]
    requires after == before.(pools := t.pools[b := TakeFree(p)])
    ensures TierOk(d, after) && StatesBut(TakeFree(p), held)
    ensures p.freeSlots[0] < p.nSlots && p.freeSlots[0] !in p.expertOf && p.freeSlots[0] !in TakeFree(p).freeSlots
  {
    assert b in before.pools && before.pools[b] == p;
    TierTakeFree(d, before, b);
    OverwritePool(t.pools, b, p, TakeFree(p));
  }

  lemma NotPending(d: Device, before: Books, t: Books, b: int, p: PoolView, e: int, held: map<int, nat>)
    requires TierOk(d, before) && e !in p.slotOf && e !in held
    requires before.pools == t.pools[b := p] && before.pending == t.pending[b := Union(p.inflight, held)]
    ensures b in before.pools && before.pools[b] == p && e !in before.pending[b]
  {
    assert b in before.pools && PoolOk(before.pools[b]);
  }

  lemma AdmitLedger(d: Device, mid: Books, after: Books, t: Books, b: int, p: PoolView,
                    e: int, slot: nat, id: nat, held: map<int, nat>)
    requires TierOk(d, mid) && StatesBut(p, held) && e !in p.slotOf && e !in held
    requires slot < p.nSlots && slot !in p.expertOf && slot !in p.freeSlots
    requires mid.pools == t.pools[b := p]
    requires b in mid.pending && mid.pending == t.pending[b := Union(p.inflight, held)[e := id]]
    requires SlotHolds(d, b, slot, e, Union(p.inflight, held)[e := id])
    requires after == mid.(pools := t.pools[b := AdmitView(p, e, slot, Transferring)],
                           pending := t.pending[b := Union(p.inflight, held[e := id])])
    ensures TierOk(d, after) && StatesBut(AdmitView(p, e, slot, Transferring), held[e := id])
    ensures e !in p.inflight
  {
    hide TierOk, StatesBut, PoolOk, SlotHolds;
    SoundPool(d, mid, b, p);
    UnionAdd(p.inflight, held, e, id);
    TierAdmit(d, mid, b, e, slot, Transferring);
    OverwritePool(t.pools, b, p, AdmitView(p, e, slot, Transferring));
    AdmitStates(p, e, slot, id, held);
  }

  lemma AdmitStates(p: PoolView, e: int, slot: nat, id: nat, held: map<int, nat>)
    requires PoolOk(p) && StatesBut(p, held) && e !in p.slotOf
    ensures StatesBut(AdmitView(p, e, slot, Transferring), held[e := id]) && e !in p.inflight
  {}

  lemma TransferTyped(d: Device, before: Books, t: Books, b: int, p: PoolView, e: int)
    requires TierOk(d, before) && e in p.inflight
    requires before.pools == t.pools[b := p] && before.pending == t.pending[b := Union(p.inflight, map[])]
    ensures TransferEvent(p.inflight[e]) in d.events ==>
      d.events[TransferEvent(p.inflight[e])].stream != ComputeStream
  {}

  lemma ResidentKeys(d: Device, t: Books, b: int, p: PoolView)
    requires TierOk(d, t) && b in t.pools && t.pools[b] == p
    ensures p.inflight.Keys <= p.slotOf.Keys
  {
    assert PoolOk(p);
  }

  /** The wait on a prefetched expert's transfer settles its ledger entry. */
  lemma LandedLedger(d: Device, f: Device, before: Books, after: Books, t: Books, b: int,
                     p: PoolView, q: PoolView, e: int, w: Weights)
    requires TierOk(d, before) && e in p.inflight && StatesBut(p, map[])
    requires before.pools == t.pools[b := p] && before.pending == t.pending[b := Union(p.inflight, map[])]
    requires Later(WaitOn(d, ComputeStream, TransferEvent(p.inflight[e])), f, w)
    requires q == p.(state := p.state[e := GpuResident], inflight := Drop(p.inflight, e))
    requires after == before.(pools := t.pools[b := q], pending := t.pending[b := Union(q.inflight, map[])],
                              evFree := before.evFree + [p.inflight[e]])
    ensures NoTraffic(d, f) && TierOk(f, after) && StatesBut(q, map[])
  {
    hide TierOk, Later, NoTraffic, StatesBut, PoolOk;
    UnionNothing(p.inflight);
    UnionNothing(q.inflight);
    SoundPool(d, before, b, p);
    TierLanded(d, f, before, b, e, w);
    OverwritePending(t.pending, b, p.inflight, q.inflight);
    OverwritePool(t.pools, b, p, q);
    LandedStates(p, q, e);
    TierRelabel(f, before.(pending := after.pending, evFree := after.evFree), b, q);
  }

  lemma LandedStates(p: PoolView, q: PoolView, e: int)
    requires PoolOk(p) && StatesBut(p, map[]) && e in p.inflight
    requires q == p.(state := p.state[e := GpuResident], inflight := Drop(p.inflight, e))
    ensures StatesBut(q, map[])
    ensures NoDup(q.lru) && (forall x :: x in q.lru <==> x in q.slotOf) && q.inflight.Keys <= q.slotOf.Keys
  {}

  lemma UnionNothing(m: map<int, nat>)
    ensures Union(m, map[]) == m
  {}

  lemma TouchLedger(d: Device, before: Books, after: Books, t: Books, b: int, p: PoolView, q: PoolView, e: int)
    requires TierOk(d, before) && StatesBut(p, map[]) && e in p.slotOf
    requires before.pools == t.pools[b := p] && before.pending == t.pending[b := Union(p.inflight, map[])]
    requires q == p.(lru := MoveToEnd(p.lru, e)) && after == before.(pools := t.pools[b := q])
    ensures TierOk(d, after) && StatesBut(q, map[])
  {
    assert b in before.pools && PoolOk(before.pools[b]);
    WithoutNoDup(p.lru, {e});
    TierRelabel(d, before, b, q);
    OverwritePool(t.pools, b, p, q);
  }

  lemma ResidentAt(d: Device, t: Books, b: int, p: PoolView, k: nat)
    requires TierOk(d, t) && b in t.pools && t.pools[b] == p && k < |p.lru|
    ensures NoDup(p.lru) && p.lru[k] in p.slotOf && p.slotOf[p.lru[k]] < p.nSlots
    ensures p.inflight.Keys <= p.slotOf.Keys
  {
    var v := p.lru[k];
    assert PoolOk(p) && v in p.lru;
  }

  lemma EvictLedger(d: Device, before: Books, after: Books, t: Books, b: int, p: PoolView, k: nat, held: map<int, nat>)
    requires TierOk(d, before) && k < |p.lru| && p.lru[k] !in held && StatesBut(p, held)
    requires p.lru[k] in p.slotOf
    requires before.pools == t.pools[b := p] && before.pending == t.pending[b := Union(p.inflight, held)]
    requires after == before.(pools := t.pools[b := EvictView(p, k)],
      pending := t.pending[b := Union(EvictView(p, k).inflight, held)], evFree := after.evFree)
    requires after.evFree == before.evFree + if p.lru[k] in p.inflight then [p.inflight[p.lru[k]]] else []
    ensures TierOk(d, after) && StatesBut(EvictView(p, k), held)
    ensures p.slotOf[p.lru[k]] !in EvictView(p, k).expertOf && p.slotOf[p.lru[k]] !in p.freeSlots
  {
    hide TierOk, StatesBut, PoolOk;
    SoundPool(d, before, b, p);
    EvictOk(p, k);
    EvictStatesBut(p, k, held);
    TierEvict(d, before, b, k);
    UnionDrop(p.inflight, held, p.lru[k]);
    OverwritePool(t.pools, b, p, EvictView(p, k));
    OverwritePending(t.pending, b, Union(p.inflight, held), Union(EvictView(p, k).inflight, held));
    assert p.lru[k] in before.pending[b] <==> p.lru[k] in p.inflight;
    assert after == before.(pools := before.pools[b := EvictView(p, k)], pending := Finish(before.pending, b, p.lru[k]),
      evFree := if p.lru[k] in before.pending[b] then before.evFree + [before.pending[b][p.lru[k]]] else before.evFree);
  }

  lemma EvictStatesBut(p: PoolView, i: nat, held: map<int, nat>)
    requires PoolOk(p) && StatesBut(p, held) && i < |p.lru| && p.lru[i] in p.slotOf
    ensures StatesBut(EvictView(p, i), held)
  {}

  lemma EvictFields(p: PoolView, i: nat, q: PoolView)
    requires i < |p.lru| && p.lru[i] in p.slotOf
    requires var v := p.lru[i];
      && q.nSlots == p.nSlots && q.freeSlots == p.freeSlots && q.slotOf == Drop(p.slotOf, v)
      && q.expertOf == p.expertOf - {p.slotOf[v]} && q.state == p.state[v := EvictPending][v := RamOnly]
      && q.lru == p.lru[..i] + p.lru[i + 1..]
      && q.inflight == if v in p.inflight then Drop(p.inflight, v) else p.inflight
    ensures q == EvictView(p, i)
  {
    var v := p.lru[i];
    assert q.state == p.state[v := RamOnly];
    assert v !in p.inflight ==> Drop(p.inflight, v) == p.inflight;
  }

  ghost predicate AllCarried(d: Device, b: int, slot: nat, e: int, n: nat) {
    forall r: nat :: r < n ==> Carries(d, Cell(b, slot, r), e)
  }

  lemma AllCarriedGrow(d: Device, f: Device, b: int, slot: nat, e: int, n: nat)
    requires AllCarried(d, b, slot, e, n) && d.copyQ <= f.copyQ
    requires forall r: nat, p :: r < n && |d.copyQ| <= p ==> !Writes(f.copyQ, p, Cell(b, slot, r))
    ensures AllCarried(f, b, slot, e, n)
  {
    forall r: nat | r < n ensures Carries(f, Cell(b, slot, r), e) {
      CarriesGrow(d, f, Cell(b, slot, r), e);
    }
  }

  lemma BlockOverwritableGrow(d: Device, f: Device, b: int)
    requires BlockOverwritable(d, b) && d.copyQ <= f.copyQ && f.computeQ == d.computeQ
    ensures BlockOverwritable(f, b)
  {
    forall x: Cell | x.block == b ensures Overwritable(f, x) {
      OverwritableGrow(d, f, x);
    }
  }

  /** The ledger while staging buffer `i` is being sent. */
  ghost predicate BooksBut(d: Device, u: Books, i: nat) {
    && DataOk(d, u.pools, u.pending) && ReadersOk(d, u.readEv, u.open) && EventsTyped(d)
    && (forall b :: b in u.pools ==> PoolOk(u.pools[b]))
    && |u.stageInflight| == STAGING_SLOTS
    && forall j: nat :: j < STAGING_SLOTS && j != i ==> BufferCovered(d, j, u.stageInflight[j])
  }

  lemma PartSent(d: Device, f: Device, x: Cell, e: int, i: nat, u: Books, w: Weights)
    requires BooksBut(d, u, i) && Vacant(u.pools, x)
    requires Later(Enqueue(d, CopyStream, Copy(x, e, Staged(i))), f, w)
    ensures BooksBut(f, u, i) && Carries(f, x, e)
  {
    CopyKeepsData(d, f, x, e, Staged(i), u, w);
    forall j: nat | j < STAGING_SLOTS && j != i ensures BufferCovered(f, j, u.stageInflight[j]) {
      StageGrow(d, f, j, u.stageInflight[j]);
    }
  }

  lemma SentOk(d: Device, f: Device, u: Books, v: Books, i: nat)
    requires BooksBut(d, u, i) && NoTraffic(d, f) && i < STAGING_SLOTS
    requires v == u.(stageInflight := u.stageInflight[i := true])
    requires EventsOwned(u.pending, u.evFree, u.evCreated)
    requires StageEvent(i) in f.events && f.events[StageEvent(i)].upto == |f.copyQ|
    ensures TierOk(f, v)
  {
    DataGrow(d, f, u.pools, u.pending);
    ReadersGrow(d, f, u.readEv, u.open);
    forall j: nat | j < STAGING_SLOTS ensures BufferCovered(f, j, v.stageInflight[j]) {
      if j != i {
        StageGrow(d, f, j, u.stageInflight[j]);
      }
    }
  }

  lemma TypedIn(d: Device, t: Books)
    requires TierOk(d, t)
    ensures EventsTyped(d)
  {}

  lemma OwnedIn(d: Device, t: Books)
    requires TierOk(d, t)
    ensures EventsOwned(t.pending, t.evFree, t.evCreated) && t.pending.Keys == t.pools.Keys
  {}

  lemma DataIn(d: Device, t: Books, b: int)
    requires TierOk(d, t) && b in t.pools
    ensures PoolOk(t.pools[b]) && b in t.pending && PoolData(d, b, t.pools[b], t.pending[b])
  {}

  lemma StartedData(d: Device, t: Books, b: int, e: int, id: nat)
    requires TierOk(d, t) && b in t.pools && b in t.pending && e !in t.pools[b].slotOf
    ensures PoolOk(t.pools[b]) && PoolData(d, b, t.pools[b], t.pending[b][e := id])
  {
    hide TierOk, PoolOk, SlotHolds;
    DataIn(d, t, b);
    forall x | x in t.pools[b].slotOf ensures SlotHolds(d, b, t.pools[b].slotOf[x], x, t.pending[b][e := id]) {
      HoldsSame(d, b, t.pools[b].slotOf[x], x, t.pending[b], t.pending[b][e := id]);
    }
  }

  /** The transfer's own record puts its expert's slot and its event into the ledger. */
  lemma Recorded(d: Device, f: Device, t: Books, u: Books, b: int, slot: nat, e: int, id: nat, w: Weights)
    requires Inv(d, w) && TierOk(d, t) && AllCarried(d, b, slot, e, ROLES)
    requires b in t.pools && b in t.pending && e !in t.pending[b] && e !in t.pools[b].slotOf
    requires u == t.(pending := Start(t.pending, b, e, id), evFree := u.evFree, evCreated := u.evCreated)
    requires EventsOwned(u.pending, u.evFree, u.evCreated)
    requires Later(RecordOn(d, CopyStream, TransferEvent(id)), f, w)
    ensures TierOk(f, u) && SlotHolds(f, b, slot, e, t.pending[b][e := id])
    ensures f.computeQ == d.computeQ && |f.stage| == |d.stage|
  {
    hide TierOk, PoolOk, PoolData, SlotHolds, EventsOwned;
    TypedIn(d, t);
    RecordIsQuiet(d, f, CopyStream, TransferEvent(id), w);
    CarriedIsHeld(d, f, b, slot, e, id, t.pending[b], w);
    TierQuiet(d, f, t);
    StartedData(f, t, b, e, id);
    assert u.pending[b] == t.pending[b][e := id];
    assert u.pools[b := u.pools[b]] == u.pools;
    ReplaceBlock(f, t, u, b);
  }
}
