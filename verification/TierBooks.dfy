/** The hot tier's bookkeeping, and what it promises about the device.

    Everything here is a value: the tier's class keeps these invariants and the
    device's operations preserve them, one small lemma each. */
module TierBooks {
  import opened Orders
  import opened Gpu
  import opened Driver

  const STAGING_SLOTS: nat := 32
  const STALL_RING: nat := 512

  /** 0, 1, ..., n - 1: a fresh pool's free list. */
  function Iota(n: nat): (r: seq<nat>)
    ensures |r| == n && forall i :: 0 <= i < n ==> r[i] == i
  {
    if n == 0 then [] else Iota(n - 1) + [n - 1]
  }

  datatype Residency = RamOnly | Transferring | GpuResident | EvictPending

  /** One block's fixed-slot pool. `inflight` maps an expert to its transfer event. */
  datatype PoolView = PoolView(
    nSlots: nat,
    freeSlots: seq<nat>,
    slotOf: map<int, nat>,
    expertOf: map<nat, int>,
    state: map<int, Residency>,
    lru: seq<int>,
    inflight: map<int, nat>)

  /** The maps are inverse, the free list and the used slots disjoint, and the
      recency order lists exactly the residents. */
  ghost predicate PoolOk(p: PoolView) {
    && NoDup(p.freeSlots) && NoDup(p.lru)
    && (forall s :: s in p.freeSlots ==> s < p.nSlots && s !in p.expertOf)
    && (forall e :: e in p.slotOf ==>
      p.slotOf[e] < p.nSlots && p.slotOf[e] in p.expertOf && p.expertOf[p.slotOf[e]] == e)
    && (forall s :: s in p.expertOf ==> p.expertOf[s] in p.slotOf && p.slotOf[p.expertOf[s]] == s)
    && (forall e :: e in p.lru <==> e in p.slotOf)
    && p.inflight.Keys <= p.slotOf.Keys
  }

  /** The published state of every expert agrees with where its bytes are; transfers in `held`
      belong to the call in progress. */
  ghost predicate StatesBut(p: PoolView, held: map<int, nat>) {
    && p.slotOf.Keys <= p.state.Keys
    && forall e :: e in p.state ==>
      p.state[e] ==
        if e !in p.slotOf then RamOnly
        else if e in p.inflight || e in held then Transferring
        else GpuResident
  }

  /** The shedding loop discards slots, but never more than the prefetch reserve. */
  ghost predicate LossBounded(p: PoolView, reserve: nat) {
    p.nSlots - reserve <= |p.freeSlots| + |p.slotOf| <= p.nSlots
  }

  // ---- what residency means on the device -------------------------------------------

  /** Waiting for `ev` covers copy `c`. */
  predicate Covers(d: Device, ev: Event, c: int) {
    ev in d.events && d.events[ev].stream == CopyStream && d.events[ev].upto > c
  }

  /** Cell `x` will hold `expert`: nothing enqueued later overwrites it, and either
      the compute stream already waits for its copy or a pending event covers it. */
  ghost predicate Holding(d: Device, x: Cell, expert: int, pending: map<int, nat>) {
    var c := LastCopy(d.copyQ, |d.copyQ|, x);
    if c < 0 then x in d.seeds && d.seeds[x] == expert && expert !in pending
    else
      && d.copyQ[c].expert == expert
      && if expert in pending then Covers(d, TransferEvent(pending[expert]), c)
         else Knows(d.computeQ, |d.computeQ|, c)
  }

  ghost predicate SlotHolds(d: Device, b: int, slot: nat, expert: int, pending: map<int, nat>) {
    forall r: nat :: r < ROLES ==> Holding(d, Cell(b, slot, r), expert, pending)
  }

  ghost predicate SlotUntouched(d: Device, b: int, slot: nat) {
    forall r: nat :: Untouched(d, Cell(b, slot, r))
  }

  ghost predicate PoolData(d: Device, b: int, p: PoolView, pending: map<int, nat>) {
    && (forall e :: e in p.slotOf ==> SlotHolds(d, b, p.slotOf[e], e, pending))
    && (forall s :: s in p.freeSlots ==> SlotUntouched(d, b, s))
  }

  /** `pending`: block -> expert -> the event of a copy no compute wait follows yet. */
  ghost predicate DataOk(d: Device, pools: map<int, PoolView>, pending: map<int, map<int, nat>>) {
    pending.Keys == pools.Keys && forall b :: b in pools ==> PoolData(d, b, pools[b], pending[b])
  }

  /** Every kernel load outside `open` precedes its block's read event. */
  ghost predicate ReadersOk(d: Device, readEv: set<int>, open: set<int>) {
    forall k :: 0 <= k < |d.computeQ| && d.computeQ[k].Load? && d.computeQ[k].src.block !in open ==>
      ReaderMarked(d, d.computeQ[k].src.block, k, readEv)
  }

  ghost predicate ReaderMarked(d: Device, b: int, k: int, readEv: set<int>) {
    b in readEv && ReadEvent(b) in d.events && d.events[ReadEvent(b)].upto > k
  }

  /** Transfers and staging are recorded on the copy stream, the rest on compute. */
  ghost predicate EventsTyped(d: Device) {
    forall ev :: ev in d.events ==>
      d.events[ev].stream == if ev.StageEvent? || ev.TransferEvent? then CopyStream else ComputeStream
  }

  /** A buffer not marked in flight has no unexecuted reader; one that is marked
      has an event behind all of its readers. */
  ghost predicate StageHost(d: Device, inflight: seq<bool>) {
    |inflight| == STAGING_SLOTS && forall i :: 0 <= i < STAGING_SLOTS ==> BufferCovered(d, i, inflight[i])
  }

  ghost predicate BufferCovered(d: Device, i: nat, marked: bool) {
    if marked then
      StageEvent(i) in d.events
      && forall p :: 0 <= p < |d.copyQ| && ReadsBuffer(d.copyQ[p], i) ==> p < d.events[StageEvent(i)].upto
    else BufferIdle(d, i)
  }

  /** Every created event is in exactly one place: the free pool or one pending copy. */
  ghost predicate EventsOwned(pending: map<int, map<int, nat>>, evFree: seq<nat>, created: nat) {
    && NoDup(evFree)
    && (forall id :: id in evFree ==> id < created)
    && (forall b, e :: Pends(pending, b, e) ==> pending[b][e] < created && pending[b][e] !in evFree)
    && (forall b, e, c, f :: Pends(pending, b, e) && Pends(pending, c, f) && pending[b][e] == pending[c][f] ==>
      b == c && e == f)
    && (forall id: nat :: id < created ==> id in evFree || InFlight(pending, id))
  }

  predicate Pends(pending: map<int, map<int, nat>>, b: int, e: int) {
    b in pending && e in pending[b]
  }

  ghost predicate InFlight(pending: map<int, map<int, nat>>, id: nat) {
    exists b, e :: Pends(pending, b, e) && pending[b][e] == id
  }

  // ---- growth of the device state ------------------------------------------------------

  /** Queues only grow, events only move forward. */
  ghost predicate Grow(d: Device, e: Device) {
    && d.copyQ <= e.copyQ && d.computeQ <= e.computeQ
    && d.copyDone <= e.copyDone && e.seeds == d.seeds && |e.stage| == |d.stage|
    && forall ev :: ev in d.events ==>
      ev in e.events && e.events[ev].stream == d.events[ev].stream && d.events[ev].upto <= e.events[ev].upto
  }

  /** No cell of a resident or of a free slot. */
  predicate Vacant(pools: map<int, PoolView>, x: Cell) {
    x.block in pools ==> x.slot !in pools[x.block].expertOf && x.slot !in pools[x.block].freeSlots
  }

  predicate NotFree(pools: map<int, PoolView>, x: Cell) {
    x.block in pools ==> x.slot !in pools[x.block].freeSlots
  }

  lemma LastCopyGrow(q: seq<Op>, r: seq<Op>, x: Cell)
    requires q <= r && forall p :: |q| <= p ==> !Writes(r, p, x)
    ensures LastCopy(r, |r|, x) == LastCopy(q, |q|, x)
  {
    var c := LastCopy(q, |q|, x);
    forall p | c < p < |r| ensures !Writes(r, p, x) {
      assert p < |q| ==> r[p] == q[p] && !Writes(q, p, x);
    }
    LastCopyIs(r, |r|, x, c);
  }

  lemma KnowsGrow(q: seq<Op>, r: seq<Op>, c: int)
    requires q <= r && Knows(q, |q|, c)
    ensures Knows(r, |r|, c)
  {
    var w :| 0 <= w < |q| && IsWait(q[w], CopyStream, c);
    assert IsWait(r[w], CopyStream, c);
  }

  lemma HoldingGrow(d: Device, e: Device, x: Cell, expert: int, pending: map<int, nat>)
    requires Holding(d, x, expert, pending) && Grow(d, e)
    requires forall p :: |d.copyQ| <= p ==> !Writes(e.copyQ, p, x)
    ensures Holding(e, x, expert, pending)
  {
    LastCopyGrow(d.copyQ, e.copyQ, x);
    var c := LastCopy(d.copyQ, |d.copyQ|, x);
    if c >= 0 && expert !in pending {
      KnowsGrow(d.computeQ, e.computeQ, c);
    }
  }

  ghost predicate NewCopiesVacant(d: Device, e: Device, pools: map<int, PoolView>) {
    forall p :: |d.copyQ| <= p < |e.copyQ| && e.copyQ[p].Copy? ==> Vacant(pools, e.copyQ[p].dst)
  }

  ghost predicate NewLoadsNotFree(d: Device, e: Device, pools: map<int, PoolView>) {
    forall k :: |d.computeQ| <= k < |e.computeQ| && e.computeQ[k].Load? ==> NotFree(pools, e.computeQ[k].src)
  }

  lemma DataGrow(d: Device, e: Device, pools: map<int, PoolView>, pending: map<int, map<int, nat>>)
    requires DataOk(d, pools, pending) && Grow(d, e)
    requires forall b :: b in pools ==> PoolOk(pools[b])
    requires NewCopiesVacant(d, e, pools) && NewLoadsNotFree(d, e, pools)
    ensures DataOk(e, pools, pending)
  {
    forall b | b in pools ensures PoolData(e, b, pools[b], pending[b]) {
      PoolDataGrow(d, e, b, pools, pending[b]);
    }
  }

  lemma PoolDataGrow(d: Device, e: Device, b: int, pools: map<int, PoolView>, pending: map<int, nat>)
    requires b in pools && PoolOk(pools[b]) && PoolData(d, b, pools[b], pending) && Grow(d, e)
    requires NewCopiesVacant(d, e, pools) && NewLoadsNotFree(d, e, pools)
    ensures PoolData(e, b, pools[b], pending)
  {
    var p := pools[b];
    forall x | x in p.slotOf ensures SlotHolds(e, b, p.slotOf[x], x, pending) {
      assert SlotHolds(d, b, p.slotOf[x], x, pending);
      forall r: nat | r < ROLES ensures Holding(e, Cell(b, p.slotOf[x], r), x, pending) {
        HoldingGrow(d, e, Cell(b, p.slotOf[x], r), x, pending);
      }
    }
    forall s | s in p.freeSlots ensures SlotUntouched(e, b, s) {
      assert SlotUntouched(d, b, s);
      forall r: nat ensures Untouched(e, Cell(b, s, r)) {
        assert Untouched(d, Cell(b, s, r));
        UntouchedGrow(d, e, Cell(b, s, r));
      }
    }
  }

  lemma UntouchedGrow(d: Device, e: Device, x: Cell)
    requires Untouched(d, x) && d.copyQ <= e.copyQ && d.computeQ <= e.computeQ
    requires forall p :: |d.copyQ| <= p ==> !Writes(e.copyQ, p, x)
    requires forall k :: |d.computeQ| <= k ==> !Loads(e.computeQ, k, x)
    ensures Untouched(e, x)
  {
    forall p ensures !Writes(e.copyQ, p, x) {
      assert 0 <= p < |d.copyQ| ==> e.copyQ[p] == d.copyQ[p] && !Writes(d.copyQ, p, x);
    }
    forall k ensures !Loads(e.computeQ, k, x) {
      assert 0 <= k < |d.computeQ| ==> e.computeQ[k] == d.computeQ[k] && !Loads(d.computeQ, k, x);
    }
  }

  lemma ReadersGrow(d: Device, e: Device, readEv: set<int>, open: set<int>)
    requires ReadersOk(d, readEv, open) && Grow(d, e)
    requires forall k :: |d.computeQ| <= k < |e.computeQ| && e.computeQ[k].Load? ==> e.computeQ[k].src.block in open
    ensures ReadersOk(e, readEv, open)
  {
    forall k | 0 <= k < |e.computeQ| && e.computeQ[k].Load? && e.computeQ[k].src.block !in open
      ensures ReaderMarked(e, e.computeQ[k].src.block, k, readEv)
    {
      assert e.computeQ[k] == d.computeQ[k];
      assert ReaderMarked(d, d.computeQ[k].src.block, k, readEv);
    }
  }

  lemma StageGrow(d: Device, e: Device, i: nat, marked: bool)
    requires BufferCovered(d, i, marked) && Grow(d, e)
    requires forall p :: |d.copyQ| <= p < |e.copyQ| ==> !ReadsBuffer(e.copyQ[p], i)
    ensures BufferCovered(e, i, marked)
  {
    forall p | 0 <= p < |d.copyQ| ensures e.copyQ[p] == d.copyQ[p] {}
  }

  // ---- the whole ledger ----------------------------------------------------------------

  /** `open`: blocks whose kernel is enqueued but whose read event is not yet recorded. */
  datatype Books = Books(
    pools: map<int, PoolView>,
    pending: map<int, map<int, nat>>,
    readEv: set<int>,
    open: set<int>,
    stageInflight: seq<bool>,
    evFree: seq<nat>,
    evCreated: nat)

  ghost predicate TierOk(d: Device, t: Books) {
    && (forall b :: b in t.pools ==> PoolOk(t.pools[b]))
    && DataOk(d, t.pools, t.pending)
    && ReadersOk(d, t.readEv, t.open)
    && EventsTyped(d)
    && StageHost(d, t.stageInflight)
    && EventsOwned(t.pending, t.evFree, t.evCreated)
  }

  /** New operations are records and waits only. */
  ghost predicate NoTraffic(d: Device, e: Device) {
    && Grow(d, e) && EventsTyped(e)
    && (forall p :: |d.copyQ| <= p < |e.copyQ| ==> !e.copyQ[p].Copy?)
    && (forall k :: |d.computeQ| <= k < |e.computeQ| ==> !e.computeQ[k].Load?)
  }

  lemma TierQuiet(d: Device, e: Device, t: Books)
    requires TierOk(d, t) && NoTraffic(d, e)
    ensures TierOk(e, t)
  {
    DataGrow(d, e, t.pools, t.pending);
    ReadersGrow(d, e, t.readEv, t.open);
    forall i: nat | i < STAGING_SLOTS ensures BufferCovered(e, i, t.stageInflight[i]) {
      StageGrow(d, e, i, t.stageInflight[i]);
    }
  }

  lemma LaterIsQuiet(d: Device, e: Device, w: Weights)
    requires Later(d, e, w) && EventsTyped(d)
    ensures NoTraffic(d, e)
  {}

  lemma QuietRefl(d: Device, t: Books)
    requires TierOk(d, t)
    ensures NoTraffic(d, d)
  {}

  lemma QuietTrans(a: Device, b: Device, c: Device)
    requires NoTraffic(a, b) && NoTraffic(b, c)
    ensures NoTraffic(a, c)
  {
    forall p | |a.copyQ| <= p < |c.copyQ| ensures !c.copyQ[p].Copy? {
      assert p < |b.copyQ| ==> c.copyQ[p] == b.copyQ[p];
    }
    forall p | |a.computeQ| <= p < |c.computeQ| ensures !c.computeQ[p].Load? {
      assert p < |b.computeQ| ==> c.computeQ[p] == b.computeQ[p];
    }
  }

  predicate TypeFits(ev: Event, s: Stream) {
    s == if ev.StageEvent? || ev.TransferEvent? then CopyStream else ComputeStream
  }

  lemma RecordIsQuiet(d: Device, e: Device, s: Stream, ev: Event, w: Weights)
    requires Inv(d, w) && EventsTyped(d) && TypeFits(ev, s)
    requires Later(RecordOn(d, s, ev), e, w)
    ensures NoTraffic(d, e)
  {}

  lemma WaitIsQuiet(d: Device, e: Device, s: Stream, ev: Event, w: Weights)
    requires EventsTyped(d) && Later(WaitOn(d, s, ev), e, w)
    ensures NoTraffic(d, e)
  {}

  /** Records and waits add nothing to what the kernels are expected to read. */
  lemma QuietProgram(d: Device, e: Device, w: Weights)
    requires NoTraffic(d, e)
    ensures Expected(e.computeQ, |e.computeQ|, w) == Expected(d.computeQ, |d.computeQ|, w)
  {
    ExpectedPrefix(d.computeQ, e.computeQ, |d.computeQ|, w);
    ExpectedTail(e.computeQ, |d.computeQ|, |e.computeQ|, w);
  }

  lemma {:induction false} ExpectedPrefix(q: seq<Op>, r: seq<Op>, n: nat, w: Weights)
    requires q <= r && n <= |q|
    ensures Expected(r, n, w) == Expected(q, n, w)
  {
    if n > 0 {
      ExpectedPrefix(q, r, n - 1, w);
    }
  }

  lemma {:induction false} ExpectedTail(q: seq<Op>, m: nat, n: nat, w: Weights)
    requires m <= n <= |q| && forall k :: m <= k < n ==> !q[k].Load?
    ensures Expected(q, n, w) == Expected(q, m, w)
    decreases n
  {
    if m < n {
      ExpectedTail(q, m, n - 1, w);
    }
  }

  // ---- starting a copy -------------------------------------------------------------------

  ghost predicate BlockOverwritable(d: Device, b: int) {
    forall x: Cell :: x.block == b ==> Overwritable(d, x)
  }

  /** After waiting on the block's read event, every load of the block is behind us. */
  lemma WaitMakesOverwritable(d: Device, e: Device, b: int, t: Books, w: Weights)
    requires ReadersOk(d, t.readEv, t.open) && EventsTyped(d) && b !in t.open
    requires if b in t.readEv then Later(WaitOn(d, CopyStream, ReadEvent(b)), e, w) else e == d
    ensures BlockOverwritable(e, b)
  {
    forall x: Cell, k | x.block == b && Loads(e.computeQ, k, x) ensures Holds(e.copyQ, |e.copyQ|, k) {
      assert ReaderMarked(d, b, k, t.readEv);
      assert IsWait(e.copyQ[|d.copyQ|], ComputeStream, k);
    }
  }

  lemma OverwritableGrow(d: Device, e: Device, x: Cell)
    requires Overwritable(d, x) && d.copyQ <= e.copyQ && e.computeQ == d.computeQ
    ensures Overwritable(e, x)
  {
    forall k | Loads(e.computeQ, k, x) ensures Holds(e.copyQ, |e.copyQ|, k) {
      assert Loads(d.computeQ, k, x);
      var w :| 0 <= w < |d.copyQ| && IsWait(d.copyQ[w], ComputeStream, k);
      assert IsWait(e.copyQ[w], ComputeStream, k);
    }
  }

  /** The last copy enqueued into `x` carries `expert`. */
  predicate Carries(d: Device, x: Cell, expert: int) {
    var c := LastCopy(d.copyQ, |d.copyQ|, x);
    c >= 0 && d.copyQ[c].expert == expert
  }

  lemma CarriesGrow(d: Device, e: Device, x: Cell, expert: int)
    requires Carries(d, x, expert) && d.copyQ <= e.copyQ
    requires forall p :: |d.copyQ| <= p ==> !Writes(e.copyQ, p, x)
    ensures Carries(e, x, expert)
  {
    LastCopyGrow(d.copyQ, e.copyQ, x);
  }

  /** One copy into a vacant cell disturbs no resident and no free slot. */
  lemma CopyKeepsData(d: Device, e: Device, x: Cell, expert: int, from: Source, t: Books, w: Weights)
    requires forall b :: b in t.pools ==> PoolOk(t.pools[b])
    requires DataOk(d, t.pools, t.pending) && ReadersOk(d, t.readEv, t.open) && EventsTyped(d)
    requires Vacant(t.pools, x)
    requires Later(Enqueue(d, CopyStream, Copy(x, expert, from)), e, w)
    ensures DataOk(e, t.pools, t.pending) && ReadersOk(e, t.readEv, t.open) && EventsTyped(e)
    ensures Carries(e, x, expert)
  {
    assert e.copyQ[|d.copyQ|] == Copy(x, expert, from);
    DataGrow(d, e, t.pools, t.pending);
    ReadersGrow(d, e, t.readEv, t.open);
    LastCopyIs(e.copyQ, |e.copyQ|, x, |d.copyQ|);
  }

  lemma CarriedIsHeld(d: Device, e: Device, b: int, slot: nat, expert: int, id: nat, pending: map<int, nat>, w: Weights)
    requires forall r: nat :: r < ROLES ==> Carries(d, Cell(b, slot, r), expert)
    requires Later(RecordOn(d, CopyStream, TransferEvent(id)), e, w)
    ensures SlotHolds(e, b, slot, expert, pending[expert := id])
  {
    forall r: nat | r < ROLES ensures Holding(e, Cell(b, slot, r), expert, pending[expert := id]) {
      assert Carries(d, Cell(b, slot, r), expert);
      LastCopyGrow(d.copyQ, e.copyQ, Cell(b, slot, r));
    }
  }

  // ---- the event pool -----------------------------------------------------------------------

  function Start(pending: map<int, map<int, nat>>, b: int, e: int, id: nat): map<int, map<int, nat>>
    requires b in pending
  {
    var after: map<int, nat> := pending[b][e := id];
    pending[b := after]
  }

  function Finish(pending: map<int, map<int, nat>>, b: int, e: int): map<int, map<int, nat>>
    requires b in pending
  {
    var after: map<int, nat> := pending[b] - {e};
    pending[b := after]
  }

  lemma StartKeepsOwned(pending: map<int, map<int, nat>>, evFree: seq<nat>, created: nat,
                        b: int, e: int, id: nat, rest: seq<nat>, total: nat)
    requires EventsOwned(pending, evFree, created) && b in pending && e !in pending[b]
    requires NoDup(rest) && created <= total && id < total
    requires forall n :: n in rest ==> n in evFree && n != id
    requires forall x, y :: Pends(pending, x, y) ==> pending[x][y] != id
    requires forall n: nat :: n < total ==> n == id || n in rest || (n < created && n !in evFree)
    ensures EventsOwned(Start(pending, b, e, id), rest, total)
  {
    var after := Start(pending, b, e, id);
    assert Pends(after, b, e) && after[b][e] == id;
    forall x, y | Pends(after, x, y) && !(x == b && y == e)
      ensures Pends(pending, x, y) && after[x][y] == pending[x][y] {}
    forall n: nat | n < total ensures n in rest || InFlight(after, n) {
      if n != id && n !in rest {
        assert InFlight(pending, n);
        var x, y :| Pends(pending, x, y) && pending[x][y] == n;
        assert Pends(after, x, y) && after[x][y] == n;
      }
    }
  }

  /** Taking an event, from the pool or fresh, and giving it to one transfer. */
  lemma TakeKeepsOwned(pending: map<int, map<int, nat>>, evFree: seq<nat>, created: nat, b: int, e: int)
    requires EventsOwned(pending, evFree, created) && b in pending && e !in pending[b]
    ensures evFree != [] ==>
      EventsOwned(Start(pending, b, e, evFree[|evFree| - 1]), evFree[..|evFree| - 1], created)
    ensures evFree == [] ==> EventsOwned(Start(pending, b, e, created), [], created + 1)
  {
    if evFree == [] {
      StartKeepsOwned(pending, evFree, created, b, e, created, [], created + 1);
    } else {
      var rest, id := evFree[..|evFree| - 1], evFree[|evFree| - 1];
      assert evFree == rest + [id] && id in evFree;
      StartKeepsOwned(pending, evFree, created, b, e, id, rest, created);
    }
  }

  /** Returning a transfer's event to the pool. */
  lemma GiveKeepsOwned(pending: map<int, map<int, nat>>, evFree: seq<nat>, created: nat, b: int, e: int)
    requires EventsOwned(pending, evFree, created) && Pends(pending, b, e)
    ensures EventsOwned(Finish(pending, b, e), evFree + [pending[b][e]], created)
  {
    var id := pending[b][e];
    var after := Finish(pending, b, e);
    forall x, y | Pends(after, x, y)
      ensures Pends(pending, x, y) && after[x][y] == pending[x][y] && !(x == b && y == e) {}
    forall n: nat | n < created ensures n in evFree + [id] || InFlight(after, n) {
      if n != id && n !in evFree {
        assert InFlight(pending, n);
        var x, y :| Pends(pending, x, y) && pending[x][y] == n;
        assert Pends(after, x, y) && after[x][y] == n;
      }
    }
  }
}
