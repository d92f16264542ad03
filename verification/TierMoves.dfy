/** The pool's own transitions, and that each keeps the whole ledger consistent. */
module TierMoves {
  import opened Orders
  import opened Gpu
  import opened Driver
  import opened TierBooks

  function Drop(m: map<int, nat>, e: int): map<int, nat> {
    m - {e}
  }

  function Union(m: map<int, nat>, n: map<int, nat>): map<int, nat> {
    m + n
  }

  function TakeFree(p: PoolView): PoolView
    requires p.freeSlots != []
  {
    p.(freeSlots := p.freeSlots[1..])
  }

  function EvictView(p: PoolView, i: nat): PoolView
    requires i < |p.lru| && p.lru[i] in p.slotOf
  {
    var v := p.lru[i];
    var used: map<nat, int> := p.expertOf - {p.slotOf[v]};
    p.(slotOf := Drop(p.slotOf, v), expertOf := used, state := p.state[v := RamOnly],
       lru := p.lru[..i] + p.lru[i + 1..], inflight := Drop(p.inflight, v))
  }

  function AdmitView(p: PoolView, e: int, slot: nat, s: Residency): PoolView {
    p.(slotOf := p.slotOf[e := slot], expertOf := p.expertOf[slot := e], state := p.state[e := s], lru := p.lru + [e])
  }

  /** The pool after a slot was taken: the first free one, or evicted at `i`. */
  ghost predicate NextView(p: PoolView, q: PoolView, protected: set<int>, i: nat) {
    if p.freeSlots != [] then q == TakeFree(p)
    else
      && i < |p.lru| && p.lru[i] !in protected && p.lru[i] in p.slotOf
      && (forall j :: 0 <= j < i ==> p.lru[j] in protected)
      && q == EvictView(p, i)
  }

  // ---- pools --------------------------------------------------------------------------

  lemma TakeFreeOk(p: PoolView)
    requires PoolOk(p) && p.freeSlots != []
    ensures PoolOk(TakeFree(p))
    ensures p.freeSlots[0] < p.nSlots && p.freeSlots[0] !in p.expertOf && p.freeSlots[0] !in TakeFree(p).freeSlots
  {
    assert p.freeSlots[0] in p.freeSlots;
    assert forall s :: s in p.freeSlots[1..] ==> s in p.freeSlots;
  }

  lemma EvictOk(p: PoolView, i: nat)
    requires PoolOk(p) && i < |p.lru|
    ensures p.lru[i] in p.slotOf && PoolOk(EvictView(p, i))
    ensures var slot := p.slotOf[p.lru[i]];
      slot < p.nSlots && slot !in EvictView(p, i).expertOf && slot !in p.freeSlots
  {
    hide Without, NoDup;
    var v := p.lru[i];
    assert v in p.lru;
    WithoutAt(p.lru, i);
    WithoutNoDup(p.lru, {v});
    var q := EvictView(p, i);
    CutKeys(p, q, v);
  }

  lemma CutKeys(p: PoolView, q: PoolView, v: int)
    requires forall e :: e in p.lru <==> e in p.slotOf
    requires q.lru == Without(p.lru, {v}) && q.slotOf == Drop(p.slotOf, v)
    ensures forall e :: e in q.lru <==> e in q.slotOf
  {
    hide Without;
    assert forall e :: e in q.slotOf <==> e in p.slotOf && e != v;
  }

  lemma AdmitOk(p: PoolView, e: int, slot: nat, s: Residency)
    requires PoolOk(p) && e !in p.slotOf && slot < p.nSlots && slot !in p.expertOf && slot !in p.freeSlots
    ensures PoolOk(AdmitView(p, e, slot, s))
  {}

  /** Lengths of the recency list and of the maps agree. */
  lemma PoolSizes(p: PoolView)
    requires PoolOk(p)
    ensures |p.lru| == |p.slotOf|
  {
    NoDupSize(p.lru);
    assert forall e :: e in Elems(p.lru) <==> e in p.slotOf.Keys;
    assert Elems(p.lru) == p.slotOf.Keys;
    assert |p.slotOf.Keys| == |p.slotOf|;
  }

  lemma DropSize(m: map<int, nat>, e: int)
    requires e in m
    ensures |Drop(m, e)| == |m| - 1
  {
    assert Drop(m, e).Keys == m.Keys - {e};
    assert |m.Keys| == |m| && |Drop(m, e).Keys| == |Drop(m, e)|;
  }

  lemma AddSize(m: map<int, nat>, e: int, v: nat)
    requires e !in m
    ensures |m[e := v]| == |m| + 1
  {
    assert m[e := v].Keys == m.Keys + {e};
    assert |m.Keys| == |m| && |m[e := v].Keys| == |m[e := v]|;
  }

  // ---- ledgers ---------------------------------------------------------------------------

  function WithPool(t: Books, b: int, p: PoolView): Books {
    t.(pools := t.pools[b := p])
  }

  /** Expert `e`'s residency depends only on its own pending entry. */
  lemma HoldsSame(d: Device, b: int, slot: nat, e: int, m: map<int, nat>, n: map<int, nat>)
    requires SlotHolds(d, b, slot, e, m)
    requires (e in m <==> e in n) && (e in m ==> m[e] == n[e])
    ensures SlotHolds(d, b, slot, e, n)
  {
    forall r: nat | r < ROLES ensures Holding(d, Cell(b, slot, r), e, n) {
      assert Holding(d, Cell(b, slot, r), e, m);
    }
  }

  /** Replacing one block's pool and pending map is enough to check that block. */
  lemma ReplaceBlock(d: Device, t: Books, u: Books, b: int)
    requires TierOk(d, t) && b in t.pools
    requires b in u.pools && b in u.pending
    requires u.pools == t.pools[b := u.pools[b]] && u.pending == t.pending[b := u.pending[b]]
    requires u.readEv == t.readEv && u.open == t.open && u.stageInflight == t.stageInflight
    requires EventsOwned(u.pending, u.evFree, u.evCreated)
    requires PoolOk(u.pools[b]) && PoolData(d, b, u.pools[b], u.pending[b])
    ensures TierOk(d, u)
  {
    hide PoolOk, PoolData, ReadersOk, EventsTyped, StageHost, EventsOwned;
    forall c | c in u.pools ensures PoolOk(u.pools[c]) && PoolData(d, c, u.pools[c], u.pending[c]) {
      assert c != b ==> c in t.pools && u.pools[c] == t.pools[c] && u.pending[c] == t.pending[c];
    }
    assert u.pending.Keys == u.pools.Keys;
  }

  /** What the ledger says about one block. */
  lemma TierBlock(d: Device, t: Books, b: int)
    requires TierOk(d, t) && (b in t.pools || b in t.pending)
    ensures b in t.pools && b in t.pending && PoolOk(t.pools[b]) && PoolData(d, b, t.pools[b], t.pending[b])
    ensures EventsTyped(d) && EventsOwned(t.pending, t.evFree, t.evCreated)
  {}

  lemma TierTakeFree(d: Device, t: Books, b: int)
    requires TierOk(d, t) && b in t.pools && t.pools[b].freeSlots != []
    ensures TierOk(d, WithPool(t, b, TakeFree(t.pools[b])))
    ensures SlotUntouched(d, b, t.pools[b].freeSlots[0])
    ensures var slot := t.pools[b].freeSlots[0];
      slot < t.pools[b].nSlots && slot !in t.pools[b].expertOf && slot !in TakeFree(t.pools[b]).freeSlots
  {
    var p := t.pools[b];
    TakeFreeOk(p);
    assert p.freeSlots[0] in p.freeSlots;
    assert forall s :: s in p.freeSlots[1..] ==> s in p.freeSlots;
    assert PoolData(d, b, TakeFree(p), t.pending[b]);
    assert t.pending[b := t.pending[b]] == t.pending;
    ReplaceBlock(d, t, WithPool(t, b, TakeFree(p)), b);
  }

  lemma TierEvict(d: Device, t: Books, b: int, i: nat)
    requires TierOk(d, t) && b in t.pools && i < |t.pools[b].lru|
    requires var v := t.pools[b].lru[i]; v in t.pending[b] ==> v in t.pools[b].inflight
    ensures t.pools[b].lru[i] in t.pools[b].slotOf
    ensures var v := t.pools[b].lru[i];
      TierOk(d, t.(pools := t.pools[b := EvictView(t.pools[b], i)], pending := Finish(t.pending, b, v),
                   evFree := if v in t.pending[b] then t.evFree + [t.pending[b][v]] else t.evFree))
  {
    hide TierOk, PoolOk, EventsOwned, SlotHolds, SlotUntouched;
    var p := t.pools[b];
    TierBlock(d, t, b);
    EvictOk(p, i);
    var v := p.lru[i];
    var q := EvictView(p, i);
    if v in t.pending[b] {
      GiveKeepsOwned(t.pending, t.evFree, t.evCreated, b, v);
    } else {
      assert Drop(t.pending[b], v) == t.pending[b];
      assert Finish(t.pending, b, v) == t.pending;
    }
    forall e | e in q.slotOf ensures SlotHolds(d, b, q.slotOf[e], e, Drop(t.pending[b], v)) {
      HoldsSame(d, b, p.slotOf[e], e, t.pending[b], Drop(t.pending[b], v));
    }
    assert Finish(t.pending, b, v)[b] == Drop(t.pending[b], v);
    assert PoolData(d, b, q, Drop(t.pending[b], v));
    ReplaceBlock(d, t, t.(pools := t.pools[b := q], pending := Finish(t.pending, b, v),
                          evFree := if v in t.pending[b] then t.evFree + [t.pending[b][v]] else t.evFree), b);
  }

  lemma TierAdmit(d: Device, t: Books, b: int, e: int, slot: nat, s: Residency)
    requires TierOk(d, t) && b in t.pools
    requires e !in t.pools[b].slotOf && slot < t.pools[b].nSlots
    requires slot !in t.pools[b].expertOf && slot !in t.pools[b].freeSlots
    requires SlotHolds(d, b, slot, e, t.pending[b])
    ensures TierOk(d, WithPool(t, b, AdmitView(t.pools[b], e, slot, s)))
  {
    hide TierOk, EventsOwned, SlotHolds, SlotUntouched, PoolOk;
    TierBlock(d, t, b);
    AdmitOk(t.pools[b], e, slot, s);
    assert t.pending[b := t.pending[b]] == t.pending;
    ReplaceBlock(d, t, WithPool(t, b, AdmitView(t.pools[b], e, slot, s)), b);
  }

  /** Reordering the recency list, forgetting or renaming states and in-flight marks. */
  lemma TierRelabel(d: Device, t: Books, b: int, q: PoolView)
    requires TierOk(d, t) && b in t.pools
    requires q == t.pools[b].(lru := q.lru, state := q.state, inflight := q.inflight)
    requires NoDup(q.lru) && (forall e :: e in q.lru <==> e in q.slotOf) && q.inflight.Keys <= q.slotOf.Keys
    ensures TierOk(d, WithPool(t, b, q))
  {
    hide TierOk, EventsOwned, SlotHolds, SlotUntouched;
    TierBlock(d, t, b);
    assert t.pending[b := t.pending[b]] == t.pending;
    ReplaceBlock(d, t, WithPool(t, b, q), b);
  }

  /** Once the compute stream waits for a transfer, its expert is no longer pending. */
  lemma TierLanded(d: Device, f: Device, t: Books, b: int, e: int, w: Weights)
    requires TierOk(d, t) && Pends(t.pending, b, e)
    requires Later(WaitOn(d, ComputeStream, TransferEvent(t.pending[b][e])), f, w)
    ensures NoTraffic(d, f)
    ensures TierOk(f, t.(pending := Finish(t.pending, b, e), evFree := t.evFree + [t.pending[b][e]]))
  {
    hide TierOk, PoolOk, EventsOwned, EventsTyped, NoTraffic, Later, WaitOn, SlotHolds, SlotUntouched, Holding;
    var id := t.pending[b][e];
    TierBlock(d, t, b);
    WaitIsQuiet(d, f, ComputeStream, TransferEvent(id), w);
    TierQuiet(d, f, t);
    GiveKeepsOwned(t.pending, t.evFree, t.evCreated, b, e);
    TierBlock(f, t, b);
    var p := t.pools[b];
    forall x | x in p.slotOf ensures SlotHolds(f, b, p.slotOf[x], x, Drop(t.pending[b], e)) {
      if x == e {
        LandedSlot(d, f, b, p.slotOf[x], x, t.pending[b], w);
      } else {
        HoldsSame(f, b, p.slotOf[x], x, t.pending[b], Drop(t.pending[b], e));
      }
    }
    assert Finish(t.pending, b, e)[b] == Drop(t.pending[b], e);
    assert t.pools[b := p] == t.pools;
    ReplaceBlock(f, t, t.(pending := Finish(t.pending, b, e), evFree := t.evFree + [id]), b);
  }

  lemma LandedSlot(d: Device, f: Device, b: int, slot: nat, e: int, pending: map<int, nat>, w: Weights)
    requires e in pending && SlotHolds(d, b, slot, e, pending)
    requires Later(WaitOn(d, ComputeStream, TransferEvent(pending[e])), f, w)
    ensures SlotHolds(f, b, slot, e, Drop(pending, e))
  {
    hide Later, Holding;
    forall r: nat | r < ROLES ensures Holding(f, Cell(b, slot, r), e, Drop(pending, e)) {
      assert Holding(d, Cell(b, slot, r), e, pending);
      LandedHolding(d, f, Cell(b, slot, r), e, pending, w);
    }
  }

  lemma LandedHolding(d: Device, f: Device, x: Cell, e: int, pending: map<int, nat>, w: Weights)
    requires e in pending && Holding(d, x, e, pending)
    requires Later(WaitOn(d, ComputeStream, TransferEvent(pending[e])), f, w)
    ensures Holding(f, x, e, Drop(pending, e))
  {
    var c := LastCopy(d.copyQ, |d.copyQ|, x);
    assert IsWait(f.computeQ[|d.computeQ|], CopyStream, c);
  }

  lemma UnionDrop(m: map<int, nat>, n: map<int, nat>, v: int)
    requires v !in n
    ensures Union(Drop(m, v), n) == Drop(Union(m, n), v)
  {}

  lemma UnionAdd(m: map<int, nat>, n: map<int, nat>, v: int, id: nat)
    ensures Union(m, n[v := id]) == Union(m, n)[v := id]
  {}

  lemma OverwritePool(m: map<int, PoolView>, b: int, p: PoolView, q: PoolView)
    ensures m[b := p][b := q] == m[b := q]
  {}

  lemma OverwritePending(m: map<int, map<int, nat>>, b: int, p: map<int, nat>, q: map<int, nat>)
    ensures m[b := p][b := q] == m[b := q]
  {}

  // ---- synchronous preload -------------------------------------------------------------------

  /** Seeding a vacant, untouched cell disturbs nothing. */
  lemma SeedTier(d: Device, f: Device, t: Books, x: Cell, expert: int, w: Weights)
    requires TierOk(d, t) && Vacant(t.pools, x) && Later(Seed(d, x, expert, w), f, w)
    ensures TierOk(f, t)
  {
    forall b | b in t.pools ensures PoolData(f, b, t.pools[b], t.pending[b]) {
      SeedPool(d, f, t, b, x, expert, w);
    }
    forall k | 0 <= k < |f.computeQ| && f.computeQ[k].Load? && f.computeQ[k].src.block !in t.open
      ensures ReaderMarked(f, f.computeQ[k].src.block, k, t.readEv)
    {
      assert ReaderMarked(d, d.computeQ[k].src.block, k, t.readEv);
    }
    forall i: nat | i < STAGING_SLOTS ensures BufferCovered(f, i, t.stageInflight[i]) {
      assert BufferCovered(d, i, t.stageInflight[i]);
    }
  }

  lemma SeedPool(d: Device, f: Device, t: Books, b: int, x: Cell, expert: int, w: Weights)
    requires b in t.pools && b in t.pending && PoolOk(t.pools[b]) && PoolData(d, b, t.pools[b], t.pending[b])
    requires Vacant(t.pools, x) && Later(Seed(d, x, expert, w), f, w)
    ensures PoolData(f, b, t.pools[b], t.pending[b])
  {
    var p := t.pools[b];
    forall e | e in p.slotOf ensures SlotHolds(f, b, p.slotOf[e], e, t.pending[b]) {
      assert SlotHolds(d, b, p.slotOf[e], e, t.pending[b]);
      forall r: nat | r < ROLES ensures Holding(f, Cell(b, p.slotOf[e], r), e, t.pending[b]) {
        assert Holding(d, Cell(b, p.slotOf[e], r), e, t.pending[b]);
      }
    }
    forall s | s in p.freeSlots ensures SlotUntouched(f, b, s) {
      assert SlotUntouched(d, b, s);
      forall r: nat ensures Untouched(f, Cell(b, s, r)) {
        assert Untouched(d, Cell(b, s, r));
      }
    }
  }

  ghost predicate SeededRoles(d: Device, b: int, slot: nat, e: int, n: nat) {
    forall r: nat :: r < n ==> Cell(b, slot, r) in d.seeds && d.seeds[Cell(b, slot, r)] == e
  }

  lemma SeededHolds(d: Device, b: int, slot: nat, e: int, pending: map<int, nat>)
    requires SlotUntouched(d, b, slot) && SeededRoles(d, b, slot, e, ROLES) && e !in pending
    ensures SlotHolds(d, b, slot, e, pending)
  {
    forall r: nat | r < ROLES ensures Holding(d, Cell(b, slot, r), e, pending) {
      assert Untouched(d, Cell(b, slot, r));
      LastCopyIs(d.copyQ, |d.copyQ|, Cell(b, slot, r), -1);
    }
  }

  lemma SeedUntouched(d: Device, f: Device, b: int, slot: nat, x: Cell, expert: int, w: Weights)
    requires SlotUntouched(d, b, slot) && Later(Seed(d, x, expert, w), f, w)
    ensures SlotUntouched(f, b, slot)
  {
    forall r: nat ensures Untouched(f, Cell(b, slot, r)) {
      assert Untouched(d, Cell(b, slot, r));
    }
  }

  // ---- kernels -----------------------------------------------------------------------------------

  /** A settled resident can be read by a kernel submitted now. */
  lemma ResidentReady(d: Device, t: Books, b: int, e: int, r: nat)
    requires TierOk(d, t) && b in t.pools && e in t.pools[b].slotOf && e !in t.pending[b] && r < ROLES
    ensures Ready(d, Cell(b, t.pools[b].slotOf[e], r), e)
    ensures t.pools[b].slotOf[e] !in t.pools[b].freeSlots
  {
    assert PoolOk(t.pools[b]) && PoolData(d, b, t.pools[b], t.pending[b]);
    assert SlotHolds(d, b, t.pools[b].slotOf[e], e, t.pending[b]);
    assert Holding(d, Cell(b, t.pools[b].slotOf[e], r), e, t.pending[b]);
  }

  lemma LoadTier(d: Device, f: Device, t: Books, x: Cell, e: int, w: Weights)
    requires TierOk(d, t) && x.block in t.open && NotFree(t.pools, x)
    requires Later(Enqueue(d, ComputeStream, Load(x, e)), f, w)
    ensures TierOk(f, t)
  {
    assert f.computeQ[|d.computeQ|] == Load(x, e);
    DataGrow(d, f, t.pools, t.pending);
    ReadersGrow(d, f, t.readEv, t.open);
    forall i: nat | i < STAGING_SLOTS ensures BufferCovered(f, i, t.stageInflight[i]) {
      StageGrow(d, f, i, t.stageInflight[i]);
    }
  }

  lemma LoadProgram(d: Device, f: Device, x: Cell, e: int, w: Weights)
    requires Later(Enqueue(d, ComputeStream, Load(x, e)), f, w)
    ensures Expected(f.computeQ, |f.computeQ|, w)
         == Expected(d.computeQ, |d.computeQ|, w) + [Read(x.block, x.role, w(x.block, e, x.role))]
  {
    ExpectedPrefix(d.computeQ, f.computeQ, |d.computeQ|, w);
  }

  /** Marking a block's readers closes it; opening only weakens. */
  lemma MarkTier(d: Device, f: Device, t: Books, u: Books, b: int, w: Weights)
    requires Inv(d, w) && TierOk(d, t) && Later(RecordOn(d, ComputeStream, ReadEvent(b)), f, w)
    requires u == t.(readEv := t.readEv + {b}, open := t.open - {b})
    ensures TierOk(f, u)
  {
    RecordIsQuiet(d, f, ComputeStream, ReadEvent(b), w);
    TierQuiet(d, f, t);
    forall k | 0 <= k < |f.computeQ| && f.computeQ[k].Load? && f.computeQ[k].src.block !in u.open
      ensures ReaderMarked(f, f.computeQ[k].src.block, k, u.readEv)
    {
      if f.computeQ[k].src.block != b {
        assert ReaderMarked(f, f.computeQ[k].src.block, k, t.readEv);
      } else {
        assert k < |d.computeQ|;
      }
    }
  }

  lemma OpenTier(d: Device, t: Books, b: int)
    requires TierOk(d, t)
    ensures TierOk(d, t.(open := t.open + {b}))
  {
    forall k | 0 <= k < |d.computeQ| && d.computeQ[k].Load? && d.computeQ[k].src.block !in t.open + {b}
      ensures ReaderMarked(d, d.computeQ[k].src.block, k, t.readEv)
    {
      assert d.computeQ[k].src.block !in t.open;
    }
  }
}
