/** A concrete run in which the shedding loop loses a slot. */
module SlotLoss {
  import opened Orders
  import opened Gpu
  import opened TierBooks
  import opened TierMoves
  import opened SlotLayout
  import opened BatchLru
  import T = HotTier

  /** Two slots, one of them reserved for prefetch: after two single-expert requests only one
      slot is usable, and a request for two experts, which the two slots would hold, is refused. */
  method SlotLossExample(w: Weights) returns (first: T.Admission, second: T.Admission, third: T.Admission)
    ensures first.Slots? && second.Slots? && third.AllProtected?
  {
    hide T.HotTier.ValidBut, T.HotTier.Valid, T.HotTier.ReserveKept, T.HotTier.Views, T.Landed;
    hide Ensured, T.SlotsMatch, T.Program, Elems, Without;
    ElemsOf(0, 1);
    BiggestOne();
    var tier := new T.HotTier(w, [0], map[0 := 1], 2, 1, 2, 1, false);
    var p := tier.pools[0];
    tier.PoolIsSound(0);
    ghost var v0 := p.View();
    first := tier.Ensure(0, [0]);
    tier.PoolIsSound(0);
    ghost var v1 := p.View();
    FirstRequest(v0, v1);
    second := tier.Ensure(0, [1]);
    SecondRequest(v1, p.View());
    third := tier.Ensure(0, [0, 1]);
  }

  lemma BiggestOne()
    ensures Biggest([0], map[0 := 1]) == 1
    ensures SlotsEach(2, 1, 1, 2) == 2 && ReserveFor(1, 2, 1) == 1
  {
    assert [0][1..] == [];
  }

  lemma ElemsOf(a: int, b: int)
    requires a != b
    ensures Elems([a]) == {a} && |Elems([a])| == 1
    ensures Elems([b]) == {b} && |Elems([b])| == 1
    ensures Elems([a, b]) == {a, b} && |Elems([a, b])| == 2
  {}

  /** The first expert takes a free slot and nothing is shed. */
  lemma FirstRequest(v: PoolView, p: PoolView)
    requires PoolOk(v) && PoolOk(p) && Ensured(v, p, [0], 1)
    requires v.nSlots == 2 && v.slotOf == map[] && |v.freeSlots| == 2
    ensures |p.slotOf| == 1 && |p.freeSlots| == 1 && p.nSlots == 2 && 1 !in p.slotOf
  {
    One(v, 0);
    assert Only([0], v.slotOf.Keys) == [];
    PoolSizes(v);
    assert p.lru == [0];
    assert 1 !in p.lru;
  }

  /** The second one fills the pool, so the first is shed, and its slot with it. */
  lemma SecondRequest(v: PoolView, p: PoolView)
    requires Ensured(v, p, [1], 1) && v.nSlots == 2 && |v.slotOf| == 1 && |v.freeSlots| == 1
    ensures 1 !in v.slotOf ==> |p.slotOf| == 1 && |p.freeSlots| == 0
  {
    One(v, 1);
  }

  lemma One(v: PoolView, e: int)
    ensures Fresh(v, [e]) == if e in v.slotOf then [] else [e]
    ensures |Elems([e])| == 1
  {
    ElemsOf(e, e + 1);
    var s := [e];
    assert s[..|s| - 1] == [];
    assert Without(s[..|s| - 1], v.slotOf.Keys) == [];
  }
}
