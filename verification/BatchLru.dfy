/** What one admission does to a pool, as a function of the request: the batch form
    of least-recently-used replacement, in which a whole request is protected. */
module BatchLru {
  import opened Orders
  import opened TierBooks
  import opened TierMoves
  import opened SlotLayout

  /** A recency list after the requests `hits`, all of them listed, in order. */
  function Touched(lru: seq<int>, hits: seq<int>): seq<int> {
    Without(lru, Elems(hits)) + LastOcc(hits)
  }

  lemma TouchedNone(lru: seq<int>)
    ensures Touched(lru, []) == lru
  {
    WithoutNothing(lru, {});
    assert Elems<int>([]) == {};
  }

  lemma TouchedNext(lru: seq<int>, hits: seq<int>, e: int)
    ensures Touched(lru, hits + [e]) == MoveToEnd(Touched(lru, hits), e)
  {
    WithoutAppend(Without(lru, Elems(hits)), LastOcc(hits), {e});
    WithoutTwice(lru, Elems(hits), {e});
    assert Elems(hits + [e]) == Elems(hits) + {e};
    assert (hits + [e])[..|hits|] == hits;
  }

  /** Entries of `p` that survived from `v` sit in the slots they had, and no
      prefetch mark was invented. */
  ghost predicate Kept(v: PoolView, p: PoolView) {
    && p.nSlots == v.nSlots
    && (forall x :: x in p.slotOf && x in v.slotOf ==> p.slotOf[x] == v.slotOf[x])
    && (forall x :: x in p.inflight ==> x in v.inflight && p.inflight[x] == v.inflight[x])
  }

  /** The recency list splits into what this request may evict and what it protects. */
  ghost predicate Splits(lru: seq<int>, base: seq<int>, tail: seq<int>, want: set<int>) {
    && lru == base + tail
    && (forall x :: x in base ==> x !in want)
    && (forall x :: x in tail ==> x in want)
  }

  /** After `k` of the newly wanted experts are in, starting from `v`. */
  ghost predicate Progress(v: PoolView, base: seq<int>, tail: seq<int>, newly: seq<int>, p: PoolView, k: nat) {
    var n := Max(0, k - |v.freeSlots|);
    && k <= |newly| && n <= |base|
    && p.freeSlots == v.freeSlots[Min(k, |v.freeSlots|)..]
    && p.lru == base[n..] + tail + newly[..k]
    && |p.slotOf| == |v.slotOf| + k - n
    && Kept(v, p)
  }

  lemma ProgressFree(v: PoolView, base: seq<int>, tail: seq<int>, newly: seq<int>, p: PoolView, k: nat, slot: nat)
    requires Progress(v, base, tail, newly, p, k) && k < |newly| && p.freeSlots != []
    requires newly[k] !in p.slotOf && newly[k] !in v.slotOf
    ensures Progress(v, base, tail, newly, AdmitView(TakeFree(p), newly[k], slot, Transferring), k + 1)
  {
    AddSize(p.slotOf, newly[k], slot);
    assert newly[..k + 1] == newly[..k] + [newly[k]];
  }

  lemma ProgressEvict(v: PoolView, base: seq<int>, tail: seq<int>, newly: seq<int>, p: PoolView, k: nat, slot: nat)
    requires Progress(v, base, tail, newly, p, k) && k < |newly| && p.freeSlots == []
    requires newly[k] !in p.slotOf && newly[k] !in v.slotOf
    requires |p.lru| > 0 && p.lru[0] in p.slotOf && Max(0, k - |v.freeSlots|) < |base|
    ensures Progress(v, base, tail, newly, AdmitView(EvictView(p, 0), newly[k], slot, Transferring), k + 1)
  {
    var n := k - |v.freeSlots|;
    assert n >= 0 && v.freeSlots[Min(k, |v.freeSlots|)..] == v.freeSlots[Min(k + 1, |v.freeSlots|)..];
    var q := EvictView(p, 0);
    KeptMove(v, p, q, newly[k], slot);
    EvictAdmit(p, q, newly[k], slot);
    RotateIn(base, n, tail, newly, k, p.lru, q.lru);
    hide EvictView, AdmitView, Kept;
  }

  /** One out, one in. */
  lemma EvictAdmit(p: PoolView, q: PoolView, e: int, slot: nat)
    requires |p.lru| > 0 && p.lru[0] in p.slotOf && q == EvictView(p, 0) && e !in p.slotOf
    ensures var a := AdmitView(q, e, slot, Transferring);
      |a.slotOf| == |p.slotOf| && a.lru == q.lru + [e] && a.freeSlots == p.freeSlots
      && q.lru == p.lru[..0] + p.lru[1..]
  {
    DropSize(p.slotOf, p.lru[0]);
    AddSize(q.slotOf, e, slot);
  }

  lemma KeptMove(v: PoolView, p: PoolView, q: PoolView, e: int, slot: nat)
    requires Kept(v, p) && e !in v.slotOf && |p.lru| > 0 && p.lru[0] in p.slotOf && q == EvictView(p, 0)
    ensures Kept(v, AdmitView(q, e, slot, Transferring))
  {}

  lemma RotateIn(base: seq<int>, n: nat, tail: seq<int>, newly: seq<int>, k: nat, lru: seq<int>, after: seq<int>)
    requires n < |base| && k < |newly| && lru == base[n..] + tail + newly[..k]
    requires after == lru[..0] + lru[1..]
    ensures after + [newly[k]] == base[n + 1..] + tail + newly[..k + 1]
  {
    assert newly[..k + 1] == newly[..k] + [newly[k]];
    assert base[n..] == [base[n]] + base[n + 1..];
    assert lru == [base[n]] + (base[n + 1..] + tail + newly[..k]);
  }

  lemma ProgressStep(v: PoolView, base: seq<int>, tail: seq<int>, newly: seq<int>, p: PoolView, k: nat,
                     mid: PoolView, want: set<int>, i: nat, slot: nat)
    requires Splits(v.lru, base, tail, want) && (forall x :: x in newly ==> x in want)
    requires Progress(v, base, tail, newly, p, k) && k < |newly|
    requires newly[k] !in p.slotOf && newly[k] !in v.slotOf && NextView(p, mid, want, i)
    ensures Progress(v, base, tail, newly, AdmitView(mid, newly[k], slot, Transferring), k + 1)
  {
    if p.freeSlots == [] {
      EvictsOldest(v, base, tail, newly, p, k, mid, want, i);
      hide Progress, AdmitView, EvictView;
      ProgressEvict(v, base, tail, newly, p, k, slot);
    } else {
      hide Progress, AdmitView;
      ProgressFree(v, base, tail, newly, p, k, slot);
    }
  }

  /** With no free slot the victim is the oldest entry this request does not want. */
  lemma EvictsOldest(v: PoolView, base: seq<int>, tail: seq<int>, newly: seq<int>, p: PoolView, k: nat,
                     mid: PoolView, want: set<int>, i: nat)
    requires Splits(v.lru, base, tail, want) && (forall x :: x in newly ==> x in want)
    requires Progress(v, base, tail, newly, p, k) && k < |newly|
    requires p.freeSlots == [] && NextView(p, mid, want, i)
    ensures i == 0 && |p.lru| > 0 && p.lru[0] in p.slotOf && Max(0, k - |v.freeSlots|) < |base|
    ensures mid == EvictView(p, 0)
  {
    hide Kept, EvictView;
    var n := Max(0, k - |v.freeSlots|);
    assert p.lru == base[n..] + (tail + newly[..k]);
    assert forall x :: x in base[n..] ==> x in base;
    FirstUnwanted(base[n..], tail + newly[..k], want, p.lru, i);
  }

  /** The first evictable entry of base-then-protected is the oldest of `base`. */
  lemma FirstUnwanted(base: seq<int>, rest: seq<int>, want: set<int>, lru: seq<int>, i: nat)
    requires lru == base + rest && i < |lru| && lru[i] !in want
    requires forall x :: x in base ==> x !in want
    requires forall x :: x in rest ==> x in want
    requires forall j :: 0 <= j < i ==> lru[j] in want
    ensures base != [] && i == 0
  {
    assert forall j :: |base| <= j < |lru| ==> lru[j] == rest[j - |base|] && lru[j] in rest;
    var y := base[0];
    assert y in base && lru[0] == y;
  }

  lemma NothingUnwanted(base: seq<int>, rest: seq<int>, want: set<int>, lru: seq<int>)
    requires lru == base + rest
    requires forall x :: x in base ==> x !in want
    requires forall x :: x in rest ==> x in want
    ensures (exists e :: e in lru && e !in want) <==> base != []
  {
    if base != [] {
      var y := base[0];
      assert lru[0] == y && y in base;
    }
  }

  /** An expert not admitted yet is not resident. */
  lemma StillAbsent(v: PoolView, base: seq<int>, tail: seq<int>, newly: seq<int>, p: PoolView, k: nat)
    requires Progress(v, base, tail, newly, p, k) && k < |newly| && NoDup(newly) && v.lru == base + tail
    requires newly[k] !in v.slotOf
    requires (forall e :: e in v.lru ==> e in v.slotOf) && (forall e :: e in p.slotOf ==> e in p.lru)
    ensures newly[k] !in p.slotOf
  {
    var e := newly[k];
    assert forall x :: x in base[Max(0, k - |v.freeSlots|)..] || x in tail ==> x in v.lru;
    assert e !in newly[..k];
  }

  /** Transfers started for the first experts of `newly`, in order. */
  ghost predicate HeldIs(held: map<int, nat>, newly: seq<int>, events: seq<nat>) {
    && |events| == |newly| && held.Keys == Elems(newly)
    && forall i :: 0 <= i < |newly| ==> newly[i] in held && held[newly[i]] == events[i]
  }

  lemma HeldNext(held: map<int, nat>, newly: seq<int>, events: seq<nat>, k: nat, id: nat)
    requires k < |newly| && NoDup(newly) && HeldIs(held, newly[..k], events)
    ensures newly[k] !in held && HeldIs(held[newly[k] := id], newly[..k + 1], events + [id])
  {
    var e := newly[k];
    assert newly[..k + 1] == newly[..k] + [e];
    assert e !in newly[..k];
    assert held[e := id].Keys == held.Keys + {e};
    assert Elems(newly[..k + 1]) == Elems(newly[..k]) + {e};
  }

  /** After `m` entries were shed, starting from `v`. */
  ghost predicate ShedProgress(v: PoolView, base: seq<int>, tail: seq<int>, p: PoolView, m: nat) {
    && m <= |base|
    && p.freeSlots == v.freeSlots
    && p.lru == base[m..] + tail
    && |p.slotOf| == |v.slotOf| - m
    && Kept(v, p)
  }

  lemma ShedStep(v: PoolView, base: seq<int>, tail: seq<int>, p: PoolView, m: nat, want: set<int>, i: nat)
    requires Splits(v.lru, base, tail, want) && ShedProgress(v, base, tail, p, m) && PoolOk(p)
    requires i < |p.lru| && p.lru[i] !in want && p.lru[i] in p.slotOf
    requires forall j :: 0 <= j < i ==> p.lru[j] in want
    ensures ShedProgress(v, base, tail, EvictView(p, i), m + 1)
  {
    FirstUnwanted(base[m..], tail, want, p.lru, i);
    DropSize(p.slotOf, p.lru[i]);
    var q := EvictView(p, i);
    CutFirst(base, m, tail, p.lru, q.lru);
    KeptEvict(v, p, i);
    hide PoolOk, Splits, Kept;
  }

  lemma KeptEvict(v: PoolView, p: PoolView, i: nat)
    requires Kept(v, p) && i < |p.lru| && p.lru[i] in p.slotOf
    ensures Kept(v, EvictView(p, i))
  {}

  lemma CutFirst(base: seq<int>, m: nat, tail: seq<int>, lru: seq<int>, after: seq<int>)
    requires m < |base| && lru == base[m..] + tail && after == lru[..0] + lru[1..]
    ensures after == base[m + 1..] + tail
  {
    assert base[m..] == [base[m]] + base[m + 1..];
  }

  /** The list after a full round of admissions still splits the same way. */
  lemma SplitsAfter(base: seq<int>, n: nat, tail: seq<int>, newly: seq<int>, lru: seq<int>, want: set<int>)
    requires n <= |base| && Splits(lru, base, tail, want) && forall x :: x in newly ==> x in want
    ensures Splits(base[n..] + tail + newly, base[n..], tail + newly, want)
  {
    assert base[n..] + tail + newly == base[n..] + (tail + newly);
  }

  // ---- the whole admission -----------------------------------------------------------------

  function Fresh(p: PoolView, want: seq<int>): seq<int> {
    FirstOcc(Without(want, p.slotOf.Keys))
  }

  /** How far the tier lets the pool fill, keeping the prefetch reserve if it can. */
  function SoftCap(p: PoolView, want: seq<int>, reserve: nat): int {
    p.nSlots - Min(reserve, Max(0, p.nSlots - |Elems(want)|))
  }

  function Evicted(p: PoolView, want: seq<int>): nat {
    Max(0, |Fresh(p, want)| - |p.freeSlots|)
  }

  function Shed(p: PoolView, want: seq<int>, reserve: nat): nat {
    Max(0, |p.slotOf| + |Fresh(p, want)| - Evicted(p, want) - SoftCap(p, want, reserve))
  }

  /** The recency list an admission must leave behind. */
  function EnsuredLru(p: PoolView, want: seq<int>, victims: nat): seq<int>
    requires victims <= |Without(p.lru, Elems(want))|
  {
    Without(p.lru, Elems(want))[victims..] + LastOcc(Only(want, p.slotOf.Keys)) + Fresh(p, want)
  }

  ghost predicate Ensured(v: PoolView, p: PoolView, want: seq<int>, reserve: nat) {
    var victims := Evicted(v, want) + Shed(v, want, reserve);
    && victims <= |Without(v.lru, Elems(want))|
    && p.lru == EnsuredLru(v, want, victims)
    && p.freeSlots == v.freeSlots[Min(|Fresh(v, want)|, |v.freeSlots|)..]
    && |p.slotOf| == |v.slotOf| + |Fresh(v, want)| - victims
    && Kept(v, p)
    && (forall e :: e in want ==> e !in p.inflight)
  }

  lemma {:induction false} OnlyAndWithout(s: seq<int>, keep: set<int>)
    ensures Elems(Only(s, keep)) + Elems(Without(s, keep)) == Elems(s)
    ensures Elems(Only(s, keep)) !! Elems(Without(s, keep))
  {}

  /** Distinct requests are distinct hits plus distinct misses. */
  lemma WantCount(v: PoolView, want: seq<int>)
    ensures |Elems(want)| == |LastOcc(Only(want, v.slotOf.Keys))| + |Fresh(v, want)|
  {
    OnlyAndWithout(want, v.slotOf.Keys);
    LastOccNoDup(Only(want, v.slotOf.Keys));
    FirstOccNoDup(Without(want, v.slotOf.Keys));
  }

  /** Where the touched list splits, and how long its parts are. */
  lemma TouchedSplits(v: PoolView, want: seq<int>)
    requires PoolOk(v)
    ensures var hits := Only(want, v.slotOf.Keys);
      var base := Without(v.lru, Elems(want));
      && Splits(Touched(v.lru, hits), base, LastOcc(hits), Elems(want))
      && |base| + |LastOcc(hits)| == |v.slotOf|
  {
    TouchedParts(v.lru, v.slotOf.Keys, want);
    TouchedSizes(v, want);
  }

  lemma TouchedParts(lru: seq<int>, resident: set<int>, want: seq<int>)
    requires forall x :: x in lru <==> x in resident
    ensures Splits(Touched(lru, Only(want, resident)), Without(lru, Elems(want)),
                   LastOcc(Only(want, resident)), Elems(want))
  {
    hide Without, Only, LastOcc;
    var hits := Only(want, resident);
    assert forall x :: x in lru ==> (x in Elems(hits) <==> x in Elems(want));
    WithoutSame(lru, Elems(hits), Elems(want));
  }

  lemma TouchedSizes(v: PoolView, want: seq<int>)
    requires PoolOk(v)
    ensures |Without(v.lru, Elems(want))| + |LastOcc(Only(want, v.slotOf.Keys))| == |v.slotOf|
  {
    hide Without, Only, LastOcc, NoDup;
    var hits := Only(want, v.slotOf.Keys);
    var base := Without(v.lru, Elems(want));
    PoolSizes(v);
    WithoutNoDup(v.lru, Elems(want));
    NoDupSize(base);
    LastOccNoDup(hits);
    NoDupSize(v.lru);
    forall x: int
      ensures x in Elems(v.lru) <==> x in Elems(base) || x in Elems(hits)
      ensures x in Elems(base) ==> x !in Elems(hits)
    {
      assert x in v.lru <==> x in v.slotOf;
      assert x in base <==> x in v.lru && x !in Elems(want);
    }
    DisjointSizes(Elems(v.lru), Elems(base), Elems(hits));
  }

  lemma DisjointSizes<T(!new)>(all: set<T>, a: set<T>, b: set<T>)
    requires forall x :: x in all <==> x in a || x in b
    requires forall x :: x in a ==> x !in b
    ensures |all| == |a| + |b|
  {
    assert a * b == {};
    assert all == a + b;
  }

  /** The request fits exactly when its distinct experts fit the slots not yet lost. */
  lemma FitsExactly(v: PoolView, want: seq<int>)
    requires PoolOk(v)
    ensures Evicted(v, want) <= |Without(v.lru, Elems(want))| <==> |Elems(want)| <= |v.freeSlots| + |v.slotOf|
  {
    TouchedSplits(v, want);
    WantCount(v, want);
  }

  /** Shedding always finds an entry to shed: the raise inside it is never reached. */
  lemma ShedFits(v: PoolView, want: seq<int>, reserve: nat)
    requires PoolOk(v) && LossBounded(v, reserve) && |Elems(want)| <= |v.freeSlots| + |v.slotOf|
    ensures Evicted(v, want) + Shed(v, want, reserve) <= |Without(v.lru, Elems(want))|
  {
    TouchedSplits(v, want);
    WantCount(v, want);
  }

  /** Slots lost to shedding never exceed the reserve, and the pool ends below its soft cap: the
      reserve is left clear unless the request alone needs more room than that. */
  lemma EnsuredKeepsBound(v: PoolView, p: PoolView, want: seq<int>, reserve: nat)
    requires LossBounded(v, reserve) && Ensured(v, p, want, reserve)
    ensures LossBounded(p, reserve)
    ensures |p.slotOf| <= SoftCap(v, want, reserve)
    ensures |p.slotOf| <= v.nSlots - reserve || |p.slotOf| <= |Elems(want)|
  {}

  /** Without a reserve nothing is shed: the victims are just the misses that found no free slot. */
  lemma NoReserveNoShed(v: PoolView, want: seq<int>)
    requires PoolOk(v) && LossBounded(v, 0) && |Elems(want)| <= v.nSlots
    ensures Shed(v, want, 0) == 0
    ensures Evicted(v, want) == Max(0, |Fresh(v, want)| - |v.freeSlots|)
  {}

  /** The three phases of an admission, put together. */
  lemma EnsuredCompose(v: PoolView, touched: PoolView, filled: PoolView, p: PoolView, want: seq<int>, reserve: nat)
    requires PoolOk(v) && LossBounded(v, reserve) && |Elems(want)| <= |v.freeSlots| + |v.slotOf|
    requires touched == v.(lru := touched.lru, state := touched.state, inflight := touched.inflight)
    requires touched.lru == Touched(v.lru, Only(want, v.slotOf.Keys))
    requires touched.inflight.Keys == v.inflight.Keys - Elems(want) && Kept(v, touched)
    requires Progress(touched, Without(v.lru, Elems(want)), LastOcc(Only(want, v.slotOf.Keys)),
                      Fresh(v, want), filled, |Fresh(v, want)|)
    requires ShedProgress(filled, Without(v.lru, Elems(want))[Evicted(v, want)..],
                          LastOcc(Only(want, v.slotOf.Keys)) + Fresh(v, want),
                          p, Max(0, |filled.slotOf| - SoftCap(v, want, reserve)))
    requires p.slotOf.Keys <= filled.slotOf.Keys
    ensures Ensured(v, p, want, reserve)
  {
    hide PoolOk, NoDup, Without, Only, LastOcc, FirstOcc, Touched, Kept, Fresh, SoftCap, Progress, ShedProgress;
    ShedFits(v, want, reserve);
    var base, hits, newly := Without(v.lru, Elems(want)), LastOcc(Only(want, v.slotOf.Keys)), Fresh(v, want);
    FilledSize(v, touched, filled, base, hits, newly, Evicted(v, want));
    ComposeParts(v, touched, filled, p, base, hits, newly, Evicted(v, want), Shed(v, want, reserve));
    ComposeKept(touched, filled, p, base, hits, newly, Evicted(v, want), Shed(v, want, reserve));
    KeptTrans(v, touched, filled, p, want);
  }

  lemma FilledSize(v: PoolView, touched: PoolView, filled: PoolView, base: seq<int>, hits: seq<int>, newly: seq<int>,
                   e: nat)
    requires touched.freeSlots == v.freeSlots && touched.slotOf == v.slotOf
    requires Progress(touched, base, hits, newly, filled, |newly|) && e == Max(0, |newly| - |v.freeSlots|)
    ensures |filled.slotOf| == |v.slotOf| + |newly| - e
  {}

  lemma ComposeParts(v: PoolView, touched: PoolView, filled: PoolView, p: PoolView,
                     base: seq<int>, hits: seq<int>, newly: seq<int>, e: nat, m: nat)
    requires touched.freeSlots == v.freeSlots && touched.slotOf == v.slotOf && e + m <= |base|
    requires Progress(touched, base, hits, newly, filled, |newly|) && e == Max(0, |newly| - |v.freeSlots|)
    requires ShedProgress(filled, base[e..], hits + newly, p, m)
    ensures p.lru == base[e + m..] + hits + newly
    ensures p.freeSlots == v.freeSlots[Min(|newly|, |v.freeSlots|)..]
    ensures |p.slotOf| == |v.slotOf| + |newly| - (e + m)
  {
    hide Kept;
    ShedSuffix(base, e, m, hits, newly);
  }

  lemma ComposeKept(touched: PoolView, filled: PoolView, p: PoolView,
                    base: seq<int>, hits: seq<int>, newly: seq<int>, e: nat, m: nat)
    requires Progress(touched, base, hits, newly, filled, |newly|) && e <= |base|
    requires ShedProgress(filled, base[e..], hits + newly, p, m)
    ensures Kept(touched, filled) && Kept(filled, p)
  {}

  lemma ShedSuffix(base: seq<int>, n: nat, m: nat, hits: seq<int>, newly: seq<int>)
    requires n + m <= |base|
    ensures base[n..][m..] + (hits + newly) == base[n + m..] + hits + newly
  {
    assert base[n..][m..] == base[n + m..];
  }

  lemma KeptTrans(v: PoolView, touched: PoolView, filled: PoolView, p: PoolView, want: seq<int>)
    requires Kept(v, touched) && Kept(touched, filled) && Kept(filled, p)
    requires touched.slotOf == v.slotOf && p.slotOf.Keys <= filled.slotOf.Keys
    requires touched.inflight.Keys == v.inflight.Keys - Elems(want)
    ensures Kept(v, p) && forall e :: e in want ==> e !in p.inflight
  {}

  /** After an admission every requested expert is resident. */
  lemma WantedResident(v: PoolView, p: PoolView, want: seq<int>, reserve: nat)
    requires PoolOk(p) && Ensured(v, p, want, reserve)
    ensures forall e :: e in want ==> e in p.slotOf && e !in p.inflight
  {
    hide Without, Only, LastOcc, FirstOcc;
    forall e | e in want ensures e in p.slotOf {
      if e in v.slotOf {
        assert e in LastOcc(Only(want, v.slotOf.Keys));
      } else {
        assert e in Without(want, v.slotOf.Keys);
        assert e in Fresh(v, want);
      }
      assert e in p.lru;
    }
  }

  /** `todo` was put into the first free slots in order; everyone else stayed. */
  ghost predicate Placed(was: map<int, nat>, free: seq<nat>, todo: seq<int>, slotOf: map<int, nat>) {
    && |todo| <= |free|
    && (forall e :: e in slotOf <==> e in was || e in todo)
    && (forall e :: e in was ==> e in slotOf && slotOf[e] == was[e])
    && (forall i :: 0 <= i < |todo| ==> todo[i] in slotOf && slotOf[todo[i]] == free[i])
    && |slotOf| == |was| + |todo|
  }

  lemma PlacedNext(was: map<int, nat>, free: seq<nat>, todo: seq<int>, slotOf: map<int, nat>, e: int)
    requires Placed(was, free, todo, slotOf) && e !in slotOf && |todo| < |free|
    ensures Placed(was, free, todo + [e], slotOf[e := free[|todo|]])
    ensures free[|todo|..][0] == free[|todo|] && free[|todo|..][1..] == free[|todo + [e]|..]
  {
    var n := |todo|;
    AddSize(slotOf, e, free[n]);
    assert forall x :: x in todo + [e] <==> x in todo || x == e;
    forall i | 0 <= i < n ensures (todo + [e])[i] == todo[i] {}
  }

  // ---- prefetch ------------------------------------------------------------------------------

  /** Recency after prefetching: settled residents named again are refreshed, residents
      still in flight are left alone, newcomers go to the end. */
  function PrefetchedLru(v: PoolView, todo: seq<int>): seq<int> {
    if todo == [] then v.lru
    else
      var r, e := PrefetchedLru(v, todo[..|todo| - 1]), todo[|todo| - 1];
      if e !in v.slotOf then r + [e] else if e in v.inflight then r else MoveToEnd(r, e)
  }

  /** The candidates among the first `k` that had to be copied. */
  function Newcomers(v: PoolView, todo: seq<int>, k: nat): seq<int>
    requires k <= |todo|
  {
    Without(todo[..k], v.slotOf.Keys)
  }

  /** `k` candidates looked at, `n` copies started: every old resident kept its slot, and
      the newcomers took the first free slots in order. */
  ghost predicate PrefetchedSoFar(v: PoolView, p: PoolView, todo: seq<int>, n: nat, k: nat) {
    && k <= |todo| && n == |Newcomers(v, todo, k)| <= |v.freeSlots|
    && p.nSlots == v.nSlots && p.freeSlots == v.freeSlots[n..]
    && Placed(v.slotOf, v.freeSlots, Newcomers(v, todo, k), p.slotOf)
    && (forall e :: e in p.inflight <==> e in v.inflight || e in Newcomers(v, todo, k))
    && (forall e :: e in v.inflight ==> p.inflight[e] == v.inflight[e])
    && p.lru == PrefetchedLru(v, todo[..k])
  }

  /** It stops early only when a newcomer finds no free slot. */
  ghost predicate Prefetched(v: PoolView, p: PoolView, todo: seq<int>, n: nat, k: nat) {
    PrefetchedSoFar(v, p, todo, n, k) && (k == |todo| || (p.freeSlots == [] && todo[k] !in v.slotOf))
  }

  lemma PrefetchStart(v: PoolView, todo: seq<int>)
    ensures PrefetchedSoFar(v, v, todo, 0, 0)
  {
    assert todo[..0] == [];
  }

  lemma TakeOne(v: PoolView, todo: seq<int>, k: nat)
    requires k < |todo|
    ensures Newcomers(v, todo, k + 1) == Newcomers(v, todo, k) + if todo[k] in v.slotOf then [] else [todo[k]]
    ensures PrefetchedLru(v, todo[..k + 1]) ==
      var r, e := PrefetchedLru(v, todo[..k]), todo[k];
      if e !in v.slotOf then r + [e] else if e in v.inflight then r else MoveToEnd(r, e)
  {
    assert todo[..k + 1][..k] == todo[..k];
  }

  lemma PrefetchResident(v: PoolView, p: PoolView, q: PoolView, todo: seq<int>, n: nat, k: nat)
    requires PrefetchedSoFar(v, p, todo, n, k) && k < |todo| && todo[k] in v.slotOf
    requires q == p.(lru := if todo[k] in v.inflight then p.lru else MoveToEnd(p.lru, todo[k]))
    ensures PrefetchedSoFar(v, q, todo, n, k + 1)
  {
    hide Without, PrefetchedLru, Newcomers;
    TakeOne(v, todo, k);
    assert Newcomers(v, todo, k + 1) == Newcomers(v, todo, k);
  }

  lemma NotYetPrefetched(v: PoolView, p: PoolView, todo: seq<int>, n: nat, k: nat)
    requires PrefetchedSoFar(v, p, todo, n, k) && k < |todo| && NoDup(todo)
    ensures todo[k] in p.slotOf <==> todo[k] in v.slotOf
    ensures todo[k] in p.inflight <==> todo[k] in v.inflight
  {
    var e := todo[k];
    assert e !in todo[..k];
    assert e !in Newcomers(v, todo, k);
  }

  lemma PrefetchNewcomer(v: PoolView, p: PoolView, q: PoolView, todo: seq<int>, n: nat, k: nat, id: nat)
    requires PrefetchedSoFar(v, p, todo, n, k) && k < |todo| && todo[k] !in v.slotOf && todo[k] !in p.slotOf
    requires p.freeSlots != []
    requires var e, a := todo[k], AdmitView(TakeFree(p), todo[k], p.freeSlots[0], Transferring);
      q == a.(inflight := a.inflight[e := id])
    requires v.inflight.Keys <= v.slotOf.Keys
    ensures PrefetchedSoFar(v, q, todo, n + 1, k + 1)
  {
    hide Without, PrefetchedLru, Newcomers, Placed;
    TakeOne(v, todo, k);
    PlacedNext(v.slotOf, v.freeSlots, Newcomers(v, todo, k), p.slotOf, todo[k]);
    FlightsNext(v, Newcomers(v, todo, k), p.inflight, todo[k], id);
  }

  lemma FlightsNext(v: PoolView, newcomers: seq<int>, inflight: map<int, nat>, e: int, id: nat)
    requires forall x :: x in inflight <==> x in v.inflight || x in newcomers
    requires forall x :: x in v.inflight ==> inflight[x] == v.inflight[x]
    requires e !in v.inflight
    ensures forall x :: x in inflight[e := id] <==> x in v.inflight || x in newcomers + [e]
    ensures forall x :: x in v.inflight ==> inflight[e := id][x] == v.inflight[x]
  {
    assert forall x :: x in newcomers + [e] <==> x in newcomers || x == e;
  }

  /** The recency order a prefetch leaves: first everything it did not refresh, as it stood, then the
      candidates in their own order, save those whose earlier prefetch is still in flight. */
  lemma PrefetchedRecency(v: PoolView, p: PoolView, todo: seq<int>, n: nat, k: nat)
    requires PoolOk(v) && NoDup(todo) && Prefetched(v, p, todo, n, k)
    ensures var seen := todo[..k];
      p.lru == Without(v.lru, Elems(seen) - v.inflight.Keys) + Without(seen, v.inflight.Keys)
  {
    hide Without, PrefetchedLru;
    Refreshed(v, todo[..k]);
  }

  lemma {:induction false} Refreshed(v: PoolView, todo: seq<int>)
    requires PoolOk(v) && NoDup(todo)
    ensures PrefetchedLru(v, todo) == Without(v.lru, Elems(todo) - v.inflight.Keys) + Without(todo, v.inflight.Keys)
  {
    if todo == [] {
      NothingSeen(v);
    } else {
      hide Without, PoolOk, MoveToEnd;
      var p, e := todo[..|todo| - 1], todo[|todo| - 1];
      Refreshed(v, p);
      OneMoreSeen(v, p, e, PrefetchedLru(v, p));
      assert todo == p + [e];
    }
  }

  lemma NothingSeen(v: PoolView)
    ensures PrefetchedLru(v, []) == v.lru == Without(v.lru, Elems([]) - v.inflight.Keys)
    ensures Without([], v.inflight.Keys) == []
  {
    assert Elems<int>([]) - v.inflight.Keys == {};
    WithoutNothing(v.lru, {});
  }

  lemma OneMoreSeen(v: PoolView, p: seq<int>, e: int, r: seq<int>)
    requires PoolOk(v) && e !in p
    requires r == Without(v.lru, Elems(p) - v.inflight.Keys) + Without(p, v.inflight.Keys)
    ensures (if e !in v.slotOf then r + [e] else if e in v.inflight then r else MoveToEnd(r, e)) ==
      Without(v.lru, Elems(p + [e]) - v.inflight.Keys) + Without(p + [e], v.inflight.Keys)
  {
    hide Without, NoDup;
    var flying, gone := v.inflight.Keys, Elems(p) - v.inflight.Keys;
    WithoutAppend(p, [e], flying);
    WithoutOne(e, flying);
    assert Elems(p + [e]) == Elems(p) + {e};
    if e in v.inflight {
      assert Elems(p + [e]) - flying == gone;
    } else {
      assert Elems(p + [e]) - flying == gone + {e};
      WithoutTwice(v.lru, gone, {e});
      if e !in v.slotOf {
        WithoutNothing(Without(v.lru, gone), {e});
      } else {
        WithoutAppend(Without(v.lru, gone), Without(p, flying), {e});
        WithoutNothing(Without(p, flying), {e});
      }
    }
  }

  // ---- preload -------------------------------------------------------------------------------

  /** The distinct experts of a preload list that are not resident yet. */
  function Wanted(v: PoolView, experts: seq<int>): seq<int> {
    Without(FirstOcc(experts), v.slotOf.Keys)
  }

  /** `todo` seeded into the first free slots, in order, at the fresh end. */
  ghost predicate Seeded(v: PoolView, p: PoolView, todo: seq<int>) {
    && |todo| <= |v.freeSlots| && p.nSlots == v.nSlots && p.freeSlots == v.freeSlots[|todo|..]
    && Placed(v.slotOf, v.freeSlots, todo, p.slotOf)
    && p.inflight == v.inflight && p.lru == v.lru + todo
  }

  lemma SeededNone(v: PoolView)
    ensures Seeded(v, v, [])
  {}

  lemma SeededNext(v: PoolView, p: PoolView, todo: seq<int>, e: int)
    requires Seeded(v, p, todo) && e !in p.slotOf && p.freeSlots != []
    ensures Seeded(v, AdmitView(TakeFree(p), e, p.freeSlots[0], GpuResident), todo + [e])
  {
    hide Placed;
    PlacedNext(v.slotOf, v.freeSlots, todo, p.slotOf, e);
    assert v.lru + todo + [e] == v.lru + (todo + [e]);
  }

  lemma WantedNext(v: PoolView, experts: seq<int>, j: nat, p: PoolView)
    requires j < |experts| && Placed(v.slotOf, v.freeSlots, Wanted(v, experts[..j]), p.slotOf)
    ensures experts[j] in p.slotOf ==> Wanted(v, experts[..j + 1]) == Wanted(v, experts[..j])
    ensures experts[j] !in p.slotOf ==> Wanted(v, experts[..j + 1]) == Wanted(v, experts[..j]) + [experts[j]]
  {
    var s, e := experts[..j], experts[j];
    assert experts[..j + 1][..j] == s;
    WithoutAppend(FirstOcc(s), [e], v.slotOf.Keys);
    assert e in Wanted(v, s) <==> e in s && e !in v.slotOf;
    assert Without([e], v.slotOf.Keys) == if e in v.slotOf.Keys then [] else [e];
  }

  // ---- slots lost to shedding -------------------------------------------------------------------

  /** Distinct requests that are not resident. */
  lemma FreshCount(v: PoolView, want: seq<int>)
    ensures |Fresh(v, want)| == |Elems(want) - v.slotOf.Keys|
  {
    hide Without, FirstOcc;
    FirstOccNoDup(Without(want, v.slotOf.Keys));
    assert Elems(Without(want, v.slotOf.Keys)) == Elems(want) - v.slotOf.Keys;
  }

  /** How many experts are resident after an admission: the newcomers fill the free slots and then
      replace residents, and what then exceeds both the request and the slots beside the reserve
      is shed. */
  lemma ResidentCount(v: PoolView, p: PoolView, want: seq<int>, reserve: nat)
    requires LossBounded(v, reserve) && Ensured(v, p, want, reserve)
    ensures var filled := |v.slotOf| + Min(|Elems(want) - v.slotOf.Keys|, |v.freeSlots|);
      |p.slotOf| == Min(filled, Max(v.nSlots - reserve, |Elems(want)|))
    ensures |p.freeSlots| == Max(0, |v.freeSlots| - |Elems(want) - v.slotOf.Keys|)
  {
    FreshCount(v, want);
    hide Kept, Fresh, EnsuredLru, Without, LastOcc;
  }

  /** Everyone who was resident or came, and is not resident any more, was a victim. */
  lemma VictimCount(v: PoolView, p: PoolView, want: seq<int>, reserve: nat)
    requires Ensured(v, p, want, reserve)
    ensures Evicted(v, want) + Shed(v, want, reserve) == |v.slotOf.Keys + Elems(want)| - |p.slotOf|
  {
    FreshCount(v, want);
    hide Kept, Fresh, EnsuredLru, Without, LastOcc, Evicted, Shed;
    assert v.slotOf.Keys + Elems(want) == v.slotOf.Keys + (Elems(want) - v.slotOf.Keys);
    assert |v.slotOf.Keys| == |v.slotOf|;
  }

  /** The shedding loop drops the slots it empties: an admission conserves slots exactly
      when what it would leave resident already fits below the soft cap, and else loses the excess. */
  lemma SlotsConservedExactly(v: PoolView, p: PoolView, want: seq<int>, reserve: nat)
    requires LossBounded(v, reserve) && Ensured(v, p, want, reserve)
    ensures |p.freeSlots| + |p.slotOf| == |v.freeSlots| + |v.slotOf| - Shed(v, want, reserve)
    ensures var filled := |v.slotOf| + Min(|Elems(want) - v.slotOf.Keys|, |v.freeSlots|);
      var cap := Max(v.nSlots - reserve, |Elems(want)|);
      |p.freeSlots| + |p.slotOf| == |v.freeSlots| + |v.slotOf| - Max(0, filled - cap)
  {
    ResidentCount(v, p, want, reserve);
    hide Kept, EnsuredLru, Without, LastOcc;
  }

  /** Those who leave are the least recent of those the request does not name: whoever was used
      since an expert that stays, stays too. */
  lemma OldestLeave(v: PoolView, p: PoolView, want: seq<int>, reserve: nat, i: nat, j: nat)
    requires PoolOk(v) && PoolOk(p) && Ensured(v, p, want, reserve)
    requires i < j < |v.lru| && v.lru[i] !in want && v.lru[j] !in want
    ensures v.lru[i] in p.slotOf ==> v.lru[j] in p.slotOf
  {
    hide Kept, Without, LastOcc, FirstOcc, Only, NoDup;
    var x, y := v.lru[i], v.lru[j];
    var base, hits, newly := Without(v.lru, Elems(want)), LastOcc(Only(want, v.slotOf.Keys)), Fresh(v, want);
    var victims := Evicted(v, want) + Shed(v, want, reserve);
    hide Evicted, Shed, Fresh;
    WithoutNoDup(v.lru, Elems(want));
    var a, b := WithoutOrder(v.lru, Elems(want), i, j);
    if x in p.slotOf {
      assert x in p.lru && x !in hits && x !in newly;
      KeptFrom(base, victims, hits + newly, x, a);
      assert p.lru[b - victims] == y;
    }
  }

  /** Where an entry that was not among the first `victims` stands. */
  lemma KeptFrom(base: seq<int>, victims: nat, rest: seq<int>, x: int, a: nat)
    requires NoDup(base) && victims <= |base| && a < |base| && base[a] == x
    requires x in base[victims..] + rest && x !in rest
    ensures victims <= a
  {
    var c :| 0 <= c < |base[victims..]| && base[victims..][c] == x;
    assert base[victims + c] == x;
  }

  /** Removal keeps the order of what stays. */
  lemma {:induction false} WithoutOrder(s: seq<int>, drop: set<int>, i: nat, j: nat) returns (a: nat, b: nat)
    requires i < j < |s| && s[i] !in drop && s[j] !in drop
    ensures a < b < |Without(s, drop)| && Without(s, drop)[a] == s[i] && Without(s, drop)[b] == s[j]
  {
    var p := s[..|s| - 1];
    if j < |p| {
      a, b := WithoutOrder(p, drop, i, j);
    } else {
      assert p[i] in Without(p, drop);
      a :| 0 <= a < |Without(p, drop)| && Without(p, drop)[a] == s[i];
      b := |Without(p, drop)|;
    }
  }

  /** The free list is never refilled, so once it is empty a prefetch starts no copy and moves no
      expert: at most it reorders recency. */
  lemma ReserveNeverRefills(v: PoolView, p: PoolView, want: seq<int>, reserve: nat,
                            q: PoolView, todo: seq<int>, n: nat, k: nat)
    requires Ensured(v, p, want, reserve) && Prefetched(p, q, todo, n, k)
    ensures |q.freeSlots| + n == |p.freeSlots| <= |v.freeSlots|
    ensures v.freeSlots == [] ==> n == 0 && q.slotOf == p.slotOf
  {
    EnsuredFree(v, p, want, reserve);
    PrefetchedFree(p, q, todo, n, k);
  }

  lemma EnsuredFree(v: PoolView, p: PoolView, want: seq<int>, reserve: nat)
    requires Ensured(v, p, want, reserve)
    ensures |p.freeSlots| <= |v.freeSlots|
  {
    hide Kept, Fresh, EnsuredLru, Evicted, Shed;
  }

  /** A prefetch starts one copy for every free slot it takes. */
  lemma PrefetchedFree(p: PoolView, q: PoolView, todo: seq<int>, n: nat, k: nat)
    requires Prefetched(p, q, todo, n, k)
    ensures |q.freeSlots| + n == |p.freeSlots|
    ensures p.freeSlots == [] ==> n == 0 && q.slotOf == p.slotOf
  {
    hide Without, PrefetchedLru;
    if p.freeSlots == [] {
      assert Newcomers(p, todo, k) == [];
      PlacedNone(p.slotOf, p.freeSlots, q.slotOf);
    }
  }

  lemma PlacedNone(was: map<int, nat>, free: seq<nat>, slotOf: map<int, nat>)
    requires Placed(was, free, [], slotOf)
    ensures slotOf == was
  {
    assert forall e :: e in slotOf <==> e in was;
    assert slotOf.Keys == was.Keys;
    assert forall e :: e in was.Keys ==> slotOf[e] == was[e];
    assert slotOf == was;
  }
}
