/** The offline optimum as the tools compute it: a heap of next uses in which stale entries
    are left behind and skipped when popped. */
module Belady {
  import opened Quotients
  import opened Recency
  import opened Schedules

  /** Ordered as the tuples `(-next_use, key)` are. */
  datatype Entry = Entry(neg: int, key: int)

  function EntryFor(next: nat, key: int): Entry {
    Entry(0 - next as int, key)
  }

  predicate Before(a: Entry, b: Entry) {
    a.neg < b.neg || (a.neg == b.neg && a.key <= b.key)
  }

  lemma {:induction false} SomeLeast(heap: multiset<Entry>) returns (e: Entry)
    requires |heap| > 0
    ensures e in heap && forall x :: x in heap ==> Before(e, x)
    decreases |heap|
  {
    var y :| y in heap;
    var rest := heap - multiset{y};
    if |rest| == 0 {
      assert heap == multiset{y};
      e := y;
    } else {
      var z := SomeLeast(rest);
      e := if Before(y, z) then y else z;
      assert heap == rest + multiset{y};
    }
  }

  /** `heappop`: remove a least entry. */
  method HeapPop(heap: multiset<Entry>) returns (e: Entry, rest: multiset<Entry>)
    requires |heap| > 0
    ensures e in heap && (forall x :: x in heap ==> Before(e, x))
    ensures rest == heap - multiset{e} && |rest| == |heap| - 1
  {
    ghost var least := SomeLeast(heap);
    e :| e in heap && forall x :: x in heap ==> Before(e, x);
    rest := heap - multiset{e};
  }

  /** Every resident key has its current entry in the heap; other entries are stale. */
  ghost predicate Current(resident: map<int, nat>, heap: multiset<Entry>) {
    forall k :: k in resident ==> EntryFor(resident[k], k) in heap
  }

  ghost predicate Farthest(resident: map<int, nat>, v: int) {
    v in resident && forall u :: u in resident ==> resident[u] <= resident[v]
  }

  /** Pop until an entry is current. Its key is a resident used farthest in the future, so the
      lazy heap finds what a search over all residents would. */
  method PopFarthest(resident: map<int, nat>, heap: multiset<Entry>)
    returns (found: bool, victim: int, rest: multiset<Entry>)
    requires Current(resident, heap)
    ensures found <==> resident != map[]
    ensures found ==> Farthest(resident, victim)
    ensures Current(if found then resident - {victim} else resident, rest)
  {
    found, victim, rest := false, 0, heap;
    while |rest| > 0
      invariant Current(resident, rest)
      decreases |rest|
    {
      var e, less := HeapPop(rest);
      if e.key in resident && resident[e.key] == -e.neg {
        assert Farthest(resident, e.key) by {
          forall u | u in resident ensures resident[u] <= resident[e.key] {
            assert Before(e, EntryFor(resident[u], u));
          }
        }
        return true, e.key, less;
      }
      rest := less;
    }
    assert forall k :: k in resident ==> EntryFor(resident[k], k) in rest;
    assert resident == map[];
  }

  lemma NextUseFrom(trace: seq<int>, i: nat)
    requires i < |trace|
    ensures forall k :: NextUse(trace, k, i) == if trace[i] == k then i else NextUse(trace, k, i + 1)
  {}

  /** Positions of the next access to the same key, filled in from the back. */
  method NextUses(trace: seq<int>) returns (next: array<nat>)
    ensures fresh(next) && next.Length == |trace|
    ensures forall i :: 0 <= i < |trace| ==> next[i] == NextUse(trace, trace[i], i + 1)
  {
    var n := |trace|;
    next := new nat[n](i => 0);
    var last: map<int, nat> := map[];
    for i := n downto 0
      invariant forall k :: (if k in last then last[k] else n) == NextUse(trace, k, i)
      invariant forall j :: i <= j < n ==> next[j] == NextUse(trace, trace[j], j + 1)
    {
      NextUseFrom(trace, i);
      hide NextUse;
      next[i] := if trace[i] in last then last[trace[i]] else n;
      last := last[trace[i] := i];
    }
  }

  /** A farthest-in-future history of the first `i` accesses. */
  ghost predicate History(trace: seq<int>, cap: nat, i: nat, c: seq<set<int>>) {
    && i <= |trace| && |c| == i + 1 && c[0] == {}
    && forall j :: 0 <= j < i ==> FarthestStep(trace, cap, j, c[j], c[j + 1])
  }

  ghost predicate NextUsesKnown(trace: seq<int>, i: nat, resident: map<int, nat>) {
    forall k :: k in resident ==> resident[k] == NextUse(trace, k, i)
  }

  /** The cache and its ghost history after `i` accesses. */
  ghost predicate Offline(trace: seq<int>, cap: nat, i: nat, resident: map<int, nat>, heap: multiset<Entry>,
                          c: seq<set<int>>)
  {
    && History(trace, cap, i, c) && Current(resident, heap) && NextUsesKnown(trace, i, resident)
    && c[i] == resident.Keys && |resident| <= cap
  }

  lemma HistoryNext(trace: seq<int>, cap: nat, i: nat, c: seq<set<int>>, s: set<int>)
    requires History(trace, cap, i, c) && i < |trace| && FarthestStep(trace, cap, i, c[i], s)
    ensures History(trace, cap, i + 1, c + [s])
  {
    var d := c + [s];
    forall j | 0 <= j < i + 1 ensures FarthestStep(trace, cap, j, d[j], d[j + 1]) {
      if j < i {
        assert d[j] == c[j] && d[j + 1] == c[j + 1];
      }
    }
  }

  lemma OfflineHit(trace: seq<int>, cap: nat, i: nat, resident: map<int, nat>, heap: multiset<Entry>,
                   c: seq<set<int>>, cur: nat)
    requires Offline(trace, cap, i, resident, heap, c) && i < |trace| && trace[i] in resident
    requires cur == NextUse(trace, trace[i], i + 1)
    ensures Offline(trace, cap, i + 1, resident[trace[i] := cur], heap + multiset{EntryFor(cur, trace[i])}, c + [c[i]])
  {
    var r := resident[trace[i] := cur];
    assert r.Keys == resident.Keys;
    assert |r| == |r.Keys| && |resident| == |resident.Keys|;
    CurrentWith(resident, heap, trace[i], cur);
    HistoryNext(trace, cap, i, c, c[i]);
  }

  /** Nothing was evicted, or a farthest resident was. */
  ghost predicate RoomMade(resident: map<int, nat>, kept: map<int, nat>, cap: nat) {
    if |resident| < cap then kept == resident
    else exists v :: Farthest(resident, v) && kept == resident - {v}
  }

  lemma RoomIsFarthest(trace: seq<int>, cap: nat, i: nat, resident: map<int, nat>, kept: map<int, nat>, cur: nat)
    requires i < |trace| && trace[i] !in resident && cap > 0 && |resident| <= cap
    requires NextUsesKnown(trace, i, resident)
    requires RoomMade(resident, kept, cap)
    ensures var r := kept[trace[i] := cur];
      FarthestStep(trace, cap, i, resident.Keys, r.Keys) && |r| <= cap
  {
    var k := trace[i];
    var r := kept[k := cur];
    KeysWith(kept, k, cur);
    KeysWithout(resident, k);
    if |resident| >= cap {
      var v :| Farthest(resident, v) && kept == resident - {v};
      FarthestKeys(trace, i, resident, v);
      KeysWithout(resident, v);
      assert FarthestStep(trace, cap, i, resident.Keys, r.Keys);
    }
    hide Farthest, IsFarthestOf;
    FarthestFits(trace, cap, i, resident.Keys, r.Keys);
  }

  lemma KeysWith(m: map<int, nat>, k: int, v: nat)
    ensures m[k := v].Keys == m.Keys + {k} && |m[k := v]| == |m[k := v].Keys|
  {}

  lemma KeysWithout(m: map<int, nat>, v: int)
    ensures (m - {v}).Keys == m.Keys - {v} && |m| == |m.Keys|
  {}

  lemma FarthestKeys(trace: seq<int>, i: nat, resident: map<int, nat>, v: int)
    requires i < |trace| && trace[i] !in resident && Farthest(resident, v)
    requires NextUsesKnown(trace, i, resident)
    ensures IsFarthestOf(trace, resident.Keys, i + 1, v)
  {
    forall u | u in resident.Keys ensures NextUse(trace, u, i + 1) <= NextUse(trace, v, i + 1) {
      assert resident[u] <= resident[v];
    }
  }

  lemma CurrentWith(kept: map<int, nat>, rest: multiset<Entry>, k: int, cur: nat)
    requires Current(kept, rest)
    ensures Current(kept[k := cur], rest + multiset{EntryFor(cur, k)})
  {}

  /** A miss with room, or into the room made by an eviction. */
  lemma OfflineMiss(trace: seq<int>, cap: nat, i: nat, resident: map<int, nat>, heap: multiset<Entry>,
                    c: seq<set<int>>, kept: map<int, nat>, rest: multiset<Entry>, cur: nat)
    requires Offline(trace, cap, i, resident, heap, c) && i < |trace| && trace[i] !in resident && cap > 0
    requires cur == NextUse(trace, trace[i], i + 1) && Current(kept, rest) && RoomMade(resident, kept, cap)
    ensures var r := kept[trace[i] := cur];
      Offline(trace, cap, i + 1, r, rest + multiset{EntryFor(cur, trace[i])}, c + [r.Keys])
  {
    hide History, Current, RoomMade, FarthestStep, NextUse;
    var r := kept[trace[i] := cur];
    HistorySize(trace, cap, i, c);
    RoomIsFarthest(trace, cap, i, resident, kept, cur);
    CurrentWith(kept, rest, trace[i], cur);
    HistoryNext(trace, cap, i, c, r.Keys);
    KeptUses(trace, i, resident, kept, cap);
  }

  lemma HistorySize(trace: seq<int>, cap: nat, i: nat, c: seq<set<int>>)
    requires History(trace, cap, i, c)
    ensures |c| == i + 1
  {}

  lemma KeptUses(trace: seq<int>, i: nat, resident: map<int, nat>, kept: map<int, nat>, cap: nat)
    requires i < |trace| && trace[i] !in resident && RoomMade(resident, kept, cap)
    requires NextUsesKnown(trace, i, resident)
    ensures NextUsesKnown(trace, i + 1, kept)
  {}

  ghost predicate IsOptimum(trace: seq<int>, cap: nat, misses: nat) {
    Attains(trace, cap, misses) && forall m :: Attains(trace, cap, m) ==> misses <= m
  }

  lemma FarthestGivesOptimum(trace: seq<int>, cap: nat, c: seq<set<int>>)
    requires cap > 0 && IsFarthest(trace, cap, c)
    ensures IsOptimum(trace, cap, Misses(trace, c))
  {
    FarthestIsRun(trace, cap, c);
    forall m | Attains(trace, cap, m) ensures Misses(trace, c) <= m {
      var d :| IsRun(trace, cap, d) && Misses(trace, d) == m;
      FarthestIsOptimal(trace, cap, c, d);
    }
  }

  /** A capacity of zero still keeps one entry. */
  function AtLeastOne(cap: nat): nat {
    if cap == 0 then 1 else cap
  }

  /** Make room for one key: evict only when full, and then a farthest resident. */
  method MakeRoom(resident: map<int, nat>, heap: multiset<Entry>, cap: nat)
    returns (kept: map<int, nat>, rest: multiset<Entry>)
    requires Current(resident, heap)
    ensures Current(kept, rest)
    ensures RoomMade(resident, kept, AtLeastOne(cap))
  {
    kept, rest := resident, heap;
    if |resident| >= cap {
      var found, victim, less := PopFarthest(resident, heap);
      rest := less;
      if found {
        kept := resident - {victim};
      }
    }
  }

  lemma OfflineStart(trace: seq<int>, cap: nat)
    ensures Offline(trace, cap, 0, map[], multiset{}, [{}]) && Misses(trace[..0], [{}]) == 0
  {}

  lemma OfflineFacts(trace: seq<int>, cap: nat, i: nat, resident: map<int, nat>, heap: multiset<Entry>,
                     c: seq<set<int>>)
    requires Offline(trace, cap, i, resident, heap, c)
    ensures |c| == i + 1 && c[i] == resident.Keys && Current(resident, heap)
    ensures i == |trace| ==> IsFarthest(trace, cap, c)
  {}

  method OfflineMisses(trace: seq<int>, cap: nat) returns (misses: nat)
    ensures IsOptimum(trace, AtLeastOne(cap), misses)
  {
    hide Offline, Current, IsFarthest, IsOptimum, Farthest, Misses, RoomMade, NextUse;
    var next := NextUses(trace);
    var resident: map<int, nat>, heap: multiset<Entry> := map[], multiset{};
    misses := 0;
    ghost var room, c := AtLeastOne(cap), [{}];
    OfflineStart(trace, room);
    for i := 0 to |trace|
      invariant Offline(trace, room, i, resident, heap, c) && |c| == i + 1
      invariant misses == Misses(trace[..i], c)
      invariant forall j :: 0 <= j < |trace| ==> next[j] == NextUse(trace, trace[j], j + 1)
    {
      var k, cur := trace[i], next[i];
      OfflineFacts(trace, room, i, resident, heap, c);
      assert trace[..i + 1] == trace[..i] + [k];
      if k in resident {
        OfflineHit(trace, room, i, resident, heap, c, cur);
        MissesNext(trace[..i], c, k, c[i]);
        c := c + [c[i]];
        resident := resident[k := cur];
      } else {
        misses := misses + 1;
        var kept, rest := MakeRoom(resident, heap, cap);
        OfflineMiss(trace, room, i, resident, heap, c, kept, rest, cur);
        resident, heap := kept[k := cur], rest;
        MissesNext(trace[..i], c, k, resident.Keys);
        c := c + [resident.Keys];
      }
      heap := heap + multiset{EntryFor(cur, k)};
    }
    OfflineFacts(trace, room, |trace|, resident, heap, c);
    assert trace[..|trace|] == trace;
    FarthestGivesOptimum(trace, room, c);
  }

  // ---- the weighted form -----------------------------------------------------------------

  ghost function MissedWeight(trace: seq<int>, c: seq<set<int>>, weight: int -> nat): nat
    requires |c| == |trace| + 1
  {
    if trace == [] then 0
    else
      var n := |trace| - 1;
      MissedWeight(trace[..n], c[..n + 1], weight) + if trace[n] in c[n] then 0 else weight(trace[n])
  }

  lemma MissedWeightNext(trace: seq<int>, c: seq<set<int>>, k: int, s: set<int>, weight: int -> nat)
    requires |c| == |trace| + 1
    ensures MissedWeight(trace + [k], c + [s], weight) ==
            MissedWeight(trace, c, weight) + if k in c[|trace|] then 0 else weight(k)
  {
    assert (trace + [k])[..|trace|] == trace;
    assert (c + [s])[..|trace| + 1] == c;
  }

  lemma {:induction false} EqualWeights(trace: seq<int>, c: seq<set<int>>, weight: int -> nat, unit: nat)
    requires |c| == |trace| + 1 && forall k :: weight(k) == unit
    ensures MissedWeight(trace, c, weight) == Misses(trace, c) * unit
  {
    if trace != [] {
      EqualWeights(trace[..|trace| - 1], c[..|trace|], weight, unit);
    }
  }

  lemma SumsNext(trace: seq<int>, c: seq<set<int>>, k: int, s: set<int>, weight: int -> nat)
    requires |c| == |trace| + 1
    ensures MissedWeight(trace + [k], c + [s], weight) ==
            MissedWeight(trace, c, weight) + if k in c[|trace|] then 0 else weight(k)
    ensures Total(trace + [k], weight) == Total(trace, weight) + weight(k)
  {
    MissedWeightNext(trace, c, k, s, weight);
    TotalAppend(trace, [k], weight);
    TotalSingle(k, weight);
  }

  /** The same, with the residents in a set and their next uses in a table beside it. */
  method DiscardFarthest(resident: set<int>, cur: map<int, nat>, heap: multiset<Entry>, capacity: nat)
    returns (left: set<int>, kept: map<int, nat>, rest: multiset<Entry>)
    requires Current(cur, heap) && resident == cur.Keys && capacity > 0
    ensures left == kept.Keys && Current(kept, rest) && RoomMade(cur, kept, capacity)
  {
    KeysWithout(cur, 0);
    left, kept, rest := resident, cur, heap;
    if |resident| >= capacity {
      var found, victim, less := PopFarthest(cur, heap);
      KeysWithout(cur, victim);
      left, kept, rest := resident - {victim}, cur - {victim}, less;
    }
  }

  /** The same policy over a set of residents and a separate table of next uses, adding up
      weights. At capacity zero the source has no victim to discard. */
  method BeladyHits(trace: seq<int>, capacity: nat, weight: int -> nat) returns (hitB: nat, missB: nat)
    requires capacity > 0
    ensures hitB + missB == Total(trace, weight)
    ensures exists c :: IsFarthest(trace, capacity, c) && missB == MissedWeight(trace, c, weight)
  {
    hide Offline, Current, IsFarthest, RoomMade, Farthest;
    hide MissedWeight, Total, NextUse, FarthestStep, NextUsesKnown, History;
    var next := NextUses(trace);
    var resident: set<int>, cur: map<int, nat>, heap: multiset<Entry> := {}, map[], multiset{};
    hitB, missB := 0, 0;
    ghost var c := [{}];
    OfflineStart(trace, capacity);
    WeighNothing(trace, weight);
    for i := 0 to |trace|
      invariant Offline(trace, capacity, i, cur, heap, c) && |c| == i + 1 && resident == cur.Keys
      invariant missB == MissedWeight(trace[..i], c, weight)
      invariant forall j :: 0 <= j < |trace| ==> next[j] == NextUse(trace, trace[j], j + 1)
      invariant hitB + missB == Total(trace[..i], weight)
    {
      var k := trace[i];
      OfflineFacts(trace, capacity, i, cur, heap, c);
      assert trace[..i + 1] == trace[..i] + [k];
      if k in resident {
        hitB := hitB + weight(k);
        OfflineHit(trace, capacity, i, cur, heap, c, next[i]);
        SumsNext(trace[..i], c, k, c[i], weight);
        c := c + [c[i]];
        cur := cur[k := next[i]];
      } else {
        missB := missB + weight(k);
        var left, kept, rest := DiscardFarthest(resident, cur, heap, capacity);
        OfflineMiss(trace, capacity, i, cur, heap, c, kept, rest, next[i]);
        cur, heap := kept[k := next[i]], rest;
        resident := left + {k};
        KeysWith(kept, k, next[i]);
        SumsNext(trace[..i], c, k, cur.Keys, weight);
        c := c + [cur.Keys];
      }
      heap := heap + multiset{EntryFor(next[i], k)};
    }
    OfflineFacts(trace, capacity, |trace|, cur, heap, c);
    assert trace[..|trace|] == trace;
  }

  lemma WeighNothing(trace: seq<int>, weight: int -> nat)
    ensures MissedWeight(trace[..0], [{}], weight) == 0 && Total(trace[..0], weight) == 0
  {}

  /** With unit weights the two forms count the same misses. */
  lemma UnitWeightsAgree(trace: seq<int>, cap: nat, c: seq<set<int>>, weight: int -> nat, m: nat)
    requires cap > 0 && IsFarthest(trace, cap, c) && IsOptimum(trace, cap, m) && forall k :: weight(k) == 1
    ensures MissedWeight(trace, c, weight) == m
  {
    hide IsFarthest, MissedWeight, Attains;
    FarthestGivesOptimum(trace, cap, c);
    FarthestLength(trace, cap, c);
    EqualWeights(trace, c, weight, 1);
  }

  lemma FarthestLength(trace: seq<int>, cap: nat, c: seq<set<int>>)
    requires IsFarthest(trace, cap, c)
    ensures |c| == |trace| + 1
  {}

  // ---- when the weighted form is an upper bound ---------------------------------------------

  /** Whatever the trace and capacity, no run misses less weight than farthest-in-future. */
  ghost predicate WeightOptimal(weight: int -> nat) {
    forall trace, cap: nat, b, c :: NeverHeavier(weight, trace, cap, b, c)
  }

  ghost predicate NeverHeavier(weight: int -> nat, trace: seq<int>, cap: nat, b: seq<set<int>>, c: seq<set<int>>) {
    cap > 0 && IsFarthest(trace, cap, b) && IsRun(trace, cap, c) ==>
      MissedWeight(trace, b, weight) <= MissedWeight(trace, c, weight)
  }

  lemma EqualNeverHeavier(weight: int -> nat, trace: seq<int>, cap: nat, b: seq<set<int>>, c: seq<set<int>>)
    requires forall k, l :: weight(k) == weight(l)
    ensures NeverHeavier(weight, trace, cap, b, c)
  {
    hide MissedWeight, FarthestStep, RunStep;
    if cap > 0 && IsFarthest(trace, cap, b) && IsRun(trace, cap, c) {
      FarthestIsOptimal(trace, cap, b, c);
      EqualWeights(trace, b, weight, weight(0));
      EqualWeights(trace, c, weight, weight(0));
      MulMono(Misses(trace, b), Misses(trace, c), weight(0));
    }
  }

  /** Keep the heavy key `a` instead of the one needed sooner: `a b d b a` in two slots. */
  lemma HeavyKeyCounterexample(a: int, b: int, d: int, weight: int -> nat)
    requires a != b && a != d && b != d && weight(a) > weight(b)
    ensures !WeightOptimal(weight)
  {
    hide IsFarthest, IsRun, MissedWeight;
    var t := [a, b, d, b, a];
    var far: seq<set<int>> := [{}, {a}, {a, b}, {b, d}, {b, d}, {a, d}];
    var run: seq<set<int>> := [{}, {a}, {a, b}, {a, d}, {a, b}, {a, b}];
    TakesFarthest(a, b, d, t, far);
    IsARun(a, b, d, t, run);
    Weigh(t, far, weight, [weight(a), weight(b), weight(d), 0, weight(a)]);
    Weigh(t, run, weight, [weight(a), weight(b), weight(d), weight(b), 0]);
    assert !NeverHeavier(weight, t, 2, far, run);
  }

  lemma TakesFarthest(a: int, b: int, d: int, t: seq<int>, far: seq<set<int>>)
    requires a != b && a != d && b != d && t == [a, b, d, b, a]
    requires far == [{}, {a}, {a, b}, {b, d}, {b, d}, {a, d}]
    ensures IsFarthest(t, 2, far)
  {
    assert IsFarthestOf(t, far[2], 3, a) by {
      assert NextUse(t, a, 3) == NextUse(t, a, 4) == 4 && NextUse(t, b, 3) == 3;
    }
    assert far[3] == far[2] - {a} + {d};
    assert IsFarthestOf(t, far[4], 5, b);
    assert far[5] == far[4] - {b} + {a};
    assert |far[2]| == 2 && |far[4]| == 2;
    assert far[1] == far[0] + {a} && far[2] == far[1] + {b};
  }

  lemma IsARun(a: int, b: int, d: int, t: seq<int>, run: seq<set<int>>)
    requires a != b && a != d && b != d && t == [a, b, d, b, a]
    requires run == [{}, {a}, {a, b}, {a, d}, {a, b}, {a, b}]
    ensures IsRun(t, 2, run)
  {}

  lemma Weigh(t: seq<int>, c: seq<set<int>>, weight: int -> nat, w: seq<nat>)
    requires |t| == |w| == 5 && |c| == 6
    requires forall i :: 0 <= i < 5 ==> w[i] == if t[i] in c[i] then 0 else weight(t[i])
    ensures MissedWeight(t, c, weight) == w[0] + w[1] + w[2] + w[3] + w[4]
  {
    WeighNothing(t, weight);
    assert c[..1] == [c[0]] && t[..5] == t && c[..6] == c;
    assert MissedWeight(t[..0], c[..1], weight) == 0;
    WeighOne(t, c, weight, 0);
    WeighOne(t, c, weight, 1);
    WeighOne(t, c, weight, 2);
    WeighOne(t, c, weight, 3);
    WeighOne(t, c, weight, 4);
  }

  lemma WeighOne(t: seq<int>, c: seq<set<int>>, weight: int -> nat, i: nat)
    requires i < |t| && |c| == |t| + 1
    ensures MissedWeight(t[..i + 1], c[..i + 2], weight) ==
            MissedWeight(t[..i], c[..i + 1], weight) + if t[i] in c[i] then 0 else weight(t[i])
  {
    assert t[..i + 1] == t[..i] + [t[i]] && c[..i + 2] == c[..i + 1] + [c[i + 1]];
    MissedWeightNext(t[..i], c[..i + 1], t[i], c[i + 1], weight);
  }

  /** The byte-weighted bound is one exactly when every key weighs the same. */
  lemma WeightOptimalIff(weight: int -> nat)
    ensures WeightOptimal(weight) <==> (forall a, b :: weight(a) == weight(b))
  {
    hide NeverHeavier;
    if a, b :| weight(a) != weight(b) {
      var x, y := if weight(a) > weight(b) then a else b, if weight(a) > weight(b) then b else a;
      var d := if x + 1 != y then x + 1 else x + 2;
      HeavyKeyCounterexample(x, y, d, weight);
    } else {
      forall trace, cap: nat, b, c ensures NeverHeavier(weight, trace, cap, b, c) {
        EqualNeverHeavier(weight, trace, cap, b, c);
      }
    }
  }
}
