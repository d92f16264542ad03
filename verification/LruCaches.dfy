/** The least-recently-used simulators: one capacity, a byte budget, and one budget per layer. */
module LruCaches {
  import opened Orders
  import opened Recency

  /** Weight of the accesses of `trace` that miss. */
  function Missed<T(!new, ==)>(trace: seq<T>, size: T -> nat, budget: nat, weight: T -> nat): nat {
    if trace == [] then 0
    else
      var p, x := trace[..|trace| - 1], trace[|trace| - 1];
      Missed(p, size, budget, weight) + if x in Residents(p, size, budget) then 0 else weight(x)
  }

  /** A larger cache never misses more, on any trace. */
  lemma {:induction false} MissedShrinks<T(!new)>(trace: seq<T>, size: T -> nat, small: nat, big: nat, weight: T -> nat)
    requires small <= big
    ensures Missed(trace, size, big, weight) <= Missed(trace, size, small, weight)
  {
    if trace != [] {
      MissedShrinks(trace[..|trace| - 1], size, small, big, weight);
      Inclusion(trace[..|trace| - 1], size, small, big);
    }
  }

  lemma MissedNext<T(!new)>(trace: seq<T>, x: T, size: T -> nat, budget: nat, weight: T -> nat)
    ensures Missed(trace + [x], size, budget, weight) ==
            Missed(trace, size, budget, weight) + if x in Residents(trace, size, budget) then 0 else weight(x)
  {
    assert (trace + [x])[..|trace|] == trace;
  }

  lemma NothingYet<T(!new)>(trace: seq<T>, size: T -> nat, budget: nat, weight: T -> nat)
    ensures Residents<T>([], size, budget) == [] && Missed<T>([], size, budget, weight) == 0
    ensures Total<T>([], weight) == 0
    ensures trace[..0] == [] && trace[..|trace|] == trace
  {}

  // ---- counted in entries ----------------------------------------------------------------

  /** Evict first, then insert. A capacity of zero would pop an empty dictionary. */
  class Lru<T(==, !new)> {
    const cap: nat
    var d: seq<T>
    ghost var seen: seq<T>

    constructor (cap: nat)
      requires cap > 0
      ensures Valid() && this.cap == cap && seen == []
    {
      this.cap, d, seen := cap, [], [];
    }

    ghost predicate Valid()
      reads this
    {
      cap > 0 && d == Residents(seen, One, cap)
    }

    method Access(k: T) returns (hit: bool)
      requires Valid()
      modifies this
      ensures Valid() && seen == old(seen) + [k]
      ensures hit <==> k in old(d)
    {
      hide Residents, Keep;
      ResidentsNext(seen, k, One, cap);
      KeepCountedResidents(seen, cap);
      EvictOrder(d, k, cap);
      seen := seen + [k];
      if k in d {
        d := MoveToEnd(d, k);
        return true;
      }
      if |d| >= cap {
        d := d[1..];
      }
      d := d + [k];
      return false;
    }
  }

  lemma KeepCountedResidents<T(!new)>(trace: seq<T>, c: nat)
    ensures |Residents(trace, One, c)| <= c
    ensures |Residents(trace, One, c)| == if |Elems(trace)| <= c then |Elems(trace)| else c
  {
    KeepCounted(LastOcc(trace), c);
    LastOccNoDup(trace);
  }

  /** Drive one policy over a trace and count its misses. */
  method ReplayLru<T(==, !new)>(trace: seq<T>, cap: nat) returns (misses: nat)
    requires cap > 0
    ensures misses == Missed(trace, One, cap, One)
  {
    hide Residents, Keep, Missed;
    NothingYet(trace, One, cap, One);
    var sim := new Lru(cap);
    misses := 0;
    for i := 0 to |trace|
      invariant sim.Valid() && sim.cap == cap && sim.seen == trace[..i]
      invariant misses == Missed(trace[..i], One, cap, One)
    {
      assert trace[..i + 1] == trace[..i] + [trace[i]];
      MissedNext(trace[..i], trace[i], One, cap, One);
      var hit := sim.Access(trace[i]);
      if !hit {
        misses := misses + 1;
      }
    }
  }

  /** Insert first, then evict at most one entry, adding up the weight of hits and misses.
      Agrees with evict-then-insert on every access of every trace. */
  method LruHits<T(==, !new)>(trace: seq<T>, capacity: nat, weight: T -> nat) returns (hitB: nat, missB: nat)
    ensures missB == Missed(trace, One, capacity, weight)
    ensures hitB + missB == Total(trace, weight)
  {
    hide Residents, Keep, Missed, Total, Without;
    NothingYet(trace, One, capacity, weight);
    var resident: seq<T> := [];
    hitB, missB := 0, 0;
    for i := 0 to |trace|
      invariant resident == Residents(trace[..i], One, capacity)
      invariant missB == Missed(trace[..i], One, capacity, weight)
      invariant hitB + missB == Total(trace[..i], weight)
    {
      var k := trace[i];
      assert trace[..i + 1] == trace[..i] + [k];
      MissedNext(trace[..i], k, One, capacity, weight);
      ResidentsNext(trace[..i], k, One, capacity);
      TotalAppend(trace[..i], [k], weight);
      TotalSingle(k, weight);
      KeepCountedResidents(trace[..i], capacity);
      KeepCounted(resident + [k], capacity);
      if k in resident {
        hitB := hitB + weight(k);
        resident := MoveToEnd(resident, k);
      } else {
        missB := missB + weight(k);
        resident := resident + [k];
        if |resident| > capacity {
          resident := resident[1..];
        }
      }
    }
  }

  // ---- counted in bytes ------------------------------------------------------------------

  /** Evict from the old end until what is left fits: exactly the longest fitting suffix. */
  method EvictToFit<T(!new)>(r: seq<T>, used: nat, budget: nat, weight: T -> nat) returns (kept: seq<T>, left: nat)
    requires used == Total(r, weight)
    ensures kept == Keep(r, weight, budget) && left == Total(kept, weight)
  {
    hide Total, Keep;
    kept, left := r, used;
    while left > budget && kept != []
      invariant left == Total(kept, weight)
      invariant Keep(kept, weight, budget) == Keep(r, weight, budget)
    {
      assert kept == [kept[0]] + kept[1..];
      TotalAppend([kept[0]], kept[1..], weight);
      TotalSingle(kept[0], weight);
      KeepNext(kept, weight, budget);
      left := left - weight(kept[0]);
      kept := kept[1..];
    }
    NothingYet([], weight, budget, weight);
    KeepFits(kept, weight, budget);
  }

  method LruHitsBytes<T(==, !new)>(trace: seq<T>, budget: nat, weight: T -> nat)
    returns (hitB: nat, missB: nat, missN: nat)
    ensures missB == Missed(trace, weight, budget, weight)
    ensures missN == Missed(trace, weight, budget, One)
    ensures hitB + missB == Total(trace, weight)
  {
    hide Residents, Keep, Missed, Total, Without;
    NothingYet(trace, weight, budget, weight);
    NothingYet(trace, weight, budget, One);
    var resident: seq<T>, used := [], 0;
    hitB, missB, missN := 0, 0, 0;
    for i := 0 to |trace|
      invariant resident == Residents(trace[..i], weight, budget) && used == Total(resident, weight)
      invariant missB == Missed(trace[..i], weight, budget, weight)
      invariant missN == Missed(trace[..i], weight, budget, One)
      invariant hitB + missB == Total(trace[..i], weight)
    {
      var k := trace[i];
      assert trace[..i + 1] == trace[..i] + [k];
      MissedNext(trace[..i], k, weight, budget, weight);
      MissedNext(trace[..i], k, weight, budget, One);
      ResidentsNext(trace[..i], k, weight, budget);
      TotalAppend(trace[..i], [k], weight);
      TotalSingle(k, weight);
      if k in resident {
        hitB := hitB + weight(k);
        ResidentsNoDup(trace[..i], weight, budget);
        TotalMoved(resident, k, weight);
        resident := MoveToEnd(resident, k);
      } else {
        missB, missN := missB + weight(k), missN + 1;
        TotalAppend(resident, [k], weight);
        resident, used := EvictToFit(resident + [k], used + weight(k), budget, weight);
      }
    }
  }

  // ---- reuse distances ---------------------------------------------------------------------

  /** For each access, how many accesses ago its key was last used (-1 if never). */
  method ReuseDistances<T(==, !new)>(trace: seq<T>) returns (out: seq<int>)
    ensures |out| == |trace|
    ensures forall i :: 0 <= i < |trace| ==> IsReuse(trace, i, out[i])
  {
    var last: map<T, nat> := map[];
    out := [];
    for i := 0 to |trace|
      invariant |out| == i
      invariant forall k :: k in last <==> k in trace[..i]
      invariant forall k :: k in last ==> LastAt(trace[..i], last[k]) && trace[last[k]] == k
      invariant forall j :: 0 <= j < i ==> IsReuse(trace, j, out[j])
    {
      var k := trace[i];
      var d := if k in last then i - last[k] - 1 else -1;
      out := out + [d];
      ghost var before := last;
      last := last[k := i];
      assert trace[..i + 1] == trace[..i] + [k];
      forall x | x in last ensures LastAt(trace[..i + 1], last[x]) && trace[last[x]] == x {
        if x != k {
          assert LastAt(trace[..i], before[x]);
        }
      }
    }
  }

  ghost predicate IsReuse<T(!new)>(trace: seq<T>, i: nat, d: int)
    requires i < |trace|
  {
    if trace[i] in trace[..i] then 0 <= d < i && LastAt(trace[..i], i - d - 1) && trace[i - d - 1] == trace[i]
    else d == -1
  }

  lemma {:induction false} ElemsAtMost<T(!new)>(s: seq<T>)
    ensures |Elems(s)| <= |s|
  {
    FirstOccNoDup(s);
  }

  /** Every reuse distance inside the capacity is a hit. */
  lemma ShortReuseHits<T(!new)>(trace: seq<T>, i: nat, d: int, c: nat)
    requires i < |trace| && IsReuse(trace, i, d) && 0 <= d < c
    ensures trace[i] in Residents(trace[..i], One, c)
  {
    hide Residents, LastOcc;
    var j := i - d - 1;
    ElemsAtMost(trace[..i][j + 1..]);
    StackDistanceCount(trace[..i], trace[i], c);
  }
}
