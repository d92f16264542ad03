/** What any replacement policy does to a cache over a trace, and the offline optimum.

    A policy is judged by its residents: at most `cap` keys, the accessed key among them
    after each access, and nothing loaded that was not asked for. */
module Schedules {
  import opened Orders

  ghost predicate RunStep(cap: nat, k: int, c: set<int>, c': set<int>) {
    |c'| <= cap && k in c' && c' <= c + {k}
  }

  ghost predicate IsRun(trace: seq<int>, cap: nat, c: seq<set<int>>) {
    && |c| == |trace| + 1 && c[0] == {}
    && forall i :: 0 <= i < |trace| ==> RunStep(cap, trace[i], c[i], c[i + 1])
  }

  /** Accesses that found their key absent. */
  ghost function Misses(trace: seq<int>, c: seq<set<int>>): nat
    requires |c| == |trace| + 1
  {
    if trace == [] then 0
    else
      var n := |trace| - 1;
      Misses(trace[..n], c[..n + 1]) + if trace[n] in c[n] then 0 else 1
  }

  ghost predicate Attains(trace: seq<int>, cap: nat, misses: nat) {
    exists c :: IsRun(trace, cap, c) && Misses(trace, c) == misses
  }

  /** A bigger cache can do whatever a smaller one can. */
  lemma MoreRoom(trace: seq<int>, cap: nat, more: nat, misses: nat)
    requires cap <= more && Attains(trace, cap, misses)
    ensures Attains(trace, more, misses)
  {
    var c :| IsRun(trace, cap, c) && Misses(trace, c) == misses;
    assert IsRun(trace, more, c);
  }

  lemma MissesNext(trace: seq<int>, c: seq<set<int>>, k: int, s: set<int>)
    requires |c| == |trace| + 1
    ensures Misses(trace + [k], c + [s]) == Misses(trace, c) + if k in c[|trace|] then 0 else 1
  {
    assert (trace + [k])[..|trace|] == trace;
    assert (c + [s])[..|trace| + 1] == c;
  }

  lemma RunNext(trace: seq<int>, cap: nat, c: seq<set<int>>, k: int, s: set<int>)
    requires IsRun(trace, cap, c) && RunStep(cap, k, c[|trace|], s)
    ensures IsRun(trace + [k], cap, c + [s])
  {
    var t, d := trace + [k], c + [s];
    forall i | 0 <= i < |t| ensures RunStep(cap, t[i], d[i], d[i + 1]) {
      if i < |trace| {
        assert d[i] == c[i] && d[i + 1] == c[i + 1];
      }
    }
  }

  // ---- the farthest next use ---------------------------------------------------------------

  /** First position from `i` on that accesses `k`, or the length of the trace. */
  function NextUse(trace: seq<int>, k: int, i: nat): (n: nat)
    ensures i < n || i >= |trace| || trace[i] == k
    ensures i <= |trace| ==> i <= n <= |trace|
    decreases |trace| - i
  {
    if i >= |trace| then |trace| else if trace[i] == k then i else NextUse(trace, k, i + 1)
  }

  lemma {:induction false} NextUseMeans(trace: seq<int>, k: int, i: nat)
    requires i <= |trace|
    ensures var n := NextUse(trace, k, i);
      && (n < |trace| ==> trace[n] == k)
      && (forall j :: i <= j < n ==> trace[j] != k)
    decreases |trace| - i
  {
    if i < |trace| {
      NextUseMeans(trace, k, i + 1);
    }
  }

  ghost predicate IsFarthestOf(trace: seq<int>, b: set<int>, i: nat, v: int) {
    v in b && forall u :: u in b ==> NextUse(trace, u, i) <= NextUse(trace, v, i)
  }

  /** One step of the offline policy: a victim only when full, and then a farthest one. */
  ghost predicate FarthestStep(trace: seq<int>, cap: nat, i: nat, b: set<int>, b': set<int>)
    requires i < |trace|
  {
    if trace[i] in b then b' == b
    else if |b| < cap then b' == b + {trace[i]}
    else exists v :: IsFarthestOf(trace, b, i + 1, v) && b' == b - {v} + {trace[i]}
  }

  ghost predicate IsFarthest(trace: seq<int>, cap: nat, c: seq<set<int>>) {
    && |c| == |trace| + 1 && c[0] == {}
    && forall i :: 0 <= i < |trace| ==> FarthestStep(trace, cap, i, c[i], c[i + 1])
  }

  lemma FarthestFits(trace: seq<int>, cap: nat, i: nat, b: set<int>, b': set<int>)
    requires i < |trace| && cap > 0 && |b| <= cap && FarthestStep(trace, cap, i, b, b')
    ensures RunStep(cap, trace[i], b, b')
  {
    if trace[i] !in b && |b| >= cap {
      var v :| IsFarthestOf(trace, b, i + 1, v) && b' == b - {v} + {trace[i]};
      assert |b - {v}| == |b| - 1;
    }
  }

  lemma FarthestIsRun(trace: seq<int>, cap: nat, c: seq<set<int>>)
    requires cap > 0 && IsFarthest(trace, cap, c)
    ensures IsRun(trace, cap, c)
  {
    var i := 0;
    while i < |trace|
      invariant i <= |trace| && |c[i]| <= cap
      invariant forall j :: 0 <= j < i ==> RunStep(cap, trace[j], c[j], c[j + 1])
    {
      FarthestFits(trace, cap, i, c[i], c[i + 1]);
      i := i + 1;
    }
  }

  // ---- optimality -----------------------------------------------------------------------------

  /** Keys of `s` used again before `t`. */
  ghost function Soon(trace: seq<int>, s: set<int>, i: nat, t: nat): set<int> {
    set x | x in s && NextUse(trace, x, i) < t
  }

  ghost predicate AheadBefore(trace: seq<int>, b: set<int>, c: set<int>, i: nat, mb: nat, mc: nat, t: nat) {
    |Soon(trace, c, i, t)| + mb <= |Soon(trace, b, i, t)| + mc
  }

  /** However `t` is chosen, the other run holds at most as many more keys wanted before `t`
      as it has already paid extra misses. */
  ghost predicate Dominates(trace: seq<int>, b: set<int>, c: set<int>, i: nat, mb: nat, mc: nat) {
    forall t: nat :: AheadBefore(trace, b, c, i, mb, mc, t)
  }

  /** Positions of keys other than the one accessed do not move. */
  lemma SoonMoves(trace: seq<int>, s: set<int>, i: nat, t: nat)
    requires i < |trace|
    ensures Soon(trace, s - {trace[i]}, i + 1, t) == Soon(trace, s - {trace[i]}, i, t)
  {}

  lemma SoonWithKey(trace: seq<int>, s: set<int>, i: nat, t: nat)
    requires i < |trace| && trace[i] in s && t > i
    ensures |Soon(trace, s, i, t)| == |Soon(trace, s - {trace[i]}, i, t)| + 1
  {
    assert Soon(trace, s, i, t) == Soon(trace, s - {trace[i]}, i, t) + {trace[i]};
  }

  lemma SoonBefore(trace: seq<int>, s: set<int>, i: nat, t: nat)
    requires i <= |trace| && t <= i
    ensures Soon(trace, s, i, t) == {}
  {}

  /** A set holding the accessed key, seen from the next position. */
  lemma SoonAfter(trace: seq<int>, s: set<int>, i: nat, t: nat)
    requires i < |trace| && trace[i] in s
    ensures |Soon(trace, s, i + 1, t)| ==
      |Soon(trace, s - {trace[i]}, i, t)| + if NextUse(trace, trace[i], i + 1) < t then 1 else 0
  {
    var k := trace[i];
    SoonMoves(trace, s, i, t);
    assert Soon(trace, s, i + 1, t) ==
      Soon(trace, s - {k}, i + 1, t) + if NextUse(trace, k, i + 1) < t then {k} else {};
  }

  lemma SoonMono(trace: seq<int>, a: set<int>, b: set<int>, i: nat, t: nat)
    requires a <= b
    ensures |Soon(trace, a, i, t)| <= |Soon(trace, b, i, t)|
  {
    SizeMono(Soon(trace, a, i, t), Soon(trace, b, i, t));
  }

  /** The other run after an access, whatever it evicted. */
  lemma OtherAfter(trace: seq<int>, cap: nat, c: set<int>, c': set<int>, i: nat, t: nat)
    requires i < |trace| && t > i && RunStep(cap, trace[i], c, c')
    ensures var again := if NextUse(trace, trace[i], i + 1) < t then 1 else 0;
      && |Soon(trace, c', i + 1, t)| <= |Soon(trace, c, i, t)| + again - (if trace[i] in c then 1 else 0)
      && |Soon(trace, c', i + 1, t)| <= cap - 1 + again
  {
    var k := trace[i];
    SoonAfter(trace, c', i, t);
    SoonMono(trace, c' - {k}, c - {k}, i, t);
    if k in c {
      SoonWithKey(trace, c, i, t);
    } else {
      assert c - {k} == c;
    }
    SizeMono(Soon(trace, c' - {k}, i, t), c' - {k});
    assert |c' - {k}| == |c'| - 1;
  }

  /** The offline policy after an access: either it kept every key wanted before `t`, or its
      victim was so near that everything it holds is. */
  lemma FarthestAfter(trace: seq<int>, cap: nat, b: set<int>, b': set<int>, i: nat, t: nat)
    requires i < |trace| && t > i && cap > 0 && |b| <= cap && FarthestStep(trace, cap, i, b, b')
    ensures var again := if NextUse(trace, trace[i], i + 1) < t then 1 else 0;
      || |Soon(trace, b', i + 1, t)| == |Soon(trace, b, i, t)| + again - (if trace[i] in b then 1 else 0)
      || (trace[i] !in b && |Soon(trace, b', i + 1, t)| == cap - 1 + again)
  {
    var k := trace[i];
    FarthestFits(trace, cap, i, b, b');
    SoonAfter(trace, b', i, t);
    if k in b {
      SoonWithKey(trace, b, i, t);
    } else if |b| < cap {
      assert b' - {k} == b;
    } else {
      var v :| IsFarthestOf(trace, b, i + 1, v) && b' == b - {v} + {k};
      assert b' - {k} == b - {v};
      if t <= NextUse(trace, v, i + 1) {
        assert Soon(trace, b - {v}, i, t) == Soon(trace, b, i, t);
      } else {
        assert Soon(trace, b - {v}, i, t) == b - {v};
      }
    }
  }

  /** The extra misses of the other run stay non-negative: if it hits what the offline policy
      misses, it held one key more wanted before the next position. */
  lemma NeverBehind(trace: seq<int>, b: set<int>, c: set<int>, i: nat, mb: nat, mc: nat)
    requires i < |trace| && Dominates(trace, b, c, i, mb, mc)
    ensures mb + (if trace[i] in b then 0 else 1) <= mc + (if trace[i] in c then 0 else 1)
  {
    hide Soon;
    var j := i + 1;
    assert AheadBefore(trace, b, c, i, mb, mc, 0) && AheadBefore(trace, b, c, i, mb, mc, j);
    SoonBefore(trace, b, i, 0);
    SoonBefore(trace, c, i, 0);
    if trace[i] in c && trace[i] !in b {
      SoonWithKey(trace, c, i, j);
      SoonIsNow(trace, b, i);
    }
  }

  lemma SoonIsNow(trace: seq<int>, s: set<int>, i: nat)
    requires i < |trace| && trace[i] !in s
    ensures Soon(trace, s, i, i + 1) == {}
  {}

  /** The advantage at one deadline after the access. */
  lemma StaysAhead(trace: seq<int>, cap: nat, b: set<int>, b': set<int>, c: set<int>, c': set<int>,
                   i: nat, mb: nat, mc: nat, mb': nat, mc': nat, t: nat)
    requires i < |trace| && cap > 0 && |b| <= cap && FarthestStep(trace, cap, i, b, b')
    requires RunStep(cap, trace[i], c, c') && AheadBefore(trace, b, c, i, mb, mc, t) && mb' <= mc'
    requires mb' == mb + (if trace[i] in b then 0 else 1) && mc' == mc + (if trace[i] in c then 0 else 1)
    ensures AheadBefore(trace, b', c', i + 1, mb', mc', t)
  {
    hide Soon, FarthestStep, RunStep, NextUse;
    if t <= i {
      SoonBefore(trace, b', i + 1, t);
      SoonBefore(trace, c', i + 1, t);
    } else {
      OtherAfter(trace, cap, c, c', i, t);
      FarthestAfter(trace, cap, b, b', i, t);
    }
  }

  /** One access keeps the advantage. */
  lemma DominanceStep(trace: seq<int>, cap: nat, b: set<int>, b': set<int>, c: set<int>, c': set<int>,
                      i: nat, mb: nat, mc: nat)
    requires i < |trace| && cap > 0 && |b| <= cap && FarthestStep(trace, cap, i, b, b')
    requires RunStep(cap, trace[i], c, c')
    requires Dominates(trace, b, c, i, mb, mc)
    ensures Dominates(trace, b', c', i + 1,
      mb + (if trace[i] in b then 0 else 1), mc + (if trace[i] in c then 0 else 1))
  {
    hide AheadBefore, FarthestStep, RunStep, NextUse;
    NeverBehind(trace, b, c, i, mb, mc);
    var mb', mc' := mb + (if trace[i] in b then 0 else 1), mc + (if trace[i] in c then 0 else 1);
    var j := i + 1;
    forall t: nat ensures AheadBefore(trace, b', c', j, mb', mc', t) {
      assert AheadBefore(trace, b, c, i, mb, mc, t);
      StaysAhead(trace, cap, b, b', c, c', i, mb, mc, mb', mc', t);
    }
  }

  ghost function MissesBefore(trace: seq<int>, c: seq<set<int>>, i: nat): nat
    requires |c| == |trace| + 1 && i <= |trace|
  {
    Misses(trace[..i], c[..i + 1])
  }

  lemma MissesStep(trace: seq<int>, c: seq<set<int>>, i: nat)
    requires |c| == |trace| + 1 && i < |trace|
    ensures MissesBefore(trace, c, i + 1) == MissesBefore(trace, c, i) + if trace[i] in c[i] then 0 else 1
  {
    assert trace[..i + 1] == trace[..i] + [trace[i]];
    assert c[..i + 2] == c[..i + 1] + [c[i + 1]];
    MissesNext(trace[..i], c[..i + 1], trace[i], c[i + 1]);
  }

  lemma {:induction false} DominanceHolds(trace: seq<int>, cap: nat, b: seq<set<int>>, c: seq<set<int>>, i: nat)
    requires cap > 0 && IsFarthest(trace, cap, b) && IsRun(trace, cap, c) && i <= |trace|
    ensures |b[i]| <= cap && Dominates(trace, b[i], c[i], i, MissesBefore(trace, b, i), MissesBefore(trace, c, i))
  {
    hide FarthestStep, RunStep;
    if i > 0 {
      hide Dominates, MissesBefore;
      var j := i - 1;
      DominanceHolds(trace, cap, b, c, j);
      MissesStep(trace, b, j);
      MissesStep(trace, c, j);
      FarthestFits(trace, cap, j, b[j], b[j + 1]);
      assert RunStep(cap, trace[j], c[j], c[j + 1]);
      DominanceStep(trace, cap, b[j], b[j + 1], c[j], c[j + 1], j,
        MissesBefore(trace, b, j), MissesBefore(trace, c, j));
      assert |b[i]| <= cap by {
        FarthestIsRun(trace, cap, b);
        SizeAfter(trace, cap, b, j);
      }
    }
  }

  lemma SizeAfter(trace: seq<int>, cap: nat, c: seq<set<int>>, i: nat)
    requires IsRun(trace, cap, c) && i < |trace|
    ensures |c[i + 1]| <= cap
  {
    assert RunStep(cap, trace[i], c[i], c[i + 1]);
  }

  /** Evicting the key used farthest in the future misses least: no run with the same
      capacity, knowing whatever it likes, misses fewer accesses of any trace. */
  lemma FarthestIsOptimal(trace: seq<int>, cap: nat, b: seq<set<int>>, c: seq<set<int>>)
    requires cap > 0 && IsFarthest(trace, cap, b) && IsRun(trace, cap, c)
    ensures Misses(trace, b) <= Misses(trace, c)
  {
    var n := |trace|;
    DominanceHolds(trace, cap, b, c, n);
    assert trace[..n] == trace && b[..n + 1] == b && c[..n + 1] == c;
    SoonBefore(trace, b[n], n, 0);
    SoonBefore(trace, c[n], n, 0);
    assert AheadBefore(trace, b[n], c[n], n, Misses(trace, b), Misses(trace, c), 0);
  }
}
