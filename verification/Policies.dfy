/** The remaining replacement policies, and what the offline optimum says about all of them. */
module Policies {
  import opened Orders
  import opened Quotients
  import opened Recency
  import opened LruCaches
  import opened LayeredLru
  import opened Schedules

  /** Some run over the trace has these misses and ends with these residents. */
  ghost predicate Reaches(trace: seq<int>, cap: nat, misses: nat, s: set<int>) {
    exists c :: IsRun(trace, cap, c) && Misses(trace, c) == misses && c[|trace|] == s
  }

  lemma ReachesStart(trace: seq<int>, cap: nat)
    ensures Reaches(trace[..0], cap, 0, {}) && trace[..|trace|] == trace
  {
    assert IsRun(trace[..0], cap, [{}]) && Misses(trace[..0], [{}]) == 0;
  }

  lemma ReachesNext(trace: seq<int>, i: nat, cap: nat, misses: nat, s: set<int>, s': set<int>)
    requires i < |trace| && Reaches(trace[..i], cap, misses, s) && RunStep(cap, trace[i], s, s')
    ensures Reaches(trace[..i + 1], cap, misses + (if trace[i] in s then 0 else 1), s')
  {
    var c :| IsRun(trace[..i], cap, c) && Misses(trace[..i], c) == misses && c[i] == s;
    RunNext(trace[..i], cap, c, trace[i], s');
    MissesNext(trace[..i], c, trace[i], s');
    assert trace[..i + 1] == trace[..i] + [trace[i]];
  }

  lemma ReachesAttains(trace: seq<int>, cap: nat, misses: nat, s: set<int>)
    requires Reaches(trace, cap, misses, s)
    ensures Attains(trace, cap, misses)
  {}

  // ---- recency -------------------------------------------------------------------------------

  lemma LruStep(trace: seq<int>, k: int, cap: nat)
    requires cap > 0
    ensures RunStep(cap, k, Elems(Residents(trace, One, cap)), Elems(Residents(trace + [k], One, cap)))
  {
    hide Residents, Keep, AccessList, Elems;
    var r, r' := Residents(trace, One, cap), Residents(trace + [k], One, cap);
    ResidentsNext(trace, k, One, cap);
    KeepCountedResidents(trace, cap);
    KeepCountedResidents(trace + [k], cap);
    EvictOrder(r, k, cap);
    AccessIs(r, k, cap);
    AccessElems(r, k, cap);
    ElemsAtMost(r');
  }

  lemma AccessIs(r: seq<int>, k: int, cap: nat)
    requires cap > 0
    ensures AccessList(r, k, cap) == if k in r then MoveToEnd(r, k) else (if |r| >= cap then r[1..] else r) + [k]
  {}

  /** An access holds the accessed key and otherwise only keys held before. */
  lemma AccessElems(r: seq<int>, k: int, cap: nat)
    requires cap > 0
    ensures k in Elems(AccessList(r, k, cap)) && Elems(AccessList(r, k, cap)) <= Elems(r) + {k}
  {
    hide Without;
    var a := AccessList(r, k, cap);
    assert a[|a| - 1] == k;
    assert forall x :: x in a ==> x in r || x == k;
  }

  /** The recency policy is one of the runs the optimum ranges over. */
  lemma {:induction false} LruReaches(trace: seq<int>, cap: nat, i: nat)
    requires cap > 0 && i <= |trace|
    ensures Reaches(trace[..i], cap, Missed(trace[..i], One, cap, One), Elems(Residents(trace[..i], One, cap)))
  {
    hide Residents, Reaches, Missed;
    if i == 0 {
      ReachesStart(trace, cap);
      NothingYet(trace, One, cap, One);
      assert Elems(Residents(trace[..0], One, cap)) == {};
    } else {
      var j := i - 1;
      LruReaches(trace, cap, j);
      LruStep(trace[..j], trace[j], cap);
      assert trace[..i] == trace[..j] + [trace[j]];
      ReachesNext(trace, j, cap, Missed(trace[..j], One, cap, One), Elems(Residents(trace[..j], One, cap)),
        Elems(Residents(trace[..i], One, cap)));
      MissedNext(trace[..j], trace[j], One, cap, One);
    }
  }

  // ---- frequency -----------------------------------------------------------------------------

  function Count(s: seq<int>, k: int): nat {
    if s == [] then 0 else Count(s[..|s| - 1], k) + if s[|s| - 1] == k then 1 else 0
  }

  lemma {:induction false} CountIs(s: seq<int>, k: int)
    ensures Count(s, k) == multiset(s)[k]
  {
    if s != [] {
      CountIs(s[..|s| - 1], k);
      assert s == s[..|s| - 1] + [s[|s| - 1]];
    }
  }

  lemma CountNext(s: seq<int>, x: int, k: int)
    ensures Count(s + [x], k) == Count(s, k) + if x == k then 1 else 0
  {
    assert (s + [x])[..|s|] == s;
  }

  /** Less often used, ties by key. */
  predicate RarerOrSame(f: map<int, nat>, a: int, b: int)
    requires a in f && b in f
  {
    f[a] < f[b] || (f[a] == f[b] && a <= b)
  }

  ghost predicate IsRarest(f: map<int, nat>, d: set<int>, v: int)
    requires d <= f.Keys
  {
    v in d && forall x :: x in d ==> RarerOrSame(f, v, x)
  }

  lemma {:induction false} SomeRarest(f: map<int, nat>, d: set<int>) returns (v: int)
    requires d != {} && d <= f.Keys
    ensures IsRarest(f, d, v)
    decreases |d|
  {
    v := SomeElement(d);
    var rest := d - {v};
    if rest != {} {
      var w := SomeRarest(f, rest);
      v := if RarerOrSame(f, v, w) then v else w;
    }
    forall x | x in d ensures RarerOrSame(f, v, x) {
      assert x in rest || x == v || d - rest == {x};
    }
  }

  lemma RarestExists(f: map<int, nat>, d: set<int>)
    requires d != {} && d <= f.Keys
    ensures exists v :: IsRarest(f, d, v)
  {
    var v := SomeRarest(f, d);
  }

  /** The key that goes when there is no room. */
  ghost function Rarest(f: map<int, nat>): (v: int)
    requires f.Keys != {}
    ensures IsRarest(f, f.Keys, v)
  {
    RarestExists(f, f.Keys);
    var v :| IsRarest(f, f.Keys, v);
    v
  }

  /** There is only one such key. */
  lemma RarestUnique(f: map<int, nat>, v: int)
    requires f.Keys != {} && IsRarest(f, f.Keys, v)
    ensures v == Rarest(f)
  {
    assert RarerOrSame(f, v, Rarest(f)) && RarerOrSame(f, Rarest(f), v);
  }

  // ---- the frequency policy as a function of the trace -----------------------------------------

  ghost function RoomIn(f: map<int, nat>, cap: nat): (r: map<int, nat>)
    requires cap > 0
    ensures r.Keys <= f.Keys
  {
    if |f.Keys| < cap then f else
      SomeKey(f);
      f - {Rarest(f)}
  }

  lemma SomeKey(f: map<int, nat>)
    requires |f.Keys| > 0
    ensures f.Keys != {}
  {}

  /** The frequencies after one access. */
  ghost function Counted(f: map<int, nat>, k: int, cap: nat): map<int, nat>
    requires cap > 0
  {
    if k in f then f[k := f[k] + 1] else RoomIn(f, cap)[k := 1]
  }

  ghost function LfuAfter(trace: seq<int>, cap: nat): map<int, nat>
    requires cap > 0
  {
    if trace == [] then map[] else Counted(LfuAfter(trace[..|trace| - 1], cap), trace[|trace| - 1], cap)
  }

  /** Accesses the frequency policy misses. */
  ghost function LfuMissed(trace: seq<int>, cap: nat): nat
    requires cap > 0
  {
    if trace == [] then 0
    else
      var p, x := trace[..|trace| - 1], trace[|trace| - 1];
      LfuMissed(p, cap) + if x in LfuAfter(p, cap) then 0 else 1
  }

  lemma LfuNext(trace: seq<int>, i: nat, cap: nat)
    requires cap > 0 && i < |trace|
    ensures LfuAfter(trace[..i + 1], cap) == Counted(LfuAfter(trace[..i], cap), trace[i], cap)
    ensures LfuMissed(trace[..i + 1], cap) ==
      LfuMissed(trace[..i], cap) + if trace[i] in LfuAfter(trace[..i], cap) then 0 else 1
  {
    assert trace[..i + 1][..i] == trace[..i];
  }

  lemma LfuStart(trace: seq<int>, cap: nat)
    requires cap > 0
    ensures LfuAfter(trace[..0], cap) == map[] && LfuMissed(trace[..0], cap) == 0
    ensures trace[..|trace|] == trace
  {}

  lemma CountedStep(f: map<int, nat>, k: int, cap: nat)
    requires cap > 0 && |f.Keys| <= cap
    ensures RunStep(cap, k, f.Keys, Counted(f, k, cap).Keys)
  {
    var g := Counted(f, k, cap);
    if k in f {
      assert g.Keys == f.Keys;
    } else if |f.Keys| < cap {
      assert g.Keys == f.Keys + {k};
    } else {
      SomeKey(f);
      var v := Rarest(f);
      assert g.Keys == f.Keys - {v} + {k};
      assert |f.Keys - {v}| == |f.Keys| - 1;
    }
  }

  /** The frequency policy is one of the runs the optimum ranges over. */
  lemma {:induction false} LfuReaches(trace: seq<int>, cap: nat, i: nat)
    requires cap > 0 && i <= |trace|
    ensures Reaches(trace[..i], cap, LfuMissed(trace[..i], cap), LfuAfter(trace[..i], cap).Keys)
    ensures |LfuAfter(trace[..i], cap).Keys| <= cap
  {
    hide Reaches, Counted;
    LfuStart(trace, cap);
    if i == 0 {
      ReachesStart(trace, cap);
      assert LfuAfter(trace[..0], cap).Keys == {};
    } else {
      var j := i - 1;
      hide LfuMissed, LfuAfter;
      LfuReaches(trace, cap, j);
      LfuNext(trace, j, cap);
      CountedStep(LfuAfter(trace[..j], cap), trace[j], cap);
      ReachesNext(trace, j, cap, LfuMissed(trace[..j], cap), LfuAfter(trace[..j], cap).Keys,
        LfuAfter(trace[..i], cap).Keys);
    }
  }

  /** A resident's frequency is its number of accesses since it was last loaded. */
  ghost predicate Tallied(d: set<int>, f: map<int, nat>, loaded: map<int, nat>, seen: seq<int>) {
    && f.Keys == d && loaded.Keys == d
    && forall x :: x in d ==> loaded[x] <= |seen| && f[x] == Count(seen[loaded[x]..], x)
  }

  lemma TalliedKeys(d: set<int>, f: map<int, nat>, loaded: map<int, nat>, seen: seq<int>)
    requires Tallied(d, f, loaded, seen)
    ensures f.Keys == d && loaded.Keys == d
  {}

  lemma TalliedHit(d: set<int>, f: map<int, nat>, loaded: map<int, nat>, seen: seq<int>, k: int)
    requires Tallied(d, f, loaded, seen) && k in d
    ensures Tallied(d, f[k := f[k] + 1], loaded, seen + [k])
  {
    var f', seen' := f[k := f[k] + 1], seen + [k];
    assert f'.Keys == d;
    forall x | x in d ensures loaded[x] <= |seen'| && f'[x] == Count(seen'[loaded[x]..], x) {
      assert seen'[loaded[x]..] == seen[loaded[x]..] + [k];
      CountNext(seen[loaded[x]..], k, x);
    }
  }

  lemma TalliedEvict(d: set<int>, f: map<int, nat>, loaded: map<int, nat>, seen: seq<int>, v: int)
    requires Tallied(d, f, loaded, seen) && v in d
    ensures Tallied(d - {v}, f - {v}, loaded - {v}, seen)
    ensures |d - {v}| == |d| - 1
  {
    assert (f - {v}).Keys == d - {v} && (loaded - {v}).Keys == d - {v};
  }

  lemma OneSeen(seen: seq<int>, k: int)
    ensures Count((seen + [k])[|seen|..], k) == 1
  {
    assert (seen + [k])[|seen|..] == [] + [k];
    CountNext([], k, k);
  }

  lemma TalliedLoad(d: set<int>, f: map<int, nat>, loaded: map<int, nat>, seen: seq<int>, k: int)
    requires Tallied(d, f, loaded, seen) && k !in d
    ensures Tallied(d + {k}, f[k := 1], loaded[k := |seen|], seen + [k])
    ensures |d + {k}| == |d| + 1
  {
    hide Count;
    var d', f', loaded', seen' := d + {k}, f[k := 1], loaded[k := |seen|], seen + [k];
    OneSeen(seen, k);
    assert f'.Keys == d' && loaded'.Keys == d';
    forall x | x in d' ensures loaded'[x] <= |seen'| && f'[x] == Count(seen'[loaded'[x]..], x) {
      if x == k {
        assert loaded'[x] == |seen| && f'[x] == 1;
      } else {
        assert seen'[loaded[x]..] == seen[loaded[x]..] + [k];
        CountNext(seen[loaded[x]..], k, x);
      }
    }
  }

  /** Nothing goes while there is room; then only the least frequently used key does. */
  ghost predicate FreesOne(f: map<int, nat>, d: set<int>, cap: nat, left: set<int>)
    requires d <= f.Keys
  {
    if |d| < cap then left == d else exists v :: IsRarest(f, d, v) && left == d - {v}
  }

  ghost function Restrict(m: map<int, nat>, s: set<int>): map<int, nat> {
    map x | x in m && x in s :: m[x]
  }

  lemma RestrictAll(m: map<int, nat>, s: set<int>)
    requires m.Keys <= s
    ensures Restrict(m, s) == m
  {}

  // ---- the victim, by what the trace says --------------------------------------------------------

  /** `x` was loaded by access `i` and has stayed since. */
  ghost predicate LoadedAt(trace: seq<int>, cap: nat, x: int, i: nat)
    requires cap > 0
  {
    && i < |trace| && trace[i] == x && x !in LfuAfter(trace[..i], cap)
    && forall j :: i < j <= |trace| ==> x in LfuAfter(trace[..j], cap)
  }

  lemma LoadedOnce(trace: seq<int>, cap: nat, x: int, i: nat, j: nat)
    requires cap > 0 && LoadedAt(trace, cap, x, i) && LoadedAt(trace, cap, x, j)
    ensures i == j
  {}

  lemma LoadedLonger(trace: seq<int>, cap: nat, x: int, i: nat, y: int)
    requires cap > 0 && LoadedAt(trace, cap, x, i) && x in LfuAfter(trace + [y], cap)
    ensures LoadedAt(trace + [y], cap, x, i)
  {
    hide LfuAfter;
    var t := trace + [y];
    forall j | i < j <= |t| ensures x in LfuAfter(t[..j], cap) {
      if j <= |trace| {
        assert t[..j] == trace[..j];
      } else {
        assert t[..j] == t;
      }
    }
    assert t[..i] == trace[..i];
  }

  lemma LoadedNow(trace: seq<int>, cap: nat, x: int)
    requires cap > 0 && x !in LfuAfter(trace, cap)
    ensures LoadedAt(trace + [x], cap, x, |trace|)
    ensures (trace + [x])[|trace|..] == [x]
  {
    var t := trace + [x];
    assert t[..|trace|] == trace && t[..|t|] == t;
  }

  /** A resident's frequency is how often it was accessed since the access that loaded it. */
  lemma {:induction false} LfuTally(trace: seq<int>, cap: nat, x: int) returns (i: nat)
    requires cap > 0 && x in LfuAfter(trace, cap)
    ensures LoadedAt(trace, cap, x, i) && LfuAfter(trace, cap)[x] == Count(trace[i..], x)
  {
    hide LoadedAt, Count;
    var p, y := trace[..|trace| - 1], trace[|trace| - 1];
    assert trace == p + [y];
    if x !in LfuAfter(p, cap) {
      i := |p|;
      LoadedNow(p, cap, x);
      CountNext([], x, x);
      assert [] + [x] == [x];
      CountNone(x);
    } else {
      i := LfuTally(p, cap, x);
      LoadedLonger(p, cap, x, i, y);
      LoadedIn(p, cap, x, i);
      assert trace[i..] == p[i..] + [y];
      CountNext(p[i..], y, x);
    }
  }

  lemma LoadedIn(trace: seq<int>, cap: nat, x: int, i: nat)
    requires cap > 0 && LoadedAt(trace, cap, x, i)
    ensures i < |trace|
  {}

  lemma CountNone(x: int)
    ensures Count([], x) == 0
  {}

  /** Since they were loaded, `v` was accessed less often than `x`, or as often and is the lesser key. */
  ghost predicate UsedLess(trace: seq<int>, cap: nat, v: int, x: int)
    requires cap > 0
  {
    forall i: nat, j: nat :: LoadedAt(trace, cap, v, i) && LoadedAt(trace, cap, x, j) ==>
      var m, n := multiset(trace[i..])[v], multiset(trace[j..])[x];
      m < n || (m == n && v <= x)
  }

  ghost predicate GivesUp(trace: seq<int>, cap: nat, k: int, v: int)
    requires cap > 0
  {
    var f := LfuAfter(trace, cap);
    && v in f && LfuAfter(trace + [k], cap).Keys == f.Keys - {v} + {k}
    && forall x :: x in f ==> UsedLess(trace, cap, v, x)
  }

  /** When a full cache misses, the key that goes is the one accessed least since it was loaded, and
      among equals the least key. */
  lemma LfuGivesUp(trace: seq<int>, cap: nat, k: int)
    requires cap > 0 && k !in LfuAfter(trace, cap) && |LfuAfter(trace, cap).Keys| >= cap
    ensures exists v :: GivesUp(trace, cap, k, v)
  {
    var f := LfuAfter(trace, cap);
    SomeKey(f);
    var v := Rarest(f);
    assert (trace + [k])[..|trace|] == trace;
    forall x | x in f ensures UsedLess(trace, cap, v, x) {
      assert RarerOrSame(f, v, x);
      hide LfuAfter, LoadedAt;
      forall i: nat, j: nat | LoadedAt(trace, cap, v, i) && LoadedAt(trace, cap, x, j)
        ensures f[v] == multiset(trace[i..])[v] && f[x] == multiset(trace[j..])[x]
      {
        var i' := LfuTally(trace, cap, v);
        var j' := LfuTally(trace, cap, x);
        LoadedOnce(trace, cap, v, i, i');
        LoadedOnce(trace, cap, x, j, j');
        CountIs(trace[i..], v);
        CountIs(trace[j..], x);
      }
    }
    assert GivesUp(trace, cap, k, v);
  }

  // ---- the policy object -------------------------------------------------------------------------

  /** Accesses to a resident since it was loaded. */
  ghost function Uses(seen: seq<int>, loaded: map<int, nat>, x: int): nat {
    if x in loaded && loaded[x] <= |seen| then multiset(seen[loaded[x]..])[x] else 0
  }

  ghost predicate UsedLeast(seen: seq<int>, loaded: map<int, nat>, d: set<int>, v: int) {
    v in d && forall x :: x in d ==>
      Uses(seen, loaded, v) < Uses(seen, loaded, x) || (Uses(seen, loaded, v) == Uses(seen, loaded, x) && v <= x)
  }

  lemma RarestIsUsedLeast(d: set<int>, f: map<int, nat>, loaded: map<int, nat>, seen: seq<int>, v: int)
    requires Tallied(d, f, loaded, seen) && IsRarest(f, d, v)
    ensures UsedLeast(seen, loaded, d, v)
  {
    forall x | x in d ensures Uses(seen, loaded, x) == f[x] {
      CountIs(seen[loaded[x]..], x);
    }
    assert forall x :: x in d ==> RarerOrSame(f, v, x);
  }

  lemma FreedIsUsedLeast(d: set<int>, f: map<int, nat>, loaded: map<int, nat>, seen: seq<int>, cap: nat, k: int,
                         after: set<int>)
    requires Tallied(d, f, loaded, seen) && FreesOne(f, d, cap, after - {k}) && k in after && k !in d
    ensures |d| < cap ==> after == d + {k}
    ensures |d| >= cap ==> exists v :: UsedLeast(seen, loaded, d, v) && after == d - {v} + {k}
  {
    TalliedKeys(d, f, loaded, seen);
    hide Tallied, UsedLeast;
    if |d| >= cap {
      var v :| IsRarest(f, d, v) && after - {k} == d - {v};
      RarestIsUsedLeast(d, f, loaded, seen, v);
      assert after == d - {v} + {k};
    }
  }

  lemma RestrictBut(m: map<int, nat>, s: set<int>, v: int)
    requires m.Keys == s
    ensures Restrict(m, s - {v}) == m - {v}
  {}

  class Lfu {
    const cap: nat
    var d: set<int>
    var f: map<int, nat>
    ghost var seen: seq<int>
    ghost var loaded: map<int, nat>

    /** With no capacity the first miss would look for a victim among no keys. */
    constructor (cap: nat)
      requires cap > 0
      ensures Valid() && this.cap == cap && seen == [] && d == {} && f == map[]
    {
      this.cap, d, f := cap, {}, map[];
      seen, loaded := [], map[];
    }

    ghost predicate Valid()
      reads this
    {
      cap > 0 && |d| <= cap && Tallied(d, f, loaded, seen)
    }

    method Access(k: int) returns (hit: bool)
      requires Valid()
      modifies this
      ensures Valid() && seen == old(seen) + [k]
      ensures hit <==> k in old(d)
      ensures hit ==> d == old(d) && loaded == old(loaded)
      ensures !hit ==> loaded == Restrict(old(loaded), d - {k})[k := |old(seen)|]
      ensures !hit ==> k in d && FreesOne(old(f), old(d), cap, d - {k})
      ensures !hit && |old(d)| < cap ==> d == old(d) + {k}
      ensures !hit && |old(d)| >= cap ==>
        exists v :: UsedLeast(old(seen), old(loaded), old(d), v) && d == old(d) - {v} + {k}
      ensures old(d) == old(f).Keys && d == f.Keys && f == Counted(old(f), k, cap)
    {
      ghost var before := seen;
      TalliedKeys(d, f, loaded, seen);
      hide Tallied, Count, FreesOne, Restrict, RoomIn;
      seen := seen + [k];
      if k in d {
        TalliedHit(d, f, loaded, before, k);
        f := f[k := f[k] + 1];
        assert f.Keys == d;
        return true;
      }
      ghost var d0, f0, loaded0 := d, f, loaded;
      Insert(k, before);
      FreedIsUsedLeast(d0, f0, loaded0, before, cap, k, d);
      return false;
    }

    /** Load `k`, evicting one key if there is no room. */
    method Insert(k: int, ghost before: seq<int>)
      requires k !in d && cap > 0 && |d| <= cap && Tallied(d, f, loaded, before) && d == f.Keys
      modifies `d, `f, `loaded
      ensures |d| <= cap && Tallied(d, f, loaded, before + [k])
      ensures k in d && FreesOne(old(f), old(d), cap, d - {k})
      ensures loaded == Restrict(old(loaded), d - {k})[k := |before|]
      ensures d == f.Keys && f == RoomIn(old(f), cap)[k := 1]
    {
      hide Tallied, Count, FreesOne, Restrict, RoomIn;
      var left, counts := RoomForOne(before);
      ghost var kept := Restrict(loaded, left);
      TalliedLoad(left, counts, kept, before, k);
      d, f, loaded := left + {k}, counts[k := 1], kept[k := |before|];
      assert d - {k} == left && f.Keys == d;
    }

    /** What is left once there is room: all of it, or all but the least frequently used. */
    method RoomForOne(ghost seen: seq<int>) returns (left: set<int>, counts: map<int, nat>)
      requires cap > 0 && |d| <= cap && Tallied(d, f, loaded, seen)
      ensures |left| < cap && left <= d && left == counts.Keys
      ensures FreesOne(f, d, cap, left) && counts == RoomIn(f, cap)
      ensures Tallied(left, counts, Restrict(loaded, left), seen)
    {
      left, counts := d, f;
      RestrictAll(loaded, d);
      if |d| >= cap {
        ghost var v := SomeRarest(f, d);
        var victim :| victim in d && forall x :: x in d ==> RarerOrSame(f, victim, x);
        TalliedEvict(d, f, loaded, seen, victim);
        assert IsRarest(f, d, victim);
        RarestUnique(f, victim);
        left, counts := d - {victim}, f - {victim};
        RestrictBut(loaded, d, victim);
      }
    }
  }

  method ReplayLfu(trace: seq<int>, cap: nat) returns (misses: nat)
    requires cap > 0
    ensures misses == LfuMissed(trace, cap) && Attains(trace, cap, misses)
  {
    hide Reaches, Attains, Counted, LfuAfter, LfuMissed;
    var sim := new Lfu(cap);
    misses := 0;
    LfuStart(trace, cap);
    for i := 0 to |trace|
      invariant fresh(sim) && sim.Valid() && sim.cap == cap && sim.f == LfuAfter(trace[..i], cap)
      invariant misses == LfuMissed(trace[..i], cap)
    {
      LfuNext(trace, i, cap);
      var hit := sim.Access(trace[i]);
      if !hit {
        misses := misses + 1;
      }
    }
    LfuReaches(trace, cap, |trace|);
    ReachesAttains(trace, cap, misses, LfuAfter(trace, cap).Keys);
  }

  // ---- per layer -----------------------------------------------------------------------------

  ghost function LayersHold(trace: seq<int>, layer: int -> int, each: nat): set<int> {
    set x | x in trace && x in LayerHolds(trace, layer, layer(x), each)
  }

  ghost function HeldIn(trace: seq<int>, layer: int -> int, each: nat, ls: set<int>): set<int> {
    set x | x in trace && layer(x) in ls && x in LayerHolds(trace, layer, layer(x), each)
  }

  lemma {:induction false} LayersSize(trace: seq<int>, layer: int -> int, each: nat, ls: set<int>)
    ensures |HeldIn(trace, layer, each, ls)| <= |ls| * each
    decreases |ls|
  {
    hide LayerHolds, OfLayer;
    var held := HeldIn(trace, layer, each, ls);
    if ls == {} {
      assert held == {};
    } else {
      var l := SomeElement(ls);
      var rest, mine := HeldIn(trace, layer, each, ls - {l}), Elems(LayerHolds(trace, layer, l, each));
      LayersSize(trace, layer, each, ls - {l});
      LayerFits(trace, layer, l, each);
      forall x | x in held ensures x in rest + mine {
        assert layer(x) == l || layer(x) in ls - {l};
      }
      SizeMono(held, rest + mine);
      assert |rest + mine| <= |rest| + |mine|;
      assert |ls| == |ls - {l}| + 1;
    }
  }

  lemma LayerFits(trace: seq<int>, layer: int -> int, l: int, each: nat)
    ensures |Elems(LayerHolds(trace, layer, l, each))| <= each
  {
    KeepCountedResidents(OfLayer(trace, layer, l), each);
    ElemsAtMost(LayerHolds(trace, layer, l, each));
  }

  /** Shares never add up to more than the slab, given a slot for every layer. */
  lemma LayersFit(trace: seq<int>, layer: int -> int, cap: nat, nLayers: nat, ls: set<int>)
    requires |ls| <= nLayers <= cap && forall x :: x in trace ==> layer(x) in ls
    ensures |LayersHold(trace, layer, Share(cap, nLayers))| <= cap
  {
    hide LayerHolds;
    var each := Share(cap, nLayers);
    LayersSize(trace, layer, each, ls);
    forall x | x in LayersHold(trace, layer, each) ensures x in HeldIn(trace, layer, each, ls) {}
    SizeMono(LayersHold(trace, layer, each), HeldIn(trace, layer, each, ls));
    MulMono(|ls|, nLayers, each);
  }

  lemma LayersStep(trace: seq<int>, k: int, layer: int -> int, cap: nat, nLayers: nat, ls: set<int>)
    requires |ls| <= nLayers <= cap && forall x :: x in trace + [k] ==> layer(x) in ls
    ensures var each := Share(cap, nLayers);
      RunStep(cap, k, LayersHold(trace, layer, each), LayersHold(trace + [k], layer, each))
  {
    hide LayerHolds;
    var each := Share(cap, nLayers);
    LayersFit(trace + [k], layer, cap, nLayers, ls);
    forall l ensures LayerHolds(trace + [k], layer, l, each) ==
      if layer(k) == l then AccessList(LayerHolds(trace, layer, l, each), k, each)
      else LayerHolds(trace, layer, l, each) {
      LayerHoldsNext(trace, k, layer, l, each);
    }
    HeldWereSeen(trace, layer, layer(k), each);
    assert k in trace + [k];
    var mine := LayerHolds(trace, layer, layer(k), each);
    assert forall x :: x in AccessList(mine, k, each) ==> x == k || x in mine;
    assert k in AccessList(mine, k, each);
  }

  lemma HeldWereSeen(trace: seq<int>, layer: int -> int, l: int, each: nat)
    ensures forall x :: x in LayerHolds(trace, layer, l, each) ==> x in trace && layer(x) == l
  {
    OfLayerHas(trace, layer, l);
  }

  lemma {:induction false} LayersReach(trace: seq<int>, layer: int -> int, cap: nat, nLayers: nat, ls: set<int>, i: nat)
    requires |ls| <= nLayers <= cap && i <= |trace| && forall x :: x in trace ==> layer(x) in ls
    ensures var each := Share(cap, nLayers);
      Reaches(trace[..i], cap, LayeredMissed(trace[..i], layer, each, One), LayersHold(trace[..i], layer, each))
  {
    hide LayerHolds, Reaches, Share;
    var each := Share(cap, nLayers);
    if i == 0 {
      ReachesStart(trace, cap);
      assert LayersHold(trace[..0], layer, each) == {};
    } else {
      var j := i - 1;
      LayersReach(trace, layer, cap, nLayers, ls, j);
      assert trace[..i] == trace[..j] + [trace[j]];
      assert forall x :: x in trace[..i] ==> x in trace;
      LayersStep(trace[..j], trace[j], layer, cap, nLayers, ls);
      ReachesNext(trace, j, cap, LayeredMissed(trace[..j], layer, each, One), LayersHold(trace[..j], layer, each),
        LayersHold(trace[..i], layer, each));
      HeldWereSeen(trace[..j], layer, layer(trace[j]), each);
      LayeredMissedNext(trace[..j], trace[j], layer, each);
    }
  }

  lemma LayeredMissedNext(trace: seq<int>, x: int, layer: int -> int, each: nat)
    ensures LayeredMissed(trace + [x], layer, each, One) ==
      LayeredMissed(trace, layer, each, One) + if x in LayerHolds(trace, layer, layer(x), each) then 0 else 1
  {
    assert (trace + [x])[..|trace|] == trace;
  }
}
