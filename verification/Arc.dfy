/** The adaptive policy: two recency lists, each split into ghosts and residents, and a
    moving target for the first one's residents. */
module Arc {
  import opened Orders
  import opened Recency
  import opened LruCaches
  import opened Schedules
  import opened Policies

  datatype Lists = Lists(t1: seq<int>, t2: seq<int>, b1: seq<int>, b2: seq<int>, p: nat) {
    function Held(): nat {
      |t1| + |t2|
    }

    function Known(): nat {
      |t1| + |t2| + |b1| + |b2|
    }

    ghost function Residents(): set<int> {
      Elems(t1) + Elems(t2)
    }

    /** Keys seen once since they were loaded, ghosts first. */
    function First(): seq<int> {
      b1 + t1
    }

    /** Keys seen again, ghosts first. */
    function Second(): seq<int> {
      b2 + t2
    }
  }

  ghost predicate Sizes(s: Lists, c: nat) {
    && s.p <= c && |s.t1| + |s.b1| <= c
    && s.Known() <= 2 * c - 1
    && s.Held() == if s.Known() <= c then s.Known() else c
  }

  // ---- the two lists, each in order of last access -------------------------------------------

  ghost function LastPos(seen: seq<int>, k: int): int {
    if seen == [] then -1 else if seen[|seen| - 1] == k then |seen| - 1 else LastPos(seen[..|seen| - 1], k)
  }

  lemma LastPosNext(seen: seq<int>, x: int)
    ensures forall k :: LastPos(seen + [x], k) == if k == x then |seen| else LastPos(seen, k)
  {
    assert (seen + [x])[..|seen|] == seen;
  }

  lemma {:induction false} LastPosBelow(seen: seq<int>, k: int)
    ensures LastPos(seen, k) < |seen|
  {
    if seen != [] {
      LastPosBelow(seen[..|seen| - 1], k);
    }
  }

  ghost predicate Chronological(s: seq<int>, seen: seq<int>) {
    forall i, j :: 0 <= i < j < |s| ==> LastPos(seen, s[i]) < LastPos(seen, s[j])
  }

  /** No key is listed twice, and both lists run from the least to the most recently accessed,
      so what a list demotes or forgets is always its oldest. */
  ghost predicate Separate(l1: seq<int>, l2: seq<int>, seen: seq<int>) {
    && NoDup(l1) && NoDup(l2) && (forall x :: x in l1 ==> x !in l2)
    && Chronological(l1, seen) && Chronological(l2, seen)
  }

  lemma {:induction false} ChronologicalWithout(s: seq<int>, drop: set<int>, seen: seq<int>)
    requires Chronological(s, seen)
    ensures Chronological(Without(s, drop), seen)
  {
    if s != [] {
      var p, x := s[..|s| - 1], s[|s| - 1];
      ChronologicalWithout(p, drop, seen);
      forall i | 0 <= i < |Without(p, drop)| ensures LastPos(seen, Without(p, drop)[i]) < LastPos(seen, x) {
        var y := Without(p, drop)[i];
        assert y in Without(p, drop);
        var j :| 0 <= j < |p| && p[j] == y;
        assert s[j] == y;
      }
    }
  }

  lemma SeparateDrop(l1: seq<int>, l2: seq<int>, seen: seq<int>, drop: set<int>)
    requires Separate(l1, l2, seen)
    ensures Separate(Without(l1, drop), l2, seen) && Separate(l1, Without(l2, drop), seen)
  {
    hide NoDup, Chronological;
    WithoutNoDup(l1, drop);
    WithoutNoDup(l2, drop);
    ChronologicalWithout(l1, drop, seen);
    ChronologicalWithout(l2, drop, seen);
  }

  lemma ChronologicalNext(s: seq<int>, seen: seq<int>, k: int)
    requires Chronological(s, seen) && k !in s
    ensures Chronological(s, seen + [k]) && Chronological(s + [k], seen + [k])
  {
    LastPosNext(seen, k);
    forall i | 0 <= i < |s| ensures LastPos(seen + [k], s[i]) == LastPos(seen, s[i]) < |seen| {
      LastPosBelow(seen, s[i]);
      assert s[i] in s;
    }
  }

  lemma SeparateAppend(l1: seq<int>, l2: seq<int>, seen: seq<int>, k: int)
    requires Separate(l1, l2, seen) && k !in l1 && k !in l2
    ensures Separate(l1 + [k], l2, seen + [k]) && Separate(l1, l2 + [k], seen + [k])
  {
    hide Chronological;
    ChronologicalNext(l1, seen, k);
    ChronologicalNext(l2, seen, k);
  }

  // ---- what holds between accesses ------------------------------------------------------------

  ghost predicate ArcOk(s: Lists, c: nat, seen: seq<int>) {
    c >= 2 && Sizes(s, c) && Separate(s.First(), s.Second(), seen)
  }

  /** The four lists share no key and repeat none. */
  lemma FourLists(s: Lists, seen: seq<int>)
    requires Separate(s.First(), s.Second(), seen)
    ensures NoDup(s.t1) && NoDup(s.t2) && NoDup(s.b1) && NoDup(s.b2)
    ensures forall x :: x in s.t1 ==> x !in s.t2 && x !in s.b1 && x !in s.b2
    ensures forall x :: x in s.t2 ==> x !in s.b1 && x !in s.b2
    ensures forall x :: x in s.b1 ==> x !in s.b2
  {
    SuffixNoDup(s.b1, s.t1);
    SuffixNoDup(s.b2, s.t2);
    assert forall x :: x in s.b1 ==> x in s.First();
    assert forall x :: x in s.t1 ==> x in s.First();
    assert forall x :: x in s.b2 ==> x in s.Second();
    assert forall x :: x in s.t2 ==> x in s.Second();
  }

  /** What soundness says in the policy's own terms: the lists are disjoint, the target is
      within the capacity, the cache is full as soon as it knows enough keys, and it remembers
      no evicted key before it first fills. */
  lemma SoundMeans(s: Lists, c: nat, seen: seq<int>)
    requires ArcOk(s, c, seen)
    ensures |s.Residents()| == s.Held() == (if s.Known() <= c then s.Known() else c)
    ensures |s.Residents() + Elems(s.b1) + Elems(s.b2)| == s.Known() <= 2 * c - 1
    ensures s.p <= c && |s.t1| + |s.b1| <= c
    ensures s.Held() < c ==> s.b1 == [] && s.b2 == []
  {
    FourLists(s, seen);
    NoDupSize(s.t1);
    NoDupSize(s.t2);
    NoDupSize(s.b1);
    NoDupSize(s.b2);
    JoinSize(Elems(s.t1), Elems(s.t2));
    JoinSize(s.Residents(), Elems(s.b1));
    JoinSize(s.Residents() + Elems(s.b1), Elems(s.b2));
  }

  /** Which list gives up a resident. */
  predicate FromFirst(s: Lists, inB2: bool) {
    s.t1 != [] && (|s.t1| > s.p || (inB2 && |s.t1| == s.p))
  }

  /** The oldest resident of one list becomes its newest ghost. */
  function Demoted(s: Lists, inB2: bool): Lists
    requires FromFirst(s, inB2) || s.t2 != []
  {
    if FromFirst(s, inB2) then s.(t1 := s.t1[1..], b1 := s.b1 + [s.t1[0]])
    else s.(t2 := s.t2[1..], b2 := s.b2 + [s.t2[0]])
  }

  /** Demotion gives up one resident and changes neither list. */
  lemma DemotedKeeps(s: Lists, inB2: bool)
    requires FromFirst(s, inB2) || s.t2 != []
    ensures var d := Demoted(s, inB2);
      && d.Held() == s.Held() - 1 && d.Known() == s.Known() && d.p == s.p
      && |d.t1| + |d.b1| == |s.t1| + |s.b1|
      && d.First() == s.First() && d.Second() == s.Second()
      && d.Residents() <= s.Residents()
  {
    var d := Demoted(s, inB2);
    if FromFirst(s, inB2) {
      assert s.t1 == [s.t1[0]] + d.t1;
    } else {
      assert s.t2 == [s.t2[0]] + d.t2;
    }
  }

  // ---- one access, as a function of the lists ------------------------------------------------
  // That these are well defined says that no list is ever popped empty.

  function Raised(s: Lists, c: nat): nat {
    if |s.b1| >= |s.b2| && s.p < c then s.p + 1 else s.p
  }

  function Lowered(s: Lists): nat {
    if |s.b2| >= |s.b1| && s.p > 0 then s.p - 1 else s.p
  }

  function Recalled1(s: Lists, k: int, c: nat): Lists
    requires Sizes(s, c) && k in s.b1
  {
    var d := Demoted(s.(p := Raised(s, c)), false);
    d.(b1 := Without(d.b1, {k}), t2 := d.t2 + [k])
  }

  function Recalled2(s: Lists, k: int, c: nat): Lists
    requires Sizes(s, c) && k in s.b2
  {
    var d := Demoted(s.(p := Lowered(s)), true);
    d.(b2 := Without(d.b2, {k}), t2 := d.t2 + [k])
  }

  /** Room for a new key, made in the list that has outgrown its share. */
  function Roomy(s: Lists, c: nat): Lists
    requires Sizes(s, c) && c >= 2
  {
    if |s.t1| + |s.b1| == c then
      if |s.t1| < c then Demoted(s.(b1 := s.b1[1..]), false) else s.(t1 := s.t1[1..])
    else if s.Known() >= c then
      if |s.t2| + |s.b2| < c then Demoted(s, false) else s.(t2 := s.t2[1..])
    else s
  }

  function Accessed(s: Lists, k: int, c: nat): Lists
    requires Sizes(s, c) && c >= 2
  {
    if k in s.t1 then s.(t1 := Without(s.t1, {k}), t2 := s.t2 + [k])
    else if k in s.t2 then s.(t2 := MoveToEnd(s.t2, k))
    else if k in s.b1 then Recalled1(s, k, c)
    else if k in s.b2 then Recalled2(s, k, c)
    else
      var d := Roomy(s, c);
      d.(t1 := d.t1 + [k])
  }

  lemma WithoutLength(s: seq<int>, k: int)
    requires NoDup(s) && k in s
    ensures |Without(s, {k})| == |s| - 1
  {
    var i :| 0 <= i < |s| && s[i] == k;
    WithoutAt(s, i);
  }

  lemma WithoutFromBack(a: seq<int>, b: seq<int>, k: int)
    requires k !in a
    ensures Without(a + b, {k}) == a + Without(b, {k})
  {
    WithoutAppend(a, b, {k});
    WithoutNothing(a, {k});
  }

  lemma WithoutFromFront(a: seq<int>, b: seq<int>, k: int)
    requires k !in b
    ensures Without(a + b, {k}) == Without(a, {k}) + b
  {
    WithoutAppend(a, b, {k});
    WithoutNothing(b, {k});
  }

  // ---- every access keeps the lists sound --------------------------------------------------------

  lemma HitKeeps(s: Lists, k: int, c: nat, seen: seq<int>)
    requires ArcOk(s, c, seen) && (k in s.t1 || k in s.t2)
    ensures var n := Accessed(s, k, c);
      ArcOk(n, c, seen + [k]) && n.Residents() == s.Residents() && k in n.Residents()
  {
    hide Separate, Without;
    var n := Accessed(s, k, c);
    var l1, l2 := s.First(), s.Second();
    FourLists(s, seen);
    SeparateDrop(l1, l2, seen, {k});
    if k in s.t1 {
      WithoutLength(s.t1, k);
      WithoutFromBack(s.b1, s.t1, k);
      assert k !in l2 && k !in Without(l1, {k});
      SeparateAppend(Without(l1, {k}), l2, seen, k);
      assert n.Second() == l2 + [k];
    } else {
      WithoutLength(s.t2, k);
      WithoutFromBack(s.b2, s.t2, k);
      assert k !in l1 && k !in Without(l2, {k});
      SeparateAppend(l1, Without(l2, {k}), seen, k);
      assert n.Second() == Without(l2, {k}) + [k];
    }
  }

  lemma Recall1Keeps(s: Lists, k: int, c: nat, seen: seq<int>)
    requires ArcOk(s, c, seen) && k in s.b1
    ensures var n := Recalled1(s, k, c);
      ArcOk(n, c, seen + [k]) && n.Residents() <= s.Residents() + {k} && k in n.Residents()
  {
    hide Separate, Without;
    var raised := s.(p := Raised(s, c));
    var d, n := Demoted(raised, false), Recalled1(s, k, c);
    var l1, l2 := s.First(), s.Second();
    FourLists(s, seen);
    DemotedKeeps(raised, false);
    FourLists(d, seen);
    SeparateDrop(l1, l2, seen, {k});
    assert k in d.b1 && k !in d.t1;
    WithoutLength(d.b1, k);
    WithoutFromFront(d.b1, d.t1, k);
    assert k !in l2 && k !in Without(l1, {k});
    SeparateAppend(Without(l1, {k}), l2, seen, k);
    assert n.Second() == l2 + [k];
  }

  lemma Recall2Keeps(s: Lists, k: int, c: nat, seen: seq<int>)
    requires ArcOk(s, c, seen) && k in s.b2
    ensures var n := Recalled2(s, k, c);
      ArcOk(n, c, seen + [k]) && n.Residents() <= s.Residents() + {k} && k in n.Residents()
  {
    hide Separate, Without;
    var lowered := s.(p := Lowered(s));
    var d, n := Demoted(lowered, true), Recalled2(s, k, c);
    var l1, l2 := s.First(), s.Second();
    FourLists(s, seen);
    DemotedKeeps(lowered, true);
    FourLists(d, seen);
    SeparateDrop(l1, l2, seen, {k});
    assert k in d.b2 && k !in d.t2;
    WithoutLength(d.b2, k);
    WithoutFromFront(d.b2, d.t2, k);
    assert k !in l1 && k !in Without(l2, {k});
    SeparateAppend(l1, Without(l2, {k}), seen, k);
    assert n.Second() == Without(l2, {k}) + [k];
  }

  /** Making room forgets at most one key and leaves room for one. */
  lemma RoomyKeeps(s: Lists, c: nat, seen: seq<int>)
    requires ArcOk(s, c, seen)
    ensures var d := Roomy(s, c);
      && Separate(d.First(), d.Second(), seen) && d.Residents() <= s.Residents()
      && (forall x :: x in d.First() ==> x in s.First()) && (forall x :: x in d.Second() ==> x in s.Second())
      && d.p == s.p && |d.t1| + |d.b1| < c && d.Known() + 1 <= 2 * c - 1
      && d.Held() + 1 == if d.Known() + 1 <= c then d.Known() + 1 else c
  {
    hide Separate, Without;
    var l1, l2 := s.First(), s.Second();
    FourLists(s, seen);
    if |s.t1| + |s.b1| == c {
      var f := l1[0];
      assert l1 == [f] + l1[1..];
      DropFirst(l1, seen, l2);
      if |s.t1| < c {
        var q := s.(b1 := s.b1[1..]);
        assert s.b1 == [s.b1[0]] + q.b1;
        assert q.First() == l1[1..];
        DemotedKeeps(q, false);
      } else {
        assert s.b1 == [] && l1 == s.t1;
        assert [] + s.t1[1..] == l1[1..];
        assert Roomy(s, c).First() == l1[1..];
      }
    } else if s.Known() >= c {
      if |s.t2| + |s.b2| < c {
        DemotedKeeps(s, false);
      } else {
        var x := s.t2[0];
        assert s.t2 == [x] + s.t2[1..];
        WithoutAt(s.t2, 0);
        assert [] + s.t2[1..] == s.t2[1..];
        WithoutFromBack(s.b2, s.t2, x);
        assert Roomy(s, c).Second() == Without(l2, {x});
        SeparateDrop(l1, l2, seen, {x});
      }
    }
  }

  lemma DropFirst(l1: seq<int>, seen: seq<int>, l2: seq<int>)
    requires Separate(l1, l2, seen) && l1 != []
    ensures Separate(l1[1..], l2, seen)
  {
    hide Without, Chronological, NoDup;
    assert NoDup(l1);
    CutFront(l1);
    SeparateDrop(l1, l2, seen, {l1[0]});
  }

  lemma CutFront<T(!new)>(s: seq<T>)
    requires NoDup(s) && s != []
    ensures Without(s, {s[0]}) == s[1..]
  {
    hide Without, NoDup;
    WithoutAt(s, 0);
  }

  lemma LoadKeeps(s: Lists, k: int, c: nat, seen: seq<int>)
    requires ArcOk(s, c, seen) && k !in s.First() && k !in s.Second()
    ensures var d := Roomy(s, c);
      var n := d.(t1 := d.t1 + [k]);
      ArcOk(n, c, seen + [k]) && n.Residents() <= s.Residents() + {k} && k in n.Residents()
  {
    hide Separate, Roomy;
    var d := Roomy(s, c);
    var n := d.(t1 := d.t1 + [k]);
    RoomyKeeps(s, c, seen);
    SeparateAppend(d.First(), d.Second(), seen, k);
    assert n.First() == d.First() + [k];
  }

  /** Every access keeps the lists sound and is a step of a run of capacity `c`. */
  lemma AccessKeeps(s: Lists, k: int, c: nat, seen: seq<int>)
    requires ArcOk(s, c, seen)
    ensures ArcOk(Accessed(s, k, c), c, seen + [k])
    ensures RunStep(c, k, s.Residents(), Accessed(s, k, c).Residents())
  {
    hide Separate, Recalled1, Recalled2, Roomy;
    if k in s.t1 || k in s.t2 {
      HitKeeps(s, k, c, seen);
    } else if k in s.b1 {
      Recall1Keeps(s, k, c, seen);
    } else if k in s.b2 {
      Recall2Keeps(s, k, c, seen);
    } else {
      LoadKeeps(s, k, c, seen);
    }
    var n := Accessed(s, k, c);
    ElemsAtMost(n.t1);
    ElemsAtMost(n.t2);
    assert |n.Residents()| <= |Elems(n.t1)| + |Elems(n.t2)|;
  }

  /** Only a remembered eviction moves the target: by one, towards the list that lost the key, and
      only when that list has lost at least as many keys and there is room to move. */
  lemma TargetMoves(s: Lists, k: int, c: nat, seen: seq<int>)
    requires ArcOk(s, c, seen)
    ensures var n := Accessed(s, k, c);
      && -1 <= n.p - s.p <= 1
      && (n.p > s.p <==> k in s.b1 && |s.b1| >= |s.b2| && s.p < c)
      && (n.p < s.p <==> k in s.b2 && |s.b2| >= |s.b1| && s.p > 0)
  {
    FourLists(s, seen);
    hide Separate, Without;
  }

  // ---- who goes, list by list -------------------------------------------------------------------

  /** A hit moves the key to the fresh end of the second list and nothing else. */
  lemma HitMoves(s: Lists, k: int, c: nat, seen: seq<int>)
    requires ArcOk(s, c, seen) && (k in s.t1 || k in s.t2)
    ensures var n := Accessed(s, k, c);
      && n.t1 == Without(s.t1, {k}) && n.t2 == Without(s.t2, {k}) + [k]
      && n.b1 == s.b1 && n.b2 == s.b2
  {
    FourLists(s, seen);
    hide Without, Separate;
    if k in s.t1 {
      WithoutNothing(s.t2, {k});
    } else {
      WithoutNothing(s.t1, {k});
    }
  }

  /** A remembered key comes back to the second list, and the target decides which list pays: the first
      one when it holds more than the target, or just as many and the key is the other list's. What
      the paying list gives up is its oldest resident, remembered from now on. */
  lemma RecallGivesUp(s: Lists, k: int, c: nat, seen: seq<int>)
    requires ArcOk(s, c, seen) && (k in s.b1 || k in s.b2)
    ensures var n := Accessed(s, k, c);
      && (k in s.b1 ==> (|n.t1| < |s.t1| <==> |s.t1| > n.p))
      && (k in s.b2 ==> (|n.t1| < |s.t1| <==> s.t1 != [] && |s.t1| >= n.p))
      && (|n.t1| < |s.t1| ==>
        && n.t1 == s.t1[1..] && n.t2 == s.t2 + [k]
        && n.b1 == Without(s.b1 + [s.t1[0]], {k}) && n.b2 == Without(s.b2, {k}))
      && (|n.t1| >= |s.t1| ==>
        && n.t1 == s.t1 && s.t2 != [] && n.t2 == s.t2[1..] + [k]
        && n.b1 == Without(s.b1, {k}) && n.b2 == Without(s.b2 + [s.t2[0]], {k}))
  {
    FourLists(s, seen);
    if k in s.b1 {
      Recall1GivesUp(s, k, c);
    } else {
      Recall2GivesUp(s, k, c);
    }
  }

  lemma Recall1GivesUp(s: Lists, k: int, c: nat)
    requires Sizes(s, c) && k in s.b1 && k !in s.t2 && k !in s.b2
    ensures var n := Recalled1(s, k, c);
      if |s.t1| > n.p then
        && n.t1 == s.t1[1..] && n.t2 == s.t2 + [k]
        && n.b1 == Without(s.b1 + [s.t1[0]], {k}) && n.b2 == Without(s.b2, {k})
      else
        && n.t1 == s.t1 && s.t2 != [] && n.t2 == s.t2[1..] + [k]
        && n.b1 == Without(s.b1, {k}) && n.b2 == Without(s.b2 + [s.t2[0]], {k})
  {
    hide Without;
    WithoutNothing(s.b2, {k});
    if |s.t1| <= Recalled1(s, k, c).p {
      assert s.t2[0] in s.t2;
      WithoutNothing(s.b2 + [s.t2[0]], {k});
    }
  }

  lemma Recall2GivesUp(s: Lists, k: int, c: nat)
    requires Sizes(s, c) && k in s.b2 && k !in s.t1 && k !in s.b1
    ensures var n := Recalled2(s, k, c);
      if s.t1 != [] && |s.t1| >= n.p then
        && n.t1 == s.t1[1..] && n.t2 == s.t2 + [k]
        && n.b1 == Without(s.b1 + [s.t1[0]], {k}) && n.b2 == Without(s.b2, {k})
      else
        && n.t1 == s.t1 && s.t2 != [] && n.t2 == s.t2[1..] + [k]
        && n.b1 == Without(s.b1, {k}) && n.b2 == Without(s.b2 + [s.t2[0]], {k})
  {
    hide Without;
    WithoutNothing(s.b1, {k});
    if s.t1 != [] && |s.t1| >= Recalled2(s, k, c).p {
      assert s.t1[0] in s.t1;
      WithoutNothing(s.b1 + [s.t1[0]], {k});
    }
  }

  /** A new key joins the first list. While few keys are known nobody goes. A list of residents alone
      that has reached its share forgets its oldest for good. Otherwise a first list that is full
      forgets its oldest ghost, and the oldest resident of the list the target names becomes a ghost. */
  lemma LoadGivesUp(s: Lists, k: int, c: nat, seen: seq<int>)
    requires ArcOk(s, c, seen) && k !in s.First() && k !in s.Second()
    ensures var n := Accessed(s, k, c);
      var first, known := |s.t1| + |s.b1|, |s.t1| + |s.t2| + |s.b1| + |s.b2|;
      && n.p == s.p
      && (known < c ==> n == s.(t1 := s.t1 + [k]))
      && (|s.t1| == c ==> n == s.(t1 := s.t1[1..] + [k]))
      && (first < c <= known && |s.t2| + |s.b2| >= c ==>
        s.t2 != [] && n == s.(t1 := s.t1 + [k], t2 := s.t2[1..]))
      && (first == c && |s.t1| < c ==> s.b1 != [] && PaysByTarget(s, n, k, s.b1[1..]))
      && (first < c <= known && |s.t2| + |s.b2| < c ==> PaysByTarget(s, n, k, s.b1))
  {
    FourLists(s, seen);
    hide Without, Separate;
  }

  /** One resident of `s` has become a ghost, `k` a resident of the first list, and `b1` is what was
      left of the first list's ghosts. */
  predicate PaysByTarget(s: Lists, n: Lists, k: int, b1: seq<int>) {
    if |s.t1| > s.p then
      n == s.(t1 := s.t1[1..] + [k], b1 := b1 + [s.t1[0]])
    else
      s.t2 != [] && n == s.(t1 := s.t1 + [k], b1 := b1, t2 := s.t2[1..], b2 := s.b2 + [s.t2[0]])
  }

  // ---- the policy as a function of the trace ---------------------------------------------------

  const EMPTY := Lists([], [], [], [], 0)

  lemma EmptyOk(c: nat)
    requires c >= 2
    ensures ArcOk(EMPTY, c, []) && EMPTY.Residents() == {}
  {}

  ghost function ArcAfter(trace: seq<int>, c: nat): (s: Lists)
    requires c >= 2
    ensures ArcOk(s, c, trace)
  {
    if trace == [] then
      EmptyOk(c);
      EMPTY
    else
      var p, x := trace[..|trace| - 1], trace[|trace| - 1];
      AccessKeeps(ArcAfter(p, c), x, c, p);
      assert trace == p + [x];
      Accessed(ArcAfter(p, c), x, c)
  }

  /** Accesses the adaptive policy misses. */
  ghost function ArcMissed(trace: seq<int>, c: nat): nat
    requires c >= 2
  {
    if trace == [] then 0
    else
      var p, x := trace[..|trace| - 1], trace[|trace| - 1];
      ArcMissed(p, c) + if x in ArcAfter(p, c).Residents() then 0 else 1
  }

  lemma ArcNext(trace: seq<int>, i: nat, c: nat)
    requires c >= 2 && i < |trace|
    ensures ArcAfter(trace[..i + 1], c) == Accessed(ArcAfter(trace[..i], c), trace[i], c)
    ensures ArcMissed(trace[..i + 1], c) ==
      ArcMissed(trace[..i], c) + if trace[i] in ArcAfter(trace[..i], c).Residents() then 0 else 1
  {
    hide Accessed, ArcOk;
    assert trace[..i + 1][..i] == trace[..i];
  }

  lemma ArcStart(trace: seq<int>, c: nat)
    requires c >= 2
    ensures ArcAfter(trace[..0], c) == EMPTY && ArcMissed(trace[..0], c) == 0
    ensures trace[..|trace|] == trace
  {}

  /** The adaptive policy is one of the runs the optimum ranges over. */
  lemma {:induction false} ArcReaches(trace: seq<int>, c: nat, i: nat)
    requires c >= 2 && i <= |trace|
    ensures Reaches(trace[..i], c, ArcMissed(trace[..i], c), ArcAfter(trace[..i], c).Residents())
  {
    hide Reaches, Accessed, ArcOk, RunStep, ArcAfter, ArcMissed;
    if i == 0 {
      ArcStart(trace, c);
      EmptyOk(c);
      ReachesStart(trace, c);
    } else {
      var j := i - 1;
      ArcReaches(trace, c, j);
      ArcNext(trace, j, c);
      AccessKeeps(ArcAfter(trace[..j], c), trace[j], c, trace[..j]);
      ReachesNext(trace, j, c, ArcMissed(trace[..j], c), ArcAfter(trace[..j], c).Residents(),
        ArcAfter(trace[..i], c).Residents());
    }
  }

  // ---- the policy object ---------------------------------------------------------------------

  lemma SoundSizes(s: Lists, c: nat, seen: seq<int>)
    requires ArcOk(s, c, seen)
    ensures Sizes(s, c) && c >= 2
  {}

  /** The policy never works with fewer than two slots. */
  function ArcCapacity(cap: nat): (c: nat)
    ensures c >= 2 && c >= cap && (c == 2 || c == cap)
  {
    if cap < 2 then 2 else cap
  }

  class AdaptiveCache {
    const c: nat
    var p: nat
    var t1: seq<int>
    var t2: seq<int>
    var b1: seq<int>
    var b2: seq<int>
    ghost var seen: seq<int>

    constructor (cap: nat)
      ensures Valid() && c == ArcCapacity(cap) && View() == EMPTY && seen == []
    {
      c, p := ArcCapacity(cap), 0;
      t1, t2, b1, b2, seen := [], [], [], [], [];
    }

    ghost function View(): Lists
      reads this
    {
      Lists(t1, t2, b1, b2, p)
    }

    ghost predicate Valid()
      reads this
    {
      ArcOk(View(), c, seen)
    }

    method Replace(inB2: bool)
      requires FromFirst(View(), inB2) || t2 != []
      modifies `t1, `t2, `b1, `b2
      ensures View() == Demoted(old(View()), inB2)
      ensures old(|t1| > p || (inB2 && t1 != [] && |t1| == p)) ==>
        t1 == old(t1[1..]) && b1 == old(b1 + [t1[0]]) && t2 == old(t2) && b2 == old(b2)
      ensures old(|t1| < p || t1 == [] || (!inB2 && |t1| == p)) ==>
        t2 == old(t2[1..]) && b2 == old(b2 + [t2[0]]) && t1 == old(t1) && b1 == old(b1)
    {
      if t1 != [] && (|t1| > p || (inB2 && |t1| == p)) {
        var k := t1[0];
        t1 := t1[1..];
        b1 := b1 + [k];
      } else {
        var k := t2[0];
        t2 := t2[1..];
        b2 := b2 + [k];
      }
    }

    method Access(k: int) returns (hit: bool)
      requires Valid()
      modifies this
      ensures Valid() && seen == old(seen) + [k]
      ensures View() == Accessed(old(View()), k, c)
      ensures hit <==> k in old(View()).Residents()
      ensures RunStep(c, k, old(View()).Residents(), View().Residents())
      ensures old(k in b1) ==> (|t1| < |old(t1)| <==> |old(t1)| > p)
      ensures old(k in b2) ==> (|t1| < |old(t1)| <==> old(t1) != [] && |old(t1)| >= p)
    {
      hide ArcOk, Sizes, Without, RunStep, FromFirst, Demoted, Recalled1, Recalled2, Roomy, Separate;
      AccessKeeps(View(), k, c, seen);
      if k in b1 || k in b2 {
        RecallGivesUp(View(), k, c, seen);
      }
      SoundSizes(View(), c, seen);
      seen := seen + [k];
      hit := k in t1 || k in t2;
      if k in t1 {
        t1 := Without(t1, {k});
        t2 := t2 + [k];
      } else if k in t2 {
        t2 := MoveToEnd(t2, k);
      } else if k in b1 {
        Recall1(k);
      } else if k in b2 {
        Recall2(k);
      } else {
        Load(k);
      }
    }

    method Recall1(k: int)
      requires Sizes(View(), c) && k in b1
      modifies `t1, `t2, `b1, `b2, `p
      ensures View() == Recalled1(old(View()), k, c)
    {
      var d := if |b1| >= |b2| then 1 else 0;
      p := if p + d < c then p + d else c;
      Replace(false);
      b1 := Without(b1, {k});
      t2 := t2 + [k];
    }

    method Recall2(k: int)
      requires Sizes(View(), c) && k in b2
      modifies `t1, `t2, `b1, `b2, `p
      ensures View() == Recalled2(old(View()), k, c)
    {
      var d := if |b2| >= |b1| then 1 else 0;
      p := if p > d then p - d else 0;
      Replace(true);
      b2 := Without(b2, {k});
      t2 := t2 + [k];
    }

    method Load(k: int)
      requires Sizes(View(), c) && c >= 2
      modifies `t1, `t2, `b1, `b2
      ensures View() == Roomy(old(View()), c).(t1 := Roomy(old(View()), c).t1 + [k])
    {
      if |t1| + |b1| == c {
        if |t1| < c {
          b1 := b1[1..];
          Replace(false);
        } else {
          t1 := t1[1..];
        }
      } else if |t1| + |b1| + |t2| + |b2| >= c {
        if |t2| + |b2| < c {
          Replace(false);
        } else {
          t2 := t2[1..];
        }
      }
      t1 := t1 + [k];
    }
  }

  method ReplayArc(trace: seq<int>, cap: nat) returns (misses: nat)
    ensures misses == ArcMissed(trace, ArcCapacity(cap)) && Attains(trace, ArcCapacity(cap), misses)
  {
    hide Reaches, Attains, ArcOk, RunStep, Accessed, ArcAfter, ArcMissed;
    var sim := new AdaptiveCache(cap);
    misses := 0;
    ArcStart(trace, sim.c);
    for i := 0 to |trace|
      invariant fresh(sim) && sim.Valid() && sim.View() == ArcAfter(trace[..i], sim.c)
      invariant misses == ArcMissed(trace[..i], sim.c)
    {
      ArcNext(trace, i, sim.c);
      var hit := sim.Access(trace[i]);
      if !hit {
        misses := misses + 1;
      }
    }
    ArcReaches(trace, sim.c, |trace|);
    ReachesAttains(trace, sim.c, misses, ArcAfter(trace, sim.c).Residents());
  }
}
