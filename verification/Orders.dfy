/** Recency and request orders over sequences without duplicates.

    An ordered dictionary is a sequence of distinct keys, oldest first. Moving a
    key to the end, and the order in which the last (or first) occurrences of a
    request list appear, are the two notions the caches below are stated with. */
module Orders {

  ghost predicate NoDup<T(!new)>(s: seq<T>) {
    forall i, j :: 0 <= i < j < |s| ==> s[i] != s[j]
  }

  function Elems<T>(s: seq<T>): set<T> {
    set x | x in s
  }

  /** `s` with every element of `drop` removed, order kept. */
  function Without<T(==, !new)>(s: seq<T>, drop: set<T>): (r: seq<T>)
    ensures |r| <= |s|
    ensures forall x :: x in r <==> x in s && x !in drop
  {
    if s == [] then []
    else
      var p := Without(s[..|s| - 1], drop);
      if s[|s| - 1] in drop then p else p + [s[|s| - 1]]
  }

  /** `s` with only the elements of `keep`, order kept. */
  function Only<T(==, !new)>(s: seq<T>, keep: set<T>): (r: seq<T>)
    ensures |r| <= |s|
    ensures forall x :: x in r <==> x in s && x in keep
  {
    if s == [] then []
    else
      var p := Only(s[..|s| - 1], keep);
      if s[|s| - 1] in keep then p + [s[|s| - 1]] else p
  }

  /** An ordered dictionary's `move_to_end`. */
  function MoveToEnd<T(==, !new)>(s: seq<T>, x: T): seq<T> {
    Without(s, {x}) + [x]
  }

  /** Distinct elements of `s`, ordered by last occurrence. */
  function LastOcc<T(==, !new)>(s: seq<T>): (r: seq<T>)
    ensures forall x :: x in r <==> x in s
  {
    if s == [] then [] else MoveToEnd(LastOcc(s[..|s| - 1]), s[|s| - 1])
  }

  /** Distinct elements of `s`, ordered by first occurrence (`dict.fromkeys`). */
  function FirstOcc<T(==, !new)>(s: seq<T>): (r: seq<T>)
    ensures |r| <= |s|
    ensures forall x :: x in r <==> x in s
  {
    if s == [] then []
    else
      var p := FirstOcc(s[..|s| - 1]);
      if s[|s| - 1] in p then p else p + [s[|s| - 1]]
  }

  lemma SomeElement<T>(s: set<T>) returns (x: T)
    requires s != {}
    ensures x in s
  {
    x :| x in s;
  }

  lemma SameElements<T(!new)>(a: set<T>, b: set<T>)
    requires forall x :: x in a <==> x in b
    ensures a == b
  {}

  lemma JoinSize<T(!new)>(a: set<T>, b: set<T>)
    requires forall x :: x in a ==> x !in b
    ensures |a + b| == |a| + |b|
  {
    assert a + b - a == b;
  }

  lemma SizeMono<T>(a: set<T>, b: set<T>)
    requires a <= b
    ensures |a| <= |b|
  {
    assert b == a + (b - a);
  }

  // ---- removal ---------------------------------------------------------------

  lemma {:induction false} WithoutAppend<T(!new)>(a: seq<T>, b: seq<T>, drop: set<T>)
    ensures Without(a + b, drop) == Without(a, drop) + Without(b, drop)
  {
    if b == [] {
      assert a + b == a;
    } else {
      var n := |b| - 1;
      assert (a + b)[..|a + b| - 1] == a + b[..n];
      WithoutAppend(a, b[..n], drop);
    }
  }

  lemma WithoutOne<T(!new)>(x: T, drop: set<T>)
    ensures Without([x], drop) == if x in drop then [] else [x]
  {
    var s := [x];
    assert s[..|s| - 1] == [];
  }

  lemma {:induction false} WithoutTwice<T(!new)>(s: seq<T>, a: set<T>, b: set<T>)
    ensures Without(Without(s, a), b) == Without(s, a + b)
  {
    if s != [] {
      var p, x := s[..|s| - 1], s[|s| - 1];
      WithoutTwice(p, a, b);
      if x !in a {
        WithoutAppend(Without(p, a), [x], b);
        WithoutOne(x, b);
      }
    }
  }

  lemma {:induction false} WithoutNothing<T(!new)>(s: seq<T>, drop: set<T>)
    requires forall x :: x in s ==> x !in drop
    ensures Without(s, drop) == s
  {
    if s != [] {
      WithoutNothing(s[..|s| - 1], drop);
    }
  }

  /** Only the elements present matter. */
  lemma {:induction false} WithoutSame<T(!new)>(s: seq<T>, a: set<T>, b: set<T>)
    requires forall x :: x in s ==> (x in a <==> x in b)
    ensures Without(s, a) == Without(s, b)
  {
    if s != [] {
      WithoutSame(s[..|s| - 1], a, b);
    }
  }

  lemma {:induction false} WithoutNoDup<T(!new)>(s: seq<T>, drop: set<T>)
    requires NoDup(s)
    ensures NoDup(Without(s, drop))
  {
    if s != [] {
      WithoutNoDup(s[..|s| - 1], drop);
    }
  }

  /** Removing the element at `i` of a duplicate-free sequence cuts exactly there. */
  lemma {:induction false} WithoutAt<T(!new)>(s: seq<T>, i: nat)
    requires NoDup(s) && i < |s|
    ensures Without(s, {s[i]}) == s[..i] + s[i + 1..]
  {
    hide Without;
    assert s == s[..i] + ([s[i]] + s[i + 1..]);
    WithoutAppend(s[..i], [s[i]] + s[i + 1..], {s[i]});
    WithoutAppend([s[i]], s[i + 1..], {s[i]});
    WithoutNothing(s[..i], {s[i]});
    WithoutNothing(s[i + 1..], {s[i]});
    WithoutOne(s[i], {s[i]});
  }

  lemma {:induction false} NoDupSize<T(!new)>(s: seq<T>)
    requires NoDup(s)
    ensures |Elems(s)| == |s|
  {
    if s != [] {
      var p, x := s[..|s| - 1], s[|s| - 1];
      NoDupSize(p);
      assert s == p + [x];
      assert x !in p;
      assert Elems(s) == Elems(p) + {x};
    }
  }

  // ---- occurrence orders -------------------------------------------------------

  lemma {:induction false} LastOccNoDup<T(!new)>(s: seq<T>)
    ensures NoDup(LastOcc(s))
    ensures |LastOcc(s)| == |Elems(s)|
  {
    if s != [] {
      LastOccNoDup(s[..|s| - 1]);
      WithoutNoDup(LastOcc(s[..|s| - 1]), {s[|s| - 1]});
    }
    NoDupSize(LastOcc(s));
    assert Elems(LastOcc(s)) == Elems(s);
  }

  lemma {:induction false} FirstOccNoDup<T(!new)>(s: seq<T>)
    ensures NoDup(FirstOcc(s))
    ensures |FirstOcc(s)| == |Elems(s)|
  {
    if s != [] {
      FirstOccNoDup(s[..|s| - 1]);
    }
    NoDupSize(FirstOcc(s));
    assert Elems(FirstOcc(s)) == Elems(s);
  }

  /** The first occurrences of a longer list extend those of a shorter one. */
  lemma {:induction false} FirstOccPrefix<T(!new)>(s: seq<T>, n: nat, drop: set<T>)
    requires n <= |s|
    ensures Without(FirstOcc(s[..n]), drop) <= Without(FirstOcc(s), drop)
    decreases |s|
  {
    if n < |s| {
      var p, x := s[..|s| - 1], s[|s| - 1];
      FirstOccPrefix(p, n, drop);
      assert p[..n] == s[..n];
      if x !in FirstOcc(p) {
        WithoutAppend(FirstOcc(p), [x], drop);
      }
    } else {
      assert s[..n] == s;
    }
  }

  ghost predicate LastAt<T(!new)>(s: seq<T>, i: int) {
    0 <= i < |s| && forall j :: i < j < |s| ==> s[j] != s[i]
  }

  ghost predicate SplitsAt<T(!new)>(s: seq<T>, i: nat, front: seq<T>)
    requires i < |s|
  {
    LastOcc(s) == front + [s[i]] + LastOcc(s[i + 1..]) && forall x :: x in front ==> x !in s[i..]
  }

  /** What `LastOcc` means: after the last occurrence of `s[i]` come exactly the
      distinct elements of the rest of `s`, in their own recency order. */
  lemma {:induction false} LastOccSplit<T(!new)>(s: seq<T>, i: nat) returns (front: seq<T>)
    requires LastAt(s, i)
    ensures SplitsAt(s, i, front)
  {
    hide Without;
    var n := |s| - 1;
    var p := s[..n];
    if i == n {
      front := Without(LastOcc(p), {s[n]});
      assert s[i..] == [s[n]] && s[i + 1..] == [];
    } else {
      assert LastAt(p, i);
      var f := LastOccSplit(p, i);
      front := Without(f, {s[n]});
      var rest := p[i + 1..];
      assert s[i + 1..] == rest + [s[n]] && s[i..] == p[i..] + [s[n]];
      LastOccMove(f, p[i], LastOcc(rest), s[n]);
      assert (rest + [s[n]])[..|rest|] == rest;
    }
  }

  lemma LastOccMove<T(!new)>(f: seq<T>, x: T, g: seq<T>, last: T)
    requires x != last
    ensures MoveToEnd(f + [x] + g, last) == Without(f, {last}) + [x] + MoveToEnd(g, last)
  {
    hide Without;
    WithoutAppend(f + [x], g, {last});
    WithoutAppend(f, [x], {last});
    WithoutOne(x, {last});
  }
}
