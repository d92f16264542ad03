/** Stable sorting, as the standard library's `sorted` does it. */
module Sorting {

  predicate Ordered<T>(s: seq<T>, key: T -> int) {
    forall i, j :: 0 <= i < j < |s| ==> key(s[i]) <= key(s[j])
  }

  /** `x` placed after every element that is not greater. */
  function Place<T>(s: seq<T>, x: T, key: T -> int): (r: seq<T>)
    ensures |r| == |s| + 1
    ensures multiset(r) == multiset(s) + multiset{x}
  {
    if s == [] || key(s[|s| - 1]) <= key(x) then s + [x]
    else
      assert s == s[..|s| - 1] + [s[|s| - 1]];
      Place(s[..|s| - 1], x, key) + [s[|s| - 1]]
  }

  function SortBy<T>(s: seq<T>, key: T -> int): (r: seq<T>)
    ensures |r| == |s|
    ensures multiset(r) == multiset(s)
  {
    if s == [] then []
    else
      assert s == s[..|s| - 1] + [s[|s| - 1]];
      Place(SortBy(s[..|s| - 1], key), s[|s| - 1], key)
  }

  lemma {:induction false} PlaceOrdered<T(!new)>(s: seq<T>, x: T, key: T -> int)
    requires Ordered(s, key)
    ensures Ordered(Place(s, x, key), key)
  {
    if s != [] && key(s[|s| - 1]) > key(x) {
      var p, last := s[..|s| - 1], s[|s| - 1];
      PlaceOrdered(p, x, key);
      var r := Place(p, x, key);
      forall i | 0 <= i < |r| ensures key(r[i]) <= key(last) {
        assert r[i] in multiset(r);
        assert r[i] in p || r[i] == x;
      }
    }
  }

  lemma {:induction false} SortOrdered<T(!new)>(s: seq<T>, key: T -> int)
    ensures Ordered(SortBy(s, key), key)
  {
    if s != [] {
      SortOrdered(s[..|s| - 1], key);
      PlaceOrdered(SortBy(s[..|s| - 1], key), s[|s| - 1], key);
    }
  }

  /** The elements with one key, in the order they are listed. */
  function WithKey<T>(s: seq<T>, key: T -> int, v: int): seq<T> {
    if s == [] then []
    else WithKey(s[..|s| - 1], key, v) + if key(s[|s| - 1]) == v then [s[|s| - 1]] else []
  }

  lemma WithKeyNext<T(!new)>(s: seq<T>, x: T, key: T -> int, v: int)
    ensures WithKey(s + [x], key, v) == WithKey(s, key, v) + if key(x) == v then [x] else []
  {
    assert (s + [x])[..|s|] == s;
  }

  lemma {:induction false} PlaceStable<T(!new)>(s: seq<T>, x: T, key: T -> int, v: int)
    requires Ordered(s, key)
    ensures WithKey(Place(s, x, key), key, v) == WithKey(s, key, v) + if key(x) == v then [x] else []
  {
    hide WithKey;
    if s == [] || key(s[|s| - 1]) <= key(x) {
      WithKeyNext(s, x, key, v);
    } else {
      var p, last := s[..|s| - 1], s[|s| - 1];
      assert s == p + [last];
      PlaceStable(p, x, key, v);
      WithKeyNext(p, last, key, v);
      WithKeyNext(Place(p, x, key), last, key, v);
    }
  }

  /** Elements with equal keys stay in the order they came in. */
  lemma {:induction false} SortStable<T(!new)>(s: seq<T>, key: T -> int, v: int)
    ensures WithKey(SortBy(s, key), key, v) == WithKey(s, key, v)
  {
    if s != [] {
      SortStable(s[..|s| - 1], key, v);
      SortOrdered(s[..|s| - 1], key);
      PlaceStable(SortBy(s[..|s| - 1], key), s[|s| - 1], key, v);
    }
  }

  lemma {:induction false} WithKeyAppend<T(!new)>(a: seq<T>, b: seq<T>, key: T -> int, v: int)
    ensures WithKey(a + b, key, v) == WithKey(a, key, v) + WithKey(b, key, v)
  {
    if b == [] {
      assert a + b == a;
    } else {
      assert (a + b)[..|a + b| - 1] == a + b[..|b| - 1];
      WithKeyAppend(a, b[..|b| - 1], key, v);
    }
  }

  lemma {:induction false} WithKeyHas<T(!new)>(s: seq<T>, key: T -> int, v: int)
    ensures forall x :: x in WithKey(s, key, v) <==> x in s && key(x) == v
  {
    if s != [] {
      WithKeyHas(s[..|s| - 1], key, v);
      assert s == s[..|s| - 1] + [s[|s| - 1]];
    }
  }

  lemma AddDistinct<T(!new)>(s: seq<T>, x: T)
    requires x !in s && forall i, j :: 0 <= i < j < |s| ==> s[i] != s[j]
    ensures var r := s + [x]; forall i, j :: 0 <= i < j < |r| ==> r[i] != r[j]
    ensures s + [] == s
  {}

  lemma {:induction false} WithKeyDistinct<T(!new)>(s: seq<T>, key: T -> int, v: int)
    requires forall i, j :: 0 <= i < j < |s| ==> s[i] != s[j]
    ensures var r := WithKey(s, key, v); forall i, j :: 0 <= i < j < |r| ==> r[i] != r[j]
  {
    if s != [] {
      hide WithKey;
      var p, x := s[..|s| - 1], s[|s| - 1];
      WithKeyDistinct(p, key, v);
      WithKeyHas(p, key, v);
      assert s == p + [x] && x !in p;
      WithKeyNext(p, x, key, v);
      AddDistinct(WithKey(p, key, v), x);
    } else {
      assert WithKey(s, key, v) == [];
    }
  }

  /** What comes earlier in a list with distinct elements comes earlier in any stably sorted prefix of it. */
  lemma SortedPrefix<T(!new)>(s: seq<T>, key: T -> int, i: nat, j: nat, n: nat)
    requires forall a, b :: 0 <= a < b < |s| ==> s[a] != s[b]
    requires i < j < |s| && key(s[i]) == key(s[j]) && n <= |s| && s[j] in SortBy(s, key)[..n]
    ensures s[i] in SortBy(s, key)[..n]
  {
    hide SortBy, WithKey;
    var r, v := SortBy(s, key), key(s[j]);
    var front := WithKey(r[..n], key, v);
    SortStable(s, key, v);
    assert r == r[..n] + r[n..];
    WithKeyAppend(r[..n], r[n..], key, v);
    assert s == s[..j] + s[j..];
    WithKeyAppend(s[..j], s[j..], key, v);
    WithKeyHas(s[..j], key, v);
    assert s[..j][i] == s[i];
    WithKeyHas(s[..j], key, v);
    WithKeyHas(r[..n], key, v);
    WithKeyDistinct(s, key, v);
    EarlierInPrefix(WithKey(s, key, v), WithKey(s[..j], key, v), front, s[i], s[j]);
  }

  lemma EarlierInPrefix<T(!new)>(all: seq<T>, before: seq<T>, front: seq<T>, x: T, y: T)
    requires before <= all && front <= all && x in before && y !in before && y in front
    requires forall a, b :: 0 <= a < b < |all| ==> all[a] != all[b]
    ensures x in front
  {
    var a :| 0 <= a < |before| && before[a] == x;
    var b :| 0 <= b < |front| && front[b] == y;
    assert all[a] == x && all[b] == y;
    assert forall c :: 0 <= c < |before| ==> all[c] == before[c] && before[c] != y;
    assert front[a] == x;
  }

  lemma SortKeeps<T(!new)>(s: seq<T>, key: T -> int)
    ensures forall x :: x in SortBy(s, key) <==> x in s
  {
    forall x ensures x in SortBy(s, key) <==> x in s {
      assert x in multiset(s) <==> x in multiset(SortBy(s, key));
    }
  }

  lemma {:induction false} SortDistinct<T(!new)>(s: seq<T>, key: T -> int)
    requires forall i, j :: 0 <= i < j < |s| ==> s[i] != s[j]
    ensures var r := SortBy(s, key); forall i, j :: 0 <= i < j < |r| ==> r[i] != r[j]
  {
    var r := SortBy(s, key);
    forall i, j | 0 <= i < j < |r| ensures r[i] != r[j] {
      if r[i] == r[j] {
        TwiceInMultiset(r, i, j);
        OnceInMultiset(s, r[i]);
      }
    }
  }

  lemma TwiceInMultiset<T(!new)>(s: seq<T>, i: nat, j: nat)
    requires i < j < |s| && s[i] == s[j]
    ensures multiset(s)[s[i]] >= 2
  {
    assert s == s[..j] + [s[j]] + s[j + 1..];
    assert s[i] in s[..j];
  }

  lemma {:induction false} OnceInMultiset<T(!new)>(s: seq<T>, x: T)
    requires forall i, j :: 0 <= i < j < |s| ==> s[i] != s[j]
    ensures multiset(s)[x] <= 1
  {
    if s != [] {
      var p, y := s[..|s| - 1], s[|s| - 1];
      assert s == p + [y];
      OnceInMultiset(p, x);
      if x == y {
        assert x !in p;
      }
    }
  }
}
