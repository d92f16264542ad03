/** Least-recently-used caches, counted in entries or in bytes.

    The resident list of every variant is one function of the trace: the longest
    suffix of the recency order that fits. The rest of the module says what follows. */
module Recency {
  import opened Orders

  function Total<T>(s: seq<T>, size: T -> nat): nat {
    if s == [] then 0 else Total(s[..|s| - 1], size) + size(s[|s| - 1])
  }

  /** The longest suffix of `s` whose sizes add up to at most `budget`. */
  function Keep<T>(s: seq<T>, size: T -> nat, budget: nat): (r: seq<T>)
    ensures |r| <= |s| && r == s[|s| - |r|..]
    ensures Total(r, size) <= budget
  {
    if Total(s, size) <= budget then s else Keep(s[1..], size, budget)
  }

  function One<T>(x: T): nat {
    1
  }

  // ---- sums ------------------------------------------------------------------------

  lemma {:induction false} TotalAppend<T>(a: seq<T>, b: seq<T>, size: T -> nat)
    ensures Total(a + b, size) == Total(a, size) + Total(b, size)
  {
    if b == [] {
      assert a + b == a;
    } else {
      assert (a + b)[..|a + b| - 1] == a + b[..|b| - 1];
      TotalAppend(a, b[..|b| - 1], size);
    }
  }

  lemma TotalSingle<T>(x: T, size: T -> nat)
    ensures Total([x], size) == size(x)
  {
    assert [x][..0] == [];
  }

  lemma {:induction false} TotalOne<T>(s: seq<T>)
    ensures Total(s, One) == |s|
  {
    if s != [] {
      TotalOne(s[..|s| - 1]);
    }
  }

  lemma TotalMoved<T(!new)>(s: seq<T>, x: T, size: T -> nat)
    requires NoDup(s) && x in s
    ensures Total(MoveToEnd(s, x), size) == Total(s, size)
  {
    hide Total, Without;
    var i :| 0 <= i < |s| && s[i] == x;
    WithoutAt(s, i);
    assert s == s[..i] + [x] + s[i + 1..];
    TotalAppend(s[..i] + [x], s[i + 1..], size);
    TotalAppend(s[..i], [x], size);
    TotalAppend(s[..i], s[i + 1..], size);
    TotalAppend(Without(s, {x}), [x], size);
  }

  // ---- the fitting suffix ---------------------------------------------------------------

  /** A prefix none of whose non-empty suffixes fits in front of `rest` is dropped whole. */
  lemma {:induction false} KeepDrops<T>(front: seq<T>, rest: seq<T>, size: T -> nat, budget: nat)
    requires front != [] ==> size(front[|front| - 1]) + Total(rest, size) > budget
    ensures Keep(front + rest, size, budget) == Keep(rest, size, budget)
  {
    hide Total;
    if front == [] {
      assert front + rest == rest;
    } else {
      var last := front[|front| - 1];
      assert front == front[..|front| - 1] + [last];
      TotalAppend(front[..|front| - 1], [last], size);
      TotalSingle(last, size);
      TotalAppend(front, rest, size);
      assert (front + rest)[1..] == front[1..] + rest;
      KeepDrops(front[1..], rest, size, budget);
    }
  }

  /** What `Keep` drops ends in an element that would not have fitted. */
  lemma {:induction false} KeepMaximal<T>(s: seq<T>, size: T -> nat, budget: nat)
    ensures var r := Keep(s, size, budget);
      |r| < |s| ==> size(s[|s| - |r| - 1]) + Total(r, size) > budget
  {
    hide Total;
    if s != [] && Total(s, size) > budget {
      assert s == [s[0]] + s[1..];
      TotalAppend([s[0]], s[1..], size);
      TotalSingle(s[0], size);
      KeepMaximal(s[1..], size, budget);
    }
  }

  lemma KeepFits<T>(s: seq<T>, size: T -> nat, budget: nat)
    requires Total(s, size) <= budget
    ensures Keep(s, size, budget) == s
  {}

  lemma KeepNext<T>(s: seq<T>, size: T -> nat, budget: nat)
    requires s != [] && Total(s, size) > budget
    ensures Keep(s, size, budget) == Keep(s[1..], size, budget)
  {}

  lemma {:induction false} SuffixNoDup<T(!new)>(front: seq<T>, rest: seq<T>)
    requires NoDup(front + rest)
    ensures NoDup(front) && NoDup(rest) && (forall x :: x in front ==> x !in rest)
  {
    var s := front + rest;
    forall i, j | 0 <= i < j < |rest| ensures rest[i] != rest[j] {
      assert s[|front| + i] != s[|front| + j];
    }
    forall i, j | 0 <= i < j < |front| ensures front[i] != front[j] {
      assert s[i] != s[j];
    }
    forall i, j | 0 <= i < |front| && 0 <= j < |rest| ensures front[i] != rest[j] {
      assert s[i] != s[|front| + j];
    }
  }

  lemma KeepTouched<T(!new)>(front: seq<T>, r: seq<T>, x: T, size: T -> nat, budget: nat)
    requires NoDup(front + r) && x in r && Total(r, size) <= budget
    requires front != [] ==> size(front[|front| - 1]) + Total(r, size) > budget
    ensures Keep(MoveToEnd(front + r, x), size, budget) == MoveToEnd(r, x)
  {
    hide Keep, Total, Without;
    SuffixNoDup(front, r);
    WithoutAppend(front, r, {x});
    WithoutNothing(front, {x});
    TotalMoved(r, x, size);
    assert MoveToEnd(front + r, x) == front + MoveToEnd(r, x);
    KeepDrops(front, MoveToEnd(r, x), size, budget);
    KeepFits(MoveToEnd(r, x), size, budget);
  }

  lemma KeepInserted<T(!new)>(front: seq<T>, r: seq<T>, x: T, size: T -> nat, budget: nat)
    requires x !in r
    requires front != [] ==> size(front[|front| - 1]) + Total(r, size) > budget
    ensures Keep(MoveToEnd(front + r, x), size, budget) == Keep(r + [x], size, budget)
  {
    hide Keep, Total, Without;
    WithoutAppend(front, r, {x});
    WithoutNothing(r, {x});
    var left := Without(front, {x});
    assert MoveToEnd(front + r, x) == left + (r + [x]);
    TotalAppend(r, [x], size);
    TotalSingle(x, size);
    if left != [] {
      WithoutLast(front, x);
    }
    KeepDrops(left, r + [x], size, budget);
  }

  /** One access: the kept suffix of the new recency order is a function of the kept
      suffix of the old one, whatever has been forgotten in between. */
  lemma KeepStep<T(!new)>(s: seq<T>, x: T, size: T -> nat, budget: nat)
    requires NoDup(s)
    ensures var r := Keep(s, size, budget);
      Keep(MoveToEnd(s, x), size, budget) ==
        if x in r then MoveToEnd(r, x) else Keep(r + [x], size, budget)
  {
    hide Keep, Total, MoveToEnd;
    var r := Keep(s, size, budget);
    var front := s[..|s| - |r|];
    assert s == front + r;
    KeepMaximal(s, size, budget);
    if x in r {
      KeepTouched(front, r, x, size, budget);
    } else {
      KeepInserted(front, r, x, size, budget);
    }
  }

  /** Removing `x` either keeps the last element or removed it. */
  lemma WithoutLast<T(!new)>(s: seq<T>, x: T)
    requires Without(s, {x}) != []
    ensures s != [] && (s[|s| - 1] == x || Without(s, {x})[|Without(s, {x})| - 1] == s[|s| - 1])
  {}

  /** A bigger budget keeps a longer suffix of the same order. */
  lemma {:induction false} KeepGrows<T>(s: seq<T>, size: T -> nat, small: nat, big: nat)
    requires small <= big
    ensures |Keep(s, size, small)| <= |Keep(s, size, big)|
    ensures forall x :: x in Keep(s, size, small) ==> x in Keep(s, size, big)
  {
    if Total(s, size) <= small {
    } else if Total(s, size) <= big {
      assert forall x :: x in Keep(s, size, small) ==> x in s;
    } else {
      KeepGrows(s[1..], size, small, big);
    }
  }

  /** Membership in the kept suffix, by what lies behind. */
  lemma {:induction false} KeepHas<T(!new)>(front: seq<T>, x: T, back: seq<T>, size: T -> nat, budget: nat)
    requires NoDup(front + [x] + back)
    ensures x in Keep(front + [x] + back, size, budget) <==> size(x) + Total(back, size) <= budget
  {
    hide Total;
    var s := front + [x] + back;
    assert s == front + ([x] + back);
    TotalAppend(front, [x] + back, size);
    TotalAppend([x], back, size);
    TotalSingle(x, size);
    if Total(s, size) <= budget {
      assert s[|front|] == x;
    } else if front == [] {
      assert s[1..] == back && s == [x] + back;
      SuffixNoDup([x], back);
      assert [x][0] == x && x !in back;
    } else {
      assert s[1..] == front[1..] + [x] + back;
      SuffixNoDup([s[0]], s[1..]) by { assert s == [s[0]] + s[1..]; }
      KeepHas(front[1..], x, back, size, budget);
    }
  }

  lemma {:induction false} KeepCounted<T>(s: seq<T>, c: nat)
    ensures |Keep(s, One, c)| == if |s| <= c then |s| else c
  {
    TotalOne(s);
    if |s| > c {
      KeepCounted(s[1..], c);
    }
  }

  // ---- residents after a trace ---------------------------------------------------------------

  /** What a cache of the given budget holds after `trace`, least recent first. */
  function Residents<T(!new, ==)>(trace: seq<T>, size: T -> nat, budget: nat): seq<T> {
    Keep(LastOcc(trace), size, budget)
  }

  lemma ResidentsNext<T(!new)>(trace: seq<T>, x: T, size: T -> nat, budget: nat)
    ensures var r := Residents(trace, size, budget);
      Residents(trace + [x], size, budget) ==
        if x in r then MoveToEnd(r, x) else Keep(r + [x], size, budget)
  {
    LastOccNoDup(trace);
    assert (trace + [x])[..|trace|] == trace;
    KeepStep(LastOcc(trace), x, size, budget);
  }

  lemma ResidentsNoDup<T(!new)>(trace: seq<T>, size: T -> nat, budget: nat)
    ensures NoDup(Residents(trace, size, budget))
  {
    LastOccNoDup(trace);
    var s, r := LastOcc(trace), Residents(trace, size, budget);
    assert s == s[..|s| - |r|] + r;
    SuffixNoDup(s[..|s| - |r|], r);
  }

  /** Evicting one entry before inserting, or after, keeps the same suffix. */
  lemma EvictOrder<T(!new)>(r: seq<T>, x: T, c: nat)
    requires |r| <= c && c > 0
    ensures Keep(r + [x], One, c) == (if |r| >= c then r[1..] else r) + [x]
  {
    hide Keep;
    KeepCounted(r + [x], c);
    if |r| == c {
      assert (r + [x])[1..] == r[1..] + [x];
    }
  }

  /** The inclusion property: at every step of every trace, a larger cache holds
      everything a smaller one does. */
  lemma Inclusion<T(!new)>(trace: seq<T>, size: T -> nat, small: nat, big: nat)
    requires small <= big
    ensures forall x :: x in Residents(trace, size, small) ==> x in Residents(trace, size, big)
  {
    KeepGrows(LastOcc(trace), size, small, big);
  }

  /** The stack-distance theorem. With `j` the previous access to `x`, the next access to
      `x` hits exactly when `x` and the distinct keys since then fit together. */
  lemma StackDistance<T(!new)>(trace: seq<T>, j: nat, size: T -> nat, budget: nat)
    requires LastAt(trace, j)
    ensures trace[j] in Residents(trace, size, budget) <==>
            size(trace[j]) + Total(LastOcc(trace[j + 1..]), size) <= budget
  {
    var front := LastOccSplit(trace, j);
    LastOccNoDup(trace);
    KeepHas(front, trace[j], LastOcc(trace[j + 1..]), size, budget);
  }

  /** Counted in entries: an access hits iff its key was seen and fewer than `c`
      distinct keys were accessed since. */
  lemma StackDistanceCount<T(!new)>(trace: seq<T>, x: T, c: nat)
    ensures x in Residents(trace, One, c) <==>
            (exists j: nat :: LastAt(trace, j) && trace[j] == x && |Elems(trace[j + 1..])| < c)
  {
    hide Keep, Total, LastOcc;
    forall j: nat | LastAt(trace, j) && trace[j] == x
      ensures x in Residents(trace, One, c) <==> |Elems(trace[j + 1..])| < c
    {
      StackDistance(trace, j, One, c);
      TotalOne(LastOcc(trace[j + 1..]));
      LastOccNoDup(trace[j + 1..]);
    }
    if x in Residents(trace, One, c) {
      var j := LastIndex(trace, x);
    }
  }

  lemma {:induction false} LastIndex<T(!new)>(s: seq<T>, x: T) returns (j: nat)
    requires x in s
    ensures LastAt(s, j) && s[j] == x
  {
    if s[|s| - 1] == x {
      j := |s| - 1;
    } else {
      j := LastIndex(s[..|s| - 1], x);
    }
  }
}
