/** Busy time as the measure of a union of intervals, and idle time as its complement. */
module Intervals {
  import opened Orders
  import opened Sorting

  datatype Interval = Interval(start: int, end: int)

  function StartOf(i: Interval): int {
    i.start
  }

  ghost predicate Proper(s: seq<Interval>) {
    forall i :: 0 <= i < |s| ==> s[i].start <= s[i].end
  }

  ghost function Instants(a: int, b: int): (r: set<int>)
    ensures forall t :: t in r <==> a <= t < b
    ensures a <= b ==> |r| == b - a
    decreases b - a
  {
    if a >= b then {} else Instants(a, b - 1) + {b - 1}
  }

  /** Instants inside at least one interval. */
  ghost function Covered(s: seq<Interval>): set<int> {
    if s == [] then {} else Covered(s[..|s| - 1]) + Instants(s[|s| - 1].start, s[|s| - 1].end)
  }

  lemma {:induction false} CoveredMeans(s: seq<Interval>, t: int)
    ensures t in Covered(s) <==> exists i :: 0 <= i < |s| && s[i].start <= t < s[i].end
  {
    if s != [] {
      CoveredMeans(s[..|s| - 1], t);
      assert forall i :: 0 <= i < |s| - 1 ==> s[..|s| - 1][i] == s[i];
    }
  }

  /** Order of the intervals does not matter. */
  lemma CoveredSame(s: seq<Interval>, r: seq<Interval>)
    requires forall x :: x in s <==> x in r
    ensures Covered(s) == Covered(r)
  {
    forall t ensures t in Covered(s) <==> t in Covered(r) {
      CoveredMeans(s, t);
      CoveredMeans(r, t);
      if i :| 0 <= i < |s| && s[i].start <= t < s[i].end {
        assert s[i] in r;
      }
      if i :| 0 <= i < |r| && r[i].start <= t < r[i].end {
        assert r[i] in s;
      }
    }
  }

  /** Sweeping right: everything covered so far lies before `front`, and everything from `back`
      up to it is covered. */
  ghost predicate Swept(seen: set<int>, back: int, front: int) {
    && (forall t :: t in seen ==> t < front)
    && (forall t :: back <= t < front ==> t in seen)
  }

  /** The next interval adds what reaches past the front, */
  lemma SweepOn(seen: set<int>, back: int, front: int, i: Interval)
    requires Swept(seen, back, front) && back <= i.start <= i.end
    ensures var more := seen + Instants(i.start, i.end);
      && (i.start > front ==> |more| == |seen| + (i.end - i.start) && Swept(more, i.start, i.end))
      && (i.start <= front && i.end > front ==> |more| == |seen| + (i.end - front) && Swept(more, back, i.end))
      && (i.start <= front && i.end <= front ==> more == seen)
  {
    if i.start > front {
      SweepFrom(seen, front, i.start, i.end);
    } else {
      Overlap(seen, back, front, i);
      if i.end > front {
        SweepFrom(seen, front, front, i.end);
      }
    }
  }

  lemma SweepFrom(seen: set<int>, front: int, a: int, b: int)
    requires (forall t :: t in seen ==> t < front) && front <= a <= b
    ensures |seen + Instants(a, b)| == |seen| + (b - a)
    ensures forall t :: t in seen + Instants(a, b) ==> t < b
  {
    JoinSize(seen, Instants(a, b));
  }

  /** and nothing else. */
  lemma Overlap(seen: set<int>, back: int, front: int, i: Interval)
    requires Swept(seen, back, front) && back <= i.start <= front
    ensures seen + Instants(i.start, i.end) == if i.end > front then seen + Instants(front, i.end) else seen
  {
    SameElements(seen + Instants(i.start, i.end), if i.end > front then seen + Instants(front, i.end) else seen);
  }

  lemma CoveredNext(s: seq<Interval>, i: nat)
    requires i < |s|
    ensures Covered(s[..i + 1]) == Covered(s[..i]) + Instants(s[i].start, s[i].end)
  {
    assert s[..i + 1][..i] == s[..i];
  }

  lemma NothingCovered()
    ensures Covered([]) == {}
  {}

  /** Total time during which something ran: the number of covered instants. */
  method UnionBusy(intervals: seq<Interval>) returns (total: int)
    requires Proper(intervals)
    ensures total == |Covered(intervals)|
  {
    hide Covered, Instants;
    if intervals == [] {
      NothingCovered();
      return 0;
    }
    var sorted := SortBy(intervals, StartOf);
    SortOrdered(intervals, StartOf);
    SortKeeps(intervals, StartOf);
    CoveredSame(intervals, sorted);
    forall i | 0 <= i < |sorted| ensures sorted[i].start <= sorted[i].end {
      assert sorted[i] in intervals;
    }
    total := 0;
    var cs, ce := sorted[0].start, sorted[0].end;
    FirstSwept(sorted);
    for i := 1 to |sorted|
      invariant cs <= sorted[i - 1].start && cs <= ce
      invariant |Covered(sorted[..i])| == total + (ce - cs)
      invariant Swept(Covered(sorted[..i]), cs, ce)
    {
      var s, e := sorted[i].start, sorted[i].end;
      assert StartOf(sorted[i - 1]) <= StartOf(sorted[i]);
      SweepOn(Covered(sorted[..i]), cs, ce, sorted[i]);
      CoveredNext(sorted, i);
      if s > ce {
        total := total + (ce - cs);
        cs, ce := s, e;
      } else if e > ce {
        ce := e;
      }
    }
    total := total + (ce - cs);
    assert sorted[..|sorted|] == sorted;
  }

  lemma FirstSwept(s: seq<Interval>)
    requires s != [] && s[0].start <= s[0].end
    ensures |Covered(s[..1])| == s[0].end - s[0].start
    ensures Swept(Covered(s[..1]), s[0].start, s[0].end)
  {
    CoveredNext(s, 0);
    assert Covered(s[..0]) == {};
    assert Covered(s[..1]) == Instants(s[0].start, s[0].end);
  }

  ghost function LatestEnd(s: seq<Interval>): int
    requires s != []
  {
    if |s| == 1 then s[0].end
    else
      var m := LatestEnd(s[..|s| - 1]);
      if s[|s| - 1].end > m then s[|s| - 1].end else m
  }

  lemma {:induction false} LatestEndMeans(s: seq<Interval>)
    requires s != []
    ensures forall i :: 0 <= i < |s| ==> s[i].end <= LatestEnd(s)
    ensures exists i :: 0 <= i < |s| && s[i].end == LatestEnd(s)
  {
    if |s| == 1 {
      assert s[0].end == LatestEnd(s);
    } else {
      var p := s[..|s| - 1];
      LatestEndMeans(p);
      var i :| 0 <= i < |p| && p[i].end == LatestEnd(p);
      assert s[i].end == LatestEnd(p) && s[|s| - 1].end <= LatestEnd(s);
      forall j | 0 <= j < |s| ensures s[j].end <= LatestEnd(s) {
        if j < |p| {
          assert p[j] == s[j];
        }
      }
    }
  }

  /** Gaps between kernels already in start order. Idle time is exactly what the covered
      instants leave of the stretch from the first start to the latest end. */
  method IdleTime(win: seq<Interval>) returns (idle: int, gaps: seq<Interval>)
    requires win != [] && Proper(win) && Ordered(win, StartOf)
    ensures idle + |Covered(win)| == LatestEnd(win) - win[0].start
    ensures idle == Durations(gaps)
    ensures forall g :: g in gaps ==> g.start < g.end
    ensures forall g, t :: g in gaps && g.start <= t < g.end ==> t !in Covered(win)
  {
    hide Covered, Instants, LatestEnd, Durations;
    idle, gaps := 0, [];
    NoDuration([]);
    var curEnd := win[0].start;
    ghost var back := curEnd;
    NoneSwept(win);
    for i := 0 to |win|
      invariant i > 0 ==> curEnd == LatestEnd(win[..i])
      invariant i == 0 ==> curEnd == win[0].start
      invariant idle + |Covered(win[..i])| == curEnd - win[0].start && idle == Durations(gaps)
      invariant Swept(Covered(win[..i]), back, curEnd) && (i < |win| ==> back <= win[i].start)
      invariant forall g :: g in gaps ==> g.start < g.end <= back
      invariant forall g, t :: g in gaps && g.start <= t < g.end ==> t !in Covered(win[..i])
    {
      SweepOn(Covered(win[..i]), back, curEnd, win[i]);
      CoveredNext(win, i);
      LatestEndNext(win, i);
      if win[i].start > curEnd {
        OneMoreDuration(gaps, Interval(curEnd, win[i].start));
        gaps := gaps + [Interval(curEnd, win[i].start)];
        idle := idle + (win[i].start - curEnd);
      }
      curEnd := if win[i].end > curEnd then win[i].end else curEnd;
      back := win[i].start;
      assert i + 1 < |win| ==> StartOf(win[i]) <= StartOf(win[i + 1]);
    }
    assert win[..|win|] == win;
  }

  lemma LatestEndNext(win: seq<Interval>, i: nat)
    requires i < |win|
    ensures LatestEnd(win[..i + 1]) ==
      if i > 0 && LatestEnd(win[..i]) > win[i].end then LatestEnd(win[..i]) else win[i].end
  {
    if i > 0 {
      assert win[..i + 1][..i] == win[..i];
    }
  }

  lemma NoneSwept(win: seq<Interval>)
    requires win != []
    ensures |Covered(win[..0])| == 0 && Swept(Covered(win[..0]), win[0].start, win[0].start)
  {}

  /** Measured as a union, busy time and idle time fill the stretch up to the latest end; that
      is the stretch up to the last kernel's end exactly when that kernel is also the last to end. */
  method BusyAndIdle(win: seq<Interval>) returns (busy: int, idle: int)
    requires win != [] && Proper(win) && Ordered(win, StartOf)
    ensures busy + idle == LatestEnd(win) - win[0].start
    ensures busy + idle == win[|win| - 1].end - win[0].start <==> LastEndsLast(win)
  {
    busy := UnionBusy(win);
    var gaps;
    idle, gaps := IdleTime(win);
    LatestEndMeans(win);
  }

  // ---- the report: durations added up -------------------------------------------------------

  /** Durations added up: time during which two kernels ran counts twice. */
  function Durations(s: seq<Interval>): int {
    if s == [] then 0 else Durations(s[..|s| - 1]) + (s[|s| - 1].end - s[|s| - 1].start)
  }

  ghost predicate LastEndsLast(win: seq<Interval>)
    requires win != []
  {
    forall i :: 0 <= i < |win| ==> win[i].end <= win[|win| - 1].end
  }

  /** No kernel of positive length starts before an earlier one has ended. */
  ghost predicate OneAtATime(win: seq<Interval>) {
    forall j, i :: 0 <= j < i < |win| && win[i].start < win[i].end ==> win[j].end <= win[i].start
  }

  lemma DurationsNext(win: seq<Interval>, n: nat)
    requires n < |win|
    ensures Durations(win[..n + 1]) == Durations(win[..n]) + (win[n].end - win[n].start)
  {
    assert win[..n + 1][..n] == win[..n];
  }

  /** One more kernel keeps the rest one at a time exactly when it is empty or starts late enough. */
  lemma OneMoreAtATime(win: seq<Interval>, n: nat)
    requires 0 < n < |win|
    ensures OneAtATime(win[..n + 1]) <==>
      OneAtATime(win[..n]) && (win[n].start < win[n].end ==> LatestEnd(win[..n]) <= win[n].start)
  {
    var p, q := win[..n], win[..n + 1];
    LatestEndMeans(p);
    assert forall i :: 0 <= i < n ==> q[i] == p[i];
    assert q[n] == win[n];
  }

  /** Durations never add up to less than the union, and to no more exactly when kernels ran
      one at a time. */
  lemma {:induction false} DurationsCover(win: seq<Interval>, n: nat)
    requires Proper(win) && Ordered(win, StartOf) && 0 < n <= |win|
    ensures |Covered(win[..n])| <= Durations(win[..n])
    ensures |Covered(win[..n])| == Durations(win[..n]) <==> OneAtATime(win[..n])
    ensures Swept(Covered(win[..n]), win[n - 1].start, LatestEnd(win[..n]))
  {
    hide Covered, Instants, LatestEnd, Durations, OneAtATime;
    var k := n - 1;
    CoveredNext(win, k);
    DurationsNext(win, k);
    LatestEndNext(win, k);
    if k == 0 {
      FirstKernel(win);
    } else {
      DurationsCover(win, k);
      assert StartOf(win[k - 1]) <= StartOf(win[k]);
      SweepOn(Covered(win[..k]), win[k - 1].start, LatestEnd(win[..k]), win[k]);
      OneMoreAtATime(win, k);
    }
  }

  lemma FirstKernel(win: seq<Interval>)
    requires Proper(win) && win != []
    ensures |Covered(win[..1])| == Durations(win[..1]) && OneAtATime(win[..1])
    ensures Swept(Covered(win[..1]), win[0].start, LatestEnd(win[..1]))
  {
    FirstSwept(win);
    DurationsNext(win, 0);
    assert win[..0] == [];
  }

  /** The three numbers of the report. Busy and idle time are never less than the span, and add up
      to it exactly when the kernels ran one at a time and the last to start also ends last. */
  method Report(win: seq<Interval>) returns (busy: int, span: int, idle: int)
    requires win != [] && Proper(win) && Ordered(win, StartOf)
    ensures busy == Durations(win) && span == win[|win| - 1].end - win[0].start
    ensures idle + |Covered(win)| == LatestEnd(win) - win[0].start
    ensures busy + idle >= span
    ensures busy + idle == span <==> OneAtATime(win) && LastEndsLast(win)
  {
    hide Covered, Instants, OneAtATime;
    busy := 0;
    for i := 0 to |win|
      invariant busy == Durations(win[..i])
    {
      DurationsNext(win, i);
      busy := busy + (win[i].end - win[i].start);
    }
    assert win[..|win|] == win;
    span := win[|win| - 1].end - win[0].start;
    var gaps;
    idle, gaps := IdleTime(win);
    DurationsCover(win, |win|);
    LatestEndMeans(win);
  }

  /** Two kernels overlapping for half their time: in order, and the last to start ends last, */
  lemma OverlapExample(win: seq<Interval>)
    requires win == [Interval(0, 10), Interval(5, 10)]
    ensures Proper(win) && Ordered(win, StartOf) && LastEndsLast(win) && !OneAtATime(win)
    ensures win[|win| - 1].end - win[0].start == 10
  {
    assert win[0].end > win[1].start;
  }

  /** and still fifteen busy plus none idle are reported over a span of ten. */
  lemma OverlapNumbers(win: seq<Interval>)
    requires win == [Interval(0, 10), Interval(5, 10)]
    ensures Durations(win) == 15 && LatestEnd(win) - win[0].start - |Covered(win)| == 0
  {
    hide Covered, Instants, Durations, LatestEnd;
    assert win[..2] == win;
    FirstKernel(win);
    LatestEndNext(win, 0);
    DurationsNext(win, 0);
    NoDuration(win);
    DurationsNext(win, 1);
    LatestEndNext(win, 1);
    CoveredNext(win, 1);
    SweepOn(Covered(win[..1]), 0, 10, win[1]);
  }

  lemma NoDuration(win: seq<Interval>)
    ensures Durations(win[..0]) == 0
  {}

  lemma OneMoreDuration(s: seq<Interval>, i: Interval)
    ensures Durations(s + [i]) == Durations(s) + (i.end - i.start)
  {
    assert (s + [i])[..|s|] == s;
  }
}
