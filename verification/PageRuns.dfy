/** Page hints for a gather table: requested rows merged into few page-aligned byte runs. */
module PageRuns {
  import opened Quotients

  datatype Run = Run(at: int, len: int)
  datatype Limit = NoLimit | Limit(end: int)

  // ---- page arithmetic ---------------------------------------------------------------

  function FloorPage(x: int, page: nat): int
    requires page > 0
  {
    x - x % page
  }

  function CeilPage(x: int, page: nat): int
    requires page > 0
  {
    (x + page - 1) / page * page
  }

  /** Some byte of `[lo, hi)` is on the page of `a`. */
  ghost predicate PageTouches(a: int, lo: int, hi: int, page: nat)
    requires page > 0
  {
    exists x :: lo <= x < hi && x / page == a / page
  }

  lemma TouchedIsInside(a: int, lo: int, hi: int, page: nat, x: int)
    requires page > 0 && lo <= x < hi && x / page == a / page
    ensures FloorPage(lo, page) <= a < CeilPage(hi, page)
  {
    var q, up := a / page, (hi + page - 1) / page;
    DivBounds(a, page);
    DivBounds(x, page);
    DivBounds(lo, page);
    DivBounds(hi + page - 1, page);
    DivMono(lo, x, page);
    MulMono(lo / page, q, page);
    if up < q + 1 {
      MulMono(up, q, page);
      assert false;
    }
    MulMono(q + 1, up, page);
  }

  lemma InsideIsTouched(a: int, lo: int, hi: int, page: nat) returns (x: int)
    requires page > 0 && lo < hi && FloorPage(lo, page) <= a < CeilPage(hi, page)
    ensures lo <= x < hi && x / page == a / page
  {
    var q, up, l := a / page, (hi + page - 1) / page, lo / page;
    DivBounds(a, page);
    DivBounds(lo, page);
    DivBounds(hi + page - 1, page);
    assert l * page <= a < up * page;
    hide FloorPage, CeilPage;
    MulLess(q, up, page);
    MulMono(q + 1, up, page);
    assert (q + 1) * page == q * page + page;
    MulLess(l, q + 1, page);
    MulMono(l, q, page);
    x := if lo >= q * page then lo else q * page;
    assert lo < l * page + page <= q * page + page;
    DivIs(x, q, page);
  }

  /** Rounding outward to pages reaches exactly the pages with a byte of the range. */
  lemma AlignedIffTouches(a: int, lo: int, hi: int, page: nat)
    requires page > 0 && lo < hi
    ensures FloorPage(lo, page) <= a < CeilPage(hi, page) <==> PageTouches(a, lo, hi, page)
  {
    hide FloorPage, CeilPage;
    if x :| lo <= x < hi && x / page == a / page {
      TouchedIsInside(a, lo, hi, page, x);
    }
    if FloorPage(lo, page) <= a < CeilPage(hi, page) {
      var x := InsideIsTouched(a, lo, hi, page);
    }
  }

  // ---- rows ------------------------------------------------------------------------------

  ghost predicate RowOnPage(a: int, i: int, rowBytes: nat, base: int, page: nat)
    requires page > 0
  {
    PageTouches(a, base + i * rowBytes, base + (i + 1) * rowBytes, page)
  }

  /** The page of `a` holds a byte of a requested row, and `a` is inside the mapping. */
  ghost predicate Wanted(a: int, indices: seq<int>, rowBytes: nat, base: int, limit: Limit, page: nat)
    requires page > 0
  {
    && (limit.Limit? ==> a < limit.end)
    && exists i :: i in indices && RowOnPage(a, i, rowBytes, base, page)
  }

  /** A block of consecutive rows touches the pages its rows do. */
  lemma BlockIsRows(a: int, s: int, n: nat, rowBytes: nat, base: int, page: nat)
    requires page > 0 && rowBytes > 0 && n > 0
    ensures PageTouches(a, base + s * rowBytes, base + (s + n) * rowBytes, page) <==>
            exists i :: s <= i < s + n && RowOnPage(a, i, rowBytes, base, page)
  {
    if x :| base + s * rowBytes <= x < base + (s + n) * rowBytes && x / page == a / page {
      var i := (x - base) / rowBytes;
      DivBounds(x - base, rowBytes);
      if i < s {
        MulMono(i + 1, s, rowBytes);
      }
      if i >= s + n {
        MulMono(s + n, i, rowBytes);
      }
      assert (i + 1) * rowBytes == i * rowBytes + rowBytes;
      assert RowOnPage(a, i, rowBytes, base, page);
    }
    if i :| s <= i < s + n && RowOnPage(a, i, rowBytes, base, page) {
      var x :| base + i * rowBytes <= x < base + (i + 1) * rowBytes && x / page == a / page;
      MulMono(s, i, rowBytes);
      MulMono(i + 1, s + n, rowBytes);
      assert base + s * rowBytes <= x < base + (s + n) * rowBytes;
    }
  }

  // ---- sorted distinct indices ----------------------------------------------------------------

  ghost predicate Increasing(s: seq<int>) {
    forall i, j :: 0 <= i < j < |s| ==> s[i] < s[j]
  }

  function InsertIndex(s: seq<int>, x: int): seq<int> {
    if s == [] || s[|s| - 1] < x then s + [x]
    else if s[|s| - 1] == x then s
    else InsertIndex(s[..|s| - 1], x) + [s[|s| - 1]]
  }

  function SortedSet(s: seq<int>): seq<int> {
    if s == [] then [] else InsertIndex(SortedSet(s[..|s| - 1]), s[|s| - 1])
  }

  lemma {:induction false} InsertIndexOk(s: seq<int>, x: int)
    requires Increasing(s)
    ensures Increasing(InsertIndex(s, x)) && forall y :: y in InsertIndex(s, x) <==> y in s || y == x
  {
    if s != [] && s[|s| - 1] > x {
      var p, last := s[..|s| - 1], s[|s| - 1];
      InsertIndexOk(p, x);
      assert s == p + [last];
      assert forall y :: y in p ==> y < last;
      var r := InsertIndex(p, x);
      forall i | 0 <= i < |r| ensures r[i] < last {
        assert r[i] in r;
      }
    }
  }

  lemma {:induction false} SortedSetOk(s: seq<int>)
    ensures Increasing(SortedSet(s)) && forall y :: y in SortedSet(s) <==> y in s
  {
    if s != [] {
      var p := s[..|s| - 1];
      SortedSetOk(p);
      InsertIndexOk(SortedSet(p), s[|s| - 1]);
      assert s == p + [s[|s| - 1]];
    }
  }

  // ---- maximal blocks of consecutive indices --------------------------------------------------

  datatype Block = Block(start: int, count: nat)

  ghost predicate InBlock(b: Block, i: int) {
    b.start <= i < b.start + b.count
  }

  ghost predicate InBlocks(out: seq<Block>, i: int) {
    exists k :: 0 <= k < |out| && InBlock(out[k], i)
  }

  /** Non-empty blocks in order, with an index missing between any two. */
  ghost predicate Maximal(out: seq<Block>) {
    && (forall k :: 0 <= k < |out| ==> out[k].count > 0)
    && forall k, m :: 0 <= k < m < |out| ==> out[k].start + out[k].count < out[m].start
  }

  ghost predicate Blocks(out: seq<Block>, indices: seq<int>) {
    Maximal(out) && forall i :: i in indices <==> InBlocks(out, i)
  }

  /** Group a sorted list of distinct indices. */
  method Group(idx: seq<int>) returns (out: seq<Block>)
    requires idx != [] && Increasing(idx)
    ensures Blocks(out, idx)
  {
    out := [];
    var start, prev := idx[0], idx[0];
    for i := 1 to |idx|
      invariant start <= prev == idx[i - 1]
      invariant Maximal(out) && forall k :: 0 <= k < |out| ==> out[k].start + out[k].count < start
      invariant forall y :: y in idx[..i] <==> start <= y <= prev || InBlocks(out, y)
    {
      var x := idx[i];
      assert idx[..i + 1] == idx[..i] + [x] && idx[i - 1] < x;
      if x == prev + 1 {
        prev := x;
      } else {
        AppendBlock(out, Block(start, prev - start + 1));
        out := out + [Block(start, prev - start + 1)];
        start, prev := x, x;
      }
    }
    AppendBlock(out, Block(start, prev - start + 1));
    out := out + [Block(start, prev - start + 1)];
    assert idx[..|idx|] == idx;
  }

  lemma AppendBlock(out: seq<Block>, b: Block)
    ensures forall y :: InBlocks(out + [b], y) <==> InBlocks(out, y) || InBlock(b, y)
  {
    var r := out + [b];
    forall y ensures InBlocks(r, y) <==> InBlocks(out, y) || InBlock(b, y) {
      assert r[|out|] == b;
      assert forall k :: 0 <= k < |out| ==> r[k] == out[k];
    }
  }

  ghost predicate Begins(indices: seq<int>, i: int) {
    i in indices && i - 1 !in indices
  }

  ghost predicate StartsAt(out: seq<Block>, i: int) {
    exists k :: 0 <= k < |out| && out[k].start == i
  }

  /** Blocks begin exactly at the indices whose predecessor was not asked for, so there is one
      for each. */
  lemma OnePerBlock(out: seq<Block>, indices: seq<int>)
    requires Blocks(out, indices)
    ensures forall i :: Begins(indices, i) <==> StartsAt(out, i)
    ensures forall k, m :: 0 <= k < m < |out| ==> out[k].start < out[m].start
  {
    forall i ensures Begins(indices, i) <==> StartsAt(out, i) {
      var before := i - 1;
      if StartsAt(out, i) {
        var k :| 0 <= k < |out| && out[k].start == i;
        assert InBlock(out[k], i);
        forall m | 0 <= m < |out| ensures !InBlock(out[m], before) {}
      }
      if Begins(indices, i) {
        var k :| 0 <= k < |out| && InBlock(out[k], i);
        var b := out[k];
        assert b.start != i ==> InBlock(b, before);
      }
    }
  }

  // ---- runs ---------------------------------------------------------------------------------

  ghost predicate InRun(r: Run, a: int) {
    r.at <= a < r.at + r.len
  }

  ghost predicate InRuns(runs: seq<Run>, a: int) {
    exists k :: 0 <= k < |runs| && InRun(runs[k], a)
  }

  /** Aligned at the front, never empty, never past the mapping. */
  ghost predicate WellFormed(r: Run, limit: Limit, page: nat)
    requires page > 0
  {
    r.at % page == 0 && r.len > 0 && (limit.Limit? ==> r.at + r.len <= limit.end)
  }

  ghost predicate BlockWanted(a: int, b: Block, rowBytes: nat, base: int, limit: Limit, page: nat)
    requires page > 0
  {
    && (limit.Limit? ==> a < limit.end)
    && PageTouches(a, base + b.start * rowBytes, base + (b.start + b.count) * rowBytes, page)
  }

  /** One block as a run, if any of it lies below the limit. */
  method RunOf(b: Block, rowBytes: nat, base: int, limit: Limit, page: nat) returns (runs: seq<Run>)
    requires page > 0 && rowBytes > 0 && b.count > 0
    ensures |runs| <= 1 && (limit.NoLimit? ==> |runs| == 1)
    ensures forall r :: r in runs ==> WellFormed(r, limit, page)
    ensures forall a :: InRuns(runs, a) <==> BlockWanted(a, b, rowBytes, base, limit, page)
  {
    hide FloorPage, CeilPage, PageTouches;
    var lo := base + b.start * rowBytes;
    var hi := base + (b.start + b.count) * rowBytes;
    BlockAligned(b, rowBytes, base, page);
    lo := FloorPage(lo, page);
    hi := CeilPage(hi, page);
    if limit.Limit? {
      if lo >= limit.end {
        return [];
      }
      hi := if hi < limit.end then hi else limit.end;
    }
    runs := [Run(lo, hi - lo)];
    forall a ensures InRuns(runs, a) <==> lo <= a < hi {
      assert InRun(runs[0], a) <==> lo <= a < hi;
    }
  }

  lemma BlockAligned(b: Block, rowBytes: nat, base: int, page: nat)
    requires page > 0 && rowBytes > 0 && b.count > 0
    ensures var lo, hi := base + b.start * rowBytes, base + (b.start + b.count) * rowBytes;
      && FloorPage(lo, page) % page == 0 && FloorPage(lo, page) < CeilPage(hi, page)
      && forall a :: PageTouches(a, lo, hi, page) <==> FloorPage(lo, page) <= a < CeilPage(hi, page)
  {
    hide FloorPage, CeilPage, PageTouches;
    var lo, hi := base + b.start * rowBytes, base + (b.start + b.count) * rowBytes;
    MulMono(b.start + 1, b.start + b.count, rowBytes);
    assert (b.start + 1) * rowBytes == b.start * rowBytes + rowBytes;
    forall a ensures PageTouches(a, lo, hi, page) <==> FloorPage(lo, page) <= a < CeilPage(hi, page) {
      AlignedIffTouches(a, lo, hi, page);
    }
    PagesAround(lo, hi, page);
  }

  lemma PagesAround(lo: int, hi: int, page: nat)
    requires page > 0 && lo < hi
    ensures FloorPage(lo, page) % page == 0 && FloorPage(lo, page) < CeilPage(hi, page)
  {
    DivBounds(lo, page);
    assert PageTouches(lo, lo, hi, page);
    AlignedIffTouches(lo, lo, hi, page);
    DivIs(FloorPage(lo, page), lo / page, page);
    DivBounds(FloorPage(lo, page), page);
  }

  /** Many rows, few runs: together they cover exactly the wanted addresses. */
  method Runs(indices: seq<int>, rowBytes: nat, base: int, limit: Limit, page: nat)
    returns (runs: seq<Run>, ghost out: seq<Block>)
    requires page > 0 && rowBytes > 0
    ensures forall a :: InRuns(runs, a) <==> Wanted(a, indices, rowBytes, base, limit, page)
    ensures forall r :: r in runs ==> WellFormed(r, limit, page)
    ensures Blocks(out, indices) && |runs| <= |out| && (limit.NoLimit? ==> |runs| == |out|)
  {
    hide PageTouches;
    var idx := SortedSet(indices);
    SortedSetOk(indices);
    runs, out := [], [];
    if idx == [] {
      NothingAsked(indices);
      assert Blocks(out, indices);
      return;
    }
    var blocks := Group(idx);
    out := blocks;
    assert Blocks(out, indices);
    for k := 0 to |blocks|
      invariant |runs| <= k && (limit.NoLimit? ==> |runs| == k)
      invariant forall r :: r in runs ==> WellFormed(r, limit, page)
      invariant forall a :: InRuns(runs, a) <==>
        exists m :: 0 <= m < k && BlockWanted(a, blocks[m], rowBytes, base, limit, page)
    {
      var more := RunOf(blocks[k], rowBytes, base, limit, page);
      forall a ensures InRuns(runs + more, a) <==> InRuns(runs, a) || InRuns(more, a) {
        RunsAppend(runs, more, a);
      }
      runs := runs + more;
    }
    forall a ensures InRuns(runs, a) <==> Wanted(a, indices, rowBytes, base, limit, page) {
      BlocksWanted(a, indices, blocks, rowBytes, base, limit, page);
    }
  }

  lemma NothingAsked(indices: seq<int>)
    requires forall y :: y in indices ==> y in SortedSet(indices)
    requires SortedSet(indices) == []
    ensures forall y :: y !in indices
  {}

  lemma RunsAppend(a: seq<Run>, b: seq<Run>, x: int)
    ensures InRuns(a + b, x) <==> InRuns(a, x) || InRuns(b, x)
  {
    if k :| 0 <= k < |a| && InRun(a[k], x) {
      assert (a + b)[k] == a[k];
    }
    if k :| 0 <= k < |b| && InRun(b[k], x) {
      assert (a + b)[|a| + k] == b[k];
    }
  }

  lemma BlocksWanted(a: int, indices: seq<int>, out: seq<Block>, rowBytes: nat, base: int, limit: Limit, page: nat)
    requires page > 0 && rowBytes > 0 && Blocks(out, indices)
    ensures Wanted(a, indices, rowBytes, base, limit, page) <==>
            exists m :: 0 <= m < |out| && BlockWanted(a, out[m], rowBytes, base, limit, page)
  {
    hide RowOnPage, PageTouches;
    forall m | 0 <= m < |out|
      ensures PageTouches(a, base + out[m].start * rowBytes, base + (out[m].start + out[m].count) * rowBytes, page) <==>
              exists i :: InBlock(out[m], i) && RowOnPage(a, i, rowBytes, base, page)
    {
      BlockIsRows(a, out[m].start, out[m].count, rowBytes, base, page);
    }
  }
}
