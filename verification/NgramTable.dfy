/** A memory-mapped gather table whose rows are hinted in before use and advised away after. */
module NgramTable {
  import opened PageRuns

  /** Rows, elements and bytes per row of a table tensor: the second axis counts the rows, the first
      the elements of one. */
  function RowShape(shape: seq<nat>, bytes: nat): (r: (nat, nat, nat))
    ensures |shape| >= 2 ==> r.0 == shape[1] && r.1 == shape[0]
    ensures |shape| == 1 ==> r.0 == 1 && r.1 == shape[0] && r.2 == bytes
    ensures r.0 == 0 ==> r.2 == bytes
    ensures r.0 > 0 ==> r.0 * r.2 <= bytes < r.0 * (r.2 + 1)
  {
    var rows := if |shape| > 1 then shape[1] else 1;
    var elems := if |shape| > 0 then shape[0] else 0;
    (rows, elems, if rows > 0 then bytes / rows else bytes)
  }

  /** Addresses on pages with a byte of a requested row. */
  ghost function Pages(indices: seq<int>, rowBytes: nat, base: int, end: int, page: nat): iset<int>
    requires page > 0
  {
    iset a | Wanted(a, indices, rowBytes, base, Limit(end), page)
  }

  ghost function RunAddresses(r: Run): iset<int> {
    iset a | InRun(r, a)
  }

  ghost function AllAddresses(runs: seq<Run>): iset<int> {
    iset a | InRuns(runs, a)
  }

  lemma RunsNext(runs: seq<Run>, k: nat)
    requires k < |runs|
    ensures AllAddresses(runs[..k + 1]) == AllAddresses(runs[..k]) + RunAddresses(runs[k])
  {
    assert runs[..k + 1] == runs[..k] + [runs[k]];
    forall a ensures InRuns(runs[..k + 1], a) <==> InRuns(runs[..k], a) || InRun(runs[k], a) {
      RunsAppend(runs[..k], [runs[k]], a);
      assert InRuns([runs[k]], a) <==> InRun([runs[k]][0], a);
    }
  }

  class Table {
    const page: nat
    const rowBytes: nat
    const base: int
    const end: int
    var mapped: bool
    var hintedBytes: int
    var releasedBytes: int
    /** Addresses hinted in and not advised away since; those among them whose release the system
        declined; and how often it declined a hint or a release. */
    ghost var hot: iset<int>
    ghost var stale: iset<int>
    ghost var declinedHints: nat
    ghost var declinedReleases: nat

    constructor (page: nat, rowBytes: nat, base: int, end: int)
      requires page > 0 && rowBytes > 0
      ensures Valid() && mapped && hot == iset{} && stale == iset{}
      ensures declinedHints == 0 && declinedReleases == 0
      ensures this.page == page && this.rowBytes == rowBytes && this.base == base && this.end == end
    {
      this.page, this.rowBytes, this.base, this.end := page, rowBytes, base, end;
      mapped, hintedBytes, releasedBytes := true, 0, 0;
      hot, stale, declinedHints, declinedReleases := iset{}, iset{}, 0, 0;
    }

    ghost predicate Valid() {
      page > 0 && rowBytes > 0
    }

    ghost function PagesOf(indices: seq<int>): iset<int>
      requires Valid()
    {
      Pages(indices, rowBytes, base, end, page)
    }

    /** Bring one run in, if the system agrees. */
    method PageHint(r: Run) returns (ok: bool)
      modifies `hot, `declinedHints
      ensures ok ==> hot == old(hot) + RunAddresses(r) && declinedHints == old(declinedHints)
      ensures !ok ==> hot == old(hot) && declinedHints == old(declinedHints) + 1
    {
      if * {
        hot, ok := hot + RunAddresses(r), true;
      } else {
        declinedHints, ok := declinedHints + 1, false;
      }
    }

    /** Let one run go, if the system agrees; what it keeps against the advice is stale. */
    method PageRelease(r: Run) returns (ok: bool)
      modifies `hot, `stale, `declinedReleases
      ensures ok ==> hot == old(hot) - RunAddresses(r) && stale == old(stale) - RunAddresses(r)
      ensures ok ==> declinedReleases == old(declinedReleases)
      ensures !ok ==> hot == old(hot) && stale == old(stale) + hot * RunAddresses(r)
      ensures !ok ==> declinedReleases == old(declinedReleases) + 1
    {
      if * {
        hot, stale, ok := hot - RunAddresses(r), stale - RunAddresses(r), true;
      } else {
        stale, declinedReleases, ok := stale + hot * RunAddresses(r), declinedReleases + 1, false;
      }
    }

    /** Nothing but the requested rows' pages comes in, and all of them unless a hint is declined. */
    method Prefetch(indices: seq<int>) returns (n: int)
      requires Valid()
      modifies `hot, `declinedHints, `hintedBytes
      ensures declinedHints >= old(declinedHints) && n >= 0 && hintedBytes == old(hintedBytes) + n
      ensures !mapped ==> n == 0 && hot == old(hot) && declinedHints == old(declinedHints)
      ensures old(hot) <= hot <= old(hot) + PagesOf(indices)
      ensures mapped && declinedHints == old(declinedHints) ==> hot == old(hot) + PagesOf(indices)
    {
      n := 0;
      if !mapped {
        return;
      }
      var runs, blocks := Runs(indices, rowBytes, base, Limit(end), page);
      assert AllAddresses(runs) == PagesOf(indices);
      assert AllAddresses(runs[..0]) == iset{};
      for k := 0 to |runs|
        invariant declinedHints >= old(declinedHints) && n >= 0 && hintedBytes == old(hintedBytes)
        invariant old(hot) <= hot <= old(hot) + AllAddresses(runs[..k])
        invariant declinedHints == old(declinedHints) ==> hot == old(hot) + AllAddresses(runs[..k])
      {
        hide AllAddresses, RunAddresses;
        RunsNext(runs, k);
        assert runs[k] in runs && runs[k].len > 0;
        var ok := PageHint(runs[k]);
        if ok {
          n := n + runs[k].len;
        }
      }
      assert runs[..|runs|] == runs;
      hintedBytes := hintedBytes + n;
    }

    /** Of the requested rows' pages only those stay whose release was declined, and no others go. */
    method Release(indices: seq<int>) returns (n: int)
      requires Valid()
      modifies `hot, `stale, `declinedReleases, `releasedBytes
      ensures declinedReleases >= old(declinedReleases) && n >= 0 && releasedBytes == old(releasedBytes) + n
      ensures !mapped ==> n == 0 && hot == old(hot) && stale == old(stale) && declinedReleases == old(declinedReleases)
      ensures old(hot) - PagesOf(indices) <= hot <= old(hot) && old(stale) - PagesOf(indices) <= stale
      ensures mapped ==> hot <= old(hot) - PagesOf(indices) + stale
      ensures mapped && declinedReleases == old(declinedReleases) ==>
        hot == old(hot) - PagesOf(indices) && stale == old(stale) - PagesOf(indices)
    {
      n := 0;
      if !mapped {
        return;
      }
      var runs, blocks := Runs(indices, rowBytes, base, Limit(end), page);
      assert AllAddresses(runs) == PagesOf(indices);
      assert AllAddresses(runs[..0]) == iset{};
      for k := 0 to |runs|
        invariant declinedReleases >= old(declinedReleases) && n >= 0 && releasedBytes == old(releasedBytes)
        invariant old(hot) - AllAddresses(runs[..k]) <= hot <= old(hot)
        invariant old(stale) - AllAddresses(runs[..k]) <= stale
        invariant hot <= old(hot) - AllAddresses(runs[..k]) + stale
        invariant declinedReleases == old(declinedReleases) ==>
          hot == old(hot) - AllAddresses(runs[..k]) && stale == old(stale) - AllAddresses(runs[..k])
      {
        hide AllAddresses, RunAddresses;
        RunsNext(runs, k);
        assert runs[k] in runs && runs[k].len > 0;
        var ok := PageRelease(runs[k]);
        if ok {
          n := n + runs[k].len;
        }
      }
      assert runs[..|runs|] == runs;
      releasedBytes := releasedBytes + n;
    }

    method Close()
      modifies `mapped
      ensures !mapped
    {
      mapped := false;
    }
  }

  /** Keeps the working set to the rows of the current step. */
  class Prefetcher {
    const table: Table
    const releasePrevious: bool
    var enabled: bool
    var prev: seq<int>
    var steps: nat
    var tokens: nat

    constructor (table: Table, releasePrevious: bool)
      requires table.Valid() && table.mapped && table.hot == iset{} && table.stale == iset{}
      ensures Valid() && this.table == table && this.releasePrevious == releasePrevious && enabled && prev == []
    {
      this.table, this.releasePrevious := table, releasePrevious;
      enabled, prev, steps, tokens := true, [], 0, 0;
      new;
      assert table.PagesOf([]) == iset{};
    }

    /** Beside the previous step's pages only those are in whose release was declined. */
    ghost predicate Valid()
      reads this, table
    {
      && table.Valid() && (table.declinedReleases == 0 ==> table.stale == iset{})
      && (releasePrevious && table.mapped ==> table.hot <= table.PagesOf(prev) + table.stale)
    }

    /** `idx` is whatever the model's index function says these tokens will read. A declined hint
        costs this step alone: the next one starts afresh. */
    method Step(nTokens: nat, idx: seq<int>)
      requires Valid()
      modifies this, table
      ensures Valid() && enabled == old(enabled) && table.mapped == old(table.mapped)
      ensures enabled ==> prev == idx && steps == old(steps) + 1 && tokens == old(tokens) + nTokens
      ensures !enabled ==> prev == old(prev) && table.hot == old(table.hot) && steps == old(steps)
      ensures table.declinedReleases == old(table.declinedReleases) ==> table.stale <= old(table.stale)
      ensures enabled && releasePrevious && table.mapped ==> table.hot <= table.PagesOf(idx) + table.stale
      ensures enabled && table.mapped && table.declinedHints == old(table.declinedHints) ==>
        table.PagesOf(idx) <= table.hot
      ensures (enabled && releasePrevious && table.mapped && table.declinedReleases == 0 &&
        table.declinedHints == old(table.declinedHints)) ==> table.hot == table.PagesOf(idx)
    {
      if !enabled {
        return;
      }
      if releasePrevious && prev != [] {
        var _ := table.Release(prev);
      } else {
        assert table.PagesOf([]) == iset{};
      }
      var _ := table.Prefetch(idx);
      prev := idx;
      steps := steps + 1;
      tokens := tokens + nTokens;
    }

    method Close()
      requires Valid()
      modifies this, table
      ensures Valid() && prev == [] && !table.mapped
      ensures old(table.mapped) && releasePrevious ==> table.hot <= table.stale
    {
      assert table.PagesOf([]) == iset{};
      if prev != [] {
        var _ := table.Release(prev);
        prev := [];
      }
      table.Close();
    }
  }
}
