/** The planner's choice of blocks to pin in RAM: smallest first, while the budget lasts. */
module WarmBlocks {
  import opened Orders
  import opened Quotients
  import opened Recency
  import opened Sorting

  function SizeOf(per: map<int, nat>): int -> int {
    b => if b in per then per[b] else 0
  }

  function Same(b: int): int {
    b
  }

  /** Bytes of all experts of all these blocks. */
  function Bytes(bs: seq<int>, per: map<int, nat>, nExperts: nat): nat {
    Total(bs, b => if b in per then per[b] * nExperts else 0)
  }

  lemma BytesNext(bs: seq<int>, b: int, per: map<int, nat>, nExperts: nat)
    requires b in per
    ensures Bytes(bs + [b], per, nExperts) == Bytes(bs, per, nExperts) + per[b] * nExperts
  {
    assert (bs + [b])[..|bs|] == bs;
  }

  ghost predicate BySize(order: seq<int>, per: map<int, nat>) {
    && (forall b :: b in order ==> b in per)
    && forall i, j :: 0 <= i < j < |order| && order[i] in per && order[j] in per ==> per[order[i]] <= per[order[j]]
  }

  // ---- a prefix in order of size is the cheapest set of its length ------------------------------

  lemma {:induction false} OnlyNoDup(s: seq<int>, keep: set<int>)
    requires NoDup(s)
    ensures NoDup(Only(s, keep))
  {
    if s != [] {
      OnlyNoDup(s[..|s| - 1], keep);
    }
  }

  lemma {:induction false} PrefixIsCheapest(order: seq<int>, pick: set<int>, per: map<int, nat>, nExperts: nat)
    requires BySize(order, per)
    ensures var k := |Only(order, pick)|;
      k <= |order| && Bytes(order[..k], per, nExperts) <= Bytes(Only(order, pick), per, nExperts)
  {
    hide Bytes;
    if order == [] {
      NoBytes(order, per, nExperts);
    } else {
      var p, x := order[..|order| - 1], order[|order| - 1];
      var k := |Only(p, pick)|;
      SmallerBySize(order, per);
      PrefixIsCheapest(p, pick, per, nExperts);
      assert p[..k] == order[..k];
      if x in pick {
        OneMore(order, Only(p, pick), per, nExperts);
      }
    }
  }

  lemma SmallerBySize(order: seq<int>, per: map<int, nat>)
    requires order != [] && BySize(order, per)
    ensures BySize(order[..|order| - 1], per)
  {
    assert forall b :: b in order[..|order| - 1] ==> b in order;
  }

  /** Adding the largest block to a set costs at least what the next in order of size does. */
  lemma OneMore(order: seq<int>, sub: seq<int>, per: map<int, nat>, nExperts: nat)
    requires BySize(order, per) && |sub| < |order|
    requires Bytes(order[..|sub|], per, nExperts) <= Bytes(sub, per, nExperts)
    ensures Bytes(order[..|sub| + 1], per, nExperts) <= Bytes(sub + [order[|order| - 1]], per, nExperts)
  {
    hide Bytes;
    var k, x := |sub|, order[|order| - 1];
    var y := order[k];
    assert x in order && y in order;
    assert per[y] <= per[x];
    assert order[..k + 1] == order[..k] + [y];
    BytesNext(order[..k], y, per, nExperts);
    BytesNext(sub, x, per, nExperts);
    MulMono(per[y], per[x], nExperts);
  }

  lemma {:induction false} BytesGrow(order: seq<int>, i: nat, j: nat, per: map<int, nat>, nExperts: nat)
    requires i <= j <= |order|
    ensures Bytes(order[..i], per, nExperts) <= Bytes(order[..j], per, nExperts)
    decreases j - i
  {
    if i < j {
      BytesGrow(order, i, j - 1, per, nExperts);
      assert order[..j][..j - 1] == order[..j - 1];
    }
  }

  // ---- the choice -------------------------------------------------------------------------------

  /** The prefix the budget covers: it fits, and one more block would not. */
  ghost predicate Affordable(order: seq<int>, k: int, per: map<int, nat>, nExperts: nat, budget: nat) {
    && 0 <= k <= |order| && Bytes(order[..k], per, nExperts) <= budget
    && (k < |order| ==> Bytes(order[..k + 1], per, nExperts) > budget)
  }

  /** Skipping blocks that do not fit changes nothing once they come in order of size. */
  method TakeWhileAffordable(order: seq<int>, per: map<int, nat>, nExperts: nat, budget: nat)
    returns (out: seq<int>, used: nat)
    requires BySize(order, per)
    ensures exists k :: Affordable(order, k, per, nExperts, budget) && out == order[..k]
    ensures used == Bytes(out, per, nExperts)
  {
    hide Bytes;
    out, used := [], 0;
    ghost var k := 0;
    NoBytes(order, per, nExperts);
    for i := 0 to |order|
      invariant k <= i && out == order[..k] && used == Bytes(out, per, nExperts) <= budget
      invariant k < i ==> Bytes(order[..k + 1], per, nExperts) > budget
    {
      var b := order[i];
      assert b in order;
      var n := per[b] * nExperts;
      BytesNext(out, b, per, nExperts);
      assert k < i ==> used + n > budget by {
        if k < i {
          var first := order[k];
          assert first in order && per[first] <= per[b];
          assert order[..k + 1] == order[..k] + [first];
          BytesNext(order[..k], first, per, nExperts);
          MulMono(per[first], per[b], nExperts);
        }
      }
      if used + n <= budget {
        assert order[..i + 1] == out + [b];
        out, used := out + [b], used + n;
        k := k + 1;
      } else if k == i {
        assert order[..i + 1] == out + [b];
      }
    }
    assert Affordable(order, k, per, nExperts, budget);
  }

  lemma NoBytes(order: seq<int>, per: map<int, nat>, nExperts: nat)
    ensures order[..0] == [] && Bytes([], per, nExperts) == 0
  {}

  /** `sorted` over the block table, stable in the order its keys are listed. */
  lemma SizeOrder(listed: seq<int>, per: map<int, nat>)
    requires NoDup(listed) && Elems(listed) == per.Keys
    ensures var order := SortBy(listed, SizeOf(per));
      NoDup(order) && BySize(order, per) && forall b :: b in order <==> b in per
  {
    var order := SortBy(listed, SizeOf(per));
    SortOrdered(listed, SizeOf(per));
    SortKeeps(listed, SizeOf(per));
    SortDistinct(listed, SizeOf(per));
    assert forall b :: b in listed <==> b in Elems(listed);
    forall i, j | 0 <= i < j < |order| && order[i] in per && order[j] in per ensures per[order[i]] <= per[order[j]] {
      assert SizeOf(per)(order[i]) <= SizeOf(per)(order[j]);
    }
  }

  ghost predicate Chosen(out: seq<int>, listed: seq<int>, per: map<int, nat>, nExperts: nat, budget: int) {
    if budget <= 0 then out == []
    else
      var order := SortBy(listed, SizeOf(per));
      exists k :: Affordable(order, k, per, nExperts, budget) && out == SortBy(order[..k], Same)
  }

  /** Distinct blocks that together fit the budget. */
  ghost predicate Fits(bs: seq<int>, per: map<int, nat>, nExperts: nat, budget: int) {
    NoDup(bs) && (forall b :: b in bs ==> b in per) && Bytes(bs, per, nExperts) <= budget
  }

  /** Choose whole blocks within a budget in bytes. `listed` is the order of the table's keys.
      The choice fits and no choice that fits holds more blocks. */
  method SelectWarmBlocks(listed: seq<int>, per: map<int, nat>, nExperts: nat, budget: int) returns (out: seq<int>)
    requires NoDup(listed) && Elems(listed) == per.Keys
    ensures budget >= 0 ==> Fits(out, per, nExperts, budget)
    ensures budget > 0 ==> forall bs :: Fits(bs, per, nExperts, budget) ==> |bs| <= |out|
    ensures budget <= 0 ==> out == []
    ensures forall i, j :: 0 <= i < j < |out| ==> out[i] < out[j]
    ensures Chosen(out, listed, per, nExperts, budget)
    ensures forall i, j :: PutBefore(listed, per, i, j) && listed[j] in out ==> listed[i] in out
  {
    if budget <= 0 {
      NoBytes([], per, nExperts);
      return [];
    }
    var order := SortBy(listed, SizeOf(per));
    SizeOrder(listed, per);
    var chosen, used := TakeWhileAffordable(order, per, nExperts, budget);
    out := SortBy(chosen, Same);
    SortOrdered(chosen, Same);
    ghost var k :| Affordable(order, k, per, nExperts, budget) && chosen == order[..k];
    ChoiceFits(order, k, out, per, nExperts, budget);
    forall bs | Fits(bs, per, nExperts, budget) ensures |bs| <= |out| {
      NothingLarger(order, k, bs, per, nExperts, budget);
    }
    SortKeeps(chosen, Same);
    Ascending(out);
    forall i, j | PutBefore(listed, per, i, j) && listed[j] in out ensures listed[i] in out {
      PrefersSmaller(listed, per, i, j, k);
    }
  }

  lemma Ascending(out: seq<int>)
    requires NoDup(out) && Ordered(out, Same)
    ensures forall i, j :: 0 <= i < j < |out| ==> out[i] < out[j]
  {
    forall i, j | 0 <= i < j < |out| ensures out[i] < out[j] {
      assert Same(out[i]) <= Same(out[j]);
    }
  }

  /** The block listed at `i` is smaller than the one at `j`, or as large and listed earlier. */
  ghost predicate PutBefore(listed: seq<int>, per: map<int, nat>, i: int, j: int) {
    && 0 <= i < |listed| && 0 <= j < |listed| && listed[i] in per && listed[j] in per
    && (per[listed[i]] < per[listed[j]] || (per[listed[i]] == per[listed[j]] && i < j))
  }

  /** Smaller blocks come first, and equal ones in the order they are listed. */
  lemma PrefersSmaller(listed: seq<int>, per: map<int, nat>, i: int, j: int, k: int)
    requires NoDup(listed) && Elems(listed) == per.Keys && PutBefore(listed, per, i, j)
    requires var order := SortBy(listed, SizeOf(per));
      0 <= k <= |order| && listed[j] in order[..k]
    ensures listed[i] in SortBy(listed, SizeOf(per))[..k]
  {
    var order, x, y := SortBy(listed, SizeOf(per)), listed[i], listed[j];
    SizeOrder(listed, per);
    hide SortBy;
    if per[x] == per[y] {
      assert SizeOf(per)(x) == SizeOf(per)(y);
      SortedPrefix(listed, SizeOf(per), i, j, k);
    } else {
      assert x in order;
      var a :| 0 <= a < |order| && order[a] == x;
      var b :| 0 <= b < |order[..k]| && order[..k][b] == y;
      assert order[b] == y;
      assert order[..k][a] == x;
    }
  }

  lemma ChoiceFits(order: seq<int>, k: int, out: seq<int>, per: map<int, nat>, nExperts: nat, budget: nat)
    requires NoDup(order) && BySize(order, per) && Affordable(order, k, per, nExperts, budget)
    requires out == SortBy(order[..k], Same)
    ensures Fits(out, per, nExperts, budget) && |out| == k
  {
    hide Bytes;
    SortDistinct(order[..k], Same);
    SortKeeps(order[..k], Same);
    SameBytes(out, order[..k], per, nExperts);
    assert forall b :: b in order[..k] ==> b in order;
  }

  lemma NothingLarger(order: seq<int>, k: int, bs: seq<int>, per: map<int, nat>, nExperts: nat, budget: nat)
    requires NoDup(order) && BySize(order, per) && (forall b :: b in order <==> b in per)
    requires Affordable(order, k, per, nExperts, budget) && Fits(bs, per, nExperts, budget)
    ensures |bs| <= k
  {
    hide Bytes;
    var sub := Only(order, Elems(bs));
    OnlyNoDup(order, Elems(bs));
    SameDistinct(sub, bs);
    SameBytes(sub, bs, per, nExperts);
    PrefixIsCheapest(order, Elems(bs), per, nExperts);
    if |bs| > k {
      BytesGrow(order, k + 1, |bs|, per, nExperts);
    }
  }

  /** Two listings of the same distinct elements. */
  lemma SameDistinct(a: seq<int>, b: seq<int>)
    requires NoDup(a) && NoDup(b) && forall x :: x in a <==> x in b
    ensures multiset(a) == multiset(b) && |a| == |b|
  {
    forall x ensures multiset(a)[x] == multiset(b)[x] {
      OnceInMultiset(a, x);
      OnceInMultiset(b, x);
      assert x in multiset(a) <==> x in a;
      assert x in multiset(b) <==> x in b;
    }
    assert multiset(a) == multiset(b);
    assert |multiset(a)| == |a| && |multiset(b)| == |b|;
  }

  /** A larger budget pins everything a smaller one does. */
  lemma BudgetMonotone(listed: seq<int>, per: map<int, nat>, nExperts: nat, small: int, big: int,
                       outS: seq<int>, outB: seq<int>)
    requires NoDup(listed) && Elems(listed) == per.Keys && small <= big
    requires Chosen(outS, listed, per, nExperts, small) && Chosen(outB, listed, per, nExperts, big)
    ensures forall b :: b in outS ==> b in outB
  {
    hide Bytes, SortBy, NoDup;
    if small > 0 {
      var order := SortBy(listed, SizeOf(per));
      var i :| Affordable(order, i, per, nExperts, small) && outS == SortBy(order[..i], Same);
      var j :| Affordable(order, j, per, nExperts, big) && outB == SortBy(order[..j], Same);
      LongerPrefix(order, i, j, per, nExperts, small, big);
      SortKeeps(order[..i], Same);
      SortKeeps(order[..j], Same);
    }
  }

  lemma LongerPrefix(order: seq<int>, i: int, j: int, per: map<int, nat>, nExperts: nat, small: nat, big: nat)
    requires small <= big && Affordable(order, i, per, nExperts, small) && Affordable(order, j, per, nExperts, big)
    ensures 0 <= i <= j <= |order| && forall b :: b in order[..i] ==> b in order[..j]
  {
    hide Bytes;
    if i > j {
      BytesGrow(order, j + 1, i, per, nExperts);
      assert false;
    }
    assert order[..i] == order[..j][..i];
  }

  lemma {:induction false} SameBytes(a: seq<int>, b: seq<int>, per: map<int, nat>, nExperts: nat)
    requires multiset(a) == multiset(b)
    ensures Bytes(a, per, nExperts) == Bytes(b, per, nExperts)
    decreases |a|
  {
    if a == [] {
      assert |multiset(b)| == 0;
      assert b == [];
    } else {
      var p, x := a[..|a| - 1], a[|a| - 1];
      assert a == p + [x];
      assert x in multiset(b);
      var i :| 0 <= i < |b| && b[i] == x;
      var l, r := b[..i], b[i + 1..];
      assert b == l + [x] + r;
      assert multiset(l + r) == multiset(b) - multiset{x};
      assert multiset(p) == multiset(a) - multiset{x};
      SameBytes(p, l + r, per, nExperts);
      BytesAppend(l, [x], per, nExperts);
      BytesAppend(l + [x], r, per, nExperts);
      BytesAppend(l, r, per, nExperts);
      BytesAppend(p, [x], per, nExperts);
    }
  }

  lemma BytesAppend(a: seq<int>, b: seq<int>, per: map<int, nat>, nExperts: nat)
    ensures Bytes(a + b, per, nExperts) == Bytes(a, per, nExperts) + Bytes(b, per, nExperts)
  {
    TotalAppend(a, b, b => if b in per then per[b] * nExperts else 0);
  }
}
