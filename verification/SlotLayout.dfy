/** Sizing the per-block pools, and where each role's bytes sit inside them. */
module SlotLayout {
  import opened Gpu
  import opened Quotients

  function Max(a: int, b: int): int { if a >= b then a else b }

  function Min(a: int, b: int): int { if a <= b then a else b }

  /** Bytes of one expert in the largest of the named blocks. */
  function Biggest(blocks: seq<int>, per: map<int, nat>): (m: nat)
    requires forall b :: b in blocks ==> b in per
    ensures forall b :: b in blocks ==> per[b] <= m
    ensures blocks != [] ==> exists b :: b in blocks && per[b] == m
  {
    if blocks == [] then 0
    else
      assert blocks[0] in blocks && forall b :: b in blocks <==> b == blocks[0] || b in blocks[1..];
      var rest := Biggest(blocks[1..], per);
      if per[blocks[0]] >= rest then per[blocks[0]] else rest
  }

  /** Slots each pool gets: an even split by count, never more than there are experts. */
  function SlotsEach(capacity: int, biggest: nat, nBlocks: nat, nExperts: nat): nat
    requires biggest > 0 && nBlocks > 0
  {
    Max(0, Min(capacity / (biggest * nBlocks), nExperts))
  }

  /** The prefetch reserve, clamped so that `live` experts always fit beside it. */
  function ReserveFor(wanted: int, slots: nat, live: nat): nat {
    Max(0, Min(wanted, slots - live))
  }

  /** As many slots in every block as the budget covers, up to one per expert. */
  ghost predicate MostSlots(n: nat, capacity: int, biggest: nat, nBlocks: nat, nExperts: nat) {
    var unit := biggest * nBlocks;
    n <= nExperts && (n > 0 ==> n * unit <= capacity) && (n < nExperts ==> capacity < (n + 1) * unit)
  }

  lemma SlotsAreMost(capacity: int, biggest: nat, nBlocks: nat, nExperts: nat)
    requires biggest > 0 && nBlocks > 0
    ensures MostSlots(SlotsEach(capacity, biggest, nBlocks, nExperts), capacity, biggest, nBlocks, nExperts)
  {
    var unit := biggest * nBlocks;
    var q, n := capacity / unit, SlotsEach(capacity, biggest, nBlocks, nExperts);
    DivBounds(capacity, unit);
    assert (q + 1) * unit == q * unit + unit;
    if n > 0 {
      MulMono(n, q, unit);
    }
    if n < nExperts {
      MulMono(q + 1, n + 1, unit);
    }
  }

  /** What was asked for, cut to what leaves room for `live` experts and no further. */
  ghost predicate MostReserve(r: nat, wanted: int, slots: nat, live: nat) {
    (r == 0 || (r <= wanted && r + live <= slots)) && (r < wanted ==> r + live >= slots)
  }

  lemma ReserveIsMost(wanted: int, slots: nat, live: nat)
    ensures MostReserve(ReserveFor(wanted, slots, live), wanted, slots, live)
  {}

  /** Bytes the pools of the first blocks occupy together. */
  function PoolBytes(blocks: seq<int>, per: map<int, nat>, slots: nat): nat
    requires forall b :: b in blocks ==> b in per
  {
    if blocks == [] then 0
    else
      var b := blocks[0];
      assert b in blocks;
      per[b] * slots + PoolBytes(blocks[1..], per, slots)
  }

  lemma OneMore(a: nat, n: nat)
    requires n > 0
    ensures a * n == a * (n - 1) + a
  {}

  lemma {:induction false} PoolBytesBound(blocks: seq<int>, per: map<int, nat>, slots: nat, biggest: nat)
    requires forall b :: b in blocks ==> b in per && per[b] <= biggest
    ensures PoolBytes(blocks, per, slots) <= biggest * slots * |blocks|
  {
    if blocks != [] {
      PoolBytesBound(blocks[1..], per, slots, biggest);
      var b := blocks[0];
      assert b in blocks;
      MulMono(per[b], biggest, slots);
      OneMore(biggest * slots, |blocks|);
    }
  }

  /** Whatever the blocks and the budget, the pools together fit the budget. */
  lemma PoolsFitCapacity(blocks: seq<int>, per: map<int, nat>, capacity: nat, nExperts: nat)
    requires blocks != [] && forall b :: b in blocks ==> b in per && per[b] > 0
    ensures PoolBytes(blocks, per, SlotsEach(capacity, Biggest(blocks, per), |blocks|, nExperts)) <= capacity
  {
    var m := Biggest(blocks, per);
    var n := SlotsEach(capacity, m, |blocks|, nExperts);
    PoolBytesBound(blocks, per, n, m);
    var unit := m * |blocks|;
    assert blocks[0] in blocks && m > 0;
    DivFloor(capacity, m, |blocks|);
    MulMono(n, capacity / unit, unit);
    MulSwap(m, n, |blocks|);
  }

  lemma DivFloor(capacity: nat, m: nat, k: nat)
    requires m > 0 && k > 0
    ensures m * k > 0 && 0 <= capacity / (m * k) && (m * k) * (capacity / (m * k)) <= capacity
  {}

  lemma MulSwap(a: int, b: int, c: int)
    ensures a * b * c == a * c * b
  {}

  // ---- inside a pool ------------------------------------------------------------------

  /** Byte offset of each role inside a slot: gate, up, down back to back. */
  function RoleOffset(sizes: seq<nat>, role: nat): nat
    requires role <= |sizes|
  {
    if role == 0 then 0 else RoleOffset(sizes, role - 1) + sizes[role - 1]
  }

  function SlotBytes(sizes: seq<nat>): nat {
    RoleOffset(sizes, |sizes|)
  }

  function CellStart(sizes: seq<nat>, slot: nat, role: nat): nat
    requires role <= |sizes|
  {
    slot * SlotBytes(sizes) + RoleOffset(sizes, role)
  }

  lemma {:induction false} RoleOffsetMono(sizes: seq<nat>, a: nat, b: nat)
    requires a <= b <= |sizes|
    ensures RoleOffset(sizes, a) <= RoleOffset(sizes, b)
    ensures a < b ==> RoleOffset(sizes, a) + sizes[a] <= RoleOffset(sizes, b)
    decreases b
  {
    if a < b {
      RoleOffsetMono(sizes, a, b - 1);
    }
  }

  /** Slots before slot `t` end where slot `t` begins. */
  lemma SlotsAreDisjoint(bytes: nat, s: nat, t: nat)
    requires s < t
    ensures s * bytes + bytes <= t * bytes
  {
    MulMono(s + 1, t, bytes);
    assert (s + 1) * bytes == s * bytes + bytes;
  }

  lemma CellInside(sizes: seq<nat>, nSlots: nat, s: nat, r: nat)
    requires s < nSlots && r < |sizes|
    ensures s * SlotBytes(sizes) <= CellStart(sizes, s, r)
    ensures CellStart(sizes, s, r) + sizes[r] <= s * SlotBytes(sizes) + SlotBytes(sizes) <= nSlots * SlotBytes(sizes)
  {
    RoleOffsetMono(sizes, r, |sizes|);
    SlotsAreDisjoint(SlotBytes(sizes), s, nSlots);
  }

  /** Different cells of a pool never share a byte, and no cell leaves the pool. */
  lemma CellsAreDisjoint(sizes: seq<nat>, nSlots: nat, s: nat, r: nat, t: nat, q: nat)
    requires s < nSlots && t < nSlots && r < |sizes| && q < |sizes|
    requires s != t || r != q
    ensures CellStart(sizes, s, r) + sizes[r] <= nSlots * SlotBytes(sizes)
    ensures CellStart(sizes, s, r) + sizes[r] <= CellStart(sizes, t, q)
         || CellStart(sizes, t, q) + sizes[q] <= CellStart(sizes, s, r)
  {
    CellInside(sizes, nSlots, s, r);
    CellInside(sizes, nSlots, t, q);
    if s < t {
      SlotsAreDisjoint(SlotBytes(sizes), s, t);
    } else if t < s {
      SlotsAreDisjoint(SlotBytes(sizes), t, s);
    } else if r < q {
      RoleOffsetMono(sizes, r, q);
    } else {
      RoleOffsetMono(sizes, q, r);
    }
  }

  /** A transfer of `data` to byte `at` of a pool image. */
  function Blit(mem: seq<byte>, at: nat, data: seq<byte>): (r: seq<byte>)
    requires at + |data| <= |mem|
    ensures |r| == |mem|
  {
    mem[..at] + data + mem[at + |data|..]
  }

  /** The staged image: the roles' bytes concatenated. */
  function Concat(parts: seq<seq<byte>>): seq<byte> {
    if parts == [] then [] else Concat(parts[..|parts| - 1]) + parts[|parts| - 1]
  }

  ghost predicate Sized(parts: seq<seq<byte>>, sizes: seq<nat>) {
    |parts| == |sizes| && forall r :: 0 <= r < |parts| ==> |parts[r]| == sizes[r]
  }

  lemma {:induction false} ConcatSize(parts: seq<seq<byte>>, sizes: seq<nat>, n: nat)
    requires Sized(parts, sizes) && n <= |parts|
    ensures |Concat(parts[..n])| == RoleOffset(sizes, n)
  {
    if n > 0 {
      ConcatSize(parts, sizes, n - 1);
      assert parts[..n][..n - 1] == parts[..n - 1];
    }
  }

  /** Role-by-role transfers into the slot starting at byte `base`. */
  function BlitRoles(mem: seq<byte>, base: nat, parts: seq<seq<byte>>, sizes: seq<nat>, n: nat): (r: seq<byte>)
    requires Sized(parts, sizes) && n <= |parts| && base + RoleOffset(sizes, n) <= |mem|
    ensures |r| == |mem|
  {
    if n == 0 then mem
    else
      Blit(BlitRoles(mem, base, parts, sizes, n - 1), base + RoleOffset(sizes, n - 1), parts[n - 1])
  }

  lemma BlitTwice(mem: seq<byte>, base: nat, a: seq<byte>, b: seq<byte>)
    requires base + |a| + |b| <= |mem|
    ensures Blit(Blit(mem, base, a), base + |a|, b) == Blit(mem, base, a + b)
  {}

  /** One contiguous staged transfer and the role-by-role direct transfers leave the
      identical slot image. */
  lemma {:induction false} StagedEqualsDirect(mem: seq<byte>, base: nat, parts: seq<seq<byte>>, sizes: seq<nat>, n: nat)
    requires Sized(parts, sizes) && n <= |parts| && base + RoleOffset(sizes, n) <= |mem|
    ensures |Concat(parts[..n])| == RoleOffset(sizes, n)
    ensures BlitRoles(mem, base, parts, sizes, n) == Blit(mem, base, Concat(parts[..n]))
  {
    ConcatSize(parts, sizes, n);
    if n == 0 {
      assert Blit(mem, base, []) == mem;
    } else {
      StagedEqualsDirect(mem, base, parts, sizes, n - 1);
      assert parts[..n][..n - 1] == parts[..n - 1];
      BlitTwice(mem, base, Concat(parts[..n - 1]), parts[n - 1]);
    }
  }

  /** Every part of a transfer into a slot ends up where its role is read: at its own cell. */
  lemma RolesLand(mem: seq<byte>, parts: seq<seq<byte>>, sizes: seq<nat>, nSlots: nat, slot: nat, r: nat,
                  base: nat, at: nat)
    requires Sized(parts, sizes) && |mem| == nSlots * SlotBytes(sizes) && slot < nSlots && r < |sizes|
    requires base == slot * SlotBytes(sizes) && at == CellStart(sizes, slot, r)
    ensures
      && base + SlotBytes(sizes) <= |mem| && at + sizes[r] <= |mem|
      && BlitRoles(mem, base, parts, sizes, |sizes|)[at..at + sizes[r]] == parts[r]
      && |Concat(parts)| == SlotBytes(sizes)
      && Blit(mem, base, Concat(parts))[at..at + sizes[r]] == parts[r]
  {
    hide *;
    CellInside(sizes, nSlots, slot, r);
    StartOfCell(sizes, slot, r);
    RolesLandAt(mem, base, parts, sizes, r);
  }

  lemma StartOfCell(sizes: seq<nat>, slot: nat, r: nat)
    requires r < |sizes|
    ensures CellStart(sizes, slot, r) == slot * SlotBytes(sizes) + RoleOffset(sizes, r)
  {}

  lemma RolesLandAt(mem: seq<byte>, base: nat, parts: seq<seq<byte>>, sizes: seq<nat>, r: nat)
    requires Sized(parts, sizes) && r < |sizes| && base + SlotBytes(sizes) <= |mem|
    ensures var at := base + RoleOffset(sizes, r);
      && at + sizes[r] <= |mem| && BlitRoles(mem, base, parts, sizes, |sizes|)[at..at + sizes[r]] == parts[r]
      && |Concat(parts)| == SlotBytes(sizes) && Blit(mem, base, Concat(parts))[at..at + sizes[r]] == parts[r]
  {
    hide Concat, Blit, BlitRoles, RoleOffset;
    RoleLands(mem, base, parts, sizes, |sizes|, r);
    StagedEqualsDirect(mem, base, parts, sizes, |sizes|);
    assert parts[..|sizes|] == parts;
  }

  lemma {:induction false} RoleLands(mem: seq<byte>, base: nat, parts: seq<seq<byte>>, sizes: seq<nat>, n: nat, r: nat)
    requires Sized(parts, sizes) && r < n <= |parts| && base + RoleOffset(sizes, n) <= |mem|
    ensures var at := base + RoleOffset(sizes, r);
      at + sizes[r] <= |mem| && BlitRoles(mem, base, parts, sizes, n)[at..at + sizes[r]] == parts[r]
    decreases n
  {
    hide Blit;
    RoleOffsetMono(sizes, r, n);
    var at, last := base + RoleOffset(sizes, r), base + RoleOffset(sizes, n - 1);
    var before := BlitRoles(mem, base, parts, sizes, n - 1);
    if r == n - 1 {
      BlitRead(before, last, parts[r], at, sizes[r]);
    } else {
      RoleLands(mem, base, parts, sizes, n - 1, r);
      RoleOffsetMono(sizes, r, n - 1);
      BlitElsewhere(before, last, parts[n - 1], at, sizes[r]);
    }
  }

  /** Inside a slot: gate first, then up, then down. */
  lemma GateUpDown(gate: nat, up: nat, down: nat, slot: nat)
    ensures var sizes, start := [gate, up, down], slot * (gate + up + down);
      && SlotBytes(sizes) == gate + up + down
      && CellStart(sizes, slot, 0) == start
      && CellStart(sizes, slot, 1) == start + gate
      && CellStart(sizes, slot, 2) == start + gate + up
  {
    var sizes := [gate, up, down];
    assert RoleOffset(sizes, 1) == gate;
    assert RoleOffset(sizes, 2) == gate + up;
    assert RoleOffset(sizes, 3) == gate + up + down;
  }

  /** A cell reads back what its own transfer wrote, and no other transfer touches it:
      the pool's bytes behave like independent cells. */
  lemma BlitReadsBack(mem: seq<byte>, sizes: seq<nat>, nSlots: nat, s: nat, r: nat, t: nat, q: nat, data: seq<byte>)
    requires |mem| == nSlots * SlotBytes(sizes) && s < nSlots && t < nSlots && r < |sizes| && q < |sizes|
    requires |data| == sizes[r]
    ensures CellStart(sizes, s, r) + sizes[r] <= |mem| && CellStart(sizes, t, q) + sizes[q] <= |mem|
    ensures Blit(mem, CellStart(sizes, s, r), data)[CellStart(sizes, t, q)..CellStart(sizes, t, q) + sizes[q]]
         == if s == t && r == q then data else mem[CellStart(sizes, t, q)..CellStart(sizes, t, q) + sizes[q]]
  {
    CellInside(sizes, nSlots, s, r);
    CellInside(sizes, nSlots, t, q);
    var a, c := CellStart(sizes, s, r), CellStart(sizes, t, q);
    var after := Blit(mem, a, data);
    if s != t || r != q {
      CellsAreDisjoint(sizes, nSlots, s, r, t, q);
    }
    if s == t && r == q {
      BlitRead(mem, a, data, c, sizes[q]);
    } else {
      BlitElsewhere(mem, a, data, c, sizes[q]);
    }
  }

  lemma BlitRead(mem: seq<byte>, at: nat, data: seq<byte>, c: nat, n: nat)
    requires at + |data| <= |mem| && c == at && n == |data|
    ensures Blit(mem, at, data)[c..c + n] == data
  {}

  lemma BlitElsewhere(mem: seq<byte>, at: nat, data: seq<byte>, c: nat, n: nat)
    requires at + |data| <= |mem| && c + n <= |mem| && (c + n <= at || at + |data| <= c)
    ensures Blit(mem, at, data)[c..c + n] == mem[c..c + n]
  {
    var part, was := Blit(mem, at, data)[c..c + n], mem[c..c + n];
    forall i | 0 <= i < n ensures part[i] == was[i] {
      BlitAt(mem, at, data, c + i);
    }
  }

  lemma BlitAt(mem: seq<byte>, at: nat, data: seq<byte>, i: nat)
    requires at + |data| <= |mem| && i < |mem|
    ensures Blit(mem, at, data)[i] == if at <= i < at + |data| then data[i - at] else mem[i]
  {}
}
