/** The tier over a real bank: what the kernels read are byte ranges of the model's own files. */
module BankWeights {
  import opened Gpu
  import opened HotTier
  import B = ExpertBank
  import R = ExpertRanges
  import X = Executor

  /** The byte range of one expert's role in its shard. */
  ghost function FileRange(bank: B.Bank, block: int, expert: int, r: B.Role): seq<byte>
    requires bank.Described()
  {
    var k := B.Key(block, r);
    if expert >= 0 && k in bank.desc then B.ExpertBytes(bank.FileOf(k), bank.desc[k], expert) else []
  }

  /** What the tier copies: roles are numbered in the bank's order. */
  ghost function WeightsOf(bank: B.Bank): Weights
    requires bank.Described()
  {
    (block: int, expert: int, role: nat) =>
      if role < |B.ROLES| then FileRange(bank, block, expert, B.ROLES[role]) else []
  }

  /** Expert `e` of tensor `k` lies inside its shard. */
  ghost predicate InShard(bank: B.Bank, k: B.Key, e: int)
    requires bank.Described()
  {
    k in bank.desc && e >= 0 &&
      var d := bank.desc[k];
      d.offset + e * d.per + d.per <= |bank.handles[d.shard].data|
  }

  /** These are expert `e`'s own bytes: its slice of the shard, counted from the tensor's offset. */
  ghost predicate OwnSlice(bank: B.Bank, k: B.Key, e: int, data: seq<byte>)
    requires bank.Described() && InShard(bank, k, e)
  {
    var d := bank.desc[k];
    var start := d.offset + e * d.per;
    data == bank.handles[d.shard].data[start..start + d.per]
  }

  lemma RangeIsOwn(bank: B.Bank, k: B.Key, e: int)
    requires bank.Described() && InShard(bank, k, e)
    ensures OwnSlice(bank, k, e, FileRange(bank, k.block, e, k.role))
  {
    assert k == B.Key(k.block, k.role);
  }

  /** A read of expert `e` of tensor `k` answers with its own bytes, if its shard has them. */
  ghost predicate Answers(bank: B.Bank, k: B.Key, e: int, data: seq<byte>, ok: bool)
    requires bank.Described() && k in bank.desc
  {
    && (ok <==> InShard(bank, k, e) || bank.desc[k].per == 0)
    && (ok ==> |data| == bank.desc[k].per && (InShard(bank, k, e) ==> OwnSlice(bank, k, e, data)))
  }

  /** A read through the bank answers with the file range, from whatever backing; only a file
      that is too short for the expert stands in its way. */
  method Fetch(bank: B.Bank, block: int, expert: int, role: nat) returns (data: seq<byte>, ok: bool)
    requires bank.Ready() && block in bank.blocks && 0 <= expert < bank.nExperts && role < ROLES
    modifies bank.handles.Values
    ensures role == 0 ==> Answers(bank, B.Key(block, B.Gate), expert, data, ok)
    ensures role == 1 ==> Answers(bank, B.Key(block, B.Up), expert, data, ok)
    ensures role == 2 ==> Answers(bank, B.Key(block, B.Down), expert, data, ok)
    ensures ok ==> data == WeightsOf(bank)(block, expert, role)
  {
    var k := B.Key(block, B.ROLES[role]);
    var r := bank.Slice(block, expert, B.ROLES[role]);
    ok := r.Bytes?;
    data := if ok then r.data else [];
    if InShard(bank, k, expert) {
      RangeIsOwn(bank, k, expert);
    }
  }

  // ---- under every schedule ------------------------------------------------------------------

  /** The read a kernel load must deliver. */
  ghost predicate DeliversRange(rd: Read, op: Op, bank: B.Bank)
    requires bank.Described()
  {
    && op.Load? && rd.block == op.src.block && rd.role == op.src.role
    && (op.src.role == 0 ==> rd.data == FileRange(bank, op.src.block, op.expert, B.Gate))
    && (op.src.role == 1 ==> rd.data == FileRange(bank, op.src.block, op.expert, B.Up))
    && (op.src.role == 2 ==> rd.data == FileRange(bank, op.src.block, op.expert, B.Down))
  }

  lemma {:induction false} ExpectedRanges(q: seq<Op>, n: nat, bank: B.Bank, rd: Read)
    requires bank.Described() && n <= |q| && rd in Expected(q, n, WeightsOf(bank))
    ensures exists k :: 0 <= k < n && DeliversRange(rd, q[k], bank)
  {
    var w := WeightsOf(bank);
    if rd in Expected(q, n - 1, w) {
      ExpectedRanges(q, n - 1, bank, rd);
    } else {
      assert DeliversRange(rd, q[n - 1], bank);
    }
  }

  /** Whatever the schedule, every byte a kernel has read so far is from the file range of the
      expert it was submitted for. */
  lemma EveryScheduleReadsTheFiles(d: Device, schedule: seq<Stream>, bank: B.Bank)
    requires bank.Described() && Inv(d, WeightsOf(bank))
    ensures var e := Run(d, schedule, WeightsOf(bank));
      forall rd :: rd in e.trace ==> exists k :: 0 <= k < |d.computeQ| && DeliversRange(rd, d.computeQ[k], bank)
  {
    var w := WeightsOf(bank);
    var e := Run(d, schedule, w);
    EveryScheduleIsSafe(d, schedule, w);
    forall rd | rd in e.trace
      ensures exists k :: 0 <= k < |d.computeQ| && DeliversRange(rd, d.computeQ[k], bank)
    {
      ExpectedRanges(d.computeQ, e.computeDone, bank, rd);
    }
  }

  // ---- a whole plan ---------------------------------------------------------------------------

  ghost function RoleRanges(block: int, ids: seq<int>, bank: B.Bank, role: nat, r: B.Role): seq<Read>
    requires bank.Described()
  {
    seq(|ids|, i requires 0 <= i < |ids| => Read(block, role, FileRange(bank, block, ids[i], r)))
  }

  /** What one block must read: its experts' gate ranges, then up, then down. */
  ghost function BlockRanges(block: int, ids: seq<int>, bank: B.Bank): seq<Read>
    requires bank.Described()
  {
    RoleRanges(block, ids, bank, 0, B.Gate) + RoleRanges(block, ids, bank, 1, B.Up) +
    RoleRanges(block, ids, bank, 2, B.Down)
  }

  ghost function PlanRanges(plan: seq<X.Work>, bank: B.Bank): seq<Read>
    requires bank.Described()
  {
    if plan == [] then []
    else PlanRanges(plan[..|plan| - 1], bank) + BlockRanges(plan[|plan| - 1].block, plan[|plan| - 1].ids, bank)
  }

  lemma {:induction false} RoleReadsAre(block: int, ids: seq<int>, bank: B.Bank, role: nat)
    requires bank.Described() && role < |B.ROLES|
    ensures RoleReads(block, ids, WeightsOf(bank), role) == RoleRanges(block, ids, bank, role, B.ROLES[role])
  {
    if ids != [] {
      RoleReadsAre(block, ids[..|ids| - 1], bank, role);
    }
  }

  lemma BlockReadsAre(block: int, ids: seq<int>, bank: B.Bank)
    requires bank.Described()
    ensures BlockReads(block, ids, WeightsOf(bank)) == BlockRanges(block, ids, bank)
  {
    var w := WeightsOf(bank);
    RoleReadsAre(block, ids, bank, 0);
    RoleReadsAre(block, ids, bank, 1);
    RoleReadsAre(block, ids, bank, 2);
    hide RoleReads, RoleRanges;
    assert RolesReads(block, ids, w, 1) == RoleReads(block, ids, w, 0);
    assert RolesReads(block, ids, w, 2) == RoleReads(block, ids, w, 0) + RoleReads(block, ids, w, 1);
  }

  lemma {:induction false} PlanReadsAre(plan: seq<X.Work>, bank: B.Bank)
    requires bank.Described()
    ensures X.PlanReads(plan, WeightsOf(bank)) == PlanRanges(plan, bank)
  {
    hide BlockReads, BlockRanges;
    if plan != [] {
      PlanReadsAre(plan[..|plan| - 1], bank);
      BlockReadsAre(plan[|plan| - 1].block, plan[|plan| - 1].ids, bank);
    }
  }

  // ---- read by read ---------------------------------------------------------------------------

  /** Experts named by the plan, repetitions counted. */
  function Named(plan: seq<X.Work>): nat {
    if plan == [] then 0 else Named(plan[..|plan| - 1]) + |plan[|plan| - 1].ids|
  }

  /** The read is of expert `e`'s tensor `k`, and delivers its own bytes. */
  ghost predicate ReadsOwn(rd: Read, bank: B.Bank, k: B.Key, e: int)
    requires bank.Described()
  {
    rd.block == k.block && (InShard(bank, k, e) ==> OwnSlice(bank, k, e, rd.data))
  }

  /** Read number `n` is the gate of request `i`, and its up and down follow `m` and `2 * m` reads later. */
  ghost predicate ThreeReads(rs: seq<Read>, n: nat, m: nat, bank: B.Bank, block: int, e: int)
    requires bank.Described()
  {
    && n + 2 * m < |rs|
    && rs[n].role == 0 && ReadsOwn(rs[n], bank, B.Key(block, B.Gate), e)
    && rs[n + m].role == 1 && ReadsOwn(rs[n + m], bank, B.Key(block, B.Up), e)
    && rs[n + 2 * m].role == 2 && ReadsOwn(rs[n + 2 * m], bank, B.Key(block, B.Down), e)
  }

  lemma BlockAt(block: int, ids: seq<int>, bank: B.Bank, i: nat)
    requires bank.Described() && i < |ids|
    ensures |BlockRanges(block, ids, bank)| == 3 * |ids|
    ensures ThreeReads(BlockRanges(block, ids, bank), i, |ids|, bank, block, ids[i])
  {
    hide FileRange, OwnSlice;
    forall r: B.Role | InShard(bank, B.Key(block, r), ids[i])
      ensures OwnSlice(bank, B.Key(block, r), ids[i], FileRange(bank, block, ids[i], r))
    {
      RangeIsOwn(bank, B.Key(block, r), ids[i]);
    }
  }

  lemma BlockLength(block: int, ids: seq<int>, bank: B.Bank)
    requires bank.Described()
    ensures |BlockRanges(block, ids, bank)| == 3 * |ids|
  {}

  /** Item `j` of the plan reads for its request `i`, behind everything the items before it read. */
  ghost predicate ItemReads(rs: seq<Read>, plan: seq<X.Work>, bank: B.Bank, j: nat, i: nat)
    requires bank.Described() && j < |plan| && i < |plan[j].ids|
  {
    ThreeReads(rs, 3 * Named(plan[..j]) + i, |plan[j].ids|, bank, plan[j].block, plan[j].ids[i])
  }

  ghost predicate ReadsPlan(rs: seq<Read>, plan: seq<X.Work>, bank: B.Bank)
    requires bank.Described()
  {
    && |rs| == 3 * Named(plan)
    && forall j: nat, i: nat :: j < |plan| && i < |plan[j].ids| ==> ItemReads(rs, plan, bank, j, i)
  }

  lemma {:induction false} PlanAt(plan: seq<X.Work>, bank: B.Bank)
    requires bank.Described()
    ensures ReadsPlan(PlanRanges(plan, bank), plan, bank)
  {
    if plan != [] {
      var p, item := plan[..|plan| - 1], plan[|plan| - 1];
      PlanAt(p, bank);
      ItemAdded(PlanRanges(p, bank), p, item, bank);
      assert plan == p + [item];
    }
  }

  lemma ItemAdded(front: seq<Read>, p: seq<X.Work>, item: X.Work, bank: B.Bank)
    requires bank.Described() && ReadsPlan(front, p, bank)
    ensures ReadsPlan(front + BlockRanges(item.block, item.ids, bank), p + [item], bank)
  {
    var back, plan := BlockRanges(item.block, item.ids, bank), p + [item];
    BlockLength(item.block, item.ids, bank);
    hide ThreeReads, BlockRanges;
    assert plan[..|p|] == p;
    forall j: nat, i: nat | j < |plan| && i < |plan[j].ids| ensures ItemReads(front + back, plan, bank, j, i) {
      if j < |p| {
        assert ItemReads(front, p, bank, j, i) && p[..j] == plan[..j];
        ReadsBefore(front, back, 3 * Named(p[..j]) + i, |p[j].ids|, bank, p[j].block, p[j].ids[i]);
      } else {
        BlockAt(item.block, item.ids, bank, i);
        ReadsBehind(front, back, i, |item.ids|, bank, item.block, item.ids[i]);
      }
    }
  }

  lemma ReadsBefore(front: seq<Read>, back: seq<Read>, n: nat, m: nat, bank: B.Bank, block: int, e: int)
    requires bank.Described() && ThreeReads(front, n, m, bank, block, e)
    ensures ThreeReads(front + back, n, m, bank, block, e)
  {
    hide OwnSlice;
  }

  lemma ReadsBehind(front: seq<Read>, back: seq<Read>, n: nat, m: nat, bank: B.Bank, block: int, e: int)
    requires bank.Described() && ThreeReads(back, n, m, bank, block, e)
    ensures ThreeReads(front + back, |front| + n, m, bank, block, e)
  {
    hide OwnSlice;
  }

  /** A tier filled from the bank: on success the kernels have read exactly the file ranges of the
      experts the plan names, in order. */
  method RunFromBank(executor: X.MoEExecutor, bank: B.Bank, plan: seq<X.Work>) returns (ok: bool)
    requires executor.tier.Valid() && bank.Described() && executor.tier.gpu.w == WeightsOf(bank)
    requires executor.tier.gpu.d.computeQ == []
    modifies executor, executor.tier, executor.tier.gpu, executor.tier.pools.Values
    ensures ok ==> executor.tier.gpu.d.trace == PlanRanges(plan, bank)
    ensures ok ==> ReadsPlan(executor.tier.gpu.d.trace, plan, bank)
  {
    X.NothingRead(executor.tier.gpu.d, executor.tier.gpu.w);
    PlanReadsAre(plan, bank);
    PlanAt(plan, bank);
    hide Program, X.PlanReads, PlanRanges, HotTier.ValidBut, HotTier.Valid, WeightsOf, ReadsPlan;
    ok := executor.RunModel(plan);
  }

  /** For a tensor the inspector accepted, the range is whole rows of it and lies inside it. */
  lemma RangeIsRows(bank: B.Bank, block: int, expert: nat, r: B.Role, t: R.Tensor)
    requires bank.Described() && B.Key(block, r) in bank.desc
    requires R.Accepted(t, bank.nExperts) && expert < bank.nExperts
    requires var k := B.Key(block, r);
      && bank.desc[k].offset == t.offset && bank.desc[k].per == R.Measure(t, bank.nExperts).perExpert
      && t.offset + t.bytes <= |bank.FileOf(k)|
    ensures var k := B.Key(block, r);
      var per := t.shape[1] * R.RowBytes(R.TypeCode(t.quant).value, t.shape[0]).value;
      var start := t.offset + expert * bank.desc[k].per;
      && bank.desc[k].per == per && start + per <= t.offset + t.bytes
      && FileRange(bank, block, expert, r) == bank.FileOf(k)[start..start + per]
      && InShard(bank, k, expert)
  {
    hide R.Measurable, R.Measure, R.Accepted, R.RowBytes, R.TypeCode;
    var k := B.Key(block, r);
    var d := bank.desc[k];
    R.AcceptedMeans(t, bank.nExperts);
    B.ExpertInside(bank.FileOf(k), d, bank.nExperts, t.bytes, expert);
  }
}
