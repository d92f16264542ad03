/** The host's side of the device: what each runtime call enqueues.

    Every call returns after the device has executed any amount of enqueued work
    (`Advance`), so a caller's contract holds for all interleavings. A wait
    captures the event's position when it is enqueued, so recording the event
    again later does not move a wait already in the queue. */
module Driver {
  import opened Gpu

  const EMPTY := Device([], [], 0, 0, map[], [], map[], map[], [])

  function Enqueue(d: Device, s: Stream, op: Op): Device {
    if s == CopyStream then d.(copyQ := d.copyQ + [op]) else d.(computeQ := d.computeQ + [op])
  }

  /** Record `ev` behind everything enqueued on `s` so far. */
  function RecordOn(d: Device, s: Stream, ev: Event): Device {
    Enqueue(d, s, Record(ev)).(events := d.events[ev := Point(s, |Queue(d, s)| + 1)])
  }

  /** Make `s` wait for the last record of `ev`; an event never recorded is a no-op. */
  function WaitOn(d: Device, s: Stream, ev: Event): Device {
    if ev in d.events then Enqueue(d, s, Wait(d.events[ev])) else d
  }

  /** Write `expert` into `x` at once, outside both streams. */
  function Seed(d: Device, x: Cell, expert: int, w: Weights): Device {
    d.(vram := d.vram[x := w(x.block, expert, x.role)], seeds := d.seeds[x := expert])
  }

  /** A load enqueued now would find its expert: its last copy is known to the
      compute stream, or the cell was preloaded and never copied into. */
  ghost predicate Ready(d: Device, x: Cell, expert: int) {
    var c := LastCopy(d.copyQ, |d.copyQ|, x);
    if c < 0 then x in d.seeds && d.seeds[x] == expert
    else d.copyQ[c].expert == expert && Knows(d.computeQ, |d.computeQ|, c)
  }

  /** A copy enqueued now would follow every load of the cell. */
  ghost predicate Overwritable(d: Device, x: Cell) {
    forall k :: Loads(d.computeQ, k, x) ==> Holds(d.copyQ, |d.copyQ|, k)
  }

  ghost predicate Untouched(d: Device, x: Cell) {
    && (forall p :: !Writes(d.copyQ, p, x))
    && (forall k :: !Loads(d.computeQ, k, x))
  }

  ghost predicate BufferIdle(d: Device, buf: nat) {
    forall p :: d.copyDone <= p < |d.copyQ| ==> !ReadsBuffer(d.copyQ[p], buf)
  }

  predicate ReadsBuffer(op: Op, buf: nat) {
    op.Copy? && op.from == Staged(buf)
  }

  // ---- enqueuing keeps the invariant ---------------------------------------------

  lemma KnowsAppend(q: seq<Op>, op: Op, k: int, c: int)
    requires k <= |q|
    ensures Knows(q + [op], k, c) <==> Knows(q, k, c)
  {
    forall w | 0 <= w < k ensures (q + [op])[w] == q[w] {}
    if Knows(q, k, c) {
      var w :| 0 <= w < k && w < |q| && IsWait(q[w], CopyStream, c);
      assert IsWait((q + [op])[w], CopyStream, c);
    }
    if Knows(q + [op], k, c) {
      var w :| 0 <= w < k && w < |q + [op]| && IsWait((q + [op])[w], CopyStream, c);
      assert IsWait(q[w], CopyStream, c);
    }
  }

  lemma HoldsAppend(q: seq<Op>, op: Op, p: int, k: int)
    requires p <= |q|
    ensures Holds(q + [op], p, k) <==> Holds(q, p, k)
  {
    if Holds(q, p, k) {
      var w :| 0 <= w < p && w < |q| && IsWait(q[w], ComputeStream, k);
      assert IsWait((q + [op])[w], ComputeStream, k);
    }
    if Holds(q + [op], p, k) {
      var w :| 0 <= w < p && w < |q + [op]| && IsWait((q + [op])[w], ComputeStream, k);
      assert IsWait(q[w], ComputeStream, k);
    }
  }

  /** What a queue says about one cell does not change when something else is appended. */
  lemma FedAppend(d: Device, s: Stream, op: Op, k: int, c: int)
    requires 0 <= k < |d.computeQ| && d.computeQ[k].Load? && Fed(d, k, c)
    requires s == CopyStream && op.Copy? && op.dst == d.computeQ[k].src ==> Holds(d.copyQ, |d.copyQ|, k)
    ensures Fed(Enqueue(d, s, op), k, c)
  {
    var e := Enqueue(d, s, op);
    var x := d.computeQ[k].src;
    assert e.computeQ[k] == d.computeQ[k];
    if c >= 0 {
      assert e.copyQ[c] == d.copyQ[c];
      if s == ComputeStream { KnowsAppend(d.computeQ, op, k, c); }
    }
    forall p | c < p && Writes(e.copyQ, p, x) ensures Holds(e.copyQ, p, k) {
      if p < |d.copyQ| {
        assert e.copyQ[p] == d.copyQ[p];
        assert Writes(d.copyQ, p, x);
      }
      if s == CopyStream { HoldsAppend(d.copyQ, op, p, k); }
    }
  }

  lemma EnqueueRaceFree(d: Device, s: Stream, op: Op)
    requires RaceFree(d)
    requires op.Load? ==> s == ComputeStream && Ready(d, op.src, op.expert)
    requires op.Copy? ==> s == CopyStream && Overwritable(d, op.dst)
    ensures RaceFree(Enqueue(d, s, op))
  {
    var e := Enqueue(d, s, op);
    forall k | 0 <= k < |e.computeQ| && e.computeQ[k].Load? ensures LoadFed(e, k) {
      if k < |d.computeQ| {
        assert e.computeQ[k] == d.computeQ[k];
        assert LoadFed(d, k);
        var c :| Fed(d, k, c);
        assert op.Copy? && op.dst == d.computeQ[k].src ==> Loads(d.computeQ, k, op.dst);
        FedAppend(d, s, op, k, c);
      } else {
        var c := LastCopy(d.copyQ, |d.copyQ|, op.src);
        if c >= 0 { KnowsAppend(d.computeQ, op, k, c); }
        assert Fed(e, k, c);
      }
    }
  }

  lemma EnqueueWellOrdered(d: Device, s: Stream, op: Op)
    requires WellOrdered(d)
    requires op.Load? ==> s == ComputeStream
    requires op.Copy? ==> s == CopyStream
    requires op.Wait? ==> op.point.stream != s && op.point.upto <= |Queue(d, op.point.stream)|
    ensures WellOrdered(Enqueue(d, s, op))
  {
    var e := Enqueue(d, s, op);
    forall k | 0 <= k < |e.copyQ| ensures !e.copyQ[k].Load? && BackwardWait(e, CopyStream, k) {
      if k < |d.copyQ| {
        assert e.copyQ[k] == d.copyQ[k] && BackwardWait(d, CopyStream, k);
      }
    }
    forall k | 0 <= k < |e.computeQ| ensures !e.computeQ[k].Copy? && BackwardWait(e, ComputeStream, k) {
      if k < |d.computeQ| {
        assert e.computeQ[k] == d.computeQ[k] && BackwardWait(d, ComputeStream, k);
      }
    }
    forall w, v | 0 <= w < |e.copyQ| && 0 <= v < |e.computeQ| ensures NoCross(e, w, v) {
      assert w < |d.copyQ| ==> BackwardWait(d, CopyStream, w) && e.copyQ[w] == d.copyQ[w];
      assert v < |d.computeQ| ==> BackwardWait(d, ComputeStream, v) && e.computeQ[v] == d.computeQ[v];
      if w < |d.copyQ| && v < |d.computeQ| {
        assert NoCross(d, w, v);
      }
    }
  }

  lemma EnqueueKeeps(d: Device, s: Stream, op: Op, w: Weights)
    requires Inv(d, w)
    requires op.Wait? ==> op.point.stream != s && op.point.upto <= |Queue(d, op.point.stream)|
    requires op.Load? ==> s == ComputeStream && Ready(d, op.src, op.expert)
    requires op.Copy? ==> s == CopyStream && Overwritable(d, op.dst) && StagedRight(d, op, w)
    ensures Inv(Enqueue(d, s, op), w)
  {
    var e := Enqueue(d, s, op);
    EnqueueWellOrdered(d, s, op);
    EnqueueRaceFree(d, s, op);
    forall p | e.copyDone <= p < |e.copyQ| ensures StagedRight(e, e.copyQ[p], w) {
      assert p < |d.copyQ| ==> e.copyQ[p] == d.copyQ[p] && StagedRight(d, d.copyQ[p], w);
    }
    forall x: Cell ensures CellOk(e, x, w) {
      assert CellOk(d, x, w);
      if s == CopyStream { LastCopyAppend(d.copyQ, op, d.copyDone, x); }
    }
    if s == ComputeStream { ExpectedAppend(d.computeQ, op, d.computeDone, w); }
  }

  lemma SameButEvents(d: Device, e: Device, w: Weights)
    requires Inv(d, w) && e == d.(events := e.events)
    requires forall ev :: ev in e.events ==> e.events[ev].upto <= |Queue(e, e.events[ev].stream)|
    ensures Inv(e, w)
  {
    SameProgramOrdered(d, e);
    SameProgramRaceFree(d, e);
    forall p | e.copyDone <= p < |e.copyQ| ensures StagedRight(e, e.copyQ[p], w) {
      assert StagedRight(d, d.copyQ[p], w);
    }
    forall x: Cell ensures CellOk(e, x, w) { assert CellOk(d, x, w); }
  }

  lemma SeedKeeps(d: Device, x: Cell, expert: int, w: Weights)
    requires Inv(d, w) && Untouched(d, x)
    ensures Inv(Seed(d, x, expert, w), w)
  {
    var e := Seed(d, x, expert, w);
    SameProgramOrdered(d, e);
    forall k | 0 <= k < |e.computeQ| && e.computeQ[k].Load? ensures LoadFed(e, k) {
      assert LoadFed(d, k);
      var c :| Fed(d, k, c);
      assert !Loads(d.computeQ, k, x);
      assert Fed(e, k, c);
    }
    forall p | e.copyDone <= p < |e.copyQ| ensures StagedRight(e, e.copyQ[p], w) {
      assert StagedRight(d, d.copyQ[p], w);
    }
    forall y: Cell ensures CellOk(e, y, w) { assert CellOk(d, y, w); }
  }

  lemma RefillKeeps(d: Device, buf: nat, parts: seq<seq<byte>>, w: Weights)
    requires Inv(d, w) && buf < |d.stage| && BufferIdle(d, buf)
    ensures Inv(d.(stage := d.stage[buf := parts]), w)
  {
    var e := d.(stage := d.stage[buf := parts]);
    SameProgramOrdered(d, e);
    SameProgramRaceFree(d, e);
    forall p | e.copyDone <= p < |e.copyQ| ensures StagedRight(e, e.copyQ[p], w) {
      assert StagedRight(d, d.copyQ[p], w) && !ReadsBuffer(d.copyQ[p], buf);
    }
    forall x: Cell ensures CellOk(e, x, w) { assert CellOk(d, x, w); }
  }

  /** Operations not yet executed. */
  function Backlog(d: Device): int {
    |d.copyQ| - d.copyDone + |d.computeQ| - d.computeDone
  }

  /** While something enqueued is still to execute, some stream is not blocked. */
  lemma SomeoneCanStep(d: Device, p: Point, w: Weights)
    requires Inv(d, w) && p.upto <= |Queue(d, p.stream)| && !Passed(d, p)
    ensures CanStep(d, CopyStream) || CanStep(d, ComputeStream)
  {
    SomeStreamCanStep(d);
  }

  lemma StepShrinks(d: Device, s: Stream, w: Weights)
    requires Inv(d, w) && CanStep(d, s)
    ensures 0 <= Backlog(Step(d, s, w)) < Backlog(d)
  {
    StepShape(d, s, w);
  }

  class GpuRuntime {
    var d: Device
    const w: Weights

    constructor (w: Weights, buffers: nat)
      ensures this.w == w && Inv(d, w)
      ensures d == EMPTY.(stage := seq(buffers, i => []))
    {
      this.w := w;
      d := EMPTY.(stage := seq(buffers, i => []));
    }

    /** Any finite amount of device work, on any stream, in any order. */
    method Advance()
      modifies this
      ensures Later(old(d), d, w)
    {
      var n: nat := *;
      while n > 0
        invariant Later(old(d), d, w)
      {
        var s: Stream := *;
        if CanStep(d, s) {
          StepKeeps(d, s, w);
          d := Step(d, s, w);
        }
        n := n - 1;
      }
    }

    method RecordEvent(s: Stream, ev: Event)
      requires Inv(d, w)
      modifies this
      ensures Inv(d, w) && Later(RecordOn(old(d), s, ev), d, w)
    {
      EnqueueKeeps(d, s, Record(ev), w);
      SameButEvents(Enqueue(d, s, Record(ev)), RecordOn(d, s, ev), w);
      d := RecordOn(d, s, ev);
      Advance();
    }

    method WaitEvent(s: Stream, ev: Event)
      requires Inv(d, w)
      requires ev in d.events ==> d.events[ev].stream != s
      modifies this
      ensures Inv(d, w) && Later(WaitOn(old(d), s, ev), d, w)
    {
      if ev in d.events {
        EnqueueKeeps(d, s, Wait(d.events[ev]), w);
      }
      d := WaitOn(d, s, ev);
      Advance();
    }

    method CopyAsync(x: Cell, expert: int, from: Source)
      requires Inv(d, w) && Overwritable(d, x) && StagedRight(d, Copy(x, expert, from), w)
      modifies this
      ensures Inv(d, w) && Later(Enqueue(old(d), CopyStream, Copy(x, expert, from)), d, w)
    {
      EnqueueKeeps(d, CopyStream, Copy(x, expert, from), w);
      d := Enqueue(d, CopyStream, Copy(x, expert, from));
      Advance();
    }

    method LaunchLoad(x: Cell, expert: int)
      requires Inv(d, w) && Ready(d, x, expert)
      modifies this
      ensures Inv(d, w) && Later(Enqueue(old(d), ComputeStream, Load(x, expert)), d, w)
    {
      EnqueueKeeps(d, ComputeStream, Load(x, expert), w);
      d := Enqueue(d, ComputeStream, Load(x, expert));
      Advance();
    }

    /** A synchronous host-to-device copy, ordered after neither stream. */
    method MemcpyToDevice(x: Cell, expert: int)
      requires Inv(d, w) && Untouched(d, x)
      modifies this
      ensures Inv(d, w) && Later(Seed(old(d), x, expert, w), d, w)
    {
      SeedKeeps(d, x, expert, w);
      d := Seed(d, x, expert, w);
      Advance();
    }

    method FillStage(buf: nat, parts: seq<seq<byte>>)
      requires Inv(d, w) && buf < |d.stage| && BufferIdle(d, buf)
      modifies this
      ensures Inv(d, w) && Later(old(d).(stage := old(d.stage)[buf := parts]), d, w)
    {
      RefillKeeps(d, buf, parts, w);
      d := d.(stage := d.stage[buf := parts]);
      Advance();
    }

    /** Block the host until everything up to `p` has executed. */
    method Await(p: Point)
      requires Inv(d, w) && p.upto <= |Queue(d, p.stream)|
      modifies this
      ensures Inv(d, w) && Later(old(d), d, w) && Passed(d, p)
    {
      hide Inv, Step, CanStep;
      while !Passed(d, p)
        invariant Inv(d, w) && Later(old(d), d, w)
        decreases Backlog(d)
      {
        SomeoneCanStep(d, p, w);
        var s: Stream := *;
        if !CanStep(d, s) {
          s := if s == CopyStream then ComputeStream else CopyStream;
        }
        StepKeeps(d, s, w);
        StepShrinks(d, s, w);
        d := Step(d, s, w);
      }
      Advance();
    }

    /** Block the host on an event; one never recorded is complete. */
    method EventSync(ev: Event)
      requires Inv(d, w)
      modifies this
      ensures Inv(d, w) && Later(old(d), d, w)
      ensures ev in d.events ==> Passed(d, d.events[ev])
    {
      if ev in d.events {
        Await(d.events[ev]);
      }
    }

    method SyncCompute()
      requires Inv(d, w)
      modifies this
      ensures Inv(d, w) && Later(old(d), d, w)
      ensures d.trace == Expected(d.computeQ, |d.computeQ|, w)
    {
      Await(Point(ComputeStream, |d.computeQ|));
    }
  }
}
