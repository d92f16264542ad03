/** The device as two asynchronous FIFO streams.

    The host only appends operations; the device executes the head of either
    stream, in any interleaving, whenever that head is not a wait whose captured
    position the other stream has yet to pass. A DMA reads its staging buffer and
    a kernel reads its slots when they EXECUTE. Both are cut into one operation
    per (block, slot, role) cell, so neither is assumed atomic. */
module Gpu {

  newtype byte = x: int | 0 <= x < 256

  /** gate, up, down. */
  const ROLES: nat := 3

  /** (block, expert, role) -> the weight bytes the backing store holds. */
  type Weights = (int, int, nat) -> seq<byte>

  datatype Stream = CopyStream | ComputeStream

  /** Event handles, named by where the runtime keeps them: the staging ring, one
      per block's readers, the two ends of a stall pair, the transfer pool. */
  datatype Event =
    | StageEvent(buf: nat)
    | ReadEvent(block: int)
    | StallBegin(pair: nat)
    | StallEnd(pair: nat)
    | TransferEvent(id: nat)

  /** The last record of an event: the stream's first `upto` operations. */
  datatype Point = Point(stream: Stream, upto: nat)

  datatype Cell = Cell(block: int, slot: nat, role: nat)

  datatype Source = Staged(buf: nat) | InPlace

  /** `expert` in Copy and Load says what the host meant; execution never reads
      it except to address an in-place source, which is the pinned bank itself. */
  datatype Op =
    | Record(event: Event)
    | Wait(point: Point)
    | Copy(dst: Cell, expert: int, from: Source)
    | Load(src: Cell, expert: int)

  /** What one kernel load delivered. */
  datatype Read = Read(block: int, role: nat, data: seq<byte>)

  datatype Device = Device(
    copyQ: seq<Op>, computeQ: seq<Op>,
    copyDone: nat, computeDone: nat,
    events: map<Event, Point>,
    stage: seq<seq<seq<byte>>>,       // staging buffer -> role -> bytes
    vram: map<Cell, seq<byte>>,
    seeds: map<Cell, int>,            // cells filled by a synchronous preload
    trace: seq<Read>)                 // kernel loads, in execution order

  function Queue(d: Device, s: Stream): seq<Op> {
    if s == CopyStream then d.copyQ else d.computeQ
  }

  function Done(d: Device, s: Stream): nat {
    if s == CopyStream then d.copyDone else d.computeDone
  }

  predicate Passed(d: Device, p: Point) {
    Done(d, p.stream) >= p.upto
  }

  // ---- execution -----------------------------------------------------------------

  predicate CanStep(d: Device, s: Stream) {
    Done(d, s) < |Queue(d, s)|
    && (Queue(d, s)[Done(d, s)].Wait? ==> Passed(d, Queue(d, s)[Done(d, s)].point))
  }

  function StagedBytes(d: Device, buf: nat, role: nat): seq<byte> {
    if buf < |d.stage| && role < |d.stage[buf]| then d.stage[buf][role] else []
  }

  function CellBytes(d: Device, x: Cell): seq<byte> {
    if x in d.vram then d.vram[x] else []
  }

  function Step(d: Device, s: Stream, w: Weights): Device
    requires CanStep(d, s)
  {
    var op := Queue(d, s)[Done(d, s)];
    if s == CopyStream then
      var after := d.(copyDone := d.copyDone + 1);
      if op.Copy? then
        var data := match op.from
          case Staged(buf) => StagedBytes(d, buf, op.dst.role)
          case InPlace => w(op.dst.block, op.expert, op.dst.role);
        after.(vram := d.vram[op.dst := data])
      else after
    else
      var after := d.(computeDone := d.computeDone + 1);
      if op.Load? then
        after.(trace := d.trace + [Read(op.src.block, op.src.role, CellBytes(d, op.src))])
      else after
  }

  /** Any schedule at all: a choice of a blocked stream executes nothing. */
  function Run(d: Device, schedule: seq<Stream>, w: Weights): Device {
    if schedule == [] then d
    else
      var e := Run(d, schedule[..|schedule| - 1], w);
      var s := schedule[|schedule| - 1];
      if CanStep(e, s) then Step(e, s, w) else e
  }

  // ---- what the enqueued program says -----------------------------------------------

  predicate Writes(q: seq<Op>, p: int, x: Cell) {
    0 <= p < |q| && q[p].Copy? && q[p].dst == x
  }

  predicate Loads(q: seq<Op>, k: int, x: Cell) {
    0 <= k < |q| && q[k].Load? && q[k].src == x
  }

  /** Position of the last copy into `x` among the first `n`, or -1. */
  function LastCopy(q: seq<Op>, n: nat, x: Cell): (c: int)
    requires n <= |q|
    ensures -1 <= c < n
    ensures c >= 0 ==> Writes(q, c, x)
    ensures forall p :: c < p < n ==> !Writes(q, p, x)
  {
    if n == 0 then -1 else if Writes(q, n - 1, x) then n - 1 else LastCopy(q, n - 1, x)
  }

  /** A wait before `k` makes the compute stream follow copy `c`. */
  ghost predicate Knows(computeQ: seq<Op>, k: int, c: int) {
    exists w :: 0 <= w < k && w < |computeQ| && IsWait(computeQ[w], CopyStream, c)
  }

  /** A wait before `p` makes the copy stream follow compute operation `k`. */
  ghost predicate Holds(copyQ: seq<Op>, p: int, k: int) {
    exists w :: 0 <= w < p && w < |copyQ| && IsWait(copyQ[w], ComputeStream, k)
  }

  predicate IsWait(op: Op, on: Stream, after: int) {
    op.Wait? && op.point.stream == on && op.point.upto > after
  }

  /** Load `k` is fed by copy `c` (or by a preload when c < 0): the compute stream
      waits for `c`, and every later copy into the cell waits for the load. */
  ghost predicate Fed(d: Device, k: int, c: int)
    requires 0 <= k < |d.computeQ| && d.computeQ[k].Load?
  {
    var op := d.computeQ[k];
    && -1 <= c < |d.copyQ|
    && (if c < 0 then op.src in d.seeds && d.seeds[op.src] == op.expert
        else Writes(d.copyQ, c, op.src) && d.copyQ[c].expert == op.expert && Knows(d.computeQ, k, c))
    && forall p :: c < p && Writes(d.copyQ, p, op.src) ==> Holds(d.copyQ, p, k)
  }

  ghost predicate LoadFed(d: Device, k: int)
    requires 0 <= k < |d.computeQ| && d.computeQ[k].Load?
  {
    exists c :: Fed(d, k, c)
  }

  /** The enqueued program has no race, whatever the schedule. */
  ghost predicate RaceFree(d: Device) {
    forall k :: 0 <= k < |d.computeQ| && d.computeQ[k].Load? ==> LoadFed(d, k)
  }

  ghost predicate BackwardWait(d: Device, s: Stream, k: int)
    requires 0 <= k < |Queue(d, s)|
  {
    var op := Queue(d, s)[k];
    op.Wait? ==> op.point.stream != s && op.point.upto <= |Queue(d, op.point.stream)|
  }

  ghost predicate NoCross(d: Device, w: int, v: int)
    requires 0 <= w < |d.copyQ| && 0 <= v < |d.computeQ|
  {
    !(d.copyQ[w].Wait? && d.computeQ[v].Wait?
      && v < d.copyQ[w].point.upto && w < d.computeQ[v].point.upto)
  }

  /** Waits point backwards in enqueue order, so the two streams cannot block each other. */
  ghost predicate WellOrdered(d: Device) {
    && d.copyDone <= |d.copyQ| && d.computeDone <= |d.computeQ|
    && (forall k :: 0 <= k < |d.copyQ| ==> !d.copyQ[k].Load? && BackwardWait(d, CopyStream, k))
    && (forall k :: 0 <= k < |d.computeQ| ==> !d.computeQ[k].Copy? && BackwardWait(d, ComputeStream, k))
    && (forall w, v :: 0 <= w < |d.copyQ| && 0 <= v < |d.computeQ| ==> NoCross(d, w, v))
    && (forall ev :: ev in d.events ==> d.events[ev].upto <= |Queue(d, d.events[ev].stream)|)
  }

  // ---- what has been executed ----------------------------------------------------

  ghost predicate WaitsMet(d: Device) {
    && (forall k :: 0 <= k < d.copyDone && k < |d.copyQ| && d.copyQ[k].Wait? ==> Passed(d, d.copyQ[k].point))
    && (forall k :: 0 <= k < d.computeDone && k < |d.computeQ| && d.computeQ[k].Wait? ==>
      Passed(d, d.computeQ[k].point))
  }

  /** A staging buffer still holds what its unexecuted copies are meant to carry. */
  ghost predicate StageOk(d: Device, w: Weights) {
    forall p :: d.copyDone <= p < |d.copyQ| ==> StagedRight(d, d.copyQ[p], w)
  }

  ghost predicate StagedRight(d: Device, op: Op, w: Weights) {
    op.Copy? && op.from.Staged? ==>
      StagedBytes(d, op.from.buf, op.dst.role) == w(op.dst.block, op.expert, op.dst.role)
  }

  /** Each cell holds its last executed copy's expert. */
  ghost predicate VramOk(d: Device, w: Weights)
    requires d.copyDone <= |d.copyQ|
  {
    forall x: Cell :: CellOk(d, x, w)
  }

  ghost predicate CellOk(d: Device, x: Cell, w: Weights)
    requires d.copyDone <= |d.copyQ|
  {
    var c := LastCopy(d.copyQ, d.copyDone, x);
    if c >= 0 then CellBytes(d, x) == w(x.block, d.copyQ[c].expert, x.role)
    else x in d.seeds ==> CellBytes(d, x) == w(x.block, d.seeds[x], x.role)
  }

  /** The exact bytes of the experts named by the first `n` compute operations. */
  function Expected(computeQ: seq<Op>, n: nat, w: Weights): seq<Read>
    requires n <= |computeQ|
  {
    if n == 0 then []
    else
      var op := computeQ[n - 1];
      Expected(computeQ, n - 1, w)
      + if op.Load? then [Read(op.src.block, op.src.role, w(op.src.block, op.expert, op.src.role))] else []
  }

  ghost predicate Inv(d: Device, w: Weights) {
    && WellOrdered(d) && RaceFree(d) && WaitsMet(d) && StageOk(d, w) && VramOk(d, w)
    && d.trace == Expected(d.computeQ, d.computeDone, w)
  }

  /** Everything but execution progress is the same, and progress is only forward. */
  ghost predicate Later(d: Device, e: Device, w: Weights) {
    && e.copyQ == d.copyQ && e.computeQ == d.computeQ && e.events == d.events
    && e.stage == d.stage && e.seeds == d.seeds
    && d.copyDone <= e.copyDone && d.computeDone <= e.computeDone
    && (Inv(d, w) ==> Inv(e, w))
  }

  // ---- safety over every interleaving ----------------------------------------------

  lemma {:induction false} LastCopyIs(q: seq<Op>, n: nat, x: Cell, c: int)
    requires n <= |q| && -1 <= c < n
    requires c >= 0 ==> Writes(q, c, x)
    requires forall p :: c < p < n ==> !Writes(q, p, x)
    ensures LastCopy(q, n, x) == c
  {}

  lemma {:induction false} LastCopyAppend(q: seq<Op>, op: Op, n: nat, x: Cell)
    requires n <= |q|
    ensures LastCopy(q + [op], n, x) == LastCopy(q, n, x)
  {
    var c := LastCopy(q, n, x);
    assert forall p :: 0 <= p < n ==> (Writes(q + [op], p, x) <==> Writes(q, p, x));
    LastCopyIs(q + [op], n, x, c);
  }

  lemma {:induction false} ExpectedAppend(q: seq<Op>, op: Op, n: nat, w: Weights)
    requires n <= |q|
    ensures Expected(q + [op], n, w) == Expected(q, n, w)
  {
    if n > 0 {
      ExpectedAppend(q, op, n - 1, w);
    }
  }

  lemma HeldIsUnexecuted(d: Device, k: int)
    requires WaitsMet(d) && d.copyDone <= |d.copyQ| && d.computeDone <= k
    ensures forall p :: Holds(d.copyQ, p, k) ==> d.copyDone < p
  {
    forall p | Holds(d.copyQ, p, k) ensures d.copyDone < p {
      var v :| 0 <= v < p && v < |d.copyQ| && IsWait(d.copyQ[v], ComputeStream, k);
      assert v < d.copyDone ==> Passed(d, d.copyQ[v].point);
    }
  }

  /** The heart of the protocol: at the moment a load executes, its cell holds the
      bytes of the expert the router named. */
  lemma LoadReadsItsExpert(d: Device, w: Weights)
    requires Inv(d, w)
    requires CanStep(d, ComputeStream) && d.computeQ[d.computeDone].Load?
    ensures var op := d.computeQ[d.computeDone];
      CellBytes(d, op.src) == w(op.src.block, op.expert, op.src.role)
  {
    var k := d.computeDone;
    var x := d.computeQ[k].src;
    assert LoadFed(d, k);
    var c :| Fed(d, k, c);
    if c >= 0 {
      var v :| 0 <= v < k && IsWait(d.computeQ[v], CopyStream, c);
      assert Passed(d, d.computeQ[v].point);
    }
    forall p | c < p < d.copyDone ensures !Writes(d.copyQ, p, x) {
      assert Holds(d.copyQ, p, k) ==> p >= d.copyDone by { HeldIsUnexecuted(d, k); }
    }
    LastCopyIs(d.copyQ, d.copyDone, x, c);
    assert CellOk(d, x, w);
  }

  lemma CopyStepKeepsVram(d: Device, w: Weights)
    requires Inv(d, w) && CanStep(d, CopyStream)
    ensures VramOk(Step(d, CopyStream, w), w)
  {
    var e := Step(d, CopyStream, w);
    var op := d.copyQ[d.copyDone];
    assert StagedRight(d, op, w);
    forall x: Cell ensures CellOk(e, x, w) {
      assert CellOk(d, x, w);
    }
  }

  lemma StepKeeps(d: Device, s: Stream, w: Weights)
    requires CanStep(d, s)
    ensures Later(d, Step(d, s, w), w)
  {
    hide RaceFree, WaitsMet, NoCross, BackwardWait;
    StepShape(d, s, w);
    if Inv(d, w) {
      var e := Step(d, s, w);
      StepKeepsStatic(d, s, w);
      StepKeepsWaits(d, s, w);
      if s == CopyStream {
        CopyStepKeepsVram(d, w);
      } else {
        forall x: Cell ensures CellOk(e, x, w) { assert CellOk(d, x, w); }
        if d.computeQ[d.computeDone].Load? {
          LoadReadsItsExpert(d, w);
        }
      }
      forall p | e.copyDone <= p < |e.copyQ| ensures StagedRight(e, e.copyQ[p], w) {
        assert StagedRight(d, d.copyQ[p], w);
      }
    }
  }

  /** A step changes no queue, event, seed or staging buffer, and one counter by one. */
  lemma StepShape(d: Device, s: Stream, w: Weights)
    requires CanStep(d, s)
    ensures var e := Step(d, s, w);
      && e.copyQ == d.copyQ && e.computeQ == d.computeQ && e.events == d.events
      && e.stage == d.stage && e.seeds == d.seeds
      && e.copyDone == d.copyDone + (if s == CopyStream then 1 else 0)
      && e.computeDone == d.computeDone + (if s == ComputeStream then 1 else 0)
  {}

  lemma StepKeepsStatic(d: Device, s: Stream, w: Weights)
    requires CanStep(d, s) && WellOrdered(d) && RaceFree(d)
    ensures WellOrdered(Step(d, s, w)) && RaceFree(Step(d, s, w))
  {
    StepShape(d, s, w);
    hide Step, RaceFree;
    SameProgramOrdered(d, Step(d, s, w));
    SameProgramRaceFree(d, Step(d, s, w));
  }

  lemma SameProgramOrdered(d: Device, e: Device)
    requires WellOrdered(d) && e.copyQ == d.copyQ && e.computeQ == d.computeQ
    requires e.copyDone <= |d.copyQ| && e.computeDone <= |d.computeQ|
    requires forall ev :: ev in e.events ==> e.events[ev].upto <= |Queue(e, e.events[ev].stream)|
    ensures WellOrdered(e)
  {
    forall k | 0 <= k < |e.copyQ| ensures BackwardWait(e, CopyStream, k) {
      assert BackwardWait(d, CopyStream, k);
    }
    forall k | 0 <= k < |e.computeQ| ensures BackwardWait(e, ComputeStream, k) {
      assert BackwardWait(d, ComputeStream, k);
    }
    forall v, u | 0 <= v < |e.copyQ| && 0 <= u < |e.computeQ| ensures NoCross(e, v, u) {
      assert NoCross(d, v, u);
    }
  }

  lemma SameProgramRaceFree(d: Device, e: Device)
    requires RaceFree(d) && e.copyQ == d.copyQ && e.computeQ == d.computeQ && e.seeds == d.seeds
    ensures RaceFree(e)
  {
    forall k | 0 <= k < |e.computeQ| && e.computeQ[k].Load? ensures LoadFed(e, k) {
      assert LoadFed(d, k);
      var c :| Fed(d, k, c);
      assert Fed(e, k, c);
    }
  }

  lemma StepKeepsWaits(d: Device, s: Stream, w: Weights)
    requires CanStep(d, s) && WellOrdered(d) && WaitsMet(d)
    ensures WaitsMet(Step(d, s, w))
  {
    StepShape(d, s, w);
    hide Step, NoCross;
    var e := Step(d, s, w);
    forall k | 0 <= k < e.copyDone && e.copyQ[k].Wait? ensures Passed(e, e.copyQ[k].point) {
      assert BackwardWait(d, CopyStream, k);
    }
    forall k | 0 <= k < e.computeDone && e.computeQ[k].Wait? ensures Passed(e, e.computeQ[k].point) {
      assert BackwardWait(d, ComputeStream, k);
    }
  }

  lemma {:induction false} EveryScheduleIsSafe(d: Device, schedule: seq<Stream>, w: Weights)
    requires Inv(d, w)
    ensures var e := Run(d, schedule, w);
      Later(d, e, w) && e.trace == Expected(d.computeQ, e.computeDone, w)
  {
    if schedule != [] {
      EveryScheduleIsSafe(d, schedule[..|schedule| - 1], w);
      var e := Run(d, schedule[..|schedule| - 1], w);
      var s := schedule[|schedule| - 1];
      if CanStep(e, s) {
        StepKeeps(e, s, w);
      }
    }
  }

  /** Two schedules of one program that both finish deliver identical reads. */
  lemma SchedulesAgree(d: Device, a: seq<Stream>, b: seq<Stream>, w: Weights)
    requires Inv(d, w)
    requires Run(d, a, w).computeDone == Run(d, b, w).computeDone
    ensures Run(d, a, w).trace == Run(d, b, w).trace
  {
    EveryScheduleIsSafe(d, a, w);
    EveryScheduleIsSafe(d, b, w);
  }

  /** No deadlock: while anything is unexecuted, one of the streams can step. */
  lemma SomeStreamCanStep(d: Device)
    requires WellOrdered(d) && WaitsMet(d)
    requires d.copyDone < |d.copyQ| || d.computeDone < |d.computeQ|
    ensures CanStep(d, CopyStream) || CanStep(d, ComputeStream)
  {
    if d.copyDone < |d.copyQ| {
      assert BackwardWait(d, CopyStream, d.copyDone);
    }
    if d.computeDone < |d.computeQ| {
      assert BackwardWait(d, ComputeStream, d.computeDone);
    }
    if d.copyDone < |d.copyQ| && d.computeDone < |d.computeQ| {
      assert NoCross(d, d.copyDone, d.computeDone);
    }
  }
}
