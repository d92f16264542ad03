/** Which tensors the inspector accepts, and what it has then proved about their bytes. */
module ExpertRanges {
  import opened Quotients

  datatype Quant = F32 | F16 | BF16 | Q4_0 | Q4_1 | Q5_0 | Q5_1 | Q8_0 | IQ4_NL
    | Q2_K | Q3_K | Q4_K | Q5_K | Q6_K | Q8_K | IQ3_XXS | IQ3_S | IQ2_S | IQ4_XS | Q2_0 | OtherQuant

  datatype Option<T> = None | Some(value: T)

  datatype Geometry = Geometry(elems: nat, bytes: nat)

  /** The inspector's table of elements and bytes per quantization block. */
  function QuantBlock(q: Quant): (g: Option<Geometry>)
    ensures g.Some? ==> g.value.elems > 0 && g.value.bytes > 0
  {
    match q
    case F32 => Some(Geometry(1, 4))
    case F16 => Some(Geometry(1, 2))
    case BF16 => Some(Geometry(1, 2))
    case Q4_0 => Some(Geometry(32, 18))
    case Q4_1 => Some(Geometry(32, 20))
    case Q5_0 => Some(Geometry(32, 22))
    case Q5_1 => Some(Geometry(32, 24))
    case Q8_0 => Some(Geometry(32, 34))
    case IQ4_NL => Some(Geometry(32, 18))
    case Q2_K => Some(Geometry(256, 84))
    case Q3_K => Some(Geometry(256, 110))
    case Q4_K => Some(Geometry(256, 144))
    case Q5_K => Some(Geometry(256, 176))
    case Q6_K => Some(Geometry(256, 210))
    case Q8_K => Some(Geometry(256, 292))
    case IQ3_XXS => Some(Geometry(256, 98))
    case IQ3_S => Some(Geometry(256, 110))
    case IQ2_S => Some(Geometry(256, 82))
    case IQ4_XS => Some(Geometry(256, 136))
    case Q2_0 => Some(Geometry(64, 18))
    case OtherQuant => None
  }

  /** What the kernels can decode. */
  predicate RuntimeQuant(q: Quant) {
    q in {Q5_1, Q8_0, Q4_K, Q5_K, IQ3_XXS, IQ4_NL, IQ3_S, IQ2_S, IQ4_XS, Q2_0}
  }

  /** The runtime's own type codes and block table. */
  function TypeCode(q: Quant): Option<nat> {
    match q
    case Q5_1 => Some(7)
    case Q8_0 => Some(8)
    case Q4_K => Some(12)
    case Q5_K => Some(13)
    case IQ3_XXS => Some(18)
    case IQ4_NL => Some(20)
    case IQ3_S => Some(21)
    case IQ2_S => Some(22)
    case IQ4_XS => Some(23)
    case Q2_0 => Some(42)
    case _ => None
  }

  function CodeBlock(code: nat): Option<Geometry> {
    if code == 7 then Some(Geometry(32, 24))
    else if code == 8 then Some(Geometry(32, 34))
    else if code == 12 then Some(Geometry(256, 144))
    else if code == 13 then Some(Geometry(256, 176))
    else if code == 18 then Some(Geometry(256, 98))
    else if code == 20 then Some(Geometry(32, 18))
    else if code == 21 then Some(Geometry(256, 110))
    else if code == 22 then Some(Geometry(256, 82))
    else if code == 23 then Some(Geometry(256, 136))
    else if code == 42 then Some(Geometry(64, 18))
    else None
  }

  /** The two tables and the decodable set are kept in step: a type is decodable exactly when
      it has a code, and then both tables give it the same geometry. Codes are unambiguous. */
  lemma TablesAgree(q: Quant, q': Quant)
    ensures RuntimeQuant(q) <==> TypeCode(q).Some?
    ensures RuntimeQuant(q) ==> CodeBlock(TypeCode(q).value).Some? && CodeBlock(TypeCode(q).value) == QuantBlock(q)
    ensures TypeCode(q).Some? && TypeCode(q) == TypeCode(q') ==> q == q'
  {}

  /** Bytes of one row, if the row is a whole number of blocks of a known type. */
  function RowBytes(code: nat, n: nat): Option<nat> {
    match CodeBlock(code)
    case None => None
    case Some(g) => if g.elems == 0 || n % g.elems != 0 then None else Some(n / g.elems * g.bytes)
  }

  datatype Tensor = Tensor(block: int, quant: Quant, shape: seq<nat>, bytes: nat, offset: nat)

  datatype Info = Info(tensor: Tensor, perExpert: nat, contiguous: bool)

  /** The inspector gets as far as measuring the tensor. */
  predicate Measurable(t: Tensor, nExperts: nat) {
    |t.shape| >= 3 && t.shape[2] == nExperts && QuantBlock(t.quant).Some? && RuntimeQuant(t.quant)
  }

  function Measure(t: Tensor, nExperts: nat): Info
    requires Measurable(t, nExperts)
  {
    var g := QuantBlock(t.quant).value;
    var elems := t.shape[0] * t.shape[1];
    var per := elems / g.elems * g.bytes;
    Info(t, per, elems % g.elems == 0 && t.shape[0] % g.elems == 0 && per * nExperts == t.bytes)
  }

  predicate Accepted(t: Tensor, nExperts: nat) {
    Measurable(t, nExperts) && Measure(t, nExperts).contiguous
  }

  // ---- what acceptance means --------------------------------------------------------------

  lemma RowsOfBlocks(rows: nat, row: nat, elems: nat)
    requires elems > 0 && row % elems == 0
    ensures row * rows % elems == 0 && row * rows / elems == row / elems * rows
  {
    var k := row / elems;
    assert row == k * elems;
    assert row * rows == (k * rows) * elems;
    Multiple(k * rows, elems);
  }

  /** A tensor is accepted exactly when every row is a whole number of decodable blocks and its
      experts, each `shape[1]` such rows, fill it without a byte to spare. */
  lemma AcceptedMeans(t: Tensor, nExperts: nat)
    ensures Accepted(t, nExperts) <==>
      (&& |t.shape| >= 3 && t.shape[2] == nExperts && TypeCode(t.quant).Some?
       && var row := RowBytes(TypeCode(t.quant).value, t.shape[0]);
          row.Some? && nExperts * (t.shape[1] * row.value) == t.bytes)
    ensures Accepted(t, nExperts) ==>
      Measure(t, nExperts).perExpert == t.shape[1] * RowBytes(TypeCode(t.quant).value, t.shape[0]).value
  {
    TablesAgree(t.quant, t.quant);
    if Measurable(t, nExperts) {
      var g := QuantBlock(t.quant).value;
      if t.shape[0] % g.elems == 0 {
        RowsOfBlocks(t.shape[1], t.shape[0], g.elems);
        PerExpert(t.shape[0] / g.elems, t.shape[1], g.bytes, nExperts);
      }
    }
  }

  lemma PerExpert(k: nat, rows: nat, bytes: nat, n: nat)
    ensures k * rows * bytes == rows * (k * bytes)
    ensures k * rows * bytes * n == n * (rows * (k * bytes))
  {
    assert k * rows * bytes == rows * (k * bytes);
    assert k * rows * bytes * n == n * (k * rows * bytes);
  }

  function Start(offset: nat, per: nat, e: nat): nat {
    offset + e * per
  }

  /** Byte `x` of the file belongs to expert `e`. */
  ghost predicate InRange(i: Info, e: nat, x: int) {
    InPart(i.tensor.offset, i.perExpert, e, x)
  }

  ghost predicate InPart(offset: nat, per: nat, e: nat, x: int) {
    Start(offset, per, e) <= x < Start(offset, per, e) + per
  }

  lemma PartsTile(offset: nat, per: nat, n: nat, x: int)
    ensures offset <= x < offset + per * n <==> exists e: nat :: e < n && InPart(offset, per, e, x)
  {
    if offset <= x < offset + per * n {
      var e := FindExpert(per, n, x - offset);
      assert InPart(offset, per, e, x);
    }
    if e: nat :| e < n && InPart(offset, per, e, x) {
      Steps(e + 1, n, per);
    }
  }

  lemma OnePart(offset: nat, per: nat, e: nat, f: nat, x: int)
    requires InPart(offset, per, e, x) && InPart(offset, per, f, x)
    ensures e == f
  {
    if e < f {
      Steps(e + 1, f, per);
      assert false;
    } else if f < e {
      Steps(f + 1, e, per);
      assert false;
    }
  }

  /** The experts of an accepted tensor partition its bytes: every byte of the tensor belongs to
      exactly one expert, and no expert's range holds any other byte. */
  lemma RangesTile(t: Tensor, nExperts: nat, x: int)
    requires Accepted(t, nExperts)
    ensures var i := Measure(t, nExperts);
      && (t.offset <= x < t.offset + t.bytes <==> exists e: nat :: e < nExperts && InRange(i, e, x))
      && (forall e: nat, f: nat :: InRange(i, e, x) && InRange(i, f, x) ==> e == f)
  {
    var i := Measure(t, nExperts);
    assert i.tensor == t && i.perExpert * nExperts == t.bytes;
    hide Measure, Measurable, InPart;
    PartsTile(t.offset, i.perExpert, nExperts, x);
    assert forall e: nat :: InRange(i, e, x) <==> InPart(t.offset, i.perExpert, e, x);
    forall e: nat, f: nat | InRange(i, e, x) && InRange(i, f, x) ensures e == f {
      OnePart(t.offset, i.perExpert, e, f, x);
    }
  }

  lemma Steps(a: nat, b: nat, n: nat)
    requires a <= b
    ensures a * n <= b * n
    ensures a > 0 ==> a * n == (a - 1) * n + n
  {}

  lemma {:induction false} FindExpert(per: nat, n: nat, x: nat) returns (e: nat)
    requires x < per * n
    ensures e < n && e * per <= x < e * per + per
    decreases n
  {
    if n == 0 {
      assert false;
    } else if x >= (n - 1) * per {
      e := n - 1;
    } else {
      e := FindExpert(per, n - 1, x);
    }
  }

  // ---- the inspection loop -----------------------------------------------------------------------

  function MeasuredOf(ts: seq<Tensor>, nExperts: nat): seq<Info> {
    if ts == [] then []
    else
      var p, t := MeasuredOf(ts[..|ts| - 1], nExperts), ts[|ts| - 1];
      if Measurable(t, nExperts) then p + [Measure(t, nExperts)] else p
  }

  function BlockCost(infos: seq<Info>, b: int): nat {
    if infos == [] then 0
    else
      var i := infos[|infos| - 1];
      BlockCost(infos[..|infos| - 1], b) + if i.tensor.block == b then i.perExpert else 0
  }

  /** Bytes of a block's expert tensors. */
  function BlockBytes(ts: seq<Tensor>, b: int): nat {
    if ts == [] then 0
    else BlockBytes(ts[..|ts| - 1], b) + if ts[|ts| - 1].block == b then ts[|ts| - 1].bytes else 0
  }

  /** The cost of a block is what one expert takes of its tensors, with nothing left over. */
  lemma {:induction false} CostIsShare(ts: seq<Tensor>, nExperts: nat, b: int)
    requires AllAccepted(ts, nExperts)
    ensures nExperts * BlockCost(MeasuredOf(ts, nExperts), b) == BlockBytes(ts, b)
  {
    if ts != [] {
      hide Measure, Measurable;
      var p, t := ts[..|ts| - 1], ts[|ts| - 1];
      assert forall i :: 0 <= i < |p| ==> p[i] == ts[i];
      CostIsShare(p, nExperts, b);
      ShareOfOne(ts, nExperts);
      CostNext(MeasuredOf(p, nExperts), Measure(t, nExperts));
      Distribute(nExperts, BlockCost(MeasuredOf(p, nExperts), b), Measure(t, nExperts).perExpert);
    }
  }

  lemma ShareOfOne(ts: seq<Tensor>, nExperts: nat)
    requires ts != [] && AllAccepted(ts, nExperts)
    ensures var t := ts[|ts| - 1];
      && Measurable(t, nExperts) && Measure(t, nExperts).tensor == t
      && nExperts * Measure(t, nExperts).perExpert == t.bytes
      && MeasuredOf(ts, nExperts) == MeasuredOf(ts[..|ts| - 1], nExperts) + [Measure(t, nExperts)]
  {
    assert Accepted(ts[|ts| - 1], nExperts);
  }

  lemma Distribute(n: nat, a: nat, b: nat)
    ensures n * (a + b) == n * a + n * b
  {}

  ghost predicate AllAccepted(ts: seq<Tensor>, nExperts: nat) {
    forall i :: 0 <= i < |ts| ==> Accepted(ts[i], nExperts)
  }

  lemma {:induction false} AllMeasured(ts: seq<Tensor>, nExperts: nat)
    ensures |MeasuredOf(ts, nExperts)| <= |ts|
    ensures AllAccepted(ts, nExperts) ==>
      |MeasuredOf(ts, nExperts)| == |ts| &&
      forall i :: 0 <= i < |ts| ==> MeasuredOf(ts, nExperts)[i] == Measure(ts[i], nExperts)
  {
    if ts != [] {
      AllMeasured(ts[..|ts| - 1], nExperts);
    }
  }

  method InspectOne(t: Tensor, nExperts: nat) returns (info: Option<Info>, ok: bool)
    ensures info.Some? <==> Measurable(t, nExperts)
    ensures info.Some? ==> info.value == Measure(t, nExperts)
    ensures ok <==> Accepted(t, nExperts)
  {
    if |t.shape| < 3 || t.shape[2] != nExperts {
      return None, false;
    }
    var g := QuantBlock(t.quant);
    if g.None? {
      return None, false;
    }
    if !RuntimeQuant(t.quant) {
      return None, false;
    }
    var elems := t.shape[0] * t.shape[1];
    var per := elems / g.value.elems * g.value.bytes;
    ok := elems % g.value.elems == 0 && t.shape[0] % g.value.elems == 0 && per * nExperts == t.bytes;
    info := Some(Info(t, per, ok));
  }

  /** Inspect the tensors whose names match an expert pattern: the artifact is addressable
      exactly when there are some and all of them are accepted. */
  method Inspect(ts: seq<Tensor>, nExperts: nat)
    returns (infos: seq<Info>, contiguous: bool, cost: map<int, nat>)
    ensures contiguous <==> ts != [] && AllAccepted(ts, nExperts)
    ensures contiguous ==> |infos| == |ts| && forall i :: 0 <= i < |ts| ==> infos[i] == Measure(ts[i], nExperts)
    ensures forall b :: (if b in cost then cost[b] else 0) == BlockCost(infos, b)
    ensures infos == MeasuredOf(ts, nExperts)
    ensures contiguous ==> forall b :: nExperts * (if b in cost then cost[b] else 0) == BlockBytes(ts, b)
  {
    infos, cost := [], map[];
    var all := true;
    for k := 0 to |ts|
      invariant all <==> AllAccepted(ts[..k], nExperts)
      invariant forall b :: (if b in cost then cost[b] else 0) == BlockCost(infos, b)
      invariant infos == MeasuredOf(ts[..k], nExperts)
    {
      hide Measure, Measurable;
      var info, ok := InspectOne(ts[k], nExperts);
      assert ts[..k + 1] == ts[..k] + [ts[k]] && ts[..k + 1][..k] == ts[..k];
      if !ok {
        all := false;
        assert !Accepted(ts[..k + 1][k], nExperts);
      }
      if info.Some? {
        MeasureKeeps(ts[k], nExperts);
        CostNext(infos, info.value);
        infos := infos + [info.value];
        var b := ts[k].block;
        cost := cost[b := (if b in cost then cost[b] else 0) + info.value.perExpert];
      }
    }
    assert ts[..|ts|] == ts;
    AllMeasured(ts, nExperts);
    contiguous := all && infos != [];
    if contiguous {
      forall b ensures nExperts * BlockCost(infos, b) == BlockBytes(ts, b) {
        CostIsShare(ts, nExperts, b);
      }
    }
  }

  lemma CostNext(infos: seq<Info>, i: Info)
    ensures forall b ::
      BlockCost(infos + [i], b) == BlockCost(infos, b) + if i.tensor.block == b then i.perExpert else 0
  {
    assert (infos + [i])[..|infos|] == infos;
  }

  lemma MeasureKeeps(t: Tensor, nExperts: nat)
    requires Measurable(t, nExperts)
    ensures Measure(t, nExperts).tensor == t
  {}
}
