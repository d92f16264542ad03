/** The backing store: three ways to hold an expert's bytes, and one answer from all of them. */
module ExpertBank {
  import opened Orders
  import opened Quotients
  import Gpu
  import R = ExpertRanges

  type Byte = Gpu.byte

  datatype Role = Gate | Up | Down

  datatype Key = Key(block: int, role: Role)

  /** Where one tensor's experts lie: `per` bytes each, back to back from `offset`. */
  datatype Desc = Desc(shard: nat, offset: nat, per: nat)

  datatype Reply = Bytes(data: seq<Byte>) | NoExpert | NoRange | ShortRead

  /** What a read of `n` bytes at `at` returns: less when the file ends first. */
  function Window(data: seq<Byte>, at: nat, n: nat): (r: seq<Byte>)
    ensures |r| == n <==> n == 0 || at + n <= |data|
    ensures |r| <= n
    ensures forall i :: 0 <= i < |r| ==> at + i < |data| && r[i] == data[at + i]
  {
    var from := if at <= |data| then at else |data|;
    var to := if at + n <= |data| then at + n else |data|;
    data[from..to]
  }

  /** An open file with a read position. */
  class FileHandle {
    const data: seq<Byte>
    var pos: nat

    constructor (data: seq<Byte>)
      ensures this.data == data && pos == 0
    {
      this.data, pos := data, 0;
    }

    method Seek(at: nat)
      modifies this
      ensures pos == at
    {
      pos := at;
    }

    method Read(n: nat) returns (chunk: seq<Byte>)
      modifies this
      ensures chunk == Window(data, old(pos), n) && pos == old(pos) + |chunk|
    {
      chunk := Window(data, pos, n);
      pos := pos + |chunk|;
    }
  }

  /** The file holds the first `n` experts of a tensor. */
  predicate Holds(data: seq<Byte>, d: Desc, n: nat) {
    n * d.per == 0 || d.offset + n * d.per <= |data|
  }

  /** Expert `e` of a tensor, as the file has it. */
  function ExpertBytes(data: seq<Byte>, d: Desc, e: nat): seq<Byte> {
    Window(data, d.offset + e * d.per, d.per)
  }

  function WholeBytes(data: seq<Byte>, d: Desc, n: nat): seq<Byte> {
    Window(data, d.offset, n * d.per)
  }

  lemma ExpertWindow(data: seq<Byte>, d: Desc, e: nat)
    ensures ExpertBytes(data, d, e) == Window(data, d.offset + e * d.per, d.per)
  {}

  lemma EndOf(e: nat, per: nat)
    ensures (e + 1) * per == e * per + per
  {}

  lemma NoneYet(data: seq<Byte>, d: Desc)
    ensures Holds(data, d, 0)
  {}

  /** Reading expert after expert succeeds as long as the file holds them. */
  lemma HoldsNext(data: seq<Byte>, d: Desc, e: nat)
    requires Holds(data, d, e)
    ensures Holds(data, d, e + 1) <==> |ExpertBytes(data, d, e)| == d.per
  {
    EndOf(e, d.per);
  }

  lemma HoldsFewer(data: seq<Byte>, d: Desc, n: nat, m: nat)
    requires Holds(data, d, n) && m <= n
    ensures Holds(data, d, m)
  {
    MulMono(m, n, d.per);
  }

  /** A file that holds them all is never short for one. */
  lemma NeverShort(data: seq<Byte>, d: Desc, n: nat, e: nat)
    requires e < n
    ensures Holds(data, d, n) ==> |ExpertBytes(data, d, e)| == d.per
  {
    if Holds(data, d, n) {
      HoldsFewer(data, d, n, e + 1);
      HoldsFewer(data, d, n, e);
      HoldsNext(data, d, e);
    }
  }

  /** One expert inside the bytes of all of them. */
  lemma PartOfWhole(data: seq<Byte>, d: Desc, n: nat, e: nat)
    requires Holds(data, d, n) && e < n
    ensures (e + 1) * d.per <= n * d.per == |WholeBytes(data, d, n)| && e * d.per <= (e + 1) * d.per
    ensures WholeBytes(data, d, n)[e * d.per..(e + 1) * d.per] == ExpertBytes(data, d, e)
    ensures |ExpertBytes(data, d, e)| == d.per
  {
    hide Window;
    EndOf(e, d.per);
    MulMono(e + 1, n, d.per);
    WindowPart(data, d.offset, n * d.per, e * d.per, d.per, (e + 1) * d.per);
  }

  /** A window of a window that is whole. */
  lemma WindowPart(data: seq<Byte>, at: nat, n: nat, a: nat, m: nat, b: nat)
    requires (n == 0 || at + n <= |data|) && b == a + m <= n
    ensures |Window(data, at, n)| == n && |Window(data, at + a, m)| == m
    ensures Window(data, at, n)[a..b] == Window(data, at + a, m)
  {}

  /** For a tensor the inspector accepted, the slices are whole rows and the buffer read by
      running over them is the tensor, byte for byte. */
  lemma AcceptedSlices(data: seq<Byte>, t: R.Tensor, shard: nat, n: nat, e: nat)
    requires R.Accepted(t, n) && t.offset + t.bytes <= |data| && e < n
    ensures var d := Desc(shard, t.offset, R.Measure(t, n).perExpert);
      && Holds(data, d, n) && WholeBytes(data, d, n) == data[t.offset..t.offset + t.bytes]
      && |ExpertBytes(data, d, e)| == t.shape[1] * R.RowBytes(R.TypeCode(t.quant).value, t.shape[0]).value
  {
    R.AcceptedMeans(t, n);
    var per := R.Measure(t, n).perExpert;
    assert n * per == t.bytes by {
      assert per * n == t.bytes;
    }
    NeverShort(data, Desc(shard, t.offset, per), n, e);
  }

  /** Where one expert lies in the file. */
  lemma ExpertInside(data: seq<Byte>, d: Desc, n: nat, bytes: nat, e: nat)
    requires e < n && n * d.per == bytes && d.offset + bytes <= |data|
    ensures var start := d.offset + e * d.per;
      start + d.per <= d.offset + bytes && ExpertBytes(data, d, e) == data[start..start + d.per]
  {
    EndOf(e, d.per);
    MulMono(e + 1, n, d.per);
  }

  // ---- loading -------------------------------------------------------------------------------

  /** The first `n` bytes of a buffer are those of the file from `at` on. */
  ghost predicate Agrees(data: seq<Byte>, at: nat, n: nat, buf: seq<Byte>) {
    n <= |buf| && forall i :: 0 <= i < n ==> IsByte(data, at + i, buf[i])
  }

  ghost predicate IsByte(data: seq<Byte>, at: nat, b: Byte) {
    at < |data| && data[at] == b
  }

  lemma Extends(data: seq<Byte>, at: nat, n: nat, before: seq<Byte>, after: seq<Byte>, chunk: seq<Byte>)
    requires Agrees(data, at, n, before) && |after| == |before| && n + |chunk| <= |after|
    requires chunk == Window(data, at + n, |chunk|)
    requires forall i :: 0 <= i < |after| ==> after[i] == if n <= i < n + |chunk| then chunk[i - n] else before[i]
    ensures Agrees(data, at, n + |chunk|, after)
  {
    forall i | 0 <= i < n + |chunk| ensures IsByte(data, at + i, after[i]) {
      if i >= n {
        assert chunk[i - n] == data[at + n + (i - n)];
      } else {
        assert IsByte(data, at + i, before[i]);
      }
    }
  }

  /** Read the experts one after another into one buffer. */
  method LoadWhole(fh: FileHandle, d: Desc, n: nat) returns (ok: bool, buf: seq<Byte>)
    modifies fh
    ensures ok <==> Holds(fh.data, d, n)
    ensures ok ==> buf == WholeBytes(fh.data, d, n)
  {
    hide Window, ExpertBytes, WholeBytes, Holds;
    NoneYet(fh.data, d);
    fh.Seek(d.offset);
    var a := new Byte[n * d.per](i => 0);
    for e := 0 to n
      invariant Holds(fh.data, d, e) && fh.pos == d.offset + e * d.per && e * d.per <= a.Length
      invariant Agrees(fh.data, d.offset, e * d.per, a[..])
    {
      EndOf(e, d.per);
      MulMono(e + 1, n, d.per);
      HoldsNext(fh.data, d, e);
      NeverShort(fh.data, d, n, e);
      var chunk := fh.Read(d.per);
      assert chunk == ExpertBytes(fh.data, d, e) by {
        ExpertWindow(fh.data, d, e);
      }
      if |chunk| != d.per {
        return false, [];
      }
      ghost var from, filled := e * d.per, a[..];
      CopyInto(a, e * d.per, chunk);
      Extends(fh.data, d.offset, from, filled, a[..], chunk);
    }
    ok, buf := true, a[..];
    IsWhole(fh.data, d, n, buf);
  }

  lemma IsWhole(data: seq<Byte>, d: Desc, n: nat, buf: seq<Byte>)
    requires Holds(data, d, n) && |buf| == n * d.per
    requires Agrees(data, d.offset, |buf|, buf)
    ensures buf == WholeBytes(data, d, n)
  {
    var w := WholeBytes(data, d, n);
    assert |w| == |buf|;
    forall i | 0 <= i < |buf| ensures buf[i] == w[i] {
      assert IsByte(data, d.offset + i, buf[i]);
    }
  }

  method CopyInto(a: array<Byte>, at: nat, chunk: seq<Byte>)
    requires at + |chunk| <= a.Length
    modifies a
    ensures forall i :: 0 <= i < a.Length ==> a[i] == if at <= i < at + |chunk| then chunk[i - at] else old(a[i])
  {
    for k := 0 to |chunk|
      invariant forall i :: 0 <= i < a.Length ==> a[i] == if at <= i < at + k then chunk[i - at] else old(a[i])
    {
      a[at + k] := chunk[k];
    }
  }

  /** Read the experts one after another, each into a buffer of its own. */
  method LoadEach(fh: FileHandle, d: Desc, n: nat) returns (ok: bool, bufs: seq<seq<Byte>>)
    modifies fh
    ensures ok <==> Holds(fh.data, d, n)
    ensures ok ==> |bufs| == n && forall e: nat :: e < n ==> bufs[e] == ExpertBytes(fh.data, d, e)
  {
    hide Window, Holds;
    NoneYet(fh.data, d);
    fh.Seek(d.offset);
    bufs := [];
    for e := 0 to n
      invariant Holds(fh.data, d, e) && fh.pos == d.offset + e * d.per
      invariant |bufs| == e && forall f: nat :: f < e ==> bufs[f] == ExpertBytes(fh.data, d, f)
    {
      EndOf(e, d.per);
      HoldsNext(fh.data, d, e);
      NeverShort(fh.data, d, n, e);
      var chunk := fh.Read(d.per);
      if |chunk| != d.per {
        return false, [];
      }
      bufs := bufs + [chunk];
    }
    ok := true;
  }

  const ROLES: seq<Role> := [Gate, Up, Down]

  class Bank {
    const nExperts: nat
    const blocks: set<int>
    const desc: map<Key, Desc>
    const inRam: bool
    const handles: map<nat, FileHandle>
    var ram: map<Key, seq<Byte>>
    var warm: map<Key, seq<seq<Byte>>>

    constructor (nExperts: nat, blocks: set<int>, desc: map<Key, Desc>, inRam: bool, handles: map<nat, FileHandle>)
      requires forall b, r :: b in blocks ==> Key(b, r) in desc
      requires forall k :: k in desc ==> desc[k].shard in handles
      ensures Valid() && this.inRam == inRam && this.blocks == blocks && this.nExperts == nExperts
      ensures this.desc == desc && this.handles == handles && ram == map[] && warm == map[]
    {
      this.nExperts, this.blocks, this.desc, this.inRam, this.handles := nExperts, blocks, desc, inRam, handles;
      ram, warm := map[], map[];
    }

    /** A buffer in RAM is an exact copy of what the file holds, */
    ghost predicate RamCopy(k: Key, buf: seq<Byte>) {
      k in desc && Holds(FileOf(k), desc[k], nExperts) && buf == WholeBytes(FileOf(k), desc[k], nExperts)
    }

    /** and so is each pinned one. */
    ghost predicate WarmCopy(k: Key, bufs: seq<seq<Byte>>) {
      && k in desc && Holds(FileOf(k), desc[k], nExperts) && |bufs| == nExperts
      && forall e: nat :: e < nExperts ==> bufs[e] == ExpertBytes(FileOf(k), desc[k], e)
    }

    ghost predicate Described() {
      && (forall b, r :: b in blocks ==> Key(b, r) in desc)
      && (forall k :: k in desc ==> desc[k].shard in handles)
    }

    ghost predicate Valid()
      reads `ram, `warm
    {
      && Described()
      && (forall k :: k in ram ==> RamCopy(k, ram[k]))
      && (forall k :: k in warm ==> WarmCopy(k, warm[k]))
    }

    /** Loading is done: in RAM mode every block is there. */
    ghost predicate Ready()
      reads `ram, `warm
    {
      Valid() && (inRam ==> forall b, r :: b in blocks ==> Key(b, r) in ram)
    }

    ghost function FileOf(k: Key): seq<Byte>
      requires k in desc
    {
      if desc[k].shard in handles then handles[desc[k].shard].data else []
    }

    /** One expert's exact bytes, whatever the backing; the errors of the source otherwise. */
    method Slice(block: int, expert: int, role: Role) returns (r: Reply)
      requires Ready()
      modifies handles.Values
      ensures r.NoExpert? <==> !(0 <= expert < nExperts)
      ensures r.NoRange? <==> 0 <= expert < nExperts && block !in blocks
      ensures 0 <= expert < nExperts && block in blocks ==>
        var k := Key(block, role);
        && r == (if |ExpertBytes(FileOf(k), desc[k], expert)| == desc[k].per
                 then Bytes(ExpertBytes(FileOf(k), desc[k], expert)) else ShortRead)
        && (k in warm || inRam ==> r.Bytes? && forall h :: h in handles.Values ==> h.pos == old(h.pos))
    {
      hide Window, Holds, RamCopy, WarmCopy, WholeBytes, ExpertBytes;
      if !(0 <= expert < nExperts) {
        return NoExpert;
      }
      if block !in blocks {
        return NoRange;
      }
      var k := Key(block, role);
      var n := desc[k].per;
      if k in warm {
        FromWarm(k, expert);
        r := Bytes(warm[k][expert]);
      } else if inRam {
        FromRam(k, expert);
        var buf := ram[k];
        r := Bytes(buf[expert * n..(expert + 1) * n]);
      } else {
        r := FromFile(k, expert);
      }
    }

    method FromFile(k: Key, e: nat) returns (r: Reply)
      requires Described() && k in desc
      modifies handles.Values
      ensures r == (if |ExpertBytes(FileOf(k), desc[k], e)| == desc[k].per
        then Bytes(ExpertBytes(FileOf(k), desc[k], e)) else ShortRead)
    {
      hide Window;
      var fh := handles[desc[k].shard];
      fh.Seek(desc[k].offset + e * desc[k].per);
      var chunk := fh.Read(desc[k].per);
      r := if |chunk| == desc[k].per then Bytes(chunk) else ShortRead;
    }

    lemma FromWarm(k: Key, e: nat)
      requires Valid() && k in warm && e < nExperts
      ensures k in desc && |warm[k]| == nExperts && warm[k][e] == ExpertBytes(FileOf(k), desc[k], e)
      ensures |warm[k][e]| == desc[k].per
    {
      assert WarmCopy(k, warm[k]);
      PartOfWhole(FileOf(k), desc[k], nExperts, e);
    }

    lemma FromRam(k: Key, e: nat)
      requires Valid() && k in ram && e < nExperts
      ensures k in desc && e * desc[k].per <= (e + 1) * desc[k].per <= |ram[k]|
      ensures ram[k][e * desc[k].per..(e + 1) * desc[k].per] == ExpertBytes(FileOf(k), desc[k], e)
      ensures |ExpertBytes(FileOf(k), desc[k], e)| == desc[k].per
    {
      assert RamCopy(k, ram[k]);
      PartOfWhole(FileOf(k), desc[k], nExperts, e);
    }

    /** Copy one block into RAM, if its files are long enough. */
    method LoadBlock(b: int) returns (ok: bool)
      requires Valid() && b in blocks
      modifies `ram, handles.Values
      ensures Valid() && old(ram.Keys) <= ram.Keys
      ensures ok ==> forall r :: Key(b, r) in ram.Keys
      ensures !ok ==> exists r :: !Holds(FileOf(Key(b, r)), desc[Key(b, r)], nExperts)
    {
      hide Holds, WarmCopy, WholeBytes;
      for j := 0 to |ROLES|
        invariant Valid() && old(ram.Keys) <= ram.Keys
        invariant forall m :: 0 <= m < j ==> Key(b, ROLES[m]) in ram.Keys
      {
        var k := Key(b, ROLES[j]);
        var fh := handles[desc[k].shard];
        var loaded, buf := LoadWhole(fh, desc[k], nExperts);
        if !loaded {
          return false;
        }
        assert RamCopy(k, buf);
        ram := ram[k := buf];
      }
      AllRoles(b, ram.Keys);
      ok := true;
    }

    /** Copy every block into RAM. Fails exactly when a file is too short. */
    method LoadRam(bs: seq<int>) returns (ok: bool)
      requires Valid() && forall b :: b in blocks <==> b in bs
      modifies `ram, handles.Values
      ensures Valid() && warm == old(warm)
      ensures ok ==> Ready()
      ensures ok <==> forall b, r :: b in blocks ==> Holds(FileOf(Key(b, r)), desc[Key(b, r)], nExperts)
    {
      hide Holds, WarmCopy, WholeBytes;
      for i := 0 to |bs|
        invariant Valid() && forall b, r :: b in bs[..i] ==> Key(b, r) in ram.Keys
      {
        var b := bs[i];
        assert b in bs;
        var one := LoadBlock(b);
        if !one {
          return false;
        }
        assert bs[..i + 1] == bs[..i] + [b];
      }
      assert bs[..|bs|] == bs;
      assert forall b, r :: b in blocks ==> RamCopy(Key(b, r), ram[Key(b, r)]);
      ok := true;
    }

    /** Pin one tensor's experts unless they are in memory already; how many bytes that took. */
    method PinOne(k: Key) returns (ok: bool, pinned: nat)
      requires Valid() && k in desc
      modifies `warm, handles.Values
      ensures Valid()
      ensures !ok || k in old(warm) || k in ram ==> warm == old(warm) && pinned == 0
      ensures ok && k !in old(warm) && k !in ram ==>
        warm.Keys == old(warm.Keys) + {k} && pinned == nExperts * desc[k].per
      ensures ok ==> k in warm || k in ram
      ensures !ok ==> !Holds(FileOf(k), desc[k], nExperts)
    {
      hide Holds, ExpertBytes;
      ok, pinned := true, 0;
      if k !in warm && k !in ram {
        var fh := handles[desc[k].shard];
        var loaded, bufs := LoadEach(fh, desc[k], nExperts);
        if !loaded {
          return false, 0;
        }
        assert WarmCopy(k, bufs);
        warm := warm[k := bufs];
        pinned := nExperts * desc[k].per;
      }
    }

    /** Bytes of the experts of the named tensors. */
    ghost function BytesOf(ks: seq<Key>): nat
      requires forall i :: 0 <= i < |ks| ==> ks[i] in desc
    {
      if ks == [] then 0 else BytesOf(ks[..|ks| - 1]) + nExperts * desc[ks[|ks| - 1]].per
    }

    /** `added` lists the tensors of `now` that `before` lacks, each once, `pinned` bytes in all. */
    ghost predicate Added(before: set<Key>, now: set<Key>, added: seq<Key>, pinned: nat) {
      && NoDup(added) && (forall i :: 0 <= i < |added| ==> added[i] in desc)
      && (forall k :: k in added ==> k !in before) && (forall k :: k in now <==> k in before || k in added)
      && pinned == BytesOf(added)
    }

    lemma AddedNext(before: set<Key>, mid: set<Key>, now: set<Key>, added: seq<Key>, pinned: nat, k: Key, n: nat)
      returns (more: seq<Key>)
      requires Added(before, mid, added, pinned) && k in desc
      requires (now == mid && n == 0) || (k !in mid && now == mid + {k} && n == nExperts * desc[k].per)
      ensures Added(before, now, more, pinned + n)
    {
      more := added;
      if k in now && k !in mid {
        more := added + [k];
        assert more[..|added|] == added;
      }
    }

    method PinBlock(b: int, ghost before: set<Key>, ghost sofar: seq<Key>, start: nat)
      returns (ok: bool, pinned: nat, ghost added: seq<Key>)
      requires Valid() && b in blocks && Added(before, warm.Keys, sofar, start)
      modifies `warm, handles.Values
      ensures Valid() && old(warm.Keys) <= warm.Keys && Added(before, warm.Keys, added, pinned)
      ensures ok ==> forall r :: Key(b, r) in warm.Keys + ram.Keys
      ensures !ok ==> exists r :: !Holds(FileOf(Key(b, r)), desc[Key(b, r)], nExperts)
      ensures forall k :: k in warm && k !in old(warm) ==> k.block == b && k !in ram
    {
      hide WarmCopy, RamCopy, Added, Holds;
      pinned, added := start, sofar;
      for j := 0 to |ROLES|
        invariant Valid() && old(warm.Keys) <= warm.Keys && Added(before, warm.Keys, added, pinned)
        invariant forall m :: 0 <= m < j ==> Key(b, ROLES[m]) in warm.Keys + ram.Keys
        invariant forall k :: k in warm && k !in old(warm) ==> k.block == b && k !in ram
      {
        ghost var mid := warm.Keys;
        var one, n := PinOne(Key(b, ROLES[j]));
        added := AddedNext(before, mid, warm.Keys, added, pinned, Key(b, ROLES[j]), n);
        pinned := pinned + n;
        if !one {
          return false, pinned, added;
        }
      }
      AllRoles(b, warm.Keys + ram.Keys);
      ok := true;
    }

    /** What is in memory was read from a file long enough for it. */
    lemma InMemoryHolds(b: int)
      requires Valid() && b in blocks && forall r :: Key(b, r) in warm.Keys + ram.Keys
      ensures forall r :: Holds(FileOf(Key(b, r)), desc[Key(b, r)], nExperts)
    {
      hide Holds;
      forall r ensures Holds(FileOf(Key(b, r)), desc[Key(b, r)], nExperts) {
        var k := Key(b, r);
        assert if k in warm then WarmCopy(k, warm[k]) else RamCopy(k, ram[k]);
      }
    }

    /** The files of the named known blocks are long enough. */
    ghost predicate FilesHold(bs: seq<int>)
      requires Described()
    {
      forall b, r :: b in bs && b in blocks ==> Holds(FileOf(Key(b, r)), desc[Key(b, r)], nExperts)
    }

    lemma FilesHoldNext(bs: seq<int>, i: nat)
      requires Valid() && i < |bs| && FilesHold(bs[..i])
      requires bs[i] in blocks ==> forall r :: Key(bs[i], r) in warm.Keys + ram.Keys
      ensures FilesHold(bs[..i + 1])
    {
      hide Holds;
      if bs[i] in blocks {
        InMemoryHolds(bs[i]);
      }
      assert bs[..i + 1] == bs[..i] + [bs[i]];
    }

    /** Pin the named blocks that are known and not already in memory; the bytes pinned by
        this call. Fails exactly when the file of such a block is too short. */
    method LoadWarm(bs: seq<int>) returns (ok: bool, pinned: nat, ghost added: seq<Key>)
      requires Valid()
      modifies `warm, handles.Values
      ensures Valid() && (old(Ready()) ==> Ready())
      ensures Added(old(warm.Keys), warm.Keys, added, pinned)
      ensures ok ==> forall b, r :: b in bs && b in blocks ==> Key(b, r) in warm.Keys + ram.Keys
      ensures ok <==> FilesHold(bs)
      ensures forall k :: k in warm && k !in old(warm) ==> k.block in bs && k.block in blocks && k !in ram
    {
      assert Described();
      hide Valid, Added, Holds;
      pinned, added := 0, [];
      NoneAdded(warm.Keys);
      for i := 0 to |bs|
        invariant Valid() && old(warm.Keys) <= warm.Keys && Added(old(warm.Keys), warm.Keys, added, pinned)
        invariant forall b, r :: b in bs[..i] && b in blocks ==> Key(b, r) in warm.Keys + ram.Keys
        invariant FilesHold(bs[..i])
        invariant forall k :: k in warm && k !in old(warm) ==> k.block in bs && k.block in blocks && k !in ram
      {
        var b := bs[i];
        assert b in bs;
        if b in blocks {
          var one;
          one, pinned, added := PinBlock(b, old(warm.Keys), added, pinned);
          if !one {
            return false, pinned, added;
          }
        }
        FilesHoldNext(bs, i);
        assert bs[..i + 1] == bs[..i] + [b];
      }
      assert bs[..|bs|] == bs;
      ok := true;
    }

    lemma NoneAdded(now: set<Key>)
      ensures Added(now, now, [], 0)
    {}

    /** Whether a copy can read the block's experts straight from memory: exactly when no role
        of it would be read from a file. */
    method PinnedBlock(block: int) returns (pinned: bool)
      requires Ready()
      ensures block in blocks ==> (pinned <==> forall r :: Key(block, r) in warm || inRam)
    {
      AllRolesIff(block, if inRam then ram.Keys else warm.Keys);
      if inRam {
        pinned := forall r :: r in ROLES ==> Key(block, r) in ram;
      } else {
        pinned := forall r :: r in ROLES ==> Key(block, r) in warm;
      }
    }
  }

  lemma AllRoles(b: int, keys: set<Key>)
    requires forall m :: 0 <= m < |ROLES| ==> Key(b, ROLES[m]) in keys
    ensures forall r :: Key(b, r) in keys
  {
    forall r ensures Key(b, r) in keys {
      assert r == ROLES[0] || r == ROLES[1] || r == ROLES[2];
    }
  }

  lemma AllRolesIff(b: int, keys: set<Key>)
    ensures (forall r :: r in ROLES ==> Key(b, r) in keys) <==> (forall r :: Key(b, r) in keys)
  {
    forall r ensures r in ROLES {
      assert r == ROLES[0] || r == ROLES[1] || r == ROLES[2];
    }
  }
}
