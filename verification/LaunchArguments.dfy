/**
 Marshalling of kernel arguments: `cudaLaunchKernel` packs them by the kernel's parameter table, and
 `replay_each_operator` on the server finds them again and translates device pointers in place.

 The block that is sent holds the number of parameters, their offsets, and the parameter area. On
 the server every parameter is treated as a pointer: the eight bytes at its offset are looked up in
 the memory resource manager and replaced.
 */
module LaunchArguments {
  import opened Attempts
  import opened Bytes
  import opened ResourceManager

  /** The members of `kernel_info_t` that describe the parameters. */
  datatype KernelInfo = KernelInfo(paramSize: nat, offsets: seq<nat>, sizes: seq<nat>)

  predicate ValidInfo(info: KernelInfo) {
    |info.offsets| == |info.sizes| < U64 &&
    (forall o :: o in info.offsets ==> o < U16) && (forall s :: s in info.sizes ==> s < U16)
  }

  /** Where the parameter area of a block for n parameters starts. */
  function AreaAt(n: nat): nat {
    8 + 2 * n
  }

  function OffsetBytes(offsets: seq<nat>): (s: seq<Byte>)
    ensures |s| == 2 * |offsets|
  {
    if offsets == [] then [] else ToLE(offsets[0], 2) + OffsetBytes(offsets[1..])
  }

  /* ---------- the client ---------- */

  /** The block before any argument is copied; the parameter area is as `malloc` left it. */
  function EmptyBlock(info: KernelInfo, uninitialised: nat -> Byte): (b: seq<Byte>)
    ensures |b| == AreaAt(|info.offsets|) + info.paramSize
  {
    ToLE(|info.offsets|, 8) + OffsetBytes(info.offsets) + seq(info.paramSize, i requires 0 <= i => uninitialised(i))
  }

  /** Copying the arguments from the j-th on; each is the memory its pointer refers to. */
  function PackFrom(info: KernelInfo, arguments: seq<seq<Byte>>, j: nat, block: seq<Byte>): (r: Attempt<seq<Byte>>)
    requires |info.offsets| == |info.sizes| == |arguments| && j <= |arguments|
    ensures r.Ok? ==> |r.value| == |block|
    decreases |arguments| - j
  {
    if j == |arguments| then Ok(block)
    else
      var at := AreaAt(|info.offsets|) + info.offsets[j];
      if info.sizes[j] > |arguments[j]| || at + info.sizes[j] > |block| then Undefined
      else PackFrom(info, arguments, j + 1, Splice(block, at, arguments[j][..info.sizes[j]]))
  }

  function Pack(info: KernelInfo, arguments: seq<seq<Byte>>, uninitialised: nat -> Byte): Attempt<seq<Byte>>
    requires |info.offsets| == |info.sizes| == |arguments|
  {
    PackFrom(info, arguments, 0, EmptyBlock(info, uninitialised))
  }

  method PackArguments(info: KernelInfo, arguments: seq<seq<Byte>>, uninitialised: nat -> Byte)
    returns (r: Attempt<seq<Byte>>)
    requires |info.offsets| == |info.sizes| == |arguments|
    ensures r == Pack(info, arguments, uninitialised)
  {
    hide ToLE, OffsetBytes, EmptyBlock;
    var empty := EmptyBlock(info, uninitialised);
    var block := new Byte[|empty|](i requires 0 <= i < |empty| => empty[i]);
    assert block[..] == empty;
    for j := 0 to |arguments|
      invariant PackFrom(info, arguments, j, block[..]) == Pack(info, arguments, uninitialised)
    {
      var at, size := AreaAt(|info.offsets|) + info.offsets[j], info.sizes[j];
      if size > |arguments[j]| || at + size > block.Length {
        return Undefined;
      }
      ghost var before := block[..];
      forall i | 0 <= i < size {
        block[at + i] := arguments[j][i];
      }
      assert block[..] == Splice(before, at, arguments[j][..size]);
    }
    return Ok(block[..]);
  }

  /* ---------- the server ---------- */

  /** The i-th entry of `cuda_args`, as a place in the block. */
  function ArgumentAt(block: seq<Byte>, n: nat, i: nat): nat
    requires i < n && AreaAt(n) <= |block|
  {
    AreaAt(n) + Field(block, 8 + 2 * i, 2)
  }

  /** `*(void**)cuda_args[i] = resource_mg_get(&rm_memory, *(void**)cuda_args[i])` */
  function TranslateAt(block: seq<Byte>, at: nat, m: map<nat, nat>): (r: seq<Byte>)
    requires at + 8 <= |block|
    ensures |r| == |block|
  {
    Put(block, at, 8, Translate(m, Field(block, at, 8)))
  }

  /** The loop over the parameters, from the i-th on: the block and the entries of `cuda_args`. */
  function UnpackFrom(block: seq<Byte>, n: nat, i: nat, m: map<nat, nat>): (r: Attempt<(seq<Byte>, seq<nat>)>)
    requires i <= n && AreaAt(n) <= |block|
    ensures r.Ok? ==> |r.value.0| == |block| && |r.value.1| == n - i
    decreases n - i
  {
    if i == n then Ok((block, []))
    else
      var at := ArgumentAt(block, n, i);
      if at + 8 > |block| then Undefined
      else
        var (after, rest) :- UnpackFrom(TranslateAt(block, at, m), n, i + 1, m);
        Ok((after, [at] + rest))
  }

  function Unpack(block: seq<Byte>, m: map<nat, nat>): Attempt<(seq<Byte>, seq<nat>)> {
    if |block| < 8 then Undefined
    else
      var n := Field(block, 0, 8);
      if AreaAt(n) > |block| then Undefined else UnpackFrom(block, n, 0, m)
  }

  /** The map the manager applies; none in bypass mode. */
  ghost function Mapping(rm: Manager): map<nat, nat>
    requires rm.Valid()
    reads rm, rm.mapRes, rm.mapRes.elements, rm.newRes, rm.newRes.elements
  {
    if rm.bypass then map[] else rm.View()
  }

  method UnpackArguments(block: array<Byte>, rm: Manager) returns (r: Attempt<seq<nat>>)
    requires rm.Valid() && (block as object) != rm.mapRes.elements && (block as object) != rm.newRes.elements
    modifies block
    ensures match Unpack(old(block[..]), old(Mapping(rm)))
      case Ok((after, pointers)) => r == Ok(pointers) && block[..] == after
      case _ => r == Undefined
  {
    hide Field, Put;
    if block.Length < 8 {
      return Undefined;
    }
    var n := Field(block[..], 0, 8);
    if AreaAt(n) > block.Length {
      return Undefined;
    }
    ghost var m, whole := Mapping(rm), UnpackFrom(block[..], n, 0, Mapping(rm));
    var pointers: seq<nat> := [];
    PrependNothing(whole);
    for i := 0 to n
      invariant rm.Valid() && Mapping(rm) == m
      invariant whole == Prepend(pointers, UnpackFrom(block[..], n, i, m))
    {
      var at := ArgumentAt(block[..], n, i);
      if at + 8 > block.Length {
        return Undefined;
      }
      ghost var before := block[..];
      var address := rm.Get(Field(block[..], at, 8));
      var bytes := ToLE(address, 8);
      forall k | 0 <= k < 8 {
        block[at + k] := bytes[k];
      }
      assert block[..] == TranslateAt(before, at, m) by {
        Overwritten(before, at, address, block[..]);
      }
      PrependBoth(pointers, at, UnpackFrom(block[..], n, i + 1, m));
      pointers := pointers + [at];
    }
    assert pointers + [] == pointers;
    return Ok(pointers);
  }

  lemma Overwritten(before: seq<Byte>, at: nat, address: nat, after: seq<Byte>)
    requires at + 8 <= |before| == |after|
    requires forall k :: 0 <= k < |before| ==>
               after[k] == if at <= k < at + 8 then ToLE(address, 8)[k - at] else before[k]
    ensures after == Put(before, at, 8, address)
  {
    hide ToLE;
  }

  ghost function Prepend(pointers: seq<nat>, r: Attempt<(seq<Byte>, seq<nat>)>): Attempt<(seq<Byte>, seq<nat>)> {
    match r
    case Ok((block, rest)) => Ok((block, pointers + rest))
    case Failed => Failed
    case Undefined => Undefined
  }

  lemma PrependNothing(r: Attempt<(seq<Byte>, seq<nat>)>)
    ensures Prepend([], r) == r
  {
    if r.Ok? {
      assert [] + r.value.1 == r.value.1;
    }
  }

  lemma PrependBoth(pointers: seq<nat>, at: nat, r: Attempt<(seq<Byte>, seq<nat>)>)
    ensures Prepend(pointers, Prepend([at], r)) == Prepend(pointers + [at], r)
  {
    if r.Ok? {
      assert pointers + ([at] + r.value.1) == pointers + [at] + r.value.1;
    }
  }
}
