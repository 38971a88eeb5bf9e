/** Which bytes the launched kernel finds behind its argument pointers. */
module LaunchLaws {
  import opened Attempts
  import opened Bytes
  import opened ResourceManager
  import opened LaunchArguments

  function ParameterAt(info: KernelInfo, i: nat): nat
    requires i < |info.offsets|
  {
    AreaAt(|info.offsets|) + info.offsets[i]
  }

  /** The parameters lie in the parameter area and do not overlap. */
  predicate Disjoint(info: KernelInfo)
    requires |info.offsets| == |info.sizes|
  {
    (forall i :: 0 <= i < |info.offsets| ==> info.offsets[i] + info.sizes[i] <= info.paramSize) &&
    (forall i, j :: 0 <= i < j < |info.offsets| ==>
       info.offsets[i] + info.sizes[i] <= info.offsets[j] || info.offsets[j] + info.sizes[j] <= info.offsets[i])
  }

  /** The memory behind each argument pointer is as large as the parameter. */
  predicate Supplied(info: KernelInfo, arguments: seq<seq<Byte>>) {
    ValidInfo(info) && |arguments| == |info.sizes| &&
    forall i :: 0 <= i < |arguments| ==> info.sizes[i] <= |arguments[i]|
  }

  /** The block starts with the table of offsets. */
  predicate HasTable(info: KernelInfo, block: seq<Byte>) {
    var n := |info.offsets|;
    |block| == AreaAt(n) + info.paramSize && Field(block, 0, 8) == n &&
    forall i :: 0 <= i < n ==> Field(block, 8 + 2 * i, 2) == info.offsets[i]
  }

  /** Parameter i of the block holds `value`. */
  predicate Parameter(info: KernelInfo, block: seq<Byte>, i: nat, value: seq<Byte>)
    requires i < |info.offsets|
  {
    Holds(block, ParameterAt(info, i), value)
  }

  /* ---------- packing ---------- */

  lemma {:induction false} OffsetBytesAt(offsets: seq<nat>, i: nat)
    requires i < |offsets|
    ensures OffsetBytes(offsets)[2 * i..2 * i + 2] == ToLE(offsets[i], 2)
    decreases i
  {
    hide ToLE;
    var rest := OffsetBytes(offsets[1..]);
    if i > 0 {
      OffsetBytesAt(offsets[1..], i - 1);
      assert OffsetBytes(offsets)[2 * i..2 * i + 2] == rest[2 * i - 2..2 * i];
    }
  }

  lemma EmptyBlockHasTable(info: KernelInfo, uninitialised: nat -> Byte)
    requires ValidInfo(info)
    ensures HasTable(info, EmptyBlock(info, uninitialised))
  {
    hide ToLE, FromLE, OffsetBytes;
    var b, n := EmptyBlock(info, uninitialised), |info.offsets|;
    Pow256Values();
    FitsRoundTrip(n, 8);
    assert b[0..8] == ToLE(n, 8);
    forall i | 0 <= i < n
      ensures Field(b, 8 + 2 * i, 2) == info.offsets[i]
    {
      OffsetBytesAt(info.offsets, i);
      assert b[8 + 2 * i..8 + 2 * i + 2] == OffsetBytes(info.offsets)[2 * i..2 * i + 2];
      assert info.offsets[i] in info.offsets;
      FitsRoundTrip(info.offsets[i], 2);
    }
  }

  /** Writing inside the parameter area leaves the table as it is. */
  lemma SpliceKeepsTable(info: KernelInfo, block: seq<Byte>, at: nat, data: seq<Byte>)
    requires HasTable(info, block) && AreaAt(|info.offsets|) <= at && at + |data| <= |block|
    ensures HasTable(info, Splice(block, at, data))
  {
    hide FromLE;
    var now, n := Splice(block, at, data), |info.offsets|;
    assert now[0..8] == block[0..8];
    forall i | 0 <= i < n
      ensures Field(now, 8 + 2 * i, 2) == info.offsets[i]
    {
      assert now[8 + 2 * i..8 + 2 * i + 2] == block[8 + 2 * i..8 + 2 * i + 2];
    }
  }

  lemma SpliceKeepsParameter(block: seq<Byte>, at: nat, data: seq<Byte>, k: nat, value: seq<Byte>)
    requires at + |data| <= |block| && Holds(block, k, value)
    requires k + |value| <= at || at + |data| <= k
    ensures Holds(Splice(block, at, data), k, value)
  {
  }

  predicate PackedBefore(info: KernelInfo, arguments: seq<seq<Byte>>, j: nat, block: seq<Byte>)
    requires Supplied(info, arguments) && j <= |arguments|
  {
    HasTable(info, block) &&
    forall i :: 0 <= i < j ==> Parameter(info, block, i, arguments[i][..info.sizes[i]])
  }

  lemma {:induction false} RestPacked(info: KernelInfo, arguments: seq<seq<Byte>>, j: nat, block: seq<Byte>)
    requires Supplied(info, arguments) && Disjoint(info) && j <= |arguments| && PackedBefore(info, arguments, j, block)
    ensures var r := PackFrom(info, arguments, j, block);
            r.Ok? && PackedBefore(info, arguments, |arguments|, r.value)
    decreases |arguments| - j
  {
    hide HasTable;
    if j < |arguments| {
      OnePacked(info, arguments, j, block);
      var now := Splice(block, ParameterAt(info, j), arguments[j][..info.sizes[j]]);
      RestPacked(info, arguments, j + 1, now);
    }
  }

  lemma BlockSize(info: KernelInfo, block: seq<Byte>)
    requires HasTable(info, block)
    ensures |block| == AreaAt(|info.offsets|) + info.paramSize
  {
  }

  lemma OnePacked(info: KernelInfo, arguments: seq<seq<Byte>>, j: nat, block: seq<Byte>)
    requires Supplied(info, arguments) && Disjoint(info) && j < |arguments| && PackedBefore(info, arguments, j, block)
    ensures ParameterAt(info, j) + info.sizes[j] <= |block|
    ensures PackedBefore(info, arguments, j + 1, Splice(block, ParameterAt(info, j), arguments[j][..info.sizes[j]]))
  {
    BlockSize(info, block);
    hide HasTable, Splice;
    var at, data := ParameterAt(info, j), arguments[j][..info.sizes[j]];
    SpliceKeepsTable(info, block, at, data);
    SpliceTells(block, at, data);
    forall i | 0 <= i < j
      ensures Parameter(info, Splice(block, at, data), i, arguments[i][..info.sizes[i]])
    {
      assert Parameter(info, block, i, arguments[i][..info.sizes[i]]);
      SpliceKeepsParameter(block, at, data, ParameterAt(info, i), arguments[i][..info.sizes[i]]);
    }
  }

  lemma SpliceTells(block: seq<Byte>, at: nat, data: seq<Byte>)
    requires at + |data| <= |block|
    ensures Holds(Splice(block, at, data), at, data)
  {
  }

  /** The client's block: the table, and every argument in its place. */
  lemma ArgumentsPacked(info: KernelInfo, arguments: seq<seq<Byte>>, uninitialised: nat -> Byte)
    requires Supplied(info, arguments) && Disjoint(info)
    ensures var r := Pack(info, arguments, uninitialised);
            r.Ok? && PackedBefore(info, arguments, |arguments|, r.value)
  {
    hide HasTable, EmptyBlock;
    EmptyBlockHasTable(info, uninitialised);
    RestPacked(info, arguments, 0, EmptyBlock(info, uninitialised));
  }

  /* ---------- unpacking ---------- */

  /** Eight bytes can be read at every offset. */
  predicate WindowsFit(info: KernelInfo) {
    forall i :: 0 <= i < |info.offsets| ==> info.offsets[i] + 8 <= info.paramSize
  }

  function Pointers(info: KernelInfo): (ps: seq<nat>)
    ensures |ps| == |info.offsets| && forall i :: 0 <= i < |ps| ==> ps[i] == ParameterAt(info, i)
  {
    seq(|info.offsets|, i requires 0 <= i < |info.offsets| => ParameterAt(info, i))
  }

  lemma TranslateKeepsTable(info: KernelInfo, block: seq<Byte>, i: nat, m: map<nat, nat>)
    requires HasTable(info, block) && i < |info.offsets| && ParameterAt(info, i) + 8 <= |block|
    ensures HasTable(info, TranslateAt(block, ParameterAt(info, i), m))
  {
    hide HasTable, ToLE, FromLE;
    var at := ParameterAt(info, i);
    SpliceKeepsTable(info, block, at, ToLE(Translate(m, Field(block, at, 8)), 8));
  }

  /** The server's loop stays inside the block just when eight bytes can be read at every offset. */
  lemma {:induction false} LoopDefined(info: KernelInfo, block: seq<Byte>, i: nat, m: map<nat, nat>)
    requires HasTable(info, block) && i <= |info.offsets|
    ensures var r := UnpackFrom(block, |info.offsets|, i, m);
            if forall k :: i <= k < |info.offsets| ==> info.offsets[k] + 8 <= info.paramSize
            then r.Ok? && HasTable(info, r.value.0) && r.value.1 == Pointers(info)[i..] else r == Undefined
    decreases |info.offsets| - i
  {
    hide Field, TranslateAt;
    if i < |info.offsets| {
      var at := ParameterAt(info, i);
      assert at == ArgumentAt(block, |info.offsets|, i);
      if info.offsets[i] + 8 <= info.paramSize {
        TranslateKeepsTable(info, block, i, m);
        LoopDefined(info, TranslateAt(block, at, m), i + 1, m);
        assert Pointers(info)[i..] == [at] + Pointers(info)[i + 1..];
      }
    }
  }

  /**
   The parameters that are device pointers; they have eight bytes, as other parameters may have too.
   Neither the table nor the block tells which they are: only the kernel knows.
   */
  predicate ArePointers(info: KernelInfo, pointers: set<nat>) {
    forall i :: i in pointers ==> i < |info.sizes| && info.sizes[i] == 8
  }

  predicate Typed(info: KernelInfo, pointers: set<nat>, arguments: seq<seq<Byte>>) {
    Supplied(info, arguments) && ArePointers(info, pointers)
  }

  /**
   What the kernel should find as its i-th argument: the client's bytes, or, of a pointer, what the map makes
   of it. `RestoredMemory` tells when that is the address of the memory the client means.
   */
  function Expected(info: KernelInfo, pointers: set<nat>, arguments: seq<seq<Byte>>, i: nat,
                    m: map<nat, nat>): (s: seq<Byte>)
    requires Typed(info, pointers, arguments) && i < |arguments|
    ensures |s| == info.sizes[i]
  {
    var sent := arguments[i][..info.sizes[i]];
    if i in pointers then ToLE(Translate(m, FromLE(sent)), 8) else sent
  }

  /** When its turn comes, the eight bytes at a parameter that is no pointer are not translated. */
  predicate OthersQuiet(info: KernelInfo, pointers: set<nat>, block: seq<Byte>, i: nat, m: map<nat, nat>)
    requires |info.offsets| == |info.sizes| && i <= |info.offsets|
    decreases |info.offsets| - i
  {
    i == |info.offsets| ||
    (ParameterAt(info, i) + 8 <= |block| ==>
       var at := ParameterAt(info, i);
       (i !in pointers ==> TranslateAt(block, at, m) == block) &&
       OthersQuiet(info, pointers, TranslateAt(block, at, m), i + 1, m))
  }

  /** The first i parameters are done, the others as they were sent. */
  predicate DoneBefore(info: KernelInfo, pointers: set<nat>, arguments: seq<seq<Byte>>, i: nat, m: map<nat, nat>,
                       block: seq<Byte>)
    requires Typed(info, pointers, arguments) && i <= |arguments|
  {
    HasTable(info, block) &&
    (forall k :: 0 <= k < i ==> Parameter(info, block, k, Expected(info, pointers, arguments, k, m))) &&
    (forall k :: i <= k < |arguments| ==> Parameter(info, block, k, arguments[k][..info.sizes[k]]))
  }

  lemma OneTranslated(info: KernelInfo, pointers: set<nat>, arguments: seq<seq<Byte>>, i: nat, m: map<nat, nat>,
                      block: seq<Byte>)
    requires Typed(info, pointers, arguments) && Disjoint(info) && i < |arguments| &&
             DoneBefore(info, pointers, arguments, i, m, block)
    requires ParameterAt(info, i) + 8 <= |block|
    requires i !in pointers ==> TranslateAt(block, ParameterAt(info, i), m) == block
    ensures DoneBefore(info, pointers, arguments, i + 1, m, TranslateAt(block, ParameterAt(info, i), m))
  {
    hide HasTable, ToLE, FromLE, Translate;
    var at := ParameterAt(info, i);
    var now, sent := TranslateAt(block, at, m), arguments[i][..info.sizes[i]];
    TranslateKeepsTable(info, block, i, m);
    assert Parameter(info, block, i, sent);
    if i in pointers {
      assert Field(block, at, 8) == FromLE(sent);
      var word := ToLE(Translate(m, FromLE(sent)), 8);
      assert now == Splice(block, at, word);
      SpliceTells(block, at, word);
      forall k, value | 0 <= k < |arguments| && k != i && |value| == info.sizes[k] && Parameter(info, block, k, value)
        ensures Parameter(info, now, k, value)
      {
        SpliceKeepsParameter(block, at, word, ParameterAt(info, k), value);
      }
    }
  }

  lemma {:induction false} RestTranslated(info: KernelInfo, pointers: set<nat>, arguments: seq<seq<Byte>>, i: nat,
                                          m: map<nat, nat>,
                                          block: seq<Byte>)
    requires Typed(info, pointers, arguments) && Disjoint(info) && WindowsFit(info) && i <= |arguments|
    requires DoneBefore(info, pointers, arguments, i, m, block) && OthersQuiet(info, pointers, block, i, m)
    ensures var r := UnpackFrom(block, |info.offsets|, i, m);
            r.Ok? && DoneBefore(info, pointers, arguments, |arguments|, m, r.value.0) &&
              r.value.1 == Pointers(info)[i..]
    decreases |arguments| - i
  {
    LoopDefined(info, block, i, m);
    hide Field, TranslateAt, Pointers, Expected, Parameter;
    if i < |arguments| {
      OneTranslated(info, pointers, arguments, i, m, block);
      RestTranslated(info, pointers, arguments, i + 1, m, TranslateAt(block, ParameterAt(info, i), m));
    }
  }

  /* ---------- launches ---------- */

  /** A number that is no mapped address, or an address that has not moved, leaves the block as it is. */
  lemma NotMoved(block: seq<Byte>, at: nat, m: map<nat, nat>)
    requires at + 8 <= |block| && Translate(m, Field(block, at, 8)) == Field(block, at, 8)
    ensures TranslateAt(block, at, m) == block
  {
    ToLEFromLE(block[at..at + 8]);
  }

  lemma {:induction false} NothingMapped(info: KernelInfo, pointers: set<nat>, block: seq<Byte>, i: nat)
    requires |info.offsets| == |info.sizes| && i <= |info.offsets|
    ensures OthersQuiet(info, pointers, block, i, map[])
    ensures HasTable(info, block) && UnpackFrom(block, |info.offsets|, i, map[]).Ok? ==>
              UnpackFrom(block, |info.offsets|, i, map[]).value.0 == block
    decreases |info.offsets| - i
  {
    hide Field, TranslateAt;
    if i < |info.offsets| {
      var at := ParameterAt(info, i);
      if at + 8 <= |block| {
        NotMoved(block, at, map[]);
        NothingMapped(info, pointers, block, i + 1);
      }
    }
  }

  lemma UnpackUnfolds(info: KernelInfo, block: seq<Byte>, m: map<nat, nat>)
    requires HasTable(info, block)
    ensures Unpack(block, m) == UnpackFrom(block, |info.offsets|, 0, m)
  {
    hide UnpackFrom;
  }

  /**
   A launch on a server in bypass mode, over any number of parameters of any size: the block is left
   as it came, and the i-th argument pointer addresses exactly the bytes the client passed. It is so
   if and only if eight bytes can be read at every offset, as the server does whatever the size.
   */
  lemma LaunchedInBypass(info: KernelInfo, arguments: seq<seq<Byte>>, uninitialised: nat -> Byte)
    requires Supplied(info, arguments) && Disjoint(info)
    ensures Pack(info, arguments, uninitialised).Ok?
    ensures var block := Pack(info, arguments, uninitialised).value;
            var r := Unpack(block, map[]);
            if WindowsFit(info)
            then r == Ok((block, Pointers(info))) &&
                 forall i :: 0 <= i < |arguments| ==> Holds(block, Pointers(info)[i], arguments[i][..info.sizes[i]])
            else r == Undefined
  {
    ArgumentsPacked(info, arguments, uninitialised);
    var block := Pack(info, arguments, uninitialised).value;
    hide Pack, HasTable, UnpackFrom, Unpack, WindowsFit;
    BlockSize(info, block);
    UnpackUnfolds(info, block, map[]);
    NothingMapped(info, {}, block, 0);
    WindowsDefined(info, block, map[]);
    forall i | 0 <= i < |arguments|
      ensures Holds(block, Pointers(info)[i], arguments[i][..info.sizes[i]])
    {
      assert Parameter(info, block, i, arguments[i][..info.sizes[i]]);
    }
  }

  lemma WindowsDefined(info: KernelInfo, block: seq<Byte>, m: map<nat, nat>)
    requires HasTable(info, block)
    ensures var r := UnpackFrom(block, |info.offsets|, 0, m);
            if WindowsFit(info) then r.Ok? && r.value.1 == Pointers(info) else r == Undefined
  {
    LoopDefined(info, block, 0, m);
    assert Pointers(info)[0..] == Pointers(info);
  }

  /** A launch on a restored server, where the bytes at the parameters that are no pointers are not translated. */
  lemma LaunchedWithMap(info: KernelInfo, pointers: set<nat>, arguments: seq<seq<Byte>>, uninitialised: nat -> Byte,
                        m: map<nat, nat>)
    requires Typed(info, pointers, arguments) && Disjoint(info) && WindowsFit(info)
    requires Pack(info, arguments, uninitialised).Ok? ==>
               OthersQuiet(info, pointers, Pack(info, arguments, uninitialised).value, 0, m)
    ensures Pack(info, arguments, uninitialised).Ok?
    ensures var r := Unpack(Pack(info, arguments, uninitialised).value, m);
            r.Ok? && r.value.1 == Pointers(info) &&
            forall i :: 0 <= i < |arguments| ==>
              Holds(r.value.0, Pointers(info)[i], Expected(info, pointers, arguments, i, m))
  {
    ArgumentsPacked(info, arguments, uninitialised);
    var block := Pack(info, arguments, uninitialised).value;
    hide Pack, HasTable, UnpackFrom, Unpack, WindowsFit, OthersQuiet, Expected;
    UnpackUnfolds(info, block, m);
    RestTranslated(info, pointers, arguments, 0, m, block);
    assert Pointers(info)[0..] == Pointers(info);
    var after := UnpackFrom(block, |info.offsets|, 0, m).value.0;
    forall i | 0 <= i < |arguments|
      ensures Holds(after, Pointers(info)[i], Expected(info, pointers, arguments, i, m))
    {
      assert Parameter(info, after, i, Expected(info, pointers, arguments, i, m));
    }
  }

  lemma {:induction false} PointersQuiet(info: KernelInfo, pointers: set<nat>, block: seq<Byte>, i: nat,
                                         m: map<nat, nat>)
    requires |info.offsets| == |info.sizes| && i <= |info.offsets| && forall k :: 0 <= k < |info.sizes| ==>
             k in pointers
    ensures OthersQuiet(info, pointers, block, i, m)
    decreases |info.offsets| - i
  {
    hide TranslateAt;
    if i < |info.offsets| && ParameterAt(info, i) + 8 <= |block| {
      PointersQuiet(info, pointers, TranslateAt(block, ParameterAt(info, i), m), i + 1, m);
    }
  }

  function FirstNumbers(n: nat): (s: set<nat>)
    ensures forall i: nat :: i in s <==> i < n
  {
    if n == 0 then {} else FirstNumbers(n - 1) + {n - 1}
  }

  /** On a restored server, a kernel of eight-byte parameters gets each of them translated, in any order. */
  lemma PointersTranslated(info: KernelInfo, arguments: seq<seq<Byte>>, uninitialised: nat -> Byte, m: map<nat, nat>)
    requires Supplied(info, arguments) && Disjoint(info) && forall k :: 0 <= k < |info.sizes| ==> info.sizes[k] == 8
    ensures Pack(info, arguments, uninitialised).Ok?
    ensures var r := Unpack(Pack(info, arguments, uninitialised).value, m);
            r.Ok? && r.value.1 == Pointers(info) &&
            forall i :: 0 <= i < |arguments| ==>
              Holds(r.value.0, Pointers(info)[i], ToLE(Translate(m, FromLE(arguments[i][..8])), 8))
  {
    hide Pack, Unpack, OthersQuiet, ToLE, FromLE, Translate;
    var pointers := FirstNumbers(|info.sizes|);
    if Pack(info, arguments, uninitialised).Ok? {
      PointersQuiet(info, pointers, Pack(info, arguments, uninitialised).value, 0, m);
    }
    LaunchedWithMap(info, pointers, arguments, uninitialised, m);
    forall i | 0 <= i < |arguments|
      ensures Expected(info, pointers, arguments, i, m) == ToLE(Translate(m, FromLE(arguments[i][..8])), 8)
    {
      assert info.sizes[i] == 8;
    }
  }

  /** Parameter k of the final block is what it should be. */
  predicate Arrived(info: KernelInfo, pointers: set<nat>, arguments: seq<seq<Byte>>, m: map<nat, nat>,
                    block: seq<Byte>, k: nat)
    requires Typed(info, pointers, arguments) && k < |arguments|
  {
    Parameter(info, block, k, Expected(info, pointers, arguments, k, m))
  }

  predicate AllArrived(info: KernelInfo, pointers: set<nat>, arguments: seq<seq<Byte>>, m: map<nat, nat>,
                       block: seq<Byte>)
    requires Typed(info, pointers, arguments)
  {
    forall k :: 0 <= k < |arguments| ==> Arrived(info, pointers, arguments, m, block, k)
  }

  /** The parameters that are no pointers are what they should be. */
  predicate OthersArrived(info: KernelInfo, pointers: set<nat>, arguments: seq<seq<Byte>>, m: map<nat, nat>,
                          block: seq<Byte>)
    requires Typed(info, pointers, arguments)
  {
    forall k :: 0 <= k < |arguments| && k !in pointers ==> Arrived(info, pointers, arguments, m, block, k)
  }

  /** The number the client passes as an argument of eight bytes. */
  function NumberPassed(arguments: seq<seq<Byte>>, i: nat): nat
    requires i < |arguments| && 8 <= |arguments[i]|
  {
    FromLE(arguments[i][..8])
  }

  lemma TranslatedNumber(sent: seq<Byte>, m: map<nat, nat>)
    requires |sent| == 8 && forall a :: a in m ==> m[a] < U64
    ensures ToLE(Translate(m, FromLE(sent)), 8) == sent <==> Translate(m, FromLE(sent)) == FromLE(sent)
  {
    hide ToLE, FromLE;
    Pow256Values();
    ToLEFromLE(sent);
    FitsRoundTrip(Translate(m, FromLE(sent)), 8);
  }

  /**
   On a restored server, a kernel whose parameters all have eight bytes, pointers or not and in any order,
   gets every argument as it should if and only if the restored addresses change none of the numbers the
   client passes that are no pointers.
   */
  lemma EightByteArgumentsExactly(info: KernelInfo, pointers: set<nat>, arguments: seq<seq<Byte>>,
                                  uninitialised: nat -> Byte, m: map<nat, nat>)
    requires Typed(info, pointers, arguments) && Disjoint(info) && forall a :: a in m ==> m[a] < U64
    requires forall k :: 0 <= k < |info.sizes| ==> info.sizes[k] == 8
    ensures var sent := Pack(info, arguments, uninitialised);
            sent.Ok? &&
            var r := Unpack(sent.value, m);
            r.Ok? &&
            (AllArrived(info, pointers, arguments, m, r.value.0) <==>
             forall i :: 0 <= i < |arguments| && i !in pointers ==>
               Translate(m, NumberPassed(arguments, i)) == NumberPassed(arguments, i))
  {
    hide Pack, Unpack, ToLE, FromLE, Translate, Disjoint;
    PointersTranslated(info, arguments, uninitialised, m);
    var final := Unpack(Pack(info, arguments, uninitialised).value, m).value.0;
    forall i | 0 <= i < |arguments|
      ensures Arrived(info, pointers, arguments, m, final, i) <==>
              i in pointers || Translate(m, NumberPassed(arguments, i)) == NumberPassed(arguments, i)
    {
      var sent := arguments[i][..8];
      assert info.sizes[i] == 8;
      TranslatedNumber(sent, m);
      assert Holds(final, Pointers(info)[i], ToLE(Translate(m, FromLE(sent)), 8));
    }
  }

  /** Parameters in the order of their offsets, as compilers lay them out. */
  predicate Ascending(info: KernelInfo)
    requires |info.offsets| == |info.sizes|
  {
    forall i, j :: 0 <= i < j < |info.offsets| ==> info.offsets[i] + info.sizes[i] <= info.offsets[j]
  }

  /** No eight bytes at the start of a parameter that is no pointer, from the i-th on, are an address that has moved. */
  predicate NoneMistaken(info: KernelInfo, pointers: set<nat>, block: seq<Byte>, i: nat, m: map<nat, nat>)
    requires |info.offsets| == |info.sizes|
  {
    forall k :: i <= k < |info.offsets| && k !in pointers && ParameterAt(info, k) + 8 <= |block| ==>
      var number := Field(block, ParameterAt(info, k), 8); Translate(m, number) == number
  }

  lemma NextNoneMistaken(info: KernelInfo, pointers: set<nat>, block: seq<Byte>, i: nat, m: map<nat, nat>)
    requires |info.offsets| == |info.sizes| && i < |info.offsets| && Ascending(info) && ArePointers(info, pointers)
    requires NoneMistaken(info, pointers, block, i, m) && ParameterAt(info, i) + 8 <= |block|
    ensures NoneMistaken(info, pointers, TranslateAt(block, ParameterAt(info, i), m), i + 1, m)
    ensures i !in pointers ==> TranslateAt(block, ParameterAt(info, i), m) == block
  {
    var at := ParameterAt(info, i);
    if i !in pointers {
      NotMoved(block, at, m);
    } else {
      hide Field, Translate;
      forall k | i < k < |info.offsets| && k !in pointers && ParameterAt(info, k) + 8 <= |block|
        ensures var number := Field(TranslateAt(block, at, m), ParameterAt(info, k), 8); Translate(m, number) == number
      {
        PutGetOther(block, at, 8, Translate(m, Field(block, at, 8)), ParameterAt(info, k), 8);
      }
    }
  }

  lemma {:induction false} AscendingQuiet(info: KernelInfo, pointers: set<nat>, block: seq<Byte>, i: nat,
                                          m: map<nat, nat>)
    requires |info.offsets| == |info.sizes| && i <= |info.offsets| && Ascending(info) && ArePointers(info, pointers)
    requires NoneMistaken(info, pointers, block, i, m)
    ensures OthersQuiet(info, pointers, block, i, m)
    decreases |info.offsets| - i
  {
    hide TranslateAt, Field, NoneMistaken;
    if i < |info.offsets| && ParameterAt(info, i) + 8 <= |block| {
      NextNoneMistaken(info, pointers, block, i, m);
      AscendingQuiet(info, pointers, TranslateAt(block, ParameterAt(info, i), m), i + 1, m);
    }
  }

  /**
   On a restored server with parameters of any sizes: pointers are translated and the other
   arguments, of eight bytes or not, are the client's, if no eight bytes of the client's block that
   start at a parameter which is no pointer happen to be an address that has moved.
   */
  lemma MixedArgumentsTranslated(info: KernelInfo, pointers: set<nat>, arguments: seq<seq<Byte>>,
                                 uninitialised: nat -> Byte, m: map<nat, nat>)
    requires Typed(info, pointers, arguments) && Disjoint(info) && WindowsFit(info) && Ascending(info)
    requires Pack(info, arguments, uninitialised).Ok? ==>
               NoneMistaken(info, pointers, Pack(info, arguments, uninitialised).value, 0, m)
    ensures Pack(info, arguments, uninitialised).Ok?
    ensures var r := Unpack(Pack(info, arguments, uninitialised).value, m);
            r.Ok? && r.value.1 == Pointers(info) &&
            forall i :: 0 <= i < |arguments| ==>
              Holds(r.value.0, Pointers(info)[i], Expected(info, pointers, arguments, i, m))
  {
    hide Pack, Unpack, OthersQuiet, Expected, NoneMistaken;
    if Pack(info, arguments, uninitialised).Ok? {
      AscendingQuiet(info, pointers, Pack(info, arguments, uninitialised).value, 0, m);
    }
    LaunchedWithMap(info, pointers, arguments, uninitialised, m);
  }

  /** How many bytes of a parameter lie in the eight that the server reads. */
  function Seen(size: nat): nat {
    if size < 8 then size else 8
  }

  /** An address that has moved differs in those of its bytes that would lie in a parameter which is no pointer. */
  predicate Visible(info: KernelInfo, pointers: set<nat>, m: map<nat, nat>) {
    forall i, a :: 0 <= i < |info.sizes| && i !in pointers && a in m && m[a] != a ==>
      ToLE(m[a], 8)[..Seen(info.sizes[i])] != ToLE(a, 8)[..Seen(info.sizes[i])]
  }

  /** The loop leaves everything before its parameters alone. */
  lemma {:induction false} UnpackKeepsBelow(info: KernelInfo, block: seq<Byte>, i: nat, m: map<nat, nat>, limit: nat)
    requires HasTable(info, block) && i <= |info.offsets| && limit <= |block|
    requires forall k :: i <= k < |info.offsets| ==> limit <= ParameterAt(info, k)
    ensures var r := UnpackFrom(block, |info.offsets|, i, m); r.Ok? ==> r.value.0[..limit] == block[..limit]
    decreases |info.offsets| - i
  {
    if i < |info.offsets| {
      var at := ParameterAt(info, i);
      assert at == ArgumentAt(block, |info.offsets|, i);
      if at + 8 <= |block| {
        TranslateKeepsBelow(block, at, m, limit);
        TranslateKeepsTable(info, block, i, m);
        hide HasTable, TranslateAt;
        UnpackKeepsBelow(info, TranslateAt(block, at, m), i + 1, m, limit);
      }
    }
  }

  lemma TranslateKeepsBelow(block: seq<Byte>, at: nat, m: map<nat, nat>, limit: nat)
    requires limit <= at && at + 8 <= |block|
    ensures TranslateAt(block, at, m)[..limit] == block[..limit]
  {
    hide ToLE, FromLE;
  }

  lemma SameSlice(a: seq<Byte>, b: seq<Byte>, limit: nat, from: nat, n: nat)
    requires limit <= |a| && limit <= |b| && a[..limit] == b[..limit] && from + n <= limit
    ensures a[from..from + n] == b[from..from + n]
  {
    assert a[..limit][from..from + n] == a[from..from + n];
    assert b[..limit][from..from + n] == b[from..from + n];
  }

  lemma FirstPart(s: seq<Byte>, at: nat, n: nat, k: nat)
    requires at + n <= |s| && k <= n
    ensures s[at..at + n][..k] == s[at..at + k]
  {
  }

  /** Translating a mapped address that starts in a parameter which is no pointer changes the parameter. */
  lemma MistakenChanges(block: seq<Byte>, at: nat, sent: seq<Byte>, m: map<nat, nat>, final: seq<Byte>)
    requires at + 8 <= |block| && Holds(block, at, sent) && Field(block, at, 8) in m
    requires var a := Field(block, at, 8); ToLE(m[a], 8)[..Seen(|sent|)] != ToLE(a, 8)[..Seen(|sent|)]
    requires at + |sent| <= |block| == |final| && final[..at + |sent|] == TranslateAt(block, at, m)[..at + |sent|]
    ensures !Holds(final, at, sent)
  {
    hide ToLE, FromLE;
    var a, seen := Field(block, at, 8), Seen(|sent|);
    var now := TranslateAt(block, at, m);
    ToLEFromLE(block[at..at + 8]);
    assert now[at..at + 8] == ToLE(m[a], 8);
    FirstPart(block, at, 8, seen);
    FirstPart(block, at, |sent|, seen);
    FirstPart(now, at, 8, seen);
    FirstPart(final, at, |sent|, seen);
    SameSlice(final, now, at + |sent|, at, seen);
  }

  lemma WindowAt(info: KernelInfo, block: seq<Byte>, i: nat, m: map<nat, nat>)
    requires WindowsFit(info) && HasTable(info, block) && i < |info.offsets|
    ensures ParameterAt(info, i) + 8 <= |block| && UnpackFrom(block, |info.offsets|, i, m).Ok?
  {
    LoopDefined(info, block, i, m);
  }

  lemma NotYetDone(info: KernelInfo, pointers: set<nat>, arguments: seq<seq<Byte>>, i: nat, m: map<nat, nat>,
                   block: seq<Byte>)
    requires Typed(info, pointers, arguments) && i < |arguments| && DoneBefore(info, pointers, arguments, i, m, block)
    ensures HasTable(info, block) && Parameter(info, block, i, arguments[i][..info.sizes[i]])
  {
  }

  lemma LaterOffsets(info: KernelInfo, i: nat)
    requires |info.offsets| == |info.sizes| && i < |info.offsets| && Ascending(info)
    ensures forall k :: i < k < |info.offsets| ==> ParameterAt(info, i) + info.sizes[i] <= ParameterAt(info, k)
  {
  }

  lemma UnpackStep(info: KernelInfo, block: seq<Byte>, i: nat, m: map<nat, nat>)
    requires HasTable(info, block) && i < |info.offsets| && ParameterAt(info, i) + 8 <= |block|
    ensures var r := UnpackFrom(block, |info.offsets|, i, m);
            var next := UnpackFrom(TranslateAt(block, ParameterAt(info, i), m), |info.offsets|, i + 1, m);
            r.Ok? ==> next.Ok? && r.value.0 == next.value.0
  {
    hide TranslateAt;
  }

  lemma FirstMistaken(info: KernelInfo, pointers: set<nat>, arguments: seq<seq<Byte>>, i: nat, m: map<nat, nat>,
                      block: seq<Byte>)
    requires Typed(info, pointers, arguments) && Disjoint(info) && WindowsFit(info) && Ascending(info) &&
             Visible(info, pointers, m)
    requires i < |arguments| && DoneBefore(info, pointers, arguments, i, m, block)
    requires i !in pointers
    requires var number := Field(block, ParameterAt(info, i), 8); number in m && m[number] != number
    ensures var r := UnpackFrom(block, |info.offsets|, i, m);
            r.Ok? && !Arrived(info, pointers, arguments, m, r.value.0, i)
  {
    hide HasTable, ToLE, FromLE, Field, TranslateAt, UnpackFrom, Disjoint, WindowsFit, Ascending, DoneBefore;
    var at, sent := ParameterAt(info, i), arguments[i][..info.sizes[i]];
    NotYetDone(info, pointers, arguments, i, m, block);
    WindowAt(info, block, i, m);
    TranslateKeepsTable(info, block, i, m);
    UnpackStep(info, block, i, m);
    LaterOffsets(info, i);
    UnpackKeepsBelow(info, TranslateAt(block, at, m), i + 1, m, at + |sent|);
    MistakenChanges(block, at, sent, m, UnpackFrom(block, |info.offsets|, i, m).value.0);
  }

  /** Whether an address is mistaken from the i-th parameter on is not changed by handling the i-th. */
  lemma MistakenLater(info: KernelInfo, pointers: set<nat>, block: seq<Byte>, i: nat, m: map<nat, nat>)
    requires |info.offsets| == |info.sizes| && i < |info.offsets| && Ascending(info) && ArePointers(info, pointers)
    requires ParameterAt(info, i) + 8 <= |block| && i in pointers
    ensures NoneMistaken(info, pointers, block, i, m) <==>
            NoneMistaken(info, pointers, TranslateAt(block, ParameterAt(info, i), m), i + 1, m)
  {
    hide Field, Translate;
    var at := ParameterAt(info, i);
    forall k | i < k < |info.offsets| && ParameterAt(info, k) + 8 <= |block|
      ensures Field(TranslateAt(block, at, m), ParameterAt(info, k), 8) == Field(block, ParameterAt(info, k), 8)
    {
      PutGetOther(block, at, 8, Translate(m, Field(block, at, 8)), ParameterAt(info, k), 8);
    }
  }

  lemma {:induction false} RestArrives(info: KernelInfo, pointers: set<nat>, arguments: seq<seq<Byte>>, i: nat,
                                       m: map<nat, nat>, block: seq<Byte>)
    requires Typed(info, pointers, arguments) && Disjoint(info) && WindowsFit(info) && Ascending(info) &&
             Visible(info, pointers, m)
    requires i <= |arguments| && DoneBefore(info, pointers, arguments, i, m, block)
    ensures var r := UnpackFrom(block, |info.offsets|, i, m);
            r.Ok? && (AllArrived(info, pointers, arguments, m, r.value.0) <==>
              NoneMistaken(info, pointers, block, i, m)) &&
            (OthersArrived(info, pointers, arguments, m, r.value.0) <==> NoneMistaken(info, pointers, block, i, m))
    decreases |arguments| - i
  {
    LoopDefined(info, block, i, m);
    BlockSize(info, block);
    hide HasTable, Field, TranslateAt, Visible, Expected, Parameter, Ascending;
    if i < |arguments| {
      var at := ParameterAt(info, i);
      if i in pointers {
        OneTranslated(info, pointers, arguments, i, m, block);
        MistakenLater(info, pointers, block, i, m);
        RestArrives(info, pointers, arguments, i + 1, m, TranslateAt(block, at, m));
      } else if Translate(m, Field(block, at, 8)) != Field(block, at, 8) {
        FirstMistaken(info, pointers, arguments, i, m, block);
      } else {
        NotMoved(block, at, m);
        OneTranslated(info, pointers, arguments, i, m, block);
        RestArrives(info, pointers, arguments, i + 1, m, block);
      }
    }
  }

  /**
   On a restored server where every address has moved visibly or not at all, every argument arrives as it
   should if and only if no eight bytes of the client's block that start at a parameter which is no pointer
   are an address that has moved.
   */
  lemma MixedArgumentsExactly(info: KernelInfo, pointers: set<nat>, arguments: seq<seq<Byte>>,
                              uninitialised: nat -> Byte, m: map<nat, nat>)
    requires Typed(info, pointers, arguments) && Disjoint(info) && WindowsFit(info) && Ascending(info) &&
             Visible(info, pointers, m)
    ensures var sent := Pack(info, arguments, uninitialised);
            sent.Ok? &&
            var r := Unpack(sent.value, m);
            r.Ok? && (AllArrived(info, pointers, arguments, m, r.value.0) <==>
              NoneMistaken(info, pointers, sent.value, 0, m)) &&
            (OthersArrived(info, pointers, arguments, m, r.value.0) <==>
              NoneMistaken(info, pointers, sent.value, 0, m))
  {
    ArgumentsPacked(info, arguments, uninitialised);
    var block := Pack(info, arguments, uninitialised).value;
    hide Pack, HasTable, UnpackFrom, Unpack, WindowsFit, Visible, Expected, NoneMistaken, AllArrived, OthersArrived;
    UnpackUnfolds(info, block, m);
    RestArrives(info, pointers, arguments, 0, m, block);
  }

  /** The block after the first n turns of the server's loop. */
  function AfterTurns(info: KernelInfo, block: seq<Byte>, n: nat, m: map<nat, nat>): (after: seq<Byte>)
    requires n <= |info.offsets|
    ensures |after| == |block|
    decreases n
  {
    if n == 0 then block
    else
      var before, at := AfterTurns(info, block, n - 1, m), ParameterAt(info, n - 1);
      if at + 8 <= |before| then TranslateAt(before, at, m) else before
  }

  lemma {:induction false} LoopTurns(info: KernelInfo, block: seq<Byte>, n: nat, m: map<nat, nat>)
    requires WindowsFit(info) && HasTable(info, block) && n <= |info.offsets|
    ensures HasTable(info, AfterTurns(info, block, n, m))
    ensures var r := UnpackFrom(AfterTurns(info, block, n, m), |info.offsets|, n, m);
            var whole := UnpackFrom(block, |info.offsets|, 0, m);
            r.Ok? && whole.Ok? && r.value.0 == whole.value.0
    decreases n
  {
    hide HasTable, UnpackFrom, TranslateAt;
    if n == 0 {
      LoopDefined(info, block, 0, m);
    } else {
      LoopTurns(info, block, n - 1, m);
      var before := AfterTurns(info, block, n - 1, m);
      WindowAt(info, before, n - 1, m);
      UnpackStep(info, before, n - 1, m);
      TranslateKeepsTable(info, before, n - 1, m);
    }
  }

  /** What a parameter holds right after its own turn is what it holds in the end. */
  lemma TurnDecides(info: KernelInfo, block: seq<Byte>, k: nat, m: map<nat, nat>)
    requires WindowsFit(info) && HasTable(info, block) && |info.offsets| == |info.sizes| && Ascending(info)
    requires k < |info.offsets| && ParameterAt(info, k) + info.sizes[k] <= |block|
    ensures var r := UnpackFrom(block, |info.offsets|, 0, m);
            var at, end := ParameterAt(info, k), ParameterAt(info, k) + info.sizes[k];
            r.Ok? && r.value.0[at..end] == AfterTurns(info, block, k + 1, m)[at..end]
  {
    hide HasTable, UnpackFrom, AfterTurns, Ascending, WindowsFit;
    LoopTurns(info, block, k + 1, m);
    LaterOffsets(info, k);
    var at, size, turned := ParameterAt(info, k), info.sizes[k], AfterTurns(info, block, k + 1, m);
    UnpackKeepsBelow(info, turned, k + 1, m, at + size);
    SameSlice(UnpackFrom(block, |info.offsets|, 0, m).value.0, turned, at + size, at, size);
  }

  /** Parameter k is what it should be right after its own turn. */
  predicate RightInTurn(info: KernelInfo, pointers: set<nat>, arguments: seq<seq<Byte>>, m: map<nat, nat>,
                        sent: seq<Byte>, k: nat)
    requires Typed(info, pointers, arguments) && k < |arguments|
  {
    Arrived(info, pointers, arguments, m, AfterTurns(info, sent, k + 1, m), k)
  }

  lemma RightInTheEnd(info: KernelInfo, pointers: set<nat>, arguments: seq<seq<Byte>>, m: map<nat, nat>,
                      sent: seq<Byte>, k: nat)
    requires Typed(info, pointers, arguments) && WindowsFit(info) && Ascending(info) && HasTable(info, sent)
    requires k < |arguments| && ParameterAt(info, k) + info.sizes[k] <= |sent|
    ensures var r := UnpackFrom(sent, |info.offsets|, 0, m);
            r.Ok? && (Arrived(info, pointers, arguments, m, r.value.0, k) <==>
                      RightInTurn(info, pointers, arguments, m, sent, k))
  {
    hide HasTable, UnpackFrom, WindowsFit, Ascending, AfterTurns, Expected;
    TurnDecides(info, sent, k, m);
  }

  /**
   For all maps, also those that move addresses without changing their lower bytes: with the parameters in the
   order of their offsets, every argument arrives as it should if and only if each is right after its own
   turn. Turns that follow do not harm it, and do not repair it either.
   */
  lemma AscendingArgumentsExactly(info: KernelInfo, pointers: set<nat>, arguments: seq<seq<Byte>>,
                                  uninitialised: nat -> Byte, m: map<nat, nat>)
    requires Typed(info, pointers, arguments) && Disjoint(info) && WindowsFit(info) && Ascending(info)
    ensures var sent := Pack(info, arguments, uninitialised);
            sent.Ok? &&
            var r := Unpack(sent.value, m);
            r.Ok? && (AllArrived(info, pointers, arguments, m, r.value.0) <==>
                      forall k :: 0 <= k < |arguments| ==>
                        RightInTurn(info, pointers, arguments, m, sent.value, k))
  {
    ArgumentsPacked(info, arguments, uninitialised);
    var block := Pack(info, arguments, uninitialised).value;
    BlockSize(info, block);
    assert forall k :: 0 <= k < |arguments| ==> ParameterAt(info, k) + info.sizes[k] <= |block|;
    hide Pack, HasTable, UnpackFrom, Unpack, WindowsFit, Ascending, Disjoint, Supplied, Arrived, RightInTurn,
         ParameterAt, Parameter;
    UnpackUnfolds(info, block, m);
    LoopTurns(info, block, 0, m);
    forall k | 0 <= k < |arguments|
      ensures Arrived(info, pointers, arguments, m, UnpackFrom(block, |info.offsets|, 0, m).value.0, k) <==>
              RightInTurn(info, pointers, arguments, m, block, k)
    {
      RightInTheEnd(info, pointers, arguments, m, block, k);
    }
  }

  /** A kernel with one parameter of four bytes: the server reads eight, and leaves the block. */
  lemma SmallKernelUndefined(argument: seq<Byte>, uninitialised: nat -> Byte, m: map<nat, nat>)
    requires |argument| >= 4
    ensures var sent := Pack(KernelInfo(4, [0], [4]), [argument], uninitialised);
            sent.Ok? && Unpack(sent.value, m) == Undefined
  {
    var info := KernelInfo(4, [0], [4]);
    ArgumentsPacked(info, [argument], uninitialised);
    hide Pack, Unpack, UnpackFrom, HasTable;
    var block := Pack(info, [argument], uninitialised).value;
    UnpackUnfolds(info, block, m);
    WindowsDefined(info, block, m);
  }

  lemma SmallWord(n: Byte)
    ensures ToLE(n, 8) == [n, 0, 0, 0, 0, 0, 0, 0] && FromLE([n, 0, 0, 0, 0, 0, 0, 0]) == n
  {
    ZeroWord(7);
    assert ToLE(n, 8) == [n] + ToLE(0, 7);
    hide ToLE, FromLE;
    Pow256Values();
    FitsRoundTrip(n, 8);
  }

  lemma {:induction false} ZeroWord(width: nat)
    ensures ToLE(0, width) == Zeros(width)
  {
    if width > 0 {
      ZeroWord(width - 1);
    }
  }

  /** Two scalars of four bytes, 5 and 0: each fits the table, and together they read as the address 5. */
  function TwoScalars(): KernelInfo {
    KernelInfo(12, [0, 4], [4, 4])
  }

  lemma ScalarsPacked(uninitialised: nat -> Byte)
    ensures var info, arguments := TwoScalars(), [[5, 0, 0, 0], [0, 0, 0, 0]];
            Supplied(info, arguments) && Disjoint(info) && WindowsFit(info) &&
            var r := Pack(info, arguments, uninitialised);
            r.Ok? && HasTable(info, r.value) && |r.value| == 24 && r.value[12..20] == [5, 0, 0, 0, 0, 0, 0, 0]
  {
    var info, arguments := TwoScalars(), [[5, 0, 0, 0], [0, 0, 0, 0]];
    assert Supplied(info, arguments) && Disjoint(info) && WindowsFit(info);
    ArgumentsPacked(info, arguments, uninitialised);
    var block := Pack(info, arguments, uninitialised).value;
    hide Pack, HasTable;
    BlockSize(info, block);
    assert block[12..16] == [5, 0, 0, 0] by {
      assert Parameter(info, block, 0, arguments[0][..4]);
    }
    assert block[16..20] == [0, 0, 0, 0] by {
      assert Parameter(info, block, 1, arguments[1][..4]);
    }
    assert block[12..20] == block[12..16] + block[16..20];
  }

  /** The kernel finds the translation of a mapped address that starts at its first parameter, pointer or not. */
  lemma FirstWindowTranslated(info: KernelInfo, block: seq<Byte>, m: map<nat, nat>, address: nat)
    requires HasTable(info, block) && |info.offsets| == |info.sizes| > 0 && Ascending(info) && WindowsFit(info)
    requires ParameterAt(info, 0) + info.sizes[0] <= |block|
    requires address in m && Holds(block, ParameterAt(info, 0), ToLE(address, 8)) && address < U64
    ensures var r := Unpack(block, m);
            r.Ok? && r.value.1 == Pointers(info) &&
            Holds(r.value.0, ParameterAt(info, 0), ToLE(m[address], 8)[..Seen(info.sizes[0])])
  {
    hide HasTable, Unpack, UnpackFrom, ToLE, FromLE, WindowsFit, Ascending;
    var at, size := ParameterAt(info, 0), info.sizes[0];
    Pow256Values();
    FitsRoundTrip(address, 8);
    assert Field(block, at, 8) == address;
    UnpackUnfolds(info, block, m);
    WindowsDefined(info, block, m);
    WindowAt(info, block, 0, m);
    UnpackStep(info, block, 0, m);
    TranslateKeepsTable(info, block, 0, m);
    LaterOffsets(info, 0);
    var next := TranslateAt(block, at, m);
    UnpackKeepsBelow(info, next, 1, m, at + size);
    assert next[at..at + 8] == ToLE(m[address], 8);
    FirstPart(next, at, 8, Seen(size));
    SameSlice(Unpack(block, m).value.0, next, at + size, at, Seen(size));
  }

  /** If the address 5 is mapped to 6, the kernel finds 6 as the first of these two scalars. */
  lemma ScalarMistaken(uninitialised: nat -> Byte)
    ensures var info, arguments := TwoScalars(), [[5, 0, 0, 0], [0, 0, 0, 0]];
            Supplied(info, arguments) && Disjoint(info) && WindowsFit(info) &&
            var sent := Pack(info, arguments, uninitialised);
            sent.Ok? &&
            var r := Unpack(sent.value, map[5 := 6]);
            r.Ok? && r.value.1 == Pointers(info) && Holds(r.value.0, Pointers(info)[0], [6, 0, 0, 0])
  {
    ScalarsPacked(uninitialised);
    hide Pack, HasTable, Unpack, ToLE, FromLE, Supplied, Disjoint, WindowsFit;
    var block := Pack(TwoScalars(), [[5, 0, 0, 0], [0, 0, 0, 0]], uninitialised).value;
    SmallWord(5);
    SmallWord(6);
    FirstWindowTranslated(TwoScalars(), block, map[5 := 6], 5);
  }

  /** One scalar of eight bytes: a parameter as large as a pointer. */
  function LongScalar(): KernelInfo {
    KernelInfo(8, [0], [8])
  }

  /** If the address 5 is mapped to 6, the number 5 does not arrive. */
  lemma LongScalarMistaken(number: seq<Byte>, uninitialised: nat -> Byte)
    requires number == ToLE(5, 8)
    ensures Typed(LongScalar(), {}, [number]) && Disjoint(LongScalar()) && WindowsFit(LongScalar())
    ensures var sent := Pack(LongScalar(), [number], uninitialised);
            sent.Ok? &&
            var r := Unpack(sent.value, map[5 := 6]);
            r.Ok? && !AllArrived(LongScalar(), {}, [number], map[5 := 6], r.value.0)
  {
    hide Pack, Unpack, AllArrived, ToLE, FromLE;
    Pow256Values();
    FitsRoundTrip(5, 8);
    EightByteArgumentsExactly(LongScalar(), {}, [number], uninitialised, map[5 := 6]);
    assert [number][0][..8] == number;
    assert NumberPassed([number], 0) == 5;
  }
}
