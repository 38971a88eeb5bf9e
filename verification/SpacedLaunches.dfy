/** Launches on a restored server of kernels whose parameters have at least eight bytes each to themselves. */
module SpacedLaunches {
  import opened Bytes
  import opened ResourceManager
  import opened LaunchArguments
  import opened LaunchLaws

  /** A parameter with its padding, if it is smaller than the eight bytes the server reads. */
  function SlotSize(info: KernelInfo, k: nat): (n: nat)
    requires k < |info.sizes|
    ensures n >= 8 && n >= info.sizes[k]
  {
    if info.sizes[k] < 8 then 8 else info.sizes[k]
  }

  predicate Spaced(info: KernelInfo)
    requires |info.offsets| == |info.sizes|
  {
    (forall i :: 0 <= i < |info.offsets| ==> info.offsets[i] + SlotSize(info, i) <= info.paramSize) &&
    (forall i, j :: 0 <= i < j < |info.offsets| ==>
       info.offsets[i] + SlotSize(info, i) <= info.offsets[j] || info.offsets[j] + SlotSize(info, j) <= info.offsets[i])
  }

  lemma SpacedFits(info: KernelInfo)
    requires |info.offsets| == |info.sizes| && Spaced(info)
    ensures Disjoint(info) && WindowsFit(info)
  {
  }

  function Slot(info: KernelInfo, block: seq<Byte>, k: nat): (s: seq<Byte>)
    requires k < |info.offsets| == |info.sizes| && ParameterAt(info, k) + SlotSize(info, k) <= |block|
    ensures |s| == SlotSize(info, k)
  {
    block[ParameterAt(info, k)..ParameterAt(info, k) + SlotSize(info, k)]
  }

  function Turned(slot: seq<Byte>, m: map<nat, nat>): (s: seq<Byte>)
    requires |slot| >= 8
    ensures |s| == |slot|
  {
    ToLE(Translate(m, FromLE(slot[..8])), 8) + slot[8..]
  }

  lemma SlotFits(info: KernelInfo, block: seq<Byte>, k: nat)
    requires |info.offsets| == |info.sizes| && Spaced(info) && HasTable(info, block) && k < |info.offsets|
    ensures ParameterAt(info, k) + SlotSize(info, k) <= |block|
  {
  }

  /** The slots before the i-th are translated, the others as they were. */
  predicate TurnedBefore(info: KernelInfo, start: seq<Byte>, i: nat, m: map<nat, nat>, block: seq<Byte>)
    requires |info.offsets| == |info.sizes|
  {
    HasTable(info, block) && |start| == |block| &&
    forall k :: 0 <= k < |info.offsets| && ParameterAt(info, k) + SlotSize(info, k) <= |block| ==>
      Slot(info, block, k) == if k < i then Turned(Slot(info, start, k), m) else Slot(info, start, k)
  }

  lemma OneTurned(info: KernelInfo, start: seq<Byte>, i: nat, m: map<nat, nat>, block: seq<Byte>)
    requires |info.offsets| == |info.sizes| && Spaced(info) && i < |info.offsets|
    requires TurnedBefore(info, start, i, m, block)
    ensures ParameterAt(info, i) + 8 <= |block|
    ensures TurnedBefore(info, start, i + 1, m, TranslateAt(block, ParameterAt(info, i), m))
  {
    hide HasTable, ToLE, FromLE, Translate;
    SlotFits(info, block, i);
    var at, slot := ParameterAt(info, i), Slot(info, block, i);
    var now := TranslateAt(block, at, m);
    TranslateKeepsTable(info, block, i, m);
    FirstPart(block, at, |slot|, 8);
    var word := ToLE(Translate(m, FromLE(slot[..8])), 8);
    assert now == Splice(block, at, word);
    forall k | 0 <= k < |info.offsets| && ParameterAt(info, k) + SlotSize(info, k) <= |block|
      ensures Slot(info, now, k) == if k < i + 1 then Turned(Slot(info, start, k), m) else Slot(info, start, k)
    {
      if k == i {
        assert now[at..at + |slot|] == word + slot[8..];
      } else {
        SpliceKeepsParameter(block, at, word, ParameterAt(info, k), Slot(info, block, k));
      }
    }
  }

  lemma {:induction false} AllTurned(info: KernelInfo, start: seq<Byte>, i: nat, m: map<nat, nat>, block: seq<Byte>)
    requires |info.offsets| == |info.sizes| && Spaced(info) && i <= |info.offsets|
    requires TurnedBefore(info, start, i, m, block)
    ensures var r := UnpackFrom(block, |info.offsets|, i, m);
            r.Ok? && TurnedBefore(info, start, |info.offsets|, m, r.value.0)
    decreases |info.offsets| - i
  {
    SpacedFits(info);
    LoopDefined(info, block, i, m);
    hide Spaced, TurnedBefore, TranslateAt;
    if i < |info.offsets| {
      OneTurned(info, start, i, m, block);
      AllTurned(info, start, i + 1, m, TranslateAt(block, ParameterAt(info, i), m));
      UnpackStep(info, block, i, m);
    }
  }

  /** Translating the eight bytes that start at parameter k leaves those of them that lie in it as they are. */
  predicate HarmlessAt(info: KernelInfo, block: seq<Byte>, k: nat, m: map<nat, nat>)
    requires k < |info.offsets| == |info.sizes| && ParameterAt(info, k) + 8 <= |block|
  {
    var window := block[ParameterAt(info, k)..ParameterAt(info, k) + 8];
    ToLE(Translate(m, FromLE(window)), 8)[..Seen(info.sizes[k])] == window[..Seen(info.sizes[k])]
  }

  lemma TurnedPart(slot: seq<Byte>, size: nat, m: map<nat, nat>)
    requires 8 <= |slot| && size <= |slot|
    ensures Turned(slot, m)[..size] == slot[..size] <==>
            ToLE(Translate(m, FromLE(slot[..8])), 8)[..Seen(size)] == slot[..8][..Seen(size)]
  {
    hide ToLE, FromLE, Translate;
    var word, turned := ToLE(Translate(m, FromLE(slot[..8])), 8), Turned(slot, m);
    assert turned[..size][..Seen(size)] == word[..Seen(size)];
    assert slot[..size][..Seen(size)] == slot[..8][..Seen(size)];
    if size > 8 {
      assert turned[..size] == word + slot[8..size];
      assert slot[..size] == slot[..8] + slot[8..size];
    }
  }

  lemma OneArrives(info: KernelInfo, pointers: set<nat>, arguments: seq<seq<Byte>>, m: map<nat, nat>,
                   start: seq<Byte>, final: seq<Byte>, k: nat)
    requires Typed(info, pointers, arguments) && k < |arguments|
    requires ParameterAt(info, k) + SlotSize(info, k) <= |start| == |final|
    requires Parameter(info, start, k, arguments[k][..info.sizes[k]])
    requires Slot(info, final, k) == Turned(Slot(info, start, k), m)
    ensures Arrived(info, pointers, arguments, m, final, k) <==> k in pointers || HarmlessAt(info, start, k, m)
  {
    hide ToLE, FromLE, Translate, Turned;
    var at, size, n := ParameterAt(info, k), info.sizes[k], SlotSize(info, k);
    var slot, turned := Slot(info, start, k), Slot(info, final, k);
    FirstPart(start, at, n, size);
    FirstPart(final, at, n, size);
    FirstPart(start, at, n, 8);
    TurnedPart(slot, size, m);
    if k in pointers {
      PointerTurned(slot, m);
    }
  }

  lemma PointerTurned(slot: seq<Byte>, m: map<nat, nat>)
    requires |slot| >= 8
    ensures Turned(slot, m)[..8] == ToLE(Translate(m, FromLE(slot[..8])), 8)
  {
    hide ToLE, FromLE, Translate;
  }

  /** Each argument for itself. */
  lemma SpacedArgumentExactly(info: KernelInfo, pointers: set<nat>, arguments: seq<seq<Byte>>,
                              uninitialised: nat -> Byte, m: map<nat, nat>)
    requires Typed(info, pointers, arguments) && Spaced(info)
    ensures var sent := Pack(info, arguments, uninitialised);
            sent.Ok? &&
            var r := Unpack(sent.value, m);
            r.Ok? && forall k :: 0 <= k < |arguments| ==>
                       ParameterAt(info, k) + 8 <= |sent.value| &&
                       (Arrived(info, pointers, arguments, m, r.value.0, k) <==>
                        k in pointers || HarmlessAt(info, sent.value, k, m))
  {
    SpacedFits(info);
    ArgumentsPacked(info, arguments, uninitialised);
    var start := Pack(info, arguments, uninitialised).value;
    hide Pack, HasTable, UnpackFrom, Unpack, Disjoint, WindowsFit, Spaced, Slot, Turned, Arrived, HarmlessAt, SlotSize;
    UnpackUnfolds(info, start, m);
    AllTurned(info, start, 0, m, start);
    var final := Unpack(start, m).value.0;
    forall k | 0 <= k < |arguments|
      ensures ParameterAt(info, k) + 8 <= |start|
      ensures Arrived(info, pointers, arguments, m, final, k) <==> k in pointers || HarmlessAt(info, start, k, m)
    {
      SlotFits(info, start, k);
      OneArrives(info, pointers, arguments, m, start, final, k);
    }
  }

  /**
   On a restored server, a kernel whose parameters, of any sizes and in any order, have at least eight
   bytes each to themselves gets every argument as it should if and only if, for each parameter that is no
   pointer, translating the eight bytes of the client's block that start at it changes none of its bytes.
   */
  lemma SpacedArgumentsExactly(info: KernelInfo, pointers: set<nat>, arguments: seq<seq<Byte>>,
                               uninitialised: nat -> Byte, m: map<nat, nat>)
    requires Typed(info, pointers, arguments) && Spaced(info)
    ensures var sent := Pack(info, arguments, uninitialised);
            sent.Ok? &&
            var r := Unpack(sent.value, m);
            r.Ok? && (AllArrived(info, pointers, arguments, m, r.value.0) <==>
                      forall k :: 0 <= k < |arguments| && k !in pointers ==>
                        ParameterAt(info, k) + 8 <= |sent.value| && HarmlessAt(info, sent.value, k, m))
  {
    hide Pack, Unpack, Spaced, Arrived, HarmlessAt;
    SpacedArgumentExactly(info, pointers, arguments, uninitialised, m);
  }
}
