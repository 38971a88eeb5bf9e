/**
 Pointers into restored allocations. The memory resource manager maps the addresses at which allocations
 start and does not know how far they reach, so a kernel on a restored server gets a pointer into the
 middle of an allocation as the client sent it.
 */
module RestoredMemory {
  import opened Bytes
  import opened ResourceManager
  import opened LaunchArguments
  import opened LaunchLaws
  import opened SpacedLaunches

  /** The allocations the clients hold: their sizes, by the addresses at which they start for the clients. */
  type Allocations = map<nat, nat>

  predicate Inside(held: Allocations, base: nat, address: nat) {
    base in held && (address == base || base < address < base + held[base])
  }

  /** They do not overlap, and each was restored within the address space; the map may have others that were freed. */
  predicate Restored(held: Allocations, m: map<nat, nat>) {
    (forall a :: a in m ==> m[a] < U64) &&
    (forall base :: base in held ==> base in m && m[base] + held[base] <= U64) &&
    (forall base, other :: base in held && other in held && base != other ==> !Inside(held, base, other))
  }

  /** Where the memory at a client's address is on the restored device. */
  ghost function Relocated(held: Allocations, m: map<nat, nat>, address: nat): nat
    requires Restored(held, m)
  {
    if exists base :: Inside(held, base, address) then
      var base :| Inside(held, base, address);
      m[base] + (address - base)
    else address
  }

  /** How far the map moves an address. */
  function Displacement(m: map<nat, nat>, address: nat): int {
    Translate(m, address) - address
  }

  /** The map moves the address as far as the start of its allocation, if it has one, and else not at all. */
  ghost predicate Follows(held: Allocations, m: map<nat, nat>, address: nat) {
    (forall base :: Inside(held, base, address) ==> Displacement(m, address) == Displacement(m, base)) &&
    ((forall base :: !Inside(held, base, address)) ==> Displacement(m, address) == 0)
  }

  lemma OneAllocation(held: Allocations, m: map<nat, nat>, base: nat, other: nat, address: nat)
    requires Restored(held, m) && Inside(held, base, address) && Inside(held, other, address)
    ensures base == other
  {
    if base < other {
      assert Inside(held, base, other);
    } else if other < base {
      assert Inside(held, other, base);
    }
  }

  /** The memory resource manager leads an address to its memory exactly if it follows its allocation. */
  lemma TranslatedIsRelocated(held: Allocations, m: map<nat, nat>, address: nat)
    requires Restored(held, m)
    ensures Translate(m, address) == Relocated(held, m, address) <==> Follows(held, m, address)
  {
    if base :| Inside(held, base, address) {
      forall other | Inside(held, other, address)
        ensures other == base
      {
        OneAllocation(held, m, base, other, address);
      }
      hide Inside;
      assert Relocated(held, m, address) == m[base] + (address - base);
    }
  }

  /**
   The start of an allocation always follows it. An address in its middle, unless something that was freed
   started there, follows if and only if the allocation is restored at its old place.
   */
  lemma PointerFollows(held: Allocations, m: map<nat, nat>, base: nat, address: nat)
    requires Restored(held, m) && Inside(held, base, address) && (address in m ==> address in held)
    ensures Follows(held, m, address) <==> address == base || m[base] == base
  {
    if address in held {
      OneAllocation(held, m, base, address, address);
    }
    forall other | Inside(held, other, address)
      ensures other == base
    {
      OneAllocation(held, m, base, other, address);
    }
    hide Inside;
  }

  /* ---------- arguments ---------- */

  /** What the kernel should find as its k-th argument: the address of the memory the client means, or its bytes. */
  ghost function Meant(info: KernelInfo, pointers: set<nat>, arguments: seq<seq<Byte>>, k: nat, held: Allocations,
                       m: map<nat, nat>): (s: seq<Byte>)
    requires Typed(info, pointers, arguments) && k < |arguments| && Restored(held, m)
    ensures |s| == info.sizes[k]
  {
    if k in pointers then ToLE(Relocated(held, m, NumberPassed(arguments, k)), 8) else arguments[k][..info.sizes[k]]
  }

  ghost predicate AllAsMeant(info: KernelInfo, pointers: set<nat>, arguments: seq<seq<Byte>>, held: Allocations,
                             m: map<nat, nat>, block: seq<Byte>)
    requires Typed(info, pointers, arguments) && Restored(held, m)
  {
    forall k :: 0 <= k < |arguments| ==> Parameter(info, block, k, Meant(info, pointers, arguments, k, held, m))
  }

  ghost predicate PointersFollow(pointers: set<nat>, arguments: seq<seq<Byte>>, held: Allocations, m: map<nat, nat>) {
    forall k :: k in pointers && k < |arguments| && 8 <= |arguments[k]| ==>
      Follows(held, m, NumberPassed(arguments, k))
  }

  lemma RelocatedFits(held: Allocations, m: map<nat, nat>, address: nat)
    requires Restored(held, m) && address < U64
    ensures Relocated(held, m, address) < U64 && Translate(m, address) < U64
  {
    if exists base :: Inside(held, base, address) {
      var base :| Inside(held, base, address) && Relocated(held, m, address) == m[base] + (address - base);
    }
  }

  /** A pointer's translation is the address meant exactly if it follows its allocation. */
  lemma PointerAsMeant(info: KernelInfo, pointers: set<nat>, arguments: seq<seq<Byte>>, k: nat, held: Allocations,
                       m: map<nat, nat>)
    requires Typed(info, pointers, arguments) && k < |arguments| && Restored(held, m) && k in pointers
    ensures Expected(info, pointers, arguments, k, m) == Meant(info, pointers, arguments, k, held, m) <==>
            Follows(held, m, NumberPassed(arguments, k))
  {
    hide Relocated, Restored, Follows, Translate, ToLE, FromLE;
    var number := NumberPassed(arguments, k);
    Pow256Values();
    ToLEFromLE(arguments[k][..8]);
    RelocatedFits(held, m, number);
    TranslatedIsRelocated(held, m, number);
    FitsRoundTrip(Translate(m, number), 8);
    FitsRoundTrip(Relocated(held, m, number), 8);
  }

  /**
   On a restored server, a kernel whose parameters have at least eight bytes each to themselves (as they have
   if all are of eight bytes) finds the memory and the numbers the client means, if and only if each pointer
   it is passed follows its allocation and no other parameter is changed by translating what starts there.
   */
  lemma SpacedArgumentsAsMeant(info: KernelInfo, pointers: set<nat>, arguments: seq<seq<Byte>>,
                               uninitialised: nat -> Byte, held: Allocations, m: map<nat, nat>)
    requires Typed(info, pointers, arguments) && Spaced(info) && Restored(held, m)
    ensures var sent := Pack(info, arguments, uninitialised);
            sent.Ok? &&
            var r := Unpack(sent.value, m);
            r.Ok? && (AllAsMeant(info, pointers, arguments, held, m, r.value.0) <==>
                      PointersFollow(pointers, arguments, held, m) &&
                      forall k :: 0 <= k < |arguments| && k !in pointers ==>
                        ParameterAt(info, k) + 8 <= |sent.value| && HarmlessAt(info, sent.value, k, m))
  {
    hide Pack, Unpack, Spaced, Expected, Meant, HarmlessAt, Follows, Restored;
    SpacedArgumentExactly(info, pointers, arguments, uninitialised, m);
    var final := Unpack(Pack(info, arguments, uninitialised).value, m).value.0;
    EachAsMeant(info, pointers, arguments, held, m, final);
  }

  /** One argument as it is in the end. */
  lemma ArgumentAsMeant(info: KernelInfo, pointers: set<nat>, arguments: seq<seq<Byte>>, held: Allocations,
                        m: map<nat, nat>, block: seq<Byte>, k: nat)
    requires Typed(info, pointers, arguments) && Restored(held, m) && k < |arguments|
    requires k in pointers ==> Arrived(info, pointers, arguments, m, block, k)
    ensures Parameter(info, block, k, Meant(info, pointers, arguments, k, held, m)) <==>
            if k in pointers then Follows(held, m, NumberPassed(arguments, k))
            else Arrived(info, pointers, arguments, m, block, k)
  {
    if k in pointers {
      PointerAsMeant(info, pointers, arguments, k, held, m);
      hide Expected, Meant, Follows, Restored;
    }
  }

  lemma EachAsMeant(info: KernelInfo, pointers: set<nat>, arguments: seq<seq<Byte>>, held: Allocations,
                    m: map<nat, nat>, block: seq<Byte>)
    requires Typed(info, pointers, arguments) && Restored(held, m)
    requires forall k :: 0 <= k < |arguments| && k in pointers ==> Arrived(info, pointers, arguments, m, block, k)
    ensures AllAsMeant(info, pointers, arguments, held, m, block) <==>
            PointersFollow(pointers, arguments, held, m) && OthersArrived(info, pointers, arguments, m, block)
  {
    hide Meant, Follows, Restored, Arrived, Parameter;
    forall k | 0 <= k < |arguments|
      ensures Parameter(info, block, k, Meant(info, pointers, arguments, k, held, m)) <==>
              if k in pointers then Follows(held, m, NumberPassed(arguments, k))
              else Arrived(info, pointers, arguments, m, block, k)
    {
      ArgumentAsMeant(info, pointers, arguments, held, m, block, k);
    }
    assert forall k :: k in pointers ==> k < |arguments| && 8 <= |arguments[k]|;
  }

  /** The same for parameters of any sizes in the order of their offsets, where addresses have moved visibly or not. */
  lemma MixedArgumentsAsMeant(info: KernelInfo, pointers: set<nat>, arguments: seq<seq<Byte>>,
                              uninitialised: nat -> Byte, held: Allocations, m: map<nat, nat>)
    requires Typed(info, pointers, arguments) && Disjoint(info) && WindowsFit(info) && Ascending(info) &&
             Visible(info, pointers, m) && Restored(held, m)
    ensures var sent := Pack(info, arguments, uninitialised);
            sent.Ok? &&
            var r := Unpack(sent.value, m);
            r.Ok? && (AllAsMeant(info, pointers, arguments, held, m, r.value.0) <==>
                      PointersFollow(pointers, arguments, held, m) && NoneMistaken(info, pointers, sent.value, 0, m))
  {
    hide Pack, Unpack, Disjoint, WindowsFit, Ascending, Visible, Arrived, Meant, Follows, Restored, NoneMistaken,
         PointersFollow;
    MixedArgumentsExactly(info, pointers, arguments, uninitialised, m);
    var final := Unpack(Pack(info, arguments, uninitialised).value, m).value.0;
    if OthersArrived(info, pointers, arguments, m, final) {
      EachAsMeant(info, pointers, arguments, held, m, final);
    } else {
      var k :| 0 <= k < |arguments| && k !in pointers && !Arrived(info, pointers, arguments, m, final, k);
      ArgumentAsMeant(info, pointers, arguments, held, m, final, k);
    }
  }

  /** A kernel with one pointer, into the middle of an allocation that has moved, finds the client's old address. */
  lemma MiddlePointerStale(held: Allocations, m: map<nat, nat>, base: nat, address: nat, uninitialised: nat -> Byte)
    requires Restored(held, m) && Inside(held, base, address) && address != base && address < U64
    requires address !in m && m[base] != base
    ensures var info, arguments := LongScalar(), [ToLE(address, 8)];
            Typed(info, {0}, arguments) && Disjoint(info) &&
            var sent := Pack(info, arguments, uninitialised);
            sent.Ok? &&
            var r := Unpack(sent.value, m);
            r.Ok? && Holds(r.value.0, Pointers(info)[0], ToLE(address, 8)) &&
            !AllAsMeant(info, {0}, arguments, held, m, r.value.0)
  {
    var info, arguments := LongScalar(), [ToLE(address, 8)];
    assert Typed(info, {0}, arguments) && Disjoint(info) && Spaced(info) by {
      hide ToLE, Restored;
    }
    PointerFollows(held, m, base, address);
    hide Pack, Unpack, Follows, Restored, ToLE, FromLE, Inside;
    Pow256Values();
    FitsRoundTrip(address, 8);
    assert arguments[0][..8] == ToLE(address, 8);
    PointersTranslated(info, arguments, uninitialised, m);
    SpacedArgumentsAsMeant(info, {0}, arguments, uninitialised, held, m);
    assert NumberPassed(arguments, 0) == address;
  }
}
