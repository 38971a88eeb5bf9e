/** From the bytes of a `.nv.info` section to the arguments the launched kernel finds. */
module KernelLaunch {
  import opened Attempts
  import opened Bytes
  import opened LaunchArguments
  import opened LaunchLaws
  import opened KernelParams
  import opened KernelParamsLaws

  predicate Apart(a: Attribute, b: Attribute)
    requires a.Parameter? && b.Parameter?
  {
    a.offset + a.size <= b.offset || b.offset + b.size <= a.offset
  }

  /** Every ordinal has an entry; the parameters lie in the area and do not overlap. */
  predicate WellLaidOut(l: seq<Attribute>) {
    Consistent(l) && Covered(l) &&
    (forall a :: a in l && a.Parameter? ==> a.offset + a.size <= AreaSize(l, 0)) &&
    (forall a, b :: a in l && b in l && a.Parameter? && b.Parameter? && a.ordinal != b.ordinal ==> Apart(a, b))
  }

  /** There is an argument for every parameter, and the memory behind it is as large as the parameter. */
  predicate Matches(l: seq<Attribute>, arguments: seq<seq<Byte>>) {
    |arguments| == Slots(l) &&
    forall a :: a in l && a.Parameter? && a.ordinal < |arguments| ==> a.size <= |arguments[a.ordinal]|
  }

  /** Each slot of the table is that of an entry, and each parameter entry has its slot. */
  predicate Describes(info: KernelInfo, l: seq<Attribute>) {
    info.paramSize == AreaSize(l, 0) && |info.offsets| == |info.sizes| == Slots(l) &&
    (forall o :: 0 <= o < Slots(l) ==> SlotEntry(info, l, o)) &&
    (forall a :: a in l && a.Parameter? ==>
       a.ordinal < Slots(l) && info.offsets[a.ordinal] == a.offset && info.sizes[a.ordinal] == a.size)
  }

  predicate SlotEntry(info: KernelInfo, l: seq<Attribute>, o: nat)
    requires o < |info.offsets| == |info.sizes|
  {
    exists a :: a in l && a.Parameter? && a.ordinal == o && info.offsets[o] == a.offset && info.sizes[o] == a.size
  }

  lemma TableDescribes(l: seq<Attribute>, added: Added)
    requires Consistent(l) && Covered(l)
    ensures Describes(Table(l, added), l)
  {
    hide ApplyAll, Slot, Slots, AreaSize, Consistent;
    AppliedIsTable(l, 0, added);
    forall o | 0 <= o < Slots(l)
      ensures SlotEntry(Table(l, added), l, o)
    {
      assert Occurs(l, o);
      var k :| 0 <= k < |l| && Mentions(l, k, o);
      SlotAgrees(l, k, added);
      assert l[k] in l;
      assert (Table(l, added).offsets[o], Table(l, added).sizes[o]) == Slot(l, o, added);
    }
    forall a | a in l && a.Parameter?
      ensures a.ordinal < Slots(l) && Table(l, added).offsets[a.ordinal] == a.offset &&
              Table(l, added).sizes[a.ordinal] == a.size
    {
      var k :| 0 <= k < |l| && l[k] == a;
      MentionedBelow(l, k, a.ordinal);
      SlotAgrees(l, k, added);
      assert (Table(l, added).offsets[a.ordinal], Table(l, added).sizes[a.ordinal]) == Slot(l, a.ordinal, added);
    }
  }

  lemma {:induction false} FewSlots(l: seq<Attribute>)
    requires ValidList(l)
    ensures Slots(l) <= U16
  {
    var k := LargestOrdinal(l);
    if k >= 0 {
      assert ValidAttribute(l[k]);
    }
  }

  lemma DescribedTableIsSound(info: KernelInfo, l: seq<Attribute>, arguments: seq<seq<Byte>>)
    requires ValidList(l) && WellLaidOut(l) && Matches(l, arguments) && Describes(info, l)
    ensures Supplied(info, arguments) && Disjoint(info)
    ensures WindowsFit(info) <==> forall a :: a in l && a.Parameter? ==> a.offset + 8 <= AreaSize(l, 0)
  {
    hide Slots, AreaSize, Consistent, Covered;
    FewSlots(l);
    forall o | 0 <= o < Slots(l)
      ensures info.offsets[o] < U16 && info.sizes[o] < U16 && info.sizes[o] <= |arguments[o]|
      ensures info.offsets[o] + info.sizes[o] <= info.paramSize
    {
      assert SlotEntry(info, l, o);
    }
    forall i, j | 0 <= i < j < Slots(l)
      ensures info.offsets[i] + info.sizes[i] <= info.offsets[j] || info.offsets[j] + info.sizes[j] <= info.offsets[i]
    {
      assert SlotEntry(info, l, i) && SlotEntry(info, l, j);
    }
    if WindowsFit(info) {
    } else {
      var o :| 0 <= o < |info.offsets| && info.offsets[o] + 8 > info.paramSize;
      assert SlotEntry(info, l, o);
    }
  }

  /**
   The whole way in bypass mode. The client reads the table from the section and packs its arguments
   by it; the server, if eight bytes can be read at every offset and only then, finds behind the
   pointer of each parameter entry's ordinal the bytes the client passed for it.
   */
  lemma LaunchedFromSection(l: seq<Attribute>, added: Added, arguments: seq<seq<Byte>>, uninitialised: nat -> Byte)
    requires ValidList(l) && WellLaidOut(l) && Matches(l, arguments)
    ensures var table := Parse(EncodeAll(l), Empty(), added);
            table.Ok? && |table.value.offsets| == |arguments| &&
            var sent := Pack(table.value, arguments, uninitialised);
            sent.Ok? &&
            var r := Unpack(sent.value, map[]);
            if forall a :: a in l && a.Parameter? ==> a.offset + 8 <= AreaSize(l, 0)
            then r.Ok? && r.value.0 == sent.value && |r.value.1| == |arguments| &&
                 forall a :: a in l && a.Parameter? ==>
                   a.ordinal < |arguments| && a.size <= |arguments[a.ordinal]| &&
                   Holds(sent.value, r.value.1[a.ordinal], arguments[a.ordinal][..a.size])
            else r == Undefined
  {
    hide Parse, Pack, Unpack, ApplyAll, WindowsFit, Disjoint;
    ListParsed(l, added);
    TableDescribes(l, added);
    DescribedTableIsSound(Table(l, added), l, arguments);
    LaunchedInBypass(Table(l, added), arguments, uninitialised);
  }
}
