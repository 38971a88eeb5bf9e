/** What the table read from a `.nv.info` section is, for every list of entries and for all bytes. */
module KernelParamsLaws {
  import opened Attempts
  import opened Bytes
  import opened LaunchArguments
  import opened KernelParams

  /* ---------- encoded lists ---------- */

  lemma TwoFields(data: seq<Byte>, head: seq<Byte>, n: nat, width: nat, tail: seq<Byte>)
    requires data == head + (ToLE(n, width) + tail) && n < Pow256(width)
    ensures Field(data, |head|, width) == n
  {
    hide ToLE, FromLE;
    assert data[|head|..|head| + width] == ToLE(n, width);
    FitsRoundTrip(n, width);
  }

  lemma ParameterSizeParsed(size: nat, rest: seq<Byte>, info: KernelInfo, added: Added)
    requires size < U16 && |info.offsets| == |info.sizes|
    ensures Parse(Encode(ParameterSize(size)) + rest, info, added) == Parse(rest, info.(paramSize := size), added)
  {
    hide ToLE, Field;
    var data := Encode(ParameterSize(size)) + rest;
    Pow256Values();
    assert data == [HVAL, CBANK_PARAM_SIZE] + (ToLE(size, 2) + rest);
    TwoFields(data, [HVAL, CBANK_PARAM_SIZE], size, 2, rest);
    assert data[4..] == rest;
  }

  lemma OtherParsed(a: Attribute, rest: seq<Byte>, info: KernelInfo, added: Added)
    requires ValidAttribute(a) && a.Other? && |info.offsets| == |info.sizes|
    ensures Parse(Encode(a) + rest, info, added) == Parse(rest, info, added)
  {
    hide Parse, ToLE, Field;
    var data := Encode(a) + rest;
    assert Skip(data, |Encode(a)|) == rest;
    if a.format == SVAL {
      Pow256Values();
      assert data == [SVAL, a.code] + (ToLE(|a.values|, 2) + (a.values + rest));
      TwoFields(data, [SVAL, a.code], |a.values|, 2, a.values + rest);
    }
    OtherSkipped(data, info, added);
  }

  lemma OtherSkipped(data: seq<Byte>, info: KernelInfo, added: Added)
    requires |info.offsets| == |info.sizes| && |data| >= 4
    ensures data[0] == SVAL && data[1] != KPARAM_INFO ==>
              Parse(data, info, added) == Parse(Skip(data, 4 + Field(data, 2, 2)), info, added)
    ensures data[0] != SVAL && !(data[0] == HVAL && data[1] == CBANK_PARAM_SIZE) ==>
              Parse(data, info, added) == Parse(Skip(data, 4), info, added)
  {
    hide Field;
  }

  lemma Slices(h: seq<Byte>, z: seq<Byte>, i: seq<Byte>, o: seq<Byte>, f: seq<Byte>, w: seq<Byte>, rest: seq<Byte>)
    requires |h| == |z| == |o| == |f| == 2 && |i| == |w| == 4
    ensures var data := h + z + (i + o + f + w) + rest;
            data[..2] == h && data[2..4] == z && data[8..10] == o && data[10..12] == f && data[12..16] == w &&
              data[16..] == rest
  {
    var v := i + o + f + w;
    var data := h + z + v + rest;
    assert data[8..10] == v[4..6] == o;
    assert data[10..12] == v[6..8] == f;
    assert data[12..16] == v[8..12] == w;
  }

  lemma ParameterFields(a: Attribute, rest: seq<Byte>)
    requires ValidAttribute(a) && a.Parameter?
    ensures var data := Encode(a) + rest;
            |Encode(a)| == 16 && data[0] == SVAL && data[1] == KPARAM_INFO && Field(data, 2, 2) == 12 &&
              data[16..] == rest &&
            Field(data, 8, 2) == a.ordinal && Field(data, 10, 2) == a.offset && Field(data, 12, 4) / 0x4_0000 == a.size
  {
    hide ToLE, FromLE;
    Pow256Values();
    var data, word := Encode(a) + rest, a.size * 0x4_0000 + a.rest;
    Slices([SVAL, KPARAM_INFO], ToLE(12, 2), ToLE(a.index, 4), ToLE(a.ordinal, 2), ToLE(a.offset, 2), ToLE(word, 4),
           rest);
    FitsRoundTrip(12, 2);
    FitsRoundTrip(a.ordinal, 2);
    FitsRoundTrip(a.offset, 2);
    FitsRoundTrip(word, 4);
    assert data[..2][0] == SVAL && data[..2][1] == KPARAM_INFO;
  }

  lemma AttributeParsed(a: Attribute, rest: seq<Byte>, info: KernelInfo, added: Added)
    requires ValidAttribute(a) && |info.offsets| == |info.sizes|
    ensures Parse(Encode(a) + rest, info, added) == Parse(rest, Apply(a, info, added), added)
  {
    match a
    case Parameter(_, _, _, _, _) =>
      hide ToLE, Field, Encode, Store;
      ParameterFields(a, rest);
    case ParameterSize(size) => ParameterSizeParsed(size, rest, info, added);
    case Other(_, _, _) => OtherParsed(a, rest, info, added);
  }

  /** The entries at the front of a section are applied to the table one after another. */
  lemma {:induction false} EntriesParsed(l: seq<Attribute>, rest: seq<Byte>, info: KernelInfo, added: Added)
    requires ValidList(l) && |info.offsets| == |info.sizes|
    ensures Parse(EncodeAll(l) + rest, info, added) == Parse(rest, ApplyAll(l, info, added), added)
  {
    hide Parse, Encode, Apply, ValidAttribute;
    if l == [] {
      assert EncodeAll(l) + rest == rest;
    } else {
      assert EncodeAll(l) + rest == Encode(l[0]) + (EncodeAll(l[1..]) + rest);
      AttributeParsed(l[0], EncodeAll(l[1..]) + rest, info, added);
      EntriesParsed(l[1..], rest, Apply(l[0], info, added), added);
    }
  }

  function Empty(): KernelInfo {
    KernelInfo(0, [], [])
  }

  /** The table of a list of entries. */
  function Table(l: seq<Attribute>, added: Added): KernelInfo {
    ApplyAll(l, Empty(), added)
  }

  /** A section that encodes a list of entries is read completely, and gives the table of the list. */
  lemma ListParsed(l: seq<Attribute>, added: Added)
    requires ValidList(l)
    ensures Parse(EncodeAll(l), Empty(), added) == Ok(Table(l, added))
  {
    EntriesParsed(l, [], Empty(), added);
    assert EncodeAll(l) + [] == EncodeAll(l);
  }

  /* ---------- the table ---------- */

  /** The last parameter entry of a given ordinal decides the slot; without one it is never assigned. */
  function Slot(l: seq<Attribute>, ordinal: nat, added: Added): (nat, nat) {
    if l == [] then (added.offsets(ordinal), added.sizes(ordinal))
    else
      var a := l[|l| - 1];
      if a.Parameter? && a.ordinal == ordinal then (a.offset, a.size) else Slot(l[..|l| - 1], ordinal, added)
  }

  /** One more than the largest ordinal. */
  function Slots(l: seq<Attribute>): nat {
    if l == [] then 0
    else
      var a, n := l[|l| - 1], Slots(l[..|l| - 1]);
      if a.Parameter? && a.ordinal >= n then a.ordinal + 1 else n
  }

  /** The last size of the parameter area, or what was there before. */
  function AreaSize(l: seq<Attribute>, was: nat): nat {
    if l == [] then was
    else if l[|l| - 1].ParameterSize? then l[|l| - 1].size
    else AreaSize(l[..|l| - 1], was)
  }

  predicate IsTable(info: KernelInfo, l: seq<Attribute>, was: nat, added: Added) {
    info.paramSize == AreaSize(l, was) && |info.offsets| == |info.sizes| == Slots(l) &&
    forall o :: 0 <= o < Slots(l) ==> (info.offsets[o], info.sizes[o]) == Slot(l, o, added)
  }

  lemma {:induction false} ApplyLast(l: seq<Attribute>, info: KernelInfo, added: Added)
    requires l != [] && |info.offsets| == |info.sizes|
    ensures ApplyAll(l, info, added) == Apply(l[|l| - 1], ApplyAll(l[..|l| - 1], info, added), added)
  {
    hide Apply;
    if |l| > 1 {
      ApplyLast(l[1..], Apply(l[0], info, added), added);
      assert l[1..][..|l| - 2] == l[..|l| - 1][1..];
    } else {
      assert l[1..] == [];
    }
  }

  /** Applying entries one by one, growing as needed, builds the table of the last entries. */
  lemma {:induction false} AppliedIsTable(l: seq<Attribute>, was: nat, added: Added)
    ensures IsTable(ApplyAll(l, KernelInfo(was, [], []), added), l, was, added)
  {
    if l != [] {
      AppliedIsTable(l[..|l| - 1], was, added);
      ApplyLast(l, KernelInfo(was, [], []), added);
      OneApplied(l, ApplyAll(l[..|l| - 1], KernelInfo(was, [], []), added), was, added);
    }
  }

  lemma OneApplied(l: seq<Attribute>, info: KernelInfo, was: nat, added: Added)
    requires l != [] && IsTable(info, l[..|l| - 1], was, added)
    ensures IsTable(Apply(l[|l| - 1], info, added), l, was, added)
  {
    var front := l[..|l| - 1];
    forall o | Slots(front) <= o < Slots(l) - 1
      ensures Slot(front, o, added) == (added.offsets(o), added.sizes(o))
    {
      BeyondSlots(front, o, added);
    }
  }

  lemma {:induction false} BeyondSlots(l: seq<Attribute>, o: nat, added: Added)
    requires Slots(l) <= o
    ensures Slot(l, o, added) == (added.offsets(o), added.sizes(o))
  {
    if l != [] {
      BeyondSlots(l[..|l| - 1], o, added);
    }
  }

  /* ---------- what the table says of the list ---------- */

  predicate Mentions(l: seq<Attribute>, k: int, ordinal: int) {
    0 <= k < |l| && l[k].Parameter? && l[k].ordinal == ordinal
  }

  /** The slot of an ordinal that occurs is that of its last occurrence. */
  lemma {:induction false} SlotIsLast(l: seq<Attribute>, k: nat, added: Added)
    requires k < |l| && l[k].Parameter?
    requires forall j :: k < j < |l| ==> !Mentions(l, j, l[k].ordinal)
    ensures l[k].ordinal < Slots(l) && Slot(l, l[k].ordinal, added) == (l[k].offset, l[k].size)
  {
    if k < |l| - 1 {
      var front := l[..|l| - 1];
      assert !Mentions(l, |l| - 1, l[k].ordinal);
      assert forall j :: k < j < |front| ==> Mentions(front, j, l[k].ordinal) ==> Mentions(l, j, l[k].ordinal);
      SlotIsLast(front, k, added);
    }
  }

  /** The last occurrence of an ordinal, if there is one. */
  lemma {:induction false} LastMention(l: seq<Attribute>, ordinal: nat) returns (k: int)
    ensures if k < 0 then forall j :: 0 <= j < |l| ==> !Mentions(l, j, ordinal)
            else Mentions(l, k, ordinal) && forall j :: k < j < |l| ==> !Mentions(l, j, ordinal)
  {
    if l == [] {
      k := -1;
    } else if Mentions(l, |l| - 1, ordinal) {
      k := |l| - 1;
    } else {
      var front := l[..|l| - 1];
      k := LastMention(front, ordinal);
      assert forall j :: 0 <= j < |front| ==> Mentions(front, j, ordinal) == Mentions(l, j, ordinal);
    }
  }

  lemma {:induction false} SlotUnset(l: seq<Attribute>, ordinal: nat, added: Added)
    requires forall j :: 0 <= j < |l| ==> !Mentions(l, j, ordinal)
    ensures Slot(l, ordinal, added) == (added.offsets(ordinal), added.sizes(ordinal))
  {
    if l != [] {
      var front := l[..|l| - 1];
      assert !Mentions(l, |l| - 1, ordinal);
      assert forall j :: 0 <= j < |front| ==> Mentions(front, j, ordinal) == Mentions(l, j, ordinal);
      SlotUnset(front, ordinal, added);
    }
  }

  lemma {:induction false} LargestOrdinal(l: seq<Attribute>) returns (k: int)
    ensures if k < 0 then Slots(l) == 0 else Mentions(l, k, Slots(l) - 1)
  {
    if l == [] {
      k := -1;
    } else if l[|l| - 1].Parameter? && l[|l| - 1].ordinal >= Slots(l[..|l| - 1]) {
      k := |l| - 1;
    } else {
      k := LargestOrdinal(l[..|l| - 1]);
    }
  }

  lemma {:induction false} MentionedBelow(l: seq<Attribute>, k: nat, ordinal: int)
    requires Mentions(l, k, ordinal)
    ensures ordinal < Slots(l)
  {
    if k < |l| - 1 {
      MentionedBelow(l[..|l| - 1], k, ordinal);
    }
  }

  predicate Occurs(l: seq<Attribute>, ordinal: nat) {
    exists k :: 0 <= k < |l| && Mentions(l, k, ordinal)
  }

  /** Every ordinal below the number of slots occurs. */
  predicate Covered(l: seq<Attribute>) {
    forall o :: 0 <= o < Slots(l) ==> Occurs(l, o)
  }

  /** The table is free of what `realloc` left in the arrays if and only if every ordinal occurs. */
  lemma TableDefined(l: seq<Attribute>)
    ensures (forall a, b :: Table(l, a) == Table(l, b)) <==> Covered(l)
  {
    hide ApplyAll, Slot, Slots;
    if Covered(l) {
      forall a, b
        ensures Table(l, a) == Table(l, b)
      {
        CoveredTable(l, a, b);
      }
    } else {
      var o: nat :| o < Slots(l) && !Occurs(l, o);
      var zeros, ones := Added(_ => 0, _ => 0), Added(_ => 1, _ => 1);
      AppliedIsTable(l, 0, zeros);
      AppliedIsTable(l, 0, ones);
      SlotUnset(l, o, zeros);
      SlotUnset(l, o, ones);
      assert Table(l, zeros).offsets[o] == 0 && Table(l, ones).offsets[o] == 1;
    }
  }

  lemma CoveredTable(l: seq<Attribute>, a: Added, b: Added)
    requires Covered(l)
    ensures Table(l, a) == Table(l, b)
  {
    hide ApplyAll, Slot, Slots, AreaSize;
    AppliedIsTable(l, 0, a);
    AppliedIsTable(l, 0, b);
    forall o | 0 <= o < Slots(l)
      ensures Slot(l, o, a) == Slot(l, o, b)
    {
      var k := LastMention(l, o);
      assert Occurs(l, o);
      SlotIsLast(l, k, a);
      SlotIsLast(l, k, b);
    }
    assert Table(l, a).offsets == Table(l, b).offsets;
    assert Table(l, a).sizes == Table(l, b).sizes;
  }

  /* ---------- order ---------- */

  /** Entries about the same thing say the same. */
  predicate Agree(a: Attribute, b: Attribute) {
    (a.Parameter? && b.Parameter? && a.ordinal == b.ordinal ==> (a.offset, a.size) == (b.offset, b.size)) &&
    (a.ParameterSize? && b.ParameterSize? ==> a.size == b.size)
  }

  predicate Consistent(l: seq<Attribute>) {
    forall a, b :: a in l && b in l ==> Agree(a, b)
  }

  lemma {:induction false} LastSize(l: seq<Attribute>, was: nat) returns (k: int)
    ensures if k < 0 then AreaSize(l, was) == was && forall a :: a in l ==> !a.ParameterSize?
            else k < |l| && l[k].ParameterSize? && AreaSize(l, was) == l[k].size
  {
    if l == [] {
      k := -1;
    } else if l[|l| - 1].ParameterSize? {
      k := |l| - 1;
    } else {
      k := LastSize(l[..|l| - 1], was);
    }
  }

  /** A slot of a consistent list holds what any of the entries for it says. */
  lemma SlotAgrees(l: seq<Attribute>, k: nat, added: Added)
    requires Consistent(l) && k < |l| && l[k].Parameter?
    ensures Slot(l, l[k].ordinal, added) == (l[k].offset, l[k].size)
  {
    hide Slot;
    assert Mentions(l, k, l[k].ordinal);
    var m := LastMention(l, l[k].ordinal);
    SlotIsLast(l, m, added);
    assert Agree(l[m], l[k]);
  }

  lemma SlotsWithin(l: seq<Attribute>, other: seq<Attribute>)
    requires forall a :: a in l ==> a in other
    ensures Slots(l) <= Slots(other)
  {
    hide Slots;
    var k := LargestOrdinal(l);
    if k >= 0 {
      assert l[k] in other;
      var j :| 0 <= j < |other| && other[j] == l[k];
      MentionedBelow(other, j, Slots(l) - 1);
    }
  }

  lemma NoMention(l: seq<Attribute>, other: seq<Attribute>, o: nat)
    requires (forall a :: a in other ==> a in l) && forall j :: 0 <= j < |l| ==> !Mentions(l, j, o)
    ensures forall j :: 0 <= j < |other| ==> !Mentions(other, j, o)
  {
    forall m | 0 <= m < |other|
      ensures !Mentions(other, m, o)
    {
      assert other[m] in l;
      var j :| 0 <= j < |l| && l[j] == other[m];
      assert !Mentions(l, j, o);
    }
  }

  lemma SameSlot(l: seq<Attribute>, other: seq<Attribute>, o: nat, added: Added)
    requires Consistent(l) && (forall a :: a in l <==> a in other)
    ensures Slot(l, o, added) == Slot(other, o, added)
  {
    hide Slot;
    var k := LastMention(l, o);
    if k >= 0 {
      assert l[k] in other;
      var j :| 0 <= j < |other| && other[j] == l[k];
      assert Mentions(other, j, o);
      SlotAgrees(l, k, added);
      SlotAgrees(other, j, added);
    } else {
      NoMention(l, other, o);
      SlotUnset(l, o, added);
      SlotUnset(other, o, added);
    }
  }

  lemma SameArea(l: seq<Attribute>, other: seq<Attribute>, was: nat)
    requires Consistent(l) && (forall a :: a in l <==> a in other)
    ensures AreaSize(l, was) == AreaSize(other, was)
  {
    hide AreaSize;
    var k := LastSize(l, was);
    var m := LastSize(other, was);
    if k >= 0 {
      assert l[k] in other;
      assert Agree(l[k], other[m]);
    } else {
      forall j | 0 <= j < |other|
        ensures !other[j].ParameterSize?
      {
        assert other[j] in l;
      }
    }
  }

  /** The same entries in another order, or repeated, give the same table. */
  lemma SameEntriesSameTable(l: seq<Attribute>, other: seq<Attribute>, added: Added)
    requires Consistent(l) && (forall a :: a in l <==> a in other)
    ensures Table(l, added) == Table(other, added)
  {
    hide ApplyAll, Slot, Slots, AreaSize, Consistent;
    AppliedIsTable(l, 0, added);
    AppliedIsTable(other, 0, added);
    SlotsWithin(l, other);
    SlotsWithin(other, l);
    SameArea(l, other, 0);
    forall o | 0 <= o < Slots(l)
      ensures Slot(l, o, added) == Slot(other, o, added)
    {
      SameSlot(l, other, o, added);
    }
    assert Table(l, added).offsets == Table(other, added).offsets;
    assert Table(l, added).sizes == Table(other, added).sizes;
  }

  function MovedLast(l: seq<Attribute>, k: nat): (r: seq<Attribute>)
    requires k < |l|
    ensures |r| == |l| && r[|r| - 1] == l[k]
    ensures multiset(r) == multiset(l)
  {
    assert l == l[..k] + [l[k]] + l[k + 1..];
    l[..k] + l[k + 1..] + [l[k]]
  }

  /** Where two entries disagree, moving the one or the other to the end gives different tables. */
  lemma OrderMatters(l: seq<Attribute>, j: nat, k: nat, added: Added)
    requires j < |l| && k < |l| && !Agree(l[j], l[k])
    ensures Table(MovedLast(l, j), added) != Table(MovedLast(l, k), added)
  {
    hide ApplyAll;
    var p, q := MovedLast(l, j), MovedLast(l, k);
    AppliedIsTable(p, 0, added);
    AppliedIsTable(q, 0, added);
    if l[j].Parameter? {
      SlotIsLast(p, |p| - 1, added);
      SlotIsLast(q, |q| - 1, added);
    }
  }

  /** Every order of the entries gives the same table if and only if no two of them disagree. */
  lemma OrderIrrelevant(l: seq<Attribute>, added: Added)
    ensures (forall other :: multiset(other) == multiset(l) ==> Table(other, added) == Table(l, added)) <==>
            Consistent(l)
  {
    hide ApplyAll, Table;
    if Consistent(l) {
      forall other | multiset(other) == multiset(l)
        ensures Table(other, added) == Table(l, added)
      {
        assert forall a :: a in l <==> a in multiset(l);
        assert forall a :: a in other <==> a in multiset(other);
        SameEntriesSameTable(l, other, added);
      }
    } else {
      var a, b :| a in l && b in l && !Agree(a, b);
      var j :| 0 <= j < |l| && l[j] == a;
      var k :| 0 <= k < |l| && l[k] == b;
      OrderMatters(l, j, k, added);
    }
  }

  /* ---------- entries byte by byte ---------- */

  /** A parameter's entry: sixteen bytes, of which the last fourteen bits are the size. */
  lemma ParameterBytes(data: seq<Byte>, info: KernelInfo, added: Added)
    requires |data| >= 16 && data[..4] == [4, 0x17, 12, 0] && |info.offsets| == |info.sizes|
    ensures var o: nat, o': nat, f: nat, f': nat := data[8], data[9], data[10], data[11];
            var s: nat, s': nat := data[14], data[15];
            Parse(data, info, added) ==
            Parse(data[16..], Store(info, o + 256 * o', f + 256 * f', s / 4 + 64 * s', added), added)
  {
    hide Field, Store;
    assert data[0] == data[..4][0] && data[1] == data[..4][1] && data[2] == data[..4][2] && data[3] == data[..4][3];
    TwoBytes(data, 2);
    TwoBytes(data, 8);
    TwoBytes(data, 10);
    FourBytes(data, 12);
  }

  /** The entry with the size of the parameter area. */
  lemma AreaBytes(data: seq<Byte>, info: KernelInfo, added: Added)
    requires |data| >= 4 && data[..2] == [3, 0x19] && |info.offsets| == |info.sizes|
    ensures var n: nat, n': nat := data[2], data[3];
            Parse(data, info, added) == Parse(data[4..], KernelInfo(n + 256 * n', info.offsets, info.sizes), added)
  {
    hide Field;
    assert data[0] == data[..2][0] && data[1] == data[..2][1];
    TwoBytes(data, 2);
  }

  /** Other entries are passed over: of format 4, as many bytes as they say; of any other, four. */
  lemma OtherBytes(data: seq<Byte>, info: KernelInfo, added: Added)
    requires |data| >= 4 && |info.offsets| == |info.sizes|
    ensures var n: nat, n': nat := data[2], data[3];
            data[0] == 4 && data[1] != 0x17 && |data| >= 4 + n + 256 * n' ==>
              Parse(data, info, added) == Parse(data[4 + n + 256 * n'..], info, added)
    ensures data[0] != 4 && !(data[0] == 3 && data[1] == 0x19) ==>
              Parse(data, info, added) == Parse(data[4..], info, added)
  {
    hide Field;
    TwoBytes(data, 2);
  }

  /** A parameter is stored at its ordinal; the other entries of the table stay. */
  lemma StoredAt(info: KernelInfo, ordinal: nat, offset: nat, size: nat, added: Added)
    requires |info.offsets| == |info.sizes|
    ensures var now := Store(info, ordinal, offset, size, added);
            now.paramSize == info.paramSize && ordinal < |now.offsets| == |now.sizes| &&
            now.offsets[ordinal] == offset && now.sizes[ordinal] == size &&
            |now.offsets| == (if ordinal < |info.offsets| then |info.offsets| else ordinal + 1) &&
            forall i :: 0 <= i < |info.offsets| && i != ordinal ==>
              now.offsets[i] == info.offsets[i] && now.sizes[i] == info.sizes[i]
  {
  }

  /* ---------- all sections ---------- */

  /** The first bytes of a section whose first entry is read, and the entry. */
  lemma FirstEntry(data: seq<Byte>, info: KernelInfo, added: Added) returns (a: Attribute)
    requires |info.offsets| == |info.sizes| && data != []
    requires Parse(data, info, added).Ok? || Parse(data, info, added).Failed?
    requires !(|data| >= 4 && data[0] == SVAL && data[1] == KPARAM_INFO && Field(data, 2, 2) != 12)
    ensures ValidAttribute(a)
    ensures if |Encode(a)| <= |data| then Encode(a) == data[..|Encode(a)|]
            else data <= Encode(a) && Parse(data, info, added) == Ok(Apply(a, info, added))
  {
    hide ToLE, FromLE, Encode, ValidAttribute, Field;
    if data[0] == SVAL {
      if data[1] == KPARAM_INFO {
        a := FirstParameter(data);
      } else {
        a := FirstLong(data);
      }
    } else if data[0] == HVAL && data[1] == CBANK_PARAM_SIZE {
      a := FirstSize(data);
    } else {
      a := FirstShort(data);
    }
  }

  /** An entry that is no parameter and tells its length. */
  lemma FirstLong(data: seq<Byte>) returns (a: Attribute)
    requires |data| >= 4 && data[0] == SVAL && data[1] != KPARAM_INFO
    ensures ValidAttribute(a) && a.Other? && |Encode(a)| == 4 + Field(data, 2, 2)
    ensures if |Encode(a)| <= |data| then Encode(a) == data[..|Encode(a)|] else data <= Encode(a)
  {
    hide ToLE, FromLE;
    Pow256Values();
    ToLEFromLE(data[2..4]);
    var n, values := Field(data, 2, 2), data[4..];
    a := Other(SVAL, data[1], if n <= |values| then values[..n] else values + Zeros(n - |values|));
  }

  lemma FirstSize(data: seq<Byte>) returns (a: Attribute)
    requires |data| >= 4 && data[0] == HVAL && data[1] == CBANK_PARAM_SIZE
    ensures ValidAttribute(a) && Encode(a) == data[..4]
  {
    hide ToLE, FromLE;
    Pow256Values();
    ToLEFromLE(data[2..4]);
    a := ParameterSize(Field(data, 2, 2));
  }

  /** Any other entry has four bytes, and the section may end within them. */
  lemma FirstShort(data: seq<Byte>) returns (a: Attribute)
    requires data != [] && data[0] != SVAL
    requires data[0] == HVAL ==> |data| >= 2 && data[1] != CBANK_PARAM_SIZE
    ensures ValidAttribute(a) && a.Other? && |Encode(a)| == 4
    ensures if |Encode(a)| <= |data| then Encode(a) == data[..|Encode(a)|] else data <= Encode(a)
  {
    hide ToLE, FromLE;
    var padded := data + Zeros(4);
    a := Other(data[0], padded[1], padded[2..4]);
  }

  lemma FirstParameter(data: seq<Byte>) returns (a: Attribute)
    requires |data| >= 16 && data[0] == SVAL && data[1] == KPARAM_INFO && Field(data, 2, 2) == 12
    ensures ValidAttribute(a) && a.Parameter? && Encode(a) == data[..16]
  {
    hide ToLE, FromLE;
    Pow256Values();
    var word := Field(data, 12, 4);
    a := Parameter(Field(data, 4, 4), Field(data, 8, 2), Field(data, 10, 2), word / 0x4_0000, word % 0x4_0000);
    ToLEFromLE(data[2..4]);
    ToLEFromLE(data[4..8]);
    ToLEFromLE(data[8..10]);
    ToLEFromLE(data[10..12]);
    ToLEFromLE(data[12..16]);
  }

  /**
   Whatever section is read without an error, it is the encoding of a list of entries, of which the
   last may reach beyond its end, and the result is the table of that list.
   */
  lemma {:induction false} AcceptedIsEncoded(data: seq<Byte>, info: KernelInfo,
                                             added: Added) returns (l: seq<Attribute>)
    requires |info.offsets| == |info.sizes| && Parse(data, info, added).Ok?
    ensures ValidList(l) && Parse(data, info, added) == Ok(ApplyAll(l, info, added))
    ensures data <= EncodeAll(l) && (l == [] || |EncodeAll(l[..|l| - 1])| < |data|)
    decreases |data|
  {
    if data == [] {
      l := [];
    } else {
      var a := FirstEntry(data, info, added);
      hide Parse, Encode, ValidAttribute, Apply;
      if |Encode(a)| <= |data| {
        var rest := data[|Encode(a)|..];
        assert data == Encode(a) + rest;
        AttributeParsed(a, rest, info, added);
        var more := AcceptedIsEncoded(rest, Apply(a, info, added), added);
        l := [a] + more;
        assert l[1..] == more;
        assert more != [] ==> l[..|l| - 1][1..] == more[..|more| - 1];
      } else {
        l := [a];
        assert EncodeAll(l) == Encode(a);
      }
    }
  }

  /** After the entries of a list comes a parameter entry whose value is not twelve bytes long. */
  predicate BadAfter(data: seq<Byte>, l: seq<Attribute>) {
    ValidList(l) && EncodeAll(l) <= data &&
    var rest := data[|EncodeAll(l)|..];
    |rest| >= 4 && rest[0] == SVAL && rest[1] == KPARAM_INFO && Field(rest, 2, 2) != 12
  }

  /** A section is refused if and only if such an entry follows some well-formed ones. */
  lemma RefusedExactly(data: seq<Byte>, info: KernelInfo, added: Added)
    requires |info.offsets| == |info.sizes|
    ensures Parse(data, info, added) == Failed <==> exists l :: BadAfter(data, l)
  {
    if Parse(data, info, added) == Failed {
      var l := RefusedHasBadEntry(data, info, added);
    }
    forall l | BadAfter(data, l)
      ensures Parse(data, info, added) == Failed
    {
      var rest := data[|EncodeAll(l)|..];
      assert data == EncodeAll(l) + rest;
      EntriesParsed(l, rest, info, added);
    }
  }

  lemma EmptyAccepted(info: KernelInfo, added: Added)
    requires |info.offsets| == |info.sizes|
    ensures Parse([], info, added) == Ok(info)
  {
  }

  lemma {:induction false} RefusedHasBadEntry(data: seq<Byte>, info: KernelInfo,
                                              added: Added) returns (l: seq<Attribute>)
    requires |info.offsets| == |info.sizes| && Parse(data, info, added).Failed?
    ensures BadAfter(data, l)
    decreases |data|
  {
    hide Parse, Encode, ValidAttribute, Field;
    if |data| >= 4 && data[0] == SVAL && data[1] == KPARAM_INFO && Field(data, 2, 2) != 12 {
      l := [];
      assert data[0..] == data;
    } else {
      EmptyAccepted(info, added);
      var a := FirstEntry(data, info, added);
      var rest := data[|Encode(a)|..];
      assert data == Encode(a) + rest;
      AttributeParsed(a, rest, info, added);
      var more := RefusedHasBadEntry(rest, Apply(a, info, added), added);
      l := [a] + more;
      assert l[1..] == more;
      assert data[|EncodeAll(l)|..] == rest[|EncodeAll(more)|..];
    }
  }
}
