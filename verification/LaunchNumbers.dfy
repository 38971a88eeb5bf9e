/** The block of a launch in numbers: where the client puts the arguments, and where the server looks for them. */
module LaunchNumbers {
  import opened Attempts
  import opened Bytes
  import opened ResourceManager
  import opened LaunchArguments
  import opened LaunchLaws

  /**
   The client's block: eight bytes with the number of parameters, two with the offset of each, and behind these
   the parameter area, where each argument lies at its offset.
   */
  lemma PackedInNumbers(info: KernelInfo, arguments: seq<seq<Byte>>, uninitialised: nat -> Byte)
    requires Supplied(info, arguments) && Disjoint(info)
    ensures var r, n := Pack(info, arguments, uninitialised), |info.offsets|;
            r.Ok? && |r.value| == 8 + 2 * n + info.paramSize && Field(r.value, 0, 8) == n &&
            forall i :: 0 <= i < n ==>
              Field(r.value, 8 + 2 * i, 2) == info.offsets[i] &&
              Holds(r.value, 8 + 2 * n + info.offsets[i], arguments[i][..info.sizes[i]])
  {
    ArgumentsPacked(info, arguments, uninitialised);
    var block := Pack(info, arguments, uninitialised).value;
    hide Pack, Field, Holds;
    forall i | 0 <= i < |info.offsets|
      ensures Holds(block, 8 + 2 * |info.offsets| + info.offsets[i], arguments[i][..info.sizes[i]])
    {
      assert Parameter(info, block, i, arguments[i][..info.sizes[i]]);
    }
  }

  /** The table of any block, as the server reads it. */
  function TableOf(block: seq<Byte>): (info: KernelInfo)
    requires |block| >= 8 && AreaAt(Field(block, 0, 8)) <= |block|
    ensures |info.offsets| == |info.sizes| == Field(block, 0, 8)
  {
    var n := Field(block, 0, 8);
    KernelInfo(|block| - AreaAt(n), seq(n, i requires 0 <= i < n => Field(block, 8 + 2 * i, 2)), seq(n, _ => 8))
  }

  lemma TableOfHasTable(block: seq<Byte>)
    requires |block| >= 8 && AreaAt(Field(block, 0, 8)) <= |block|
    ensures HasTable(TableOf(block), block)
  {
    hide FromLE;
  }

  /** Whatever bytes the server gets: where its pointers lie, and when it reads beyond them. */
  lemma UnpackedInNumbers(block: seq<Byte>, m: map<nat, nat>)
    ensures var r := Unpack(block, m);
            if |block| < 8 || 8 + 2 * Field(block, 0, 8) > |block| then r == Undefined
            else
              var n := Field(block, 0, 8);
              if exists i :: 0 <= i < n && 8 + 2 * n + Field(block, 8 + 2 * i, 2) + 8 > |block| then r == Undefined
              else r.Ok? && |r.value.1| == n && |r.value.0| == |block| &&
                   forall i :: 0 <= i < n ==> r.value.1[i] == 8 + 2 * n + Field(block, 8 + 2 * i, 2)
  {
    hide Field, UnpackFrom, TranslateAt;
    if |block| >= 8 && 8 + 2 * Field(block, 0, 8) <= |block| {
      var info := TableOf(block);
      TableOfHasTable(block);
      WindowsDefined(info, block, m);
      hide HasTable;
      assert forall i :: 0 <= i < |info.offsets| ==> info.offsets[i] == Field(block, 8 + 2 * i, 2);
      var n := Field(block, 0, 8);
      if i :| 0 <= i < n && 8 + 2 * n + Field(block, 8 + 2 * i, 2) + 8 > |block| {
        assert info.offsets[i] + 8 > info.paramSize;
      }
    }
  }

  /** Each turn of the loop looks at eight bytes, and replaces a restored address there; the rest stays. */
  lemma TurnInNumbers(block: seq<Byte>, at: nat, m: map<nat, nat>)
    requires at + 8 <= |block| && forall a :: a in m ==> m[a] < U64
    ensures var now, number := TranslateAt(block, at, m), Field(block, at, 8);
            Field(now, at, 8) == (if number in m then m[number] else number) &&
            now[..at] == block[..at] && now[at + 8..] == block[at + 8..]
  {
    hide ToLE, FromLE;
    Pow256Values();
    ToLEFromLE(block[at..at + 8]);
    PutGetSize(block, at, Translate(m, Field(block, at, 8)));
  }
}
