/** Which calls of `decompress` come to an end, where, and with what count: those on encodings of blocks. */
module Lz4Acceptance {
  import opened Bytes
  import opened Lz4Block
  import opened Lz4Laws

  /** `Grounded`, but a back offset may also be 0, which the decoder does not reject. */
  predicate Reachable(produced: nat, ss: seq<Sequence>)
    decreases |ss|
  {
    ss == [] ||
    (ss[0].offset <= produced + |ss[0].literals| &&
     Reachable(produced + |ss[0].literals| + ss[0].matchLength, ss[1..]))
  }

  lemma {:induction false} ChainIsEncoding(input: seq<Byte>, pos: nat)
    requires ReadChain(input, pos).Length?
    ensures var r := ReadChain(input, pos);
            Holds(input, pos, EncodeChain(r.value)) && r.next == pos + |EncodeChain(r.value)|
    decreases |input| - pos
  {
    var r := ReadChain(input, pos);
    if input[pos] == 255 {
      ChainIsEncoding(input, pos + 1);
      HoldsAppend(input, pos, [255], EncodeChain(r.value - 255));
    }
  }

  lemma LengthIsEncoding(input: seq<Byte>, pos: nat, nibble: nat)
    requires nibble < 16 && pos <= |input| && ReadLength(input, pos, nibble).Length?
    ensures var r := ReadLength(input, pos, nibble);
            nibble == Min(r.value, 15) && Holds(input, pos, EncodeExtension(r.value)) &&
            r.next == pos + |EncodeExtension(r.value)|
  {
    if nibble == 15 {
      ChainIsEncoding(input, pos);
    }
  }

  lemma LiteralsAreEncoding(input: seq<Byte>, base: nat, s: State) returns (literals: seq<Byte>)
    requires s.ipos < |input| && LiteralStep(input, base, s).Continue?
    ensures var p := LiteralStep(input, base, s).state;
            var code := EncodeLiterals(literals, input[s.ipos] % 16);
            Holds(input, s.ipos, code) && p.ipos == s.ipos + |code| && p.opos == s.opos + |literals|
  {
    hide ReadLength, EncodeExtension, Splice;
    var high, low := input[s.ipos] / 16, input[s.ipos] % 16;
    var r := ReadLength(input, s.ipos + 1, high);
    LengthIsEncoding(input, s.ipos + 1, high);
    literals := input[r.next..r.next + r.value];
    var token := 16 * Min(|literals|, 15) + low;
    assert token == input[s.ipos];
    HoldsAppend(input, s.ipos, [token], EncodeExtension(|literals|));
    HoldsAppend(input, s.ipos, [token] + EncodeExtension(|literals|), literals);
  }

  lemma MatchIsEncoding(input: seq<Byte>, base: nat, nibble: nat, s: State, literals: seq<Byte>)
    returns (q: Sequence)
    requires nibble < 16 && MatchStep(input, base, nibble, s).Continue?
    ensures q.literals == literals && Representable(q) && MatchNibble(q) == nibble
    ensures var p := MatchStep(input, base, nibble, s).state;
            Holds(input, s.ipos, EncodeMatch(q)) && p.ipos == s.ipos + |EncodeMatch(q)| &&
            p.opos == s.opos + q.matchLength && q.offset <= base + s.opos
  {
    var code := input[s.ipos..s.ipos + 2];
    ToLEFromLE(code);
    Pow256Values();
    var r := ReadLength(input, s.ipos + 2, nibble);
    LengthIsEncoding(input, s.ipos + 2, nibble);
    q := Sequence(literals, FromLE(code), r.value + MIN_MATCH);
    HoldsAppend(input, s.ipos, code, EncodeExtension(r.value));
  }

  /** An iteration that goes on has read exactly one encoded sequence. */
  lemma StepIsSequence(input: seq<Byte>, inputSize: nat, base: nat, outputSize: nat, s: State)
    returns (q: Sequence)
    requires Step(input, inputSize, base, outputSize, s).Continue?
    ensures Representable(q) && q.offset <= base + s.opos + |q.literals|
    ensures GoesOn(inputSize, outputSize, s.ipos, s.opos, q)
    ensures var p := Step(input, inputSize, base, outputSize, s).state;
            Holds(input, s.ipos, EncodeSequence(q)) && p.ipos == s.ipos + |EncodeSequence(q)| &&
            p.opos == s.opos + |q.literals| + q.matchLength && base + p.opos <= |s.mem|
  {
    hide LiteralStep, EncodeLiterals, EncodeMatch, EncodeSequence, ReadLength, CopyBack, Field;
    var nibble := input[s.ipos] % 16;
    var literals := LiteralsAreEncoding(input, base, s);
    var t := LiteralStep(input, base, s).state;
    q := MatchIsEncoding(input, base, nibble, t, literals);
    SequenceSplits(q);
    HoldsAppend(input, s.ipos, EncodeLiterals(literals, nibble), EncodeMatch(q));
  }

  /** How many bytes the sequences and the tail stand for. */
  function Produced(ss: seq<Sequence>, t: Tail): nat {
    if ss == [] then |TailLiterals(t)| else |ss[0].literals| + ss[0].matchLength + Produced(ss[1..], t)
  }

  /**
   The bytes at `s` start with the encoding of `ss` and `t`, whose offsets stay in the buffer and whose
   data has room in it, and after which a call that is told both sizes stops.
   */
  predicate Reads(input: seq<Byte>, inputSize: nat, base: nat, outputSize: nat, s: State, ss: seq<Sequence>, t: Tail) {
    RepresentableBlock(Block(ss, t)) && Reachable(base + s.opos, ss) && Holds(input, s.ipos, EncodeSequences(ss, t)) &&
    base + s.opos + Produced(ss, t) <= |s.mem| && StopsAfter(inputSize, outputSize, s.ipos, s.opos, ss, t)
  }

  /** Where a call stops that reads `ss` and `t`. */
  predicate StoppedAfter(p: Progress, s: State, ss: seq<Sequence>, t: Tail)
    requires RepresentableBlock(Block(ss, t))
  {
    p.Halt? && p.state.ipos == s.ipos + |EncodeSequences(ss, t)| && p.state.opos == s.opos + Produced(ss, t)
  }

  lemma ReadsCons(input: seq<Byte>, inputSize: nat, base: nat, outputSize: nat, s: State, q: Sequence, p: State,
                  ss: seq<Sequence>, t: Tail)
    requires Representable(q) && p.ipos == s.ipos + |EncodeSequence(q)| && |p.mem| == |s.mem|
    requires p.opos == s.opos + |q.literals| + q.matchLength
    ensures Reads(input, inputSize, base, outputSize, s, [q] + ss, t) <==>
            Holds(input, s.ipos, EncodeSequence(q)) && q.offset <= base + s.opos + |q.literals| &&
            GoesOn(inputSize, outputSize, s.ipos, s.opos, q) && Reads(input, inputSize, base, outputSize, p, ss, t)
    ensures Reads(input, inputSize, base, outputSize, p, ss, t) ==>
              RepresentableBlock(Block([q] + ss, t)) && base + p.opos <= |s.mem| &&
              |EncodeSequences([q] + ss, t)| == |EncodeSequence(q)| + |EncodeSequences(ss, t)| &&
              Produced([q] + ss, t) == |q.literals| + q.matchLength + Produced(ss, t)
  {
    hide EncodeSequence, Representable, GoesOn;
    assert ([q] + ss)[1..] == ss;
    assert RepresentableBlock(Block([q] + ss, t)) ==> RepresentableBlock(Block(ss, t)) by {
      assert forall x :: x in ss ==> x in [q] + ss;
    }
    if RepresentableBlock(Block(ss, t)) {
      HoldsAppend(input, s.ipos, EncodeSequence(q), EncodeSequences(ss, t));
    }
  }

  /** Before the last step, the run has read everything but the literals at the end, if there are any. */
  lemma LastIsTail(input: seq<Byte>, inputSize: nat, base: nat, outputSize: nat, s: State) returns (t: Tail)
    requires s.ipos <= |input| && base + s.opos <= |s.mem|
    requires Step(input, inputSize, base, outputSize, s).Halt?
    ensures Reads(input, inputSize, base, outputSize, s, [], t)
    ensures StoppedAfter(Step(input, inputSize, base, outputSize, s), s, [], t)
  {
    if s.ipos < inputSize {
      var literals := LiteralsAreEncoding(input, base, s);
      t := Tail(literals, input[s.ipos] % 16);
    } else {
      t := NoTail;
    }
  }

  /** A run that comes to an end without leaving the input or the buffer has read a block. */
  lemma {:induction false} RunReadsABlock(input: seq<Byte>, inputSize: nat, base: nat, outputSize: nat, s: State)
    returns (ss: seq<Sequence>, t: Tail)
    requires s.ipos <= |input| && base + s.opos <= |s.mem|
    requires Run(input, inputSize, base, outputSize, s).Halt?
    ensures Reads(input, inputSize, base, outputSize, s, ss, t)
    ensures StoppedAfter(Run(input, inputSize, base, outputSize, s), s, ss, t)
    decreases inputSize - s.ipos
  {
    hide Step, Reads, EncodeSequences, EncodeSequence, Produced;
    match Step(input, inputSize, base, outputSize, s)
    case Halt(_) =>
      ss := [];
      t := LastIsTail(input, inputSize, base, outputSize, s);
    case Continue(p) =>
      var q := StepIsSequence(input, inputSize, base, outputSize, s);
      ss, t := RunReadsABlock(input, inputSize, base, outputSize, p);
      ReadsCons(input, inputSize, base, outputSize, s, q, p, ss, t);
      ss := [q] + ss;
  }

  lemma TailIsRead(input: seq<Byte>, inputSize: nat, base: nat, outputSize: nat, s: State, t: Tail)
    requires Reads(input, inputSize, base, outputSize, s, [], t)
    ensures StoppedAfter(Step(input, inputSize, base, outputSize, s), s, [], t)
  {
    if t.Tail? {
      LiteralsDecode(input, base, s, t.literals, t.unusedNibble);
    }
  }

  lemma FirstIsRead(input: seq<Byte>, inputSize: nat, base: nat, outputSize: nat, s: State, ss: seq<Sequence>, t: Tail)
    returns (next: State)
    requires Reads(input, inputSize, base, outputSize, s, ss, t) && ss != []
    ensures Step(input, inputSize, base, outputSize, s) == Continue(next)
    ensures Reads(input, inputSize, base, outputSize, next, ss[1..], t)
    ensures next.ipos + |EncodeSequences(ss[1..], t)| == s.ipos + |EncodeSequences(ss, t)|
    ensures next.opos + Produced(ss[1..], t) == s.opos + Produced(ss, t)
  {
    hide EncodeSequence, Step, CopyBack, GoesOn, EncodeSequences, Produced, Reachable, StopsAfter;
    var q := ss[0];
    assert Representable(q);
    assert ss == [q] + ss[1..];
    next := State(s.ipos + |EncodeSequence(q)|, s.opos + |q.literals| + q.matchLength, s.mem);
    ReadsCons(input, inputSize, base, outputSize, s, q, next, ss[1..], t);
    SequenceDecodes(input, inputSize, base, outputSize, s, q);
    next := Step(input, inputSize, base, outputSize, s).state;
  }

  lemma {:induction false} EncodingIsAccepted(input: seq<Byte>, inputSize: nat, base: nat, outputSize: nat, s: State,
                                              ss: seq<Sequence>, t: Tail)
    requires Reads(input, inputSize, base, outputSize, s, ss, t)
    ensures StoppedAfter(Run(input, inputSize, base, outputSize, s), s, ss, t)
    decreases |ss|
  {
    hide Step, EncodeSequences, Produced;
    if ss == [] {
      TailIsRead(input, inputSize, base, outputSize, s, t);
    } else {
      var next := FirstIsRead(input, inputSize, base, outputSize, s, ss, t);
      EncodingIsAccepted(input, inputSize, base, outputSize, next, ss[1..], t);
    }
  }

  predicate ReadsBlock(input: seq<Byte>, inputSize: nat, base: nat, outputSize: nat, mem: seq<Byte>, b: Block) {
    Reads(input, inputSize, base, outputSize, State(0, 0, mem), b.sequences, b.tail)
  }

  /** The size of the data a block stands for. */
  function DataSize(b: Block): nat {
    Produced(b.sequences, b.tail)
  }

  predicate Returns(p: Progress, used: nat, written: nat) {
    p.Halt? && p.state.ipos == used && p.state.opos == written
  }

  /**
   A call of the decoder, anywhere in a buffer and told any sizes, uses `used` bytes of input and returns
   `written` if and only if its input starts with the encoding of a block of these sizes after which it
   stops, and the buffer has room for the data.
   */
  lemma CallReturnsExactly(input: seq<Byte>, inputSize: nat, base: nat, outputSize: nat, mem: seq<Byte>,
                           used: nat, written: nat)
    requires base <= |mem|
    ensures Returns(Run(input, inputSize, base, outputSize, State(0, 0, mem)), used, written) <==>
            exists b: Block :: ReadsBlock(input, inputSize, base, outputSize, mem, b) &&
                               |EncodeBlock(b)| == used && DataSize(b) == written
  {
    hide Run, EncodeSequences, Produced;
    var s := State(0, 0, mem);
    if Returns(Run(input, inputSize, base, outputSize, s), used, written) {
      var ss, t := RunReadsABlock(input, inputSize, base, outputSize, s);
      assert ReadsBlock(input, inputSize, base, outputSize, mem, Block(ss, t));
    }
    forall b: Block | ReadsBlock(input, inputSize, base, outputSize, mem, b) && |EncodeBlock(b)| == used &&
           DataSize(b) == written
      ensures Returns(Run(input, inputSize, base, outputSize, s), used, written)
    {
      assert b == Block(b.sequences, b.tail);
      EncodingIsAccepted(input, inputSize, base, outputSize, s, b.sequences, b.tail);
    }
  }

  /** The input ends in or right after the last match, or, if the block has a tail, in or after the tail. */
  predicate EndsInTime(inputSize: nat, ipos: nat, ss: seq<Sequence>, t: Tail)
    requires RepresentableBlock(Block(ss, t))
    decreases |ss|
  {
    if ss != [] then
      ipos + |EncodeLiterals(ss[0].literals, MatchNibble(ss[0]))| < inputSize &&
      EndsInTime(inputSize, ipos + |EncodeSequence(ss[0])|, ss[1..], t)
    else if t.NoTail? then inputSize <= ipos else ipos < inputSize
  }

  lemma {:induction false} ExactSizeStops(inputSize: nat, outputSize: nat, ipos: nat, opos: nat, ss: seq<Sequence>,
                                          t: Tail)
    requires RepresentableBlock(Block(ss, t)) && opos + Produced(ss, t) == outputSize
    ensures StopsAfter(inputSize, outputSize, ipos, opos, ss, t) <==> EndsInTime(inputSize, ipos, ss, t)
    decreases |ss|
  {
    hide EncodeSequence, EncodeLiterals;
    if ss != [] {
      var q := ss[0];
      assert Representable(q);
      ExactSizeStops(inputSize, outputSize, ipos + |EncodeSequence(q)|, opos + |q.literals| + q.matchLength, ss[1..],
                     t);
    }
  }

  /** The input starts with the encoding of `b`, which stands for `size` bytes, and ends where it may. */
  predicate Delivers(input: seq<Byte>, inputSize: nat, base: nat, size: nat, b: Block) {
    RepresentableBlock(b) && EncodeBlock(b) <= input && Reachable(base, b.sequences) && DataSize(b) == size &&
    EndsInTime(inputSize, 0, b.sequences, b.tail)
  }

  /**
   The call that `decompress_section` and `decompress_single_section` make, told the size of the data: it
   returns that size, which they take for success, if and only if its input starts with the encoding of a
   block of that size. The input may end inside the last match or go on after the last literals, and offsets
   may reach bytes before the place of the data.
   */
  lemma ExactSizeReturned(input: seq<Byte>, inputSize: nat, base: nat, size: nat, mem: seq<Byte>)
    requires base + size <= |mem|
    ensures (var p := Run(input, inputSize, base, size, State(0, 0, mem)); p.Halt? && p.state.opos == size) <==>
            exists b: Block :: Delivers(input, inputSize, base, size, b)
  {
    hide Run, Reachable, EncodeSequences, Produced, StopsAfter, EndsInTime;
    var p := Run(input, inputSize, base, size, State(0, 0, mem));
    if p.Halt? && p.state.opos == size {
      CallReturnsExactly(input, inputSize, base, size, mem, p.state.ipos, size);
      var b: Block :| ReadsBlock(input, inputSize, base, size, mem, b) && DataSize(b) == size;
      DeliversIsReads(input, inputSize, base, size, mem, b);
    }
    forall b: Block | Delivers(input, inputSize, base, size, b)
      ensures p.Halt? && p.state.opos == size
    {
      DeliversIsReads(input, inputSize, base, size, mem, b);
      CallReturnsExactly(input, inputSize, base, size, mem, |EncodeBlock(b)|, size);
    }
  }

  lemma DeliversIsReads(input: seq<Byte>, inputSize: nat, base: nat, size: nat, mem: seq<Byte>, b: Block)
    requires base + size <= |mem|
    ensures Delivers(input, inputSize, base, size, b) <==>
            ReadsBlock(input, inputSize, base, size, mem, b) && DataSize(b) == size
  {
    hide EncodeSequences, Reachable, Produced, StopsAfter, EndsInTime;
    assert b == Block(b.sequences, b.tail);
    if RepresentableBlock(b) && DataSize(b) == size {
      ExactSizeStops(inputSize, size, 0, 0, b.sequences, b.tail);
    }
  }

  lemma {:induction false} ChainBounds(n: nat)
    ensures n <= 255 * |EncodeChain(n)|
    decreases n
  {
    if n >= 255 {
      ChainBounds(n - 255);
    }
  }

  /** A sequence stands for at most 255 times as many bytes as it takes. */
  lemma EncodedSizeBounds(q: Sequence)
    requires Representable(q)
    ensures |q.literals| + q.matchLength <= 255 * |EncodeSequence(q)|
  {
    SequenceSplits(q);
    if q.matchLength >= MIN_MATCH + 15 {
      ChainBounds(q.matchLength - MIN_MATCH - 15);
    }
  }

  /** Given room for the largest expansion, a call told the size of an encoding stops after it. */
  lemma {:induction false} RoomyStops(inputSize: nat, outputSize: nat, ipos: nat, opos: nat, ss: seq<Sequence>, t: Tail)
    requires RepresentableBlock(Block(ss, t)) && ipos + |EncodeSequences(ss, t)| == inputSize
    requires opos <= 255 * ipos && 255 * inputSize < outputSize
    ensures StopsAfter(inputSize, outputSize, ipos, opos, ss, t) && opos + Produced(ss, t) <= 255 * inputSize
    decreases |ss|
  {
    hide EncodeSequence, EncodeLiterals, EncodeMatch;
    if ss != [] {
      var q := ss[0];
      assert Representable(q);
      EncodedSizeBounds(q);
      SequenceSplits(q);
      RoomyStops(inputSize, outputSize, ipos + |EncodeSequence(q)|, opos + |q.literals| + q.matchLength, ss[1..], t);
    }
  }

  /**
   Given room for the largest expansion, a section whose compressed size is `inputSize` is read
   without fault and to its end if and only if it is the encoding of a block whose back offsets
   stay inside the buffer. They may be 0, and reach before the place of the data.
   */
  lemma AcceptsExactlyBlocks(input: seq<Byte>, inputSize: nat, base: nat, outputSize: nat, mem: seq<Byte>)
    requires inputSize <= |input| && 255 * inputSize < outputSize && base + 255 * inputSize < |mem|
    ensures (var p := Run(input, inputSize, base, outputSize, State(0, 0, mem));
             p.Halt? && p.state.ipos == inputSize) <==>
            exists b: Block :: RepresentableBlock(b) && Reachable(base, b.sequences) &&
              EncodeBlock(b) == input[..inputSize]
  {
    hide Run, EncodeSequences, Produced, StopsAfter, Reachable;
    var p := Run(input, inputSize, base, outputSize, State(0, 0, mem));
    if p.Halt? && p.state.ipos == inputSize {
      CallReturnsExactly(input, inputSize, base, outputSize, mem, inputSize, p.state.opos);
      var b: Block :| ReadsBlock(input, inputSize, base, outputSize, mem, b) && |EncodeBlock(b)| == inputSize;
      assert EncodeBlock(b) == input[..inputSize];
    }
    forall b: Block | RepresentableBlock(b) && Reachable(base, b.sequences) && EncodeBlock(b) == input[..inputSize]
      ensures p.Halt? && p.state.ipos == inputSize
    {
      assert b == Block(b.sequences, b.tail);
      RoomyStops(inputSize, outputSize, 0, 0, b.sequences, b.tail);
      CallReturnsExactly(input, inputSize, base, outputSize, mem, inputSize, DataSize(b));
    }
  }

  /** Every run keeps the output at most 255 times as long as the input read. */
  lemma {:induction false} ExpansionBound(input: seq<Byte>, inputSize: nat, base: nat, outputSize: nat, s: State)
    requires s.opos <= 255 * s.ipos
    requires Run(input, inputSize, base, outputSize, s).Halt?
    ensures var p := Run(input, inputSize, base, outputSize, s).state; p.opos <= 255 * p.ipos
    decreases inputSize - s.ipos
  {
    match Step(input, inputSize, base, outputSize, s)
    case Halt(_) =>
    case Continue(p) => ExpansionBound(input, inputSize, base, outputSize, p);
  }
}
