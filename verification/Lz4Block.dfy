/**
 The compressed block format of fatbin sections, and what `decompress` makes of it.

 The first half gives the format its meaning independently of the decoder: a block is a list of
 (literals, back offset, match length) sequences and final literals (section "Compressed block
 format" of the LZ4 Block Format Description), `EncodeBlock` is its byte form and `Expand` the data
 it stands for. The second half, `Run`, is the decoder over memory, one loop iteration a `Step`.
 A read or write outside the memory the pointers refer to ends the run in `Fault`.
 */
module Lz4Block {
  import opened Bytes

  const MIN_MATCH: nat := 4

  /* ---------- the format ---------- */

  datatype Sequence = Sequence(literals: seq<Byte>, offset: nat, matchLength: nat)

  /** The sequences, then the literals-only token that ends a block (it may be missing). */
  datatype Block = Block(sequences: seq<Sequence>, tail: Tail)
  datatype Tail = NoTail | Tail(literals: seq<Byte>, unusedNibble: nat)

  predicate Representable(s: Sequence) {
    s.offset < U16 && s.matchLength >= MIN_MATCH
  }

  predicate RepresentableBlock(b: Block) {
    (forall s :: s in b.sequences ==> Representable(s)) && (b.tail.Tail? ==> b.tail.unusedNibble < 16)
  }

  function Min(a: nat, b: nat): nat {
    if a < b then a else b
  }

  /** The 0xff-chained bytes that carry what exceeds 15 of a length. */
  function EncodeChain(n: nat): (s: seq<Byte>)
    ensures |s| > 0
  {
    if n < 255 then [n] else [255] + EncodeChain(n - 255)
  }

  function EncodeExtension(n: nat): seq<Byte> {
    if n < 15 then [] else EncodeChain(n - 15)
  }

  function EncodeSequence(s: Sequence): seq<Byte>
    requires Representable(s)
  {
    var extra := s.matchLength - MIN_MATCH;
    EncodeLiterals(s.literals, Min(extra, 15)) + ToLE(s.offset, 2) + EncodeExtension(extra)
  }

  /** Token, literal length extension, literals. */
  function EncodeLiterals(literals: seq<Byte>, lowNibble: nat): (r: seq<Byte>)
    requires lowNibble < 16
    ensures |r| > |literals|
  {
    [16 * Min(|literals|, 15) + lowNibble] + EncodeExtension(|literals|) + literals
  }

  function EncodeTail(t: Tail): seq<Byte>
    requires t.Tail? ==> t.unusedNibble < 16
  {
    if t.NoTail? then [] else EncodeLiterals(t.literals, t.unusedNibble)
  }

  function EncodeSequences(ss: seq<Sequence>, t: Tail): seq<Byte>
    requires RepresentableBlock(Block(ss, t))
  {
    if ss == [] then EncodeTail(t) else EncodeSequence(ss[0]) + EncodeSequences(ss[1..], t)
  }

  function EncodeBlock(b: Block): seq<Byte>
    requires RepresentableBlock(b)
  {
    EncodeSequences(b.sequences, b.tail)
  }

  /** The history extended by a match: each byte repeats the one `offset` places before it. */
  function Repeat(history: seq<Byte>, offset: nat, length: nat): (r: seq<Byte>)
    requires 1 <= offset <= |history|
    ensures |r| == |history| + length && history <= r
    decreases length
  {
    if length == 0 then history else Repeat(history + [history[|history| - offset]], offset, length - 1)
  }

  /** Every match refers to bytes already produced. */
  predicate Grounded(produced: nat, ss: seq<Sequence>)
    decreases |ss|
  {
    ss == [] ||
    (1 <= ss[0].offset <= produced + |ss[0].literals| &&
     Grounded(produced + |ss[0].literals| + ss[0].matchLength, ss[1..]))
  }

  function ExpandSequences(history: seq<Byte>, ss: seq<Sequence>): (r: seq<Byte>)
    requires Grounded(|history|, ss)
    ensures history <= r
    decreases |ss|
  {
    if ss == [] then history
    else ExpandSequences(Repeat(history + ss[0].literals, ss[0].offset, ss[0].matchLength), ss[1..])
  }

  function TailLiterals(t: Tail): seq<Byte> {
    if t.NoTail? then [] else t.literals
  }

  /** The data a block stands for. */
  function Expand(b: Block): seq<Byte>
    requires Grounded(0, b.sequences)
  {
    ExpandSequences([], b.sequences) + TailLiterals(b.tail)
  }

  predicate ValidBlock(b: Block) {
    RepresentableBlock(b) && Grounded(0, b.sequences)
  }

  /* ---------- the decoder ---------- */

  datatype Length = Length(value: nat, next: nat) | Overrun

  /** The sum of the bytes from `pos` up to and including the first that is not 0xff. */
  function ReadChain(input: seq<Byte>, pos: nat): (r: Length)
    ensures r.Length? ==> pos < r.next <= |input| && r.value <= 255 * (r.next - pos)
    decreases |input| - pos
  {
    if pos >= |input| then Overrun
    else if input[pos] != 255 then Length(input[pos], pos + 1)
    else match ReadChain(input, pos + 1)
      case Overrun => Overrun
      case Length(v, next) => Length(255 + v, next)
  }

  function ReadLength(input: seq<Byte>, pos: nat, nibble: nat): (r: Length)
    requires nibble < 16
    ensures r.Length? ==> pos <= r.next && r.value <= 15 + 255 * (r.next - pos)
  {
    if nibble < 15 then Length(nibble, pos)
    else match ReadChain(input, pos)
      case Overrun => Overrun
      case Length(v, next) => Length(15 + v, next)
  }

  /** Copying a match one byte at a time, in memory. An offset of 0 leaves every byte as it was. */
  function CopyBack(mem: seq<Byte>, to: nat, offset: nat, length: nat): (r: seq<Byte>)
    requires offset <= to && to + length <= |mem|
    ensures |r| == |mem|
    decreases length
  {
    if length == 0 then mem else CopyBack(mem[to := mem[to - offset]], to + 1, offset, length - 1)
  }

  /** Positions in the input and the output, and the memory the output buffer lies in. */
  datatype State = State(ipos: nat, opos: nat, mem: seq<Byte>)

  datatype Progress = Continue(state: State) | Halt(state: State) | Fault

  /** The first half of an iteration: the token's literals. */
  function LiteralStep(input: seq<Byte>, base: nat, s: State): (p: Progress)
    requires s.ipos < |input|
    ensures p.Continue? ==> s.ipos < p.state.ipos <= |input|
    ensures p.Continue? ==> p.state.opos - s.opos <= 255 * (p.state.ipos - s.ipos - 1) + 15
    ensures p.Continue? ==> |p.state.mem| == |s.mem| && base + p.state.opos <= |s.mem|
    ensures !p.Halt?
  {
    match ReadLength(input, s.ipos + 1, input[s.ipos] / 16)
    case Overrun => Fault
    case Length(n, at) =>
      if at + n > |input| || base + s.opos + n > |s.mem| then Fault
      else Continue(State(at + n, s.opos + n, Splice(s.mem, base + s.opos, input[at..at + n])))
  }

  /** The second half: the match, whose length nibble came with the token. */
  function MatchStep(input: seq<Byte>, base: nat, nibble: nat, s: State): (p: Progress)
    requires nibble < 16
    ensures p.Continue? ==> s.ipos + 2 <= p.state.ipos
    ensures p.Continue? ==> p.state.opos - s.opos <= 255 * (p.state.ipos - s.ipos - 2) + 19
    ensures p.Continue? ==> |p.state.mem| == |s.mem|
    ensures !p.Halt?
  {
    if s.ipos + 2 > |input| then Fault
    else
      var offset := Field(input, s.ipos, 2);
      match ReadLength(input, s.ipos + 2, nibble)
      case Overrun => Fault
      case Length(n, next) =>
        if offset > base + s.opos || base + s.opos + n + MIN_MATCH > |s.mem| then Fault
        else Continue(State(next, s.opos + n + MIN_MATCH,
                            CopyBack(s.mem, base + s.opos, offset, n + MIN_MATCH)))
  }

  /** One iteration of the decoding loop. */
  function Step(input: seq<Byte>, inputSize: nat, base: nat, outputSize: nat, s: State): (p: Progress)
    ensures p.Continue? ==> s.ipos < inputSize && s.ipos < p.state.ipos && |p.state.mem| == |s.mem|
    ensures p.Halt? ==> |p.state.mem| == |s.mem|
    ensures p.Continue? ==> p.state.opos - s.opos <= 255 * (p.state.ipos - s.ipos)
    ensures p.Halt? && s.ipos < inputSize ==> p.state.opos - s.opos <= 255 * (p.state.ipos - s.ipos)
    ensures p.Halt? && inputSize <= s.ipos ==> p.state == s
  {
    if s.ipos >= inputSize then Halt(s)
    else if s.ipos >= |input| then Fault
    else
      match LiteralStep(input, base, s)
      case Fault => Fault
      case Halt(t) => Halt(t)
      case Continue(t) =>
        if t.ipos >= inputSize || t.opos >= outputSize then Halt(t)
        else MatchStep(input, base, input[s.ipos] % 16, t)
  }

  /** The whole loop from state `s`: where it stops, or `Fault`. */
  function Run(input: seq<Byte>, inputSize: nat, base: nat, outputSize: nat, s: State): (p: Progress)
    ensures !p.Continue?
    ensures p.Halt? ==> |p.state.mem| == |s.mem|
    decreases inputSize - s.ipos
  {
    match Step(input, inputSize, base, outputSize, s)
    case Continue(t) => Run(input, inputSize, base, outputSize, t)
    case Halt(t) => Halt(t)
    case Fault => Fault
  }
}
