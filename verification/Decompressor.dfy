/** `decompress`: the loop over the compressed bytes, writing the output buffer in place. */
module Decompressor {
  import opened Attempts
  import opened Bytes
  import opened Lz4Block
  import opened Lz4Laws

  /** `memcpy` from the input. */
  method CopyIn(output: array<Byte>, to: nat, input: seq<Byte>, from: nat, n: nat)
    requires to + n <= output.Length && from + n <= |input|
    modifies output
    ensures output[..] == Splice(old(output[..]), to, input[from..from + n])
  {
    forall i | 0 <= i < n {
      output[to + i] := input[from + i];
    }
  }

  /** `memcpy` inside the output: what it demands of its callers is that the ranges do not overlap. */
  method CopyWithin(output: array<Byte>, to: nat, from: nat, n: nat)
    requires to + n <= output.Length && from + n <= output.Length
    requires from + n <= to || to + n <= from
    modifies output
    ensures output[..] == Splice(old(output[..]), to, old(output[from..from + n]))
  {
    forall i | 0 <= i < n {
      output[to + i] := output[from + i];
    }
  }

  /** The match copy: one block copy if the match is no longer than its offset, else a byte loop after it. */
  method CopyMatch(output: array<Byte>, to: nat, offset: nat, length: nat)
    requires offset <= to && to + length <= output.Length
    modifies output
    ensures output[..] == CopyBack(old(output[..]), to, offset, length)
  {
    ghost var before := output[..];
    if length <= offset {
      CopyWithin(output, to, to - offset, length);
      CopyBackIsSplice(before, to, offset, length);
    } else {
      CopyWithin(output, to, to - offset, offset);
      CopyBackIsSplice(before, to, offset, offset);
      CopyRest(output, to, offset, length, before);
    }
  }

  /** The byte loop, once the first `offset` bytes of the match are in place. */
  method CopyRest(output: array<Byte>, to: nat, offset: nat, length: nat, ghost before: seq<Byte>)
    requires offset <= to && offset <= length && to + length <= output.Length == |before|
    requires output[..] == CopyBack(before, to, offset, offset)
    modifies output
    ensures output[..] == CopyBack(before, to, offset, length)
  {
    for i := offset to length
      invariant output[..] == CopyBack(before, to, offset, i)
    {
      CopyBackSnoc(before, to, offset, i);
      output[to + i] := output[to + i - offset];
    }
  }

  /** Adds the chain of bytes at `pos` to `start`, as far as the first that is not 0xff. */
  method AddChain(input: seq<Byte>, pos: nat, start: nat) returns (length: Length)
    ensures match ReadChain(input, pos)
      case Overrun => length == Overrun
      case Length(v, next) => length == Length(start + v, next)
  {
    var value: nat, at: nat, more := start, pos, true;
    while more
      invariant pos <= at && start <= value
      invariant more ==> ReadChain(input, pos) == PlusLength(value - start, ReadChain(input, at))
      invariant !more ==> ReadChain(input, pos) == Length(value - start, at)
      decreases |input| - at, more
    {
      if at >= |input| {
        return Overrun;
      }
      value := value + input[at];
      more := input[at] == 0xff;
      at := at + 1;
    }
    return Length(value, at);
  }

  ghost function PlusLength(n: nat, r: Length): Length {
    match r
    case Overrun => Overrun
    case Length(v, next) => Length(n + v, next)
  }

  datatype Positions = At(ipos: nat, opos: nat)

  /** The first half of the loop body: the token at `start` and its literals. */
  method DecodeLiterals(input: seq<Byte>, output: array<Byte>, base: nat, start: nat, written: nat)
    returns (r: Attempt<Positions>)
    requires start < |input|
    modifies output
    ensures match LiteralStep(input, base, State(start, written, old(output[..])))
      case Continue(s) => r == Ok(At(s.ipos, s.opos)) && output[..] == s.mem
      case _ => r == Undefined
  {
    var ipos := start + 1;
    var literalLength: nat := input[start] / 16;
    if literalLength == 0xf {
      var l := AddChain(input, ipos, literalLength);
      if l.Overrun? {
        return Undefined;
      }
      literalLength, ipos := l.value, l.next;
    }
    if ipos + literalLength > |input| || base + written + literalLength > output.Length {
      return Undefined;
    }
    CopyIn(output, base + written, input, ipos, literalLength);
    return Ok(At(ipos + literalLength, written + literalLength));
  }

  /** The second half: the back offset, the rest of the match length, and the match. */
  method DecodeMatch(input: seq<Byte>, output: array<Byte>, base: nat, nibble: nat, start: nat, written: nat)
    returns (r: Attempt<Positions>)
    requires nibble < 16
    modifies output
    ensures match MatchStep(input, base, nibble, State(start, written, old(output[..])))
      case Continue(s) => r == Ok(At(s.ipos, s.opos)) && output[..] == s.mem
      case _ => r == Undefined
  {
    if start + 2 > |input| {
      return Undefined;
    }
    OffsetBytes(input, start);
    var low: nat, high: nat := input[start], input[start + 1];
    var backOffset := low + 256 * high;
    var ipos := start + 2;
    var matchLength := MIN_MATCH + nibble;
    if matchLength == 0xf + MIN_MATCH {
      var l := AddChain(input, ipos, matchLength);
      if l.Overrun? {
        return Undefined;
      }
      matchLength, ipos := l.value, l.next;
    }
    if backOffset > base + written || base + written + matchLength > output.Length {
      return Undefined;
    }
    CopyMatch(output, base + written, backOffset, matchLength);
    return Ok(At(ipos, written + matchLength));
  }

  /**
   Decompresses `input[..inputSize]` into the part of `output` that starts at `base`. Memory past
   `inputSize` may be read, as the C code does not check the end of the input inside a token.
   */
  method Decompress(input: seq<Byte>, inputSize: nat, output: array<Byte>, base: nat, outputSize: nat)
    returns (r: Attempt<nat>)
    modifies output
    ensures match Run(input, inputSize, base, outputSize, State(0, 0, old(output[..])))
      case Halt(s) => r == Ok(s.opos) && output[..] == s.mem
      case _ => r == Undefined
  {
    ghost var whole := Run(input, inputSize, base, outputSize, State(0, 0, output[..]));
    var ipos: nat, opos: nat := 0, 0;
    while ipos < inputSize
      invariant Run(input, inputSize, base, outputSize, State(ipos, opos, output[..])) == whole
      invariant opos <= 255 * ipos
      decreases inputSize - ipos
    {
      if ipos >= |input| {
        return Undefined;
      }
      var token: nat := input[ipos];
      var p :- DecodeLiterals(input, output, base, ipos, opos);
      if p.ipos >= inputSize || p.opos >= outputSize {
        return Ok(p.opos);
      }
      p :- DecodeMatch(input, output, base, token % 16, p.ipos, p.opos);
      ipos, opos := p.ipos, p.opos;
    }
    return Ok(opos);
  }

  lemma OffsetBytes(input: seq<Byte>, at: nat)
    requires at + 2 <= |input|
    ensures var low: nat, high: nat := input[at], input[at + 1]; Field(input, at, 2) == low + 256 * high
  {
    var f := input[at..at + 2];
    assert FromLE(f) == f[0] + 256 * FromLE(f[1..]);
    assert FromLE(f[1..]) == f[1] + 256 * FromLE(f[1..][1..]);
  }
}
