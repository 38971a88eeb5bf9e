/** What the decoder of module Lz4Block computes: the match copy, the round trip, its converse. */
module Lz4Laws {
  import opened Bytes
  import opened Lz4Block

  /* ---------- the match copy ---------- */

  lemma {:induction false} CopyBackFrame(mem: seq<Byte>, to: nat, offset: nat, length: nat)
    requires offset <= to && to + length <= |mem|
    ensures forall i :: 0 <= i < |mem| && !(to <= i < to + length) ==> CopyBack(mem, to, offset, length)[i] == mem[i]
    decreases length
  {
    if length > 0 {
      CopyBackFrame(mem[to := mem[to - offset]], to + 1, offset, length - 1);
    }
  }

  /** An overlapping copy repeats the last `offset` bytes before it, over and over. */
  lemma {:induction false} CopyBackIsPeriodic(mem: seq<Byte>, to: nat, offset: nat, length: nat, i: nat)
    requires 1 <= offset <= to && to + length <= |mem| && i < length
    ensures CopyBack(mem, to, offset, length)[to + i] == mem[to - offset + i % offset]
    decreases length, i
  {
    var next := mem[to := mem[to - offset]];
    if i == 0 {
      CopyBackFrame(next, to + 1, offset, length - 1);
      ModUnique(0, offset, 0, 0);
    } else {
      CopyBackIsPeriodic(next, to + 1, offset, length - 1, i - 1);
      ModSuccessor(i - 1, offset);
    }
  }

  lemma ModSuccessor(i: nat, d: nat)
    requires d > 0
    ensures 0 <= i % d < d
    ensures (i + 1) % d == if i % d == d - 1 then 0 else i % d + 1
  {
    var k, j := i / d, i % d;
    MulMonotone(d, k, k);
    if j == d - 1 {
      ModUnique(i + 1, d, k + 1, 0);
    } else {
      ModUnique(i + 1, d, k, j + 1);
    }
  }

  /** Copying one more byte at the end. */
  lemma {:induction false} CopyBackSnoc(mem: seq<Byte>, to: nat, offset: nat, length: nat)
    requires offset <= to && to + length < |mem|
    ensures var m := CopyBack(mem, to, offset, length);
            CopyBack(mem, to, offset, length + 1) == m[to + length := m[to + length - offset]]
    decreases length
  {
    if length > 0 {
      CopyBackSnoc(mem[to := mem[to - offset]], to + 1, offset, length - 1);
    }
  }

  /** No longer than its offset, a match is one block copy. */
  lemma CopyBackIsSplice(mem: seq<Byte>, to: nat, offset: nat, length: nat)
    requires length <= offset <= to && to + length <= |mem|
    ensures CopyBack(mem, to, offset, length) == Splice(mem, to, mem[to - offset..to - offset + length])
  {
    var r := CopyBack(mem, to, offset, length);
    CopyBackFrame(mem, to, offset, length);
    var s := Splice(mem, to, mem[to - offset..to - offset + length]);
    forall k | 0 <= k < |mem|
      ensures r[k] == s[k]
    {
      if to <= k < to + length {
        CopyBackIsPeriodic(mem, to, offset, length, k - to);
        ModUnique(k - to, offset, 0, k - to);
      }
    }
  }

  /** In memory that holds the history, the copy produces what the format's match stands for. */
  lemma {:induction false} CopyBackIsRepeat(mem: seq<Byte>, base: nat, history: seq<Byte>, offset: nat, length: nat)
    requires 1 <= offset <= |history| && base + |history| + length <= |mem|
    requires Holds(mem, base, history)
    ensures CopyBack(mem, base + |history|, offset, length) == Splice(mem, base, Repeat(history, offset, length))
    decreases length
  {
    var to := base + |history|;
    if length == 0 {
      assert Splice(mem, base, history) == mem;
    } else {
      var b := history[|history| - offset];
      assert mem[base..to][|history| - offset] == mem[to - offset];
      var next := mem[to := b];
      assert next[base..to + 1] == history + [b];
      CopyBackIsRepeat(next, base, history + [b], offset, length - 1);
      var full := Repeat(history, offset, length);
      assert Splice(next, base, full) == Splice(mem, base, full);
    }
  }

  /* ---------- the round trip ---------- */

  lemma {:induction false} ReadEncodedChain(input: seq<Byte>, pos: nat, n: nat)
    requires Holds(input, pos, EncodeChain(n))
    ensures ReadChain(input, pos) == Length(n, pos + |EncodeChain(n)|)
    decreases n
  {
    assert input[pos] == input[pos..pos + |EncodeChain(n)|][0];
    if n >= 255 {
      HoldsAppend(input, pos, [255], EncodeChain(n - 255));
      ReadEncodedChain(input, pos + 1, n - 255);
    }
  }

  lemma ReadEncodedLength(input: seq<Byte>, pos: nat, n: nat)
    requires Holds(input, pos, EncodeExtension(n))
    ensures ReadLength(input, pos, Min(n, 15)) == Length(n, pos + |EncodeExtension(n)|)
  {
    if n >= 15 {
      ReadEncodedChain(input, pos, n - 15);
    }
  }

  lemma TokenNibbles(high: nat, low: nat)
    requires high < 16 && low < 16
    ensures (16 * high + low) / 16 == high && (16 * high + low) % 16 == low
  {
  }

  /** Where the decoder finds the literals of an encoded token. */
  lemma LiteralsLocated(input: seq<Byte>, pos: nat, literals: seq<Byte>, nibble: nat)
    requires nibble < 16 && Holds(input, pos, EncodeLiterals(literals, nibble))
    ensures pos < |input| && input[pos] % 16 == nibble
    ensures ReadLength(input, pos + 1, input[pos] / 16) == Length(|literals|, pos + 1 + |EncodeExtension(|literals|)|)
    ensures Holds(input, pos + 1 + |EncodeExtension(|literals|)|, literals)
  {
    hide ReadLength, EncodeExtension;
    var token, extension := 16 * Min(|literals|, 15) + nibble, EncodeExtension(|literals|);
    HoldsAppend(input, pos, [token] + extension, literals);
    HoldsAppend(input, pos, [token], extension);
    assert input[pos] == input[pos..pos + 1][0];
    TokenNibbles(Min(|literals|, 15), nibble);
    ReadEncodedLength(input, pos + 1, |literals|);
  }

  lemma LiteralsDecode(input: seq<Byte>, base: nat, s: State, literals: seq<Byte>, nibble: nat)
    requires nibble < 16
    requires Holds(input, s.ipos, EncodeLiterals(literals, nibble))
    requires base + s.opos + |literals| <= |s.mem|
    ensures s.ipos < |input| && input[s.ipos] % 16 == nibble
    ensures LiteralStep(input, base, s) ==
            Continue(State(s.ipos + |EncodeLiterals(literals, nibble)|, s.opos + |literals|,
                           Splice(s.mem, base + s.opos, literals)))
  {
    hide EncodeExtension, ReadLength, Splice;
    LiteralsLocated(input, s.ipos, literals, nibble);
  }

  /** The bytes of a sequence after its literals. */
  function EncodeMatch(s: Sequence): seq<Byte>
    requires Representable(s)
  {
    ToLE(s.offset, 2) + EncodeExtension(s.matchLength - MIN_MATCH)
  }

  function MatchNibble(s: Sequence): (n: nat)
    requires Representable(s)
    ensures n < 16
  {
    Min(s.matchLength - MIN_MATCH, 15)
  }

  lemma MatchDecodes(input: seq<Byte>, base: nat, s: State, q: Sequence)
    requires Representable(q)
    requires Holds(input, s.ipos, EncodeMatch(q))
    requires q.offset <= base + s.opos && base + s.opos + q.matchLength <= |s.mem|
    ensures MatchStep(input, base, MatchNibble(q), s) ==
            Continue(State(s.ipos + |EncodeMatch(q)|, s.opos + q.matchLength,
                           CopyBack(s.mem, base + s.opos, q.offset, q.matchLength)))
  {
    hide CopyBack, EncodeExtension, ReadLength, FromLE, ToLE;
    HoldsAppend(input, s.ipos, ToLE(q.offset, 2), EncodeExtension(q.matchLength - MIN_MATCH));
    Pow256Values();
    FitsRoundTrip(q.offset, 2);
    ReadEncodedLength(input, s.ipos + 2, q.matchLength - MIN_MATCH);
  }

  lemma SequenceSplits(q: Sequence)
    requires Representable(q)
    ensures EncodeSequence(q) == EncodeLiterals(q.literals, MatchNibble(q)) + EncodeMatch(q)
    ensures |EncodeMatch(q)| >= 2
  {
  }

  /** There is input left, and output to be written, after the sequence's literals: its match is decoded. */
  predicate GoesOn(inputSize: nat, outputSize: nat, ipos: nat, opos: nat, q: Sequence)
    requires Representable(q)
  {
    ipos + |EncodeLiterals(q.literals, MatchNibble(q))| < inputSize && opos + |q.literals| < outputSize
  }

  /** The loop, told both sizes, goes on through all of these sequences and stops right after them and the tail. */
  predicate StopsAfter(inputSize: nat, outputSize: nat, ipos: nat, opos: nat, ss: seq<Sequence>, t: Tail)
    requires RepresentableBlock(Block(ss, t))
    decreases |ss|
  {
    if ss != [] then
      var q := ss[0];
      GoesOn(inputSize, outputSize, ipos, opos, q) &&
      StopsAfter(inputSize, outputSize, ipos + |EncodeSequence(q)|, opos + |q.literals| + q.matchLength, ss[1..], t)
    else if t.NoTail? then inputSize <= ipos
    else ipos < inputSize && (inputSize <= ipos + |EncodeTail(t)| || outputSize <= opos + |t.literals|)
  }

  /** One sequence, decoded by one iteration of the loop. */
  lemma SequenceDecodes(input: seq<Byte>, inputSize: nat, base: nat, outputSize: nat, s: State, q: Sequence)
    requires Representable(q)
    requires Holds(input, s.ipos, EncodeSequence(q)) && GoesOn(inputSize, outputSize, s.ipos, s.opos, q)
    requires q.offset <= base + s.opos + |q.literals|
    requires base + s.opos + |q.literals| + q.matchLength <= |s.mem|
    ensures Step(input, inputSize, base, outputSize, s) ==
            Continue(State(s.ipos + |EncodeSequence(q)|, s.opos + |q.literals| + q.matchLength,
                           CopyBack(Splice(s.mem, base + s.opos, q.literals),
                                    base + s.opos + |q.literals|, q.offset, q.matchLength)))
  {
    hide LiteralStep, MatchStep, CopyBack, Splice, EncodeLiterals, EncodeMatch, EncodeSequence;
    var first := EncodeLiterals(q.literals, MatchNibble(q));
    SequenceSplits(q);
    HoldsAppend(input, s.ipos, first, EncodeMatch(q));
    LiteralsDecode(input, base, s, q.literals, MatchNibble(q));
    var t := State(s.ipos + |first|, s.opos + |q.literals|, Splice(s.mem, base + s.opos, q.literals));
    MatchDecodes(input, base, t, q);
  }

  lemma SpliceTwice(mem: seq<Byte>, at: nat, a: seq<Byte>, b: seq<Byte>)
    requires at + |b| <= |mem| && a <= b
    ensures Splice(Splice(mem, at, a), at, b) == Splice(mem, at, b)
    ensures Holds(Splice(mem, at, a), at, a)
  {
  }

  lemma SpliceOnto(mem: seq<Byte>, at: nat, a: seq<Byte>, b: seq<Byte>)
    requires at + |a| + |b| <= |mem| && Holds(mem, at, a)
    ensures Splice(mem, at + |a|, b) == Splice(mem, at, a + b)
  {
    var x, y := Splice(mem, at + |a|, b), Splice(mem, at, a + b);
    assert mem[..at + |a|] == mem[..at] + mem[at..at + |a|];
  }

  /** The history after a sequence. */
  function Longer(history: seq<Byte>, q: Sequence): seq<Byte>
    requires 1 <= q.offset <= |history| + |q.literals|
  {
    Repeat(history + q.literals, q.offset, q.matchLength)
  }

  lemma TailDecodes(input: seq<Byte>, inputSize: nat, base: nat, outputSize: nat, s: State,
                    history: seq<Byte>, t: Tail)
    requires t.Tail? ==> t.unusedNibble < 16
    requires s.opos == |history| && Holds(s.mem, base, history)
    requires Holds(input, s.ipos, EncodeTail(t)) && base + |history + TailLiterals(t)| <= |s.mem|
    requires StopsAfter(inputSize, outputSize, s.ipos, s.opos, [], t)
    ensures var data := history + TailLiterals(t);
            Run(input, inputSize, base, outputSize, s) ==
            Halt(State(s.ipos + |EncodeTail(t)|, |data|, Splice(s.mem, base, data)))
  {
    if t.NoTail? {
      assert history + [] == history;
      assert Splice(s.mem, base, history) == s.mem;
    } else {
      LiteralsDecode(input, base, s, t.literals, t.unusedNibble);
      SpliceOnto(s.mem, base, history, t.literals);
    }
  }

  /** `SequenceDecodes` in terms of the history the memory holds. */
  lemma HistoryGrows(input: seq<Byte>, inputSize: nat, base: nat, outputSize: nat, s: State,
                     history: seq<Byte>, q: Sequence)
    requires Representable(q) && 1 <= q.offset <= |history| + |q.literals|
    requires s.opos == |history| && Holds(s.mem, base, history)
    requires Holds(input, s.ipos, EncodeSequence(q)) && GoesOn(inputSize, outputSize, s.ipos, s.opos, q)
    requires base + |history| + |q.literals| + q.matchLength <= |s.mem|
    ensures var longer := Longer(history, q);
            Step(input, inputSize, base, outputSize, s) ==
            Continue(State(s.ipos + |EncodeSequence(q)|, |longer|, Splice(s.mem, base, longer)))
  {
    hide Step, EncodeSequence, CopyBack, Repeat, Splice;
    var withLiterals := history + q.literals;
    SequenceDecodes(input, inputSize, base, outputSize, s, q);
    SpliceOnto(s.mem, base, history, q.literals);
    SpliceTwice(s.mem, base, withLiterals, Repeat(withLiterals, q.offset, q.matchLength));
    CopyBackIsRepeat(Splice(s.mem, base, withLiterals), base, withLiterals, q.offset, q.matchLength);
  }

  /** A block's first sequence, and the block that remains after it. */
  lemma FirstSequence(history: seq<Byte>, ss: seq<Sequence>, t: Tail)
    requires RepresentableBlock(Block(ss, t)) && Grounded(|history|, ss) && ss != []
    ensures Representable(ss[0]) && RepresentableBlock(Block(ss[1..], t))
    ensures 1 <= ss[0].offset <= |history + ss[0].literals|
    ensures var longer := Longer(history, ss[0]);
            Grounded(|longer|, ss[1..]) && ExpandSequences(history, ss) == ExpandSequences(longer, ss[1..])
  {
  }

  function DataFrom(history: seq<Byte>, ss: seq<Sequence>, t: Tail): seq<Byte>
    requires Grounded(|history|, ss)
  {
    ExpandSequences(history, ss) + TailLiterals(t)
  }

  /** The decoder stands before `ss` and `t` in the input, and its memory holds the history. */
  predicate Before(input: seq<Byte>, inputSize: nat, base: nat, outputSize: nat, s: State,
                   history: seq<Byte>, ss: seq<Sequence>, t: Tail)
  {
    RepresentableBlock(Block(ss, t)) && Grounded(|history|, ss) &&
    s.opos == |history| && Holds(s.mem, base, history) &&
    Holds(input, s.ipos, EncodeSequences(ss, t)) && base + |DataFrom(history, ss, t)| <= |s.mem| &&
    StopsAfter(inputSize, outputSize, s.ipos, s.opos, ss, t)
  }

  /** Having decoded the first sequence, the decoder stands before the others. */
  lemma AfterFirst(input: seq<Byte>, inputSize: nat, base: nat, outputSize: nat, s: State,
                   history: seq<Byte>, ss: seq<Sequence>, t: Tail) returns (next: State)
    requires Before(input, inputSize, base, outputSize, s, history, ss, t) && ss != []
    ensures var longer := Longer(history, ss[0]);
            next == State(s.ipos + |EncodeSequence(ss[0])|, |longer|, Splice(s.mem, base, longer)) &&
            Before(input, inputSize, base, outputSize, next, longer, ss[1..], t) &&
            DataFrom(longer, ss[1..], t) == DataFrom(history, ss, t)
    ensures Representable(ss[0]) && Holds(input, s.ipos, EncodeSequence(ss[0]))
    ensures GoesOn(inputSize, outputSize, s.ipos, s.opos, ss[0]) && 1 <= ss[0].offset <= |history| + |ss[0].literals|
    ensures |history| + |ss[0].literals| + ss[0].matchLength <= |DataFrom(history, ss, t)|
    ensures |EncodeSequences(ss, t)| == |EncodeSequence(ss[0])| + |EncodeSequences(ss[1..], t)|
  {
    hide EncodeSequence, EncodeTail, Repeat, ExpandSequences;
    FirstSequence(history, ss, t);
    var longer := Longer(history, ss[0]);
    HoldsAppend(input, s.ipos, EncodeSequence(ss[0]), EncodeSequences(ss[1..], t));
    next := State(s.ipos + |EncodeSequence(ss[0])|, |longer|, Splice(s.mem, base, longer));
  }

  lemma StepsOverFirst(input: seq<Byte>, inputSize: nat, base: nat, outputSize: nat, s: State,
                       history: seq<Byte>, ss: seq<Sequence>, t: Tail) returns (next: State)
    requires Before(input, inputSize, base, outputSize, s, history, ss, t) && ss != []
    ensures Grounded(|history|, ss) && Step(input, inputSize, base, outputSize, s) == Continue(next)
    ensures var longer := Longer(history, ss[0]);
            next.mem == Splice(s.mem, base, longer) &&
            Before(input, inputSize, base, outputSize, next, longer, ss[1..], t) &&
            DataFrom(longer, ss[1..], t) == DataFrom(history, ss, t)
    ensures next.ipos + |EncodeSequences(ss[1..], t)| == s.ipos + |EncodeSequences(ss, t)|
  {
    hide Step, EncodeSequence, EncodeSequences, DataFrom, Repeat;
    next := AfterFirst(input, inputSize, base, outputSize, s, history, ss, t);
    HistoryGrows(input, inputSize, base, outputSize, s, history, ss[0]);
  }

  lemma LastDecode(input: seq<Byte>, inputSize: nat, base: nat, outputSize: nat, s: State, history: seq<Byte>, t: Tail)
    requires Before(input, inputSize, base, outputSize, s, history, [], t)
    ensures var data := DataFrom(history, [], t);
            Run(input, inputSize, base, outputSize, s) ==
            Halt(State(s.ipos + |EncodeSequences([], t)|, |data|, Splice(s.mem, base, data)))
  {
    TailDecodes(input, inputSize, base, outputSize, s, history, t);
  }

  lemma {:induction false} SequencesDecode(
      input: seq<Byte>, inputSize: nat, base: nat, outputSize: nat, s: State,
      history: seq<Byte>, ss: seq<Sequence>, t: Tail)
    requires Before(input, inputSize, base, outputSize, s, history, ss, t)
    ensures var data := DataFrom(history, ss, t);
            Run(input, inputSize, base, outputSize, s) ==
            Halt(State(s.ipos + |EncodeSequences(ss, t)|, |data|, Splice(s.mem, base, data)))
    decreases |ss|
  {
    hide EncodeSequences, StopsAfter, Step, Repeat, ExpandSequences, EncodeTail;
    var data := DataFrom(history, ss, t);
    if ss == [] {
      LastDecode(input, inputSize, base, outputSize, s, history, t);
    } else {
      var longer := Longer(history, ss[0]);
      var next := StepsOverFirst(input, inputSize, base, outputSize, s, history, ss, t);
      SequencesDecode(input, inputSize, base, outputSize, next, longer, ss[1..], t);
      SpliceTwice(s.mem, base, longer, data);
    }
  }

  /** A whole encoded block stops the loop that is told its size, if there is output to be written for it. */
  lemma {:induction false} WholeBlockStops(inputSize: nat, outputSize: nat, ipos: nat, history: seq<Byte>,
                                           ss: seq<Sequence>, t: Tail)
    requires RepresentableBlock(Block(ss, t)) && Grounded(|history|, ss)
    requires inputSize == ipos + |EncodeSequences(ss, t)| && |DataFrom(history, ss, t)| <= outputSize
    ensures StopsAfter(inputSize, outputSize, ipos, |history|, ss, t)
    decreases |ss|
  {
    hide EncodeSequence, EncodeLiterals, EncodeMatch, Repeat;
    if ss != [] {
      FirstSequence(history, ss, t);
      SequenceSplits(ss[0]);
      WholeBlockStops(inputSize, outputSize, ipos + |EncodeSequence(ss[0])|, Longer(history, ss[0]), ss[1..], t);
    }
  }

  /**
   Wherever a call of the decoder stops after a valid block at the start of its input, it has written
   exactly the data the block stands for and changed no other byte. There may be more input.
   */
  lemma BlockRead(input: seq<Byte>, inputSize: nat, base: nat, outputSize: nat, mem: seq<Byte>, b: Block)
    requires ValidBlock(b) && EncodeBlock(b) <= input && base + |Expand(b)| <= |mem|
    requires StopsAfter(inputSize, outputSize, 0, 0, b.sequences, b.tail)
    ensures Run(input, inputSize, base, outputSize, State(0, 0, mem)) ==
            Halt(State(|EncodeBlock(b)|, |Expand(b)|, Splice(mem, base, Expand(b))))
  {
    SequencesDecode(input, inputSize, base, outputSize, State(0, 0, mem), [], b.sequences, b.tail);
  }

  /**
   Decoding an encoded block, found anywhere in the input and written anywhere in the output,
   writes exactly the data the block stands for, changes no other byte, and consumes it all.
   */
  lemma BlockDecodes(input: seq<Byte>, base: nat, outputSize: nat, mem: seq<Byte>, b: Block)
    requires ValidBlock(b) && EncodeBlock(b) <= input
    requires base + |Expand(b)| <= |mem| && |Expand(b)| <= outputSize
    ensures Run(input, |EncodeBlock(b)|, base, outputSize, State(0, 0, mem)) ==
            Halt(State(|EncodeBlock(b)|, |Expand(b)|, Splice(mem, base, Expand(b))))
  {
    WholeBlockStops(|EncodeBlock(b)|, outputSize, 0, [], b.sequences, b.tail);
    BlockRead(input, |EncodeBlock(b)|, base, outputSize, mem, b);
  }
}
