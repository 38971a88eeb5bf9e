/**
 The block format in numbers: what one iteration of `decompress` reads and writes, and how a sequence is
 encoded, told without the definitions that encoder and decoder share.
 */
module Lz4Numbers {
  import opened Bytes
  import opened Lz4Block
  import opened Lz4Laws

  /** From `pos` on there are k bytes 0xff, and then another byte. */
  predicate ChainAt(input: seq<Byte>, pos: nat, k: nat) {
    pos + k < |input| && (forall i :: pos <= i < pos + k ==> input[i] == 0xff) && input[pos + k] != 0xff
  }

  lemma {:induction false} ChainRead(input: seq<Byte>, pos: nat, k: nat)
    requires ChainAt(input, pos, k)
    ensures ReadChain(input, pos) == Length(0xff * k + input[pos + k], pos + k + 1)
    decreases k
  {
    if k > 0 {
      ChainRead(input, pos + 1, k - 1);
    }
  }

  /** An iteration as the bytes tell it: how long literals and match are, and where the parts lie. */
  datatype Iteration = Iteration(literals: nat, literalsAt: nat, matchLength: nat, offset: nat, next: nat)

  /** The four high bits of the token give the literals, the four low ones the match; 15 means that a chain follows. */
  predicate Reads(input: seq<Byte>, pos: nat, i: Iteration, k: nat, l: nat) {
    pos < |input| &&
    (if input[pos] < 0xf0 then i.literals == input[pos] / 16 && i.literalsAt == pos + 1
     else ChainAt(input, pos + 1, k) && i.literals == 15 + 0xff * k + input[pos + 1 + k] &&
          i.literalsAt == pos + k + 2) &&
    var at := i.literalsAt + i.literals;
    at + 2 <= |input| && (var low: nat, high: nat := input[at], input[at + 1]; i.offset == low + 256 * high) &&
    (if input[pos] % 16 < 15 then i.matchLength == 4 + input[pos] % 16 && i.next == at + 2
     else ChainAt(input, at + 2, l) && i.matchLength == 19 + 0xff * l + input[at + 2 + l] && i.next == at + l + 3)
  }

  /** The memory after an iteration that begins at `to`: the literals, and bytes as far back as the offset says. */
  predicate Writes(input: seq<Byte>, i: Iteration, to: nat, was: seq<Byte>, now: seq<Byte>) {
    var end := to + i.literals + i.matchLength;
    end <= |was| == |now| && i.literalsAt + i.literals <= |input| && i.offset <= to + i.literals &&
    (forall j :: 0 <= j < |was| && !(to <= j < end) ==> now[j] == was[j]) &&
    (forall j :: to <= j < to + i.literals ==> now[j] == input[i.literalsAt + (j - to)]) &&
    (i.offset > 0 ==> forall j :: to + i.literals <= j < end ==> now[j] == now[j - i.offset]) &&
    (i.offset == 0 ==> forall j :: to + i.literals <= j < end ==> now[j] == was[j])
  }

  lemma ReadsInside(input: seq<Byte>, pos: nat, i: Iteration, k: nat, l: nat)
    requires Reads(input, pos, i, k, l)
    ensures pos < |input| && i.literalsAt + i.literals + 2 <= |input|
  {
  }

  lemma LiteralsRead(input: seq<Byte>, base: nat, s: State, i: Iteration, k: nat, l: nat)
    requires Reads(input, s.ipos, i, k, l)
    ensures var at, to := i.literalsAt + i.literals, base + s.opos;
            LiteralStep(input, base, s) ==
            if to + i.literals > |s.mem| then Fault
            else Continue(State(at, s.opos + i.literals, Splice(s.mem, to, input[i.literalsAt..at])))
  {
    hide Splice, ReadChain, ChainAt;
    if input[s.ipos] >= 0xf0 {
      ChainRead(input, s.ipos + 1, k);
    }
  }

  lemma MatchRead(input: seq<Byte>, base: nat, pos: nat, s: State, i: Iteration, k: nat, l: nat)
    requires Reads(input, pos, i, k, l) && s.ipos == i.literalsAt + i.literals
    ensures MatchStep(input, base, input[pos] % 16, s) ==
            if i.offset > base + s.opos || base + s.opos + i.matchLength > |s.mem| then Fault
            else Continue(State(i.next, s.opos + i.matchLength,
                                CopyBack(s.mem, base + s.opos, i.offset, i.matchLength)))
  {
    hide Field, CopyBack, ReadChain, ChainAt;
    TwoBytes(input, s.ipos);
    if input[pos] % 16 == 15 {
      ChainRead(input, s.ipos + 2, l);
    }
  }

  /**
   An iteration of the loop: it runs out of range, or stops after the literals, or goes on behind the match,
   with as many bytes written as literals and match have.
   */
  lemma StepInNumbers(input: seq<Byte>, inputSize: nat, base: nat, outputSize: nat, s: State, i: Iteration, k: nat,
                      l: nat)
    requires Reads(input, s.ipos, i, k, l) && s.ipos < inputSize
    ensures var p := Step(input, inputSize, base, outputSize, s);
            var at, to := i.literalsAt + i.literals, base + s.opos;
            if to + i.literals > |s.mem| then p == Fault
            else if at >= inputSize || s.opos + i.literals >= outputSize then
              p.Halt? && p.state.ipos == at && p.state.opos == s.opos + i.literals
            else if i.offset > to + i.literals || to + i.literals + i.matchLength > |s.mem| then p == Fault
            else
              p.Continue? && p.state.ipos == i.next && p.state.opos == s.opos + i.literals + i.matchLength &&
              Writes(input, i, to, s.mem, p.state.mem)
  {
    hide Splice, CopyBack, Writes, LiteralStep, MatchStep, Reads;
    ReadsInside(input, s.ipos, i, k, l);
    LiteralsRead(input, base, s, i, k, l);
    var at, to := i.literalsAt + i.literals, base + s.opos;
    if to + i.literals <= |s.mem| {
      var mem := Splice(s.mem, to, input[i.literalsAt..at]);
      MatchRead(input, base, s.ipos, State(at, s.opos + i.literals, mem), i, k, l);
      if i.offset <= to + i.literals && to + i.literals + i.matchLength <= |s.mem| {
        MatchWritten(input, i, to, s.mem);
      }
    }
  }

  lemma MatchWritten(input: seq<Byte>, i: Iteration, to: nat, was: seq<Byte>)
    requires i.literalsAt + i.literals <= |input| && to + i.literals + i.matchLength <= |was|
    requires i.offset <= to + i.literals
    ensures var mem := Splice(was, to, input[i.literalsAt..i.literalsAt + i.literals]);
            Writes(input, i, to, was, CopyBack(mem, to + i.literals, i.offset, i.matchLength))
  {
    hide CopyBack;
    var mem := Splice(was, to, input[i.literalsAt..i.literalsAt + i.literals]);
    var from := to + i.literals;
    var now := CopyBack(mem, from, i.offset, i.matchLength);
    CopyBackFrame(mem, from, i.offset, i.matchLength);
    forall j | from <= j < from + i.matchLength
      ensures now[j] == if i.offset == 0 then was[j] else now[j - i.offset]
    {
      if i.offset == 0 {
        CopyNothing(mem, from, i.matchLength);
      } else {
        CopiedFromBefore(mem, from, i.offset, i.matchLength, j - from);
      }
    }
  }

  lemma {:induction false} CopyNothing(mem: seq<Byte>, to: nat, length: nat)
    requires to + length <= |mem|
    ensures CopyBack(mem, to, 0, length) == mem
    decreases length
  {
    if length > 0 {
      assert mem[to := mem[to]] == mem;
      CopyNothing(mem, to + 1, length - 1);
    }
  }

  lemma CopiedFromBefore(mem: seq<Byte>, to: nat, offset: nat, length: nat, j: nat)
    requires 1 <= offset <= to && to + length <= |mem| && j < length
    ensures CopyBack(mem, to, offset, length)[to + j] == CopyBack(mem, to, offset, length)[to + j - offset]
  {
    CopyBackIsPeriodic(mem, to, offset, length, j);
    if j < offset {
      CopyBackFrame(mem, to, offset, length);
      ModUnique(j, offset, 0, j);
    } else {
      CopyBackIsPeriodic(mem, to, offset, length, j - offset);
      ModUnique(j, offset, (j - offset) / offset + 1, (j - offset) % offset);
    }
  }

  /** Four bytes of input, one literal and the shortest match: five bytes of output. */
  lemma ShortestMatch(b: Byte, base: nat, mem: seq<Byte>)
    requires base + 5 <= |mem|
    ensures Run([0x10, b, 1, 0], 4, base, 5, State(0, 0, mem)) ==
            Halt(State(4, 5, Splice(mem, base, [b, b, b, b, b])))
  {
    hide CopyBack, Splice;
    var input: seq<Byte> := [0x10, b, 1, 0];
    var i := Iteration(1, 1, 4, 1, 4);
    StepInNumbers(input, 4, base, 5, State(0, 0, mem), i, 0, 0);
    var p := Step(input, 4, base, 5, State(0, 0, mem));
    assert p.Continue? && p.state.ipos == 4 && p.state.opos == 5;
    FiveAlike(b, base, mem, p.state.mem);
  }

  lemma FiveAlike(b: Byte, base: nat, was: seq<Byte>, now: seq<Byte>)
    requires base + 5 <= |was| && Writes([0x10, b, 1, 0], Iteration(1, 1, 4, 1, 4), base, was, now)
    ensures now == Splice(was, base, [b, b, b, b, b])
  {
    assert now[base] == b;
    assert now[base + 1] == b && now[base + 2] == b && now[base + 3] == b && now[base + 4] == b;
  }

  /* ---------- the encoder ---------- */

  /** What exceeds the four bits of a length. */
  function ChainBytes(n: nat): seq<Byte> {
    seq(n / 0xff, _ => 0xff) + [n % 0xff]
  }

  lemma {:induction false} ChainEncoded(n: nat)
    ensures EncodeChain(n) == ChainBytes(n)
  {
    if n >= 0xff {
      ChainEncoded(n - 0xff);
      assert n / 0xff == (n - 0xff) / 0xff + 1 && n % 0xff == (n - 0xff) % 0xff;
      assert ChainBytes(n) == [0xff] + ChainBytes(n - 0xff);
    }
  }

  /** The encoding of a sequence, byte for byte. */
  lemma SequenceBytes(s: Sequence)
    requires s.offset < 0x1_0000 && s.matchLength >= 4
    ensures Representable(s)
    ensures var n, m := |s.literals|, s.matchLength;
            EncodeSequence(s) ==
            [16 * (if n < 15 then n else 15) + (if m < 19 then m - 4 else 15)] +
            (if n < 15 then [] else ChainBytes(n - 15)) + s.literals + [s.offset % 256, s.offset / 256] +
            (if m < 19 then [] else ChainBytes(m - 19))
  {
    hide EncodeChain, ChainBytes;
    if |s.literals| >= 15 {
      ChainEncoded(|s.literals| - 15);
    }
    if s.matchLength >= 19 {
      ChainEncoded(s.matchLength - 19);
    }
    TwoByteOffset(s.offset);
  }

  lemma TwoByteOffset(n: nat)
    requires n < 0x1_0000
    ensures ToLE(n, 2) == [n % 256, n / 256]
  {
    assert ToLE(n / 256, 1) == [n / 256 % 256] + ToLE(n / 256 / 256, 0);
  }

  /** And of the literals that end a block. */
  lemma TailBytes(literals: seq<Byte>, low: nat)
    requires low < 16
    ensures var n := |literals|;
            EncodeTail(Tail(literals, low)) ==
            [16 * (if n < 15 then n else 15) + low] + (if n < 15 then [] else ChainBytes(n - 15)) + literals
  {
    hide EncodeChain, ChainBytes;
    if |literals| >= 15 {
      ChainEncoded(|literals| - 15);
    }
  }

  /* ---------- the data ---------- */

  /** How many bytes the sequences stand for. */
  function DataSize(ss: seq<Sequence>): nat {
    if ss == [] then 0 else |ss[0].literals| + ss[0].matchLength + DataSize(ss[1..])
  }

  /** A block's offsets are good if each reaches back at least one byte, and not before the first byte of the data. */
  lemma {:induction false} GroundedInNumbers(produced: nat, ss: seq<Sequence>)
    ensures Grounded(produced, ss) <==>
            forall k :: 0 <= k < |ss| ==>
              1 <= ss[k].offset <= produced + DataSize(ss[..k]) + |ss[k].literals|
    decreases |ss|
  {
    if ss != [] {
      var now := produced + |ss[0].literals| + ss[0].matchLength;
      GroundedInNumbers(now, ss[1..]);
      forall k | 1 <= k < |ss|
        ensures ss[k] == ss[1..][k - 1] && produced + DataSize(ss[..k]) == now + DataSize(ss[1..][..k - 1])
      {
        assert ss[..k][0] == ss[0] && ss[..k][1..] == ss[1..][..k - 1];
      }
      assert forall k :: 0 <= k < |ss[1..]| ==> ss[1..][k] == ss[k + 1];
      assert ss[..0] == [];
    }
  }

  /** The data of one sequence: what was there, its literals, and bytes as far back as the offset says. */
  lemma SequenceData(history: seq<Byte>, s: Sequence)
    requires 1 <= s.offset <= |history| + |s.literals|
    ensures Grounded(|history|, [s])
    ensures var data := ExpandSequences(history, [s]);
            var n := |history| + |s.literals|;
            |data| == n + s.matchLength && data[..n] == history + s.literals &&
            forall j :: n <= j < |data| ==> data[j] == data[j - s.offset]
  {
    assert [s][1..] == [];
    assert ExpandSequences(history, [s]) == Repeat(history + s.literals, s.offset, s.matchLength);
    RepeatInNumbers(history + s.literals, s.offset, s.matchLength);
  }

  /** From the n-th byte on, each is the one `offset` places before it. */
  predicate BackBy(data: seq<Byte>, n: nat, offset: nat)
    requires offset <= n
  {
    forall j :: n <= j < |data| ==> data[j] == data[j - offset]
  }

  lemma {:induction false} RepeatInNumbers(history: seq<Byte>, offset: nat, length: nat)
    requires 1 <= offset <= |history|
    ensures BackBy(Repeat(history, offset, length), |history|, offset)
    decreases length
  {
    if length > 0 {
      var n := |history|;
      var next := history + [history[n - offset]];
      var r := Repeat(next, offset, length - 1);
      RepeatInNumbers(next, offset, length - 1);
      assert BackBy(r, n + 1, offset);
      assert r[n] == next[n] == next[n - offset] == r[n - offset];
      assert BackBy(r, n, offset);
    }
  }

  /** Sequence after sequence, and then the last literals. */
  lemma {:induction false} SequencesData(history: seq<Byte>, ss: seq<Sequence>, s: Sequence)
    requires Grounded(|history|, ss + [s])
    ensures Grounded(|history|, ss) && Grounded(|ExpandSequences(history, ss)|, [s])
    ensures |ExpandSequences(history, ss)| == |history| + DataSize(ss)
    ensures ExpandSequences(history, ss + [s]) == ExpandSequences(ExpandSequences(history, ss), [s])
    decreases |ss|
  {
    if ss == [] {
      assert ss + [s] == [s];
    } else {
      assert (ss + [s])[0] == ss[0] && (ss + [s])[1..] == ss[1..] + [s];
      SequencesData(Repeat(history + ss[0].literals, ss[0].offset, ss[0].matchLength), ss[1..], s);
    }
  }
}
