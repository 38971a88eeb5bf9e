/**
 Bytes, little-endian fields, and reads and writes of a field inside a block of memory.

 Integers in the repository's file formats are unsigned and little-endian; `Field` and `Put` are
 the model of reading and assigning a member of a packed struct that lies over a buffer.
 */
module Bytes {

  type Byte = x: int | 0 <= x < 256

  /** 256 to the power k: the number of values of a k-byte unsigned integer. */
  function Pow256(k: nat): (p: nat)
    ensures p > 0
  {
    if k == 0 then 1 else 256 * Pow256(k - 1)
  }

  const U16: nat := 0x1_0000
  const U32: nat := 0x1_0000_0000
  const U64: nat := 0x1_0000_0000_0000_0000

  lemma Pow256Values()
    ensures Pow256(1) == 256 && Pow256(2) == U16 && Pow256(4) == U32 && Pow256(8) == U64
  {
    assert Pow256(4) == 256 * (256 * (256 * (256 * Pow256(0))));
    assert Pow256(8) == 256 * (256 * (256 * (256 * Pow256(4))));
  }

  function ToLE(n: nat, width: nat): (s: seq<Byte>)
    ensures |s| == width
  {
    if width == 0 then [] else [n % 256] + ToLE(n / 256, width - 1)
  }

  function FromLE(s: seq<Byte>): nat {
    if s == [] then 0 else s[0] + 256 * FromLE(s[1..])
  }

  /** Decoding undoes encoding, up to the wrap-around of the field's width. */
  lemma {:induction false} FromLEToLE(n: nat, width: nat)
    ensures FromLE(ToLE(n, width)) == n % Pow256(width)
  {
    if width > 0 {
      FromLEToLE(n / 256, width - 1);
      assert ToLE(n, width)[1..] == ToLE(n / 256, width - 1);
      ModSplit(n, Pow256(width - 1));
    }
  }

  lemma ModSplit(n: nat, p: nat)
    requires p > 0
    ensures n % (256 * p) == n % 256 + 256 * ((n / 256) % p)
  {
    var q := n / 256;
    assert n == 256 * (p * (q / p) + q % p) + n % 256;
    assert n == (256 * p) * (q / p) + (256 * (q % p) + n % 256);
    assert 256 * (q % p) + n % 256 < 256 * p;
    ModUnique(n, 256 * p, q / p, 256 * (q % p) + n % 256);
  }

  lemma ModUnique(n: nat, d: nat, q: nat, r: nat)
    requires d > 0 && n == d * q + r && r < d
    ensures n % d == r && n / d == q
  {
    var k, m := n / d, n % d;
    assert n == d * k + m;
    if k > q {
      MulMonotone(d, q + 1, k);
    } else if k < q {
      MulMonotone(d, k + 1, q);
    }
  }

  lemma MulMonotone(d: nat, a: nat, b: nat)
    requires a <= b
    ensures d * a <= d * b && d * (a + 1) == d * a + d
  {
  }

  /** A field that fits its width survives the round trip unchanged. */
  lemma FitsRoundTrip(n: nat, width: nat)
    requires n < Pow256(width)
    ensures FromLE(ToLE(n, width)) == n
  {
    FromLEToLE(n, width);
    ModUnique(n, Pow256(width), 0, n);
  }

  lemma {:induction false} ToLEFromLE(s: seq<Byte>)
    ensures FromLE(s) < Pow256(|s|) && ToLE(FromLE(s), |s|) == s
  {
    if s != [] {
      ToLEFromLE(s[1..]);
      ModUnique(FromLE(s), 256, FromLE(s[1..]), s[0]);
    }
  }

  function Zeros(n: nat): (s: seq<Byte>)
    ensures |s| == n && forall i :: 0 <= i < n ==> s[i] == 0
  {
    seq(n, _ => 0)
  }

  /** The unsigned integer of `width` bytes at `at`. */
  function Field(mem: seq<Byte>, at: nat, width: nat): nat
    requires at + width <= |mem|
  {
    FromLE(mem[at..at + width])
  }

  /** The memory after assigning `value` to the field of `width` bytes at `at`. */
  function Put(mem: seq<Byte>, at: nat, width: nat, value: nat): (r: seq<Byte>)
    requires at + width <= |mem|
    ensures |r| == |mem|
  {
    mem[..at] + ToLE(value, width) + mem[at + width..]
  }

  /** The memory after copying `data` to `at`. */
  function Splice(mem: seq<Byte>, at: nat, data: seq<Byte>): (r: seq<Byte>)
    requires at + |data| <= |mem|
    ensures |r| == |mem|
  {
    mem[..at] + data + mem[at + |data|..]
  }

  /** `data` lies in `mem` at position `at`. */
  predicate Holds(mem: seq<Byte>, at: nat, data: seq<Byte>) {
    at + |data| <= |mem| && mem[at..at + |data|] == data
  }

  lemma HoldsAppend(mem: seq<Byte>, at: nat, a: seq<Byte>, b: seq<Byte>)
    ensures Holds(mem, at, a + b) <==> Holds(mem, at, a) && Holds(mem, at + |a|, b)
  {
    if at + |a + b| <= |mem| {
      var whole := mem[at..at + |a + b|];
      assert whole[..|a|] == mem[at..at + |a|];
      assert whole[|a|..] == mem[at + |a|..at + |a| + |b|];
      assert whole == whole[..|a|] + whole[|a|..];
      assert (a + b)[..|a|] == a && (a + b)[|a|..] == b;
    }
  }

  lemma PutGetOther(mem: seq<Byte>, at: nat, width: nat, value: nat, at': nat, width': nat)
    requires at + width <= |mem| && at' + width' <= |mem|
    requires at' + width' <= at || at + width <= at'
    ensures Field(Put(mem, at, width, value), at', width') == Field(mem, at', width')
  {
    assert Put(mem, at, width, value)[at'..at' + width'] == mem[at'..at' + width'];
  }

  /** A field inside the middle part of some memory. */
  lemma PutMiddle(a: seq<Byte>, b: seq<Byte>, c: seq<Byte>, at: nat, width: nat, value: nat)
    requires at + width <= |b|
    ensures Field(a + b + c, |a| + at, width) == Field(b, at, width)
    ensures Put(a + b + c, |a| + at, width, value) == a + Put(b, at, width, value) + c
  {
    hide ToLE, FromLE;
    assert (a + b + c)[|a| + at..|a| + at + width] == b[at..at + width];
    assert (a + b + c)[..|a| + at] == a + b[..at];
    assert (a + b + c)[|a| + at + width..] == b[at + width..] + c;
  }

  lemma PutPut(mem: seq<Byte>, at: nat, width: nat, first: nat, second: nat)
    requires at + width <= |mem|
    ensures Put(Put(mem, at, width, first), at, width, second) == Put(mem, at, width, second)
  {
    var m := Put(mem, at, width, first);
    assert m[..at] == mem[..at] && m[at + width..] == mem[at + width..];
  }

  lemma SpliceEnd(a: seq<Byte>, tail: seq<Byte>, data: seq<Byte>)
    requires |data| <= |tail|
    ensures Splice(a + tail, |a|, data) == a + data + tail[|data|..]
  {
  }

  lemma PutGetSize(mem: seq<Byte>, at: nat, value: nat)
    requires at + 8 <= |mem| && value < U64
    ensures Field(Put(mem, at, 8, value), at, 8) == value
  {
    Pow256Values();
    assert Put(mem, at, 8, value)[at..at + 8] == ToLE(value, 8);
    FitsRoundTrip(value, 8);
  }

  /* ---------- the order of the bytes ---------- */

  lemma FirstByte(mem: seq<Byte>, at: nat, width: nat)
    requires width > 0 && at + width <= |mem|
    ensures Field(mem, at, width) == mem[at] + 256 * Field(mem, at + 1, width - 1)
  {
    assert mem[at..at + width][1..] == mem[at + 1..at + 1 + (width - 1)];
  }

  /** The least byte comes first. */
  lemma TwoBytes(mem: seq<Byte>, at: nat)
    requires at + 2 <= |mem|
    ensures var a: nat, b: nat := mem[at], mem[at + 1]; Field(mem, at, 2) == a + 0x100 * b
  {
    hide Field;
    FirstByte(mem, at, 2);
    FirstByte(mem, at + 1, 1);
    NoBytes(mem, at + 2);
  }

  lemma FourBytes(mem: seq<Byte>, at: nat)
    requires at + 4 <= |mem|
    ensures var a: nat, b: nat, c: nat, d: nat := mem[at], mem[at + 1], mem[at + 2], mem[at + 3];
            Field(mem, at, 4) == a + 0x100 * b + 0x1_0000 * c + 0x100_0000 * d
  {
    hide Field;
    FirstByte(mem, at, 4);
    FirstByte(mem, at + 1, 3);
    TwoBytes(mem, at + 2);
  }

  lemma EightBytes(mem: seq<Byte>, at: nat)
    requires at + 8 <= |mem|
    ensures Field(mem, at, 8) == Field(mem, at, 4) + 0x1_0000_0000 * Field(mem, at + 4, 4)
  {
    hide Field;
    FirstByte(mem, at, 8);
    FirstByte(mem, at + 1, 7);
    FirstByte(mem, at + 2, 6);
    FirstByte(mem, at + 3, 5);
    FourBytes(mem, at);
  }

  lemma NoBytes(mem: seq<Byte>, at: nat)
    requires at <= |mem|
    ensures Field(mem, at, 0) == 0
  {
  }
}
