/**
 `sscanf`, as far as the text reader of parameter tables uses it.

 A format is a list of directives: white space, a character that must match, and a hexadecimal
 conversion, whose value is stored in an integer of some width or dropped. Strings are C strings
 without their final NUL.
 */
module Scanning {
  import opened Bytes

  predicate IsSpace(c: char) {
    c == ' ' || 9 <= c as int <= 13
  }

  function SkipSpace(s: string): (r: string)
    ensures |r| <= |s| && (r != "" ==> !IsSpace(r[0]))
  {
    if s != "" && IsSpace(s[0]) then SkipSpace(s[1..]) else s
  }

  /** `%31s` and the like: the characters up to white space, at most `max` of them. */
  function Word(s: string, max: nat): (w: string)
    ensures w <= s && |w| <= max && forall c :: c in w ==> !IsSpace(c)
    ensures s != "" && !IsSpace(s[0]) && max > 0 ==> w != ""
  {
    if s == "" || max == 0 || IsSpace(s[0]) then "" else [s[0]] + Word(s[1..], max - 1)
  }

  /* ---------- hexadecimal numbers ---------- */

  function DigitValue(c: char): (v: int)
    ensures -1 <= v < 16
  {
    if '0' <= c <= '9' then c as int - '0' as int
    else if 'a' <= c <= 'f' then c as int - 'a' as int + 10
    else if 'A' <= c <= 'F' then c as int - 'A' as int + 10
    else -1
  }

  predicate IsDigit(c: char) {
    DigitValue(c) >= 0
  }

  function Digits(s: string): (d: string)
    ensures d <= s && forall c :: c in d ==> IsDigit(c)
  {
    if s == "" || !IsDigit(s[0]) then "" else [s[0]] + Digits(s[1..])
  }

  function HexValue(d: string): nat
    requires forall c :: c in d ==> IsDigit(c)
  {
    if d == "" then 0
    else
      assert IsDigit(d[|d| - 1]);
      16 * HexValue(d[..|d| - 1]) + DigitValue(d[|d| - 1])
  }

  /** A number as `%x` prints it. */
  function HexText(n: nat): (s: string)
    ensures s != "" && forall c :: c in s ==> IsDigit(c)
  {
    if n < 16 then ["0123456789abcdef"[n]] else HexText(n / 16) + ["0123456789abcdef"[n % 16]]
  }

  datatype Number = Number(value: nat, rest: string) | NoNumber

  predicate Signed(s: string) {
    s != "" && (s[0] == '+' || s[0] == '-')
  }

  predicate Prefixed(s: string) {
    |s| >= 2 && s[0] == '0' && (s[1] == 'x' || s[1] == 'X')
  }

  /** `%lx`: white space, a sign, a prefix, and digits; too large a number gives the largest one. */
  function ScanHex(text: string): (r: Number)
    ensures r.Number? ==> r.value < U64 && |r.rest| < |text|
  {
    var s := SkipSpace(text);
    var unsigned := if Signed(s) then s[1..] else s;
    var bare := if Prefixed(unsigned) then unsigned[2..] else unsigned;
    var d := Digits(bare);
    if d == "" then NoNumber
    else
      var v := HexValue(d);
      var value := if v >= U64 then U64 - 1 else if Signed(s) && s[0] == '-' && v > 0 then U64 - v else v;
      Number(value, bare[|d|..])
  }

  /* ---------- formats ---------- */

  /** The values of a conversion are stored modulo `width`. */
  datatype Directive = Space | Literal(c: char) | Hex(width: nat, stored: bool)

  type Format = f: seq<Directive> | forall d :: d in f ==> d.Hex? ==> d.width > 0

  /** The directives of format text without conversions. */
  function Text(s: string): (f: Format)
    ensures |f| == |s|
  {
    seq(|s|, i requires 0 <= i < |s| => if IsSpace(s[i]) then Space else Literal(s[i]))
  }

  lemma TextCons(s: string)
    requires s != ""
    ensures Text(s) == [if IsSpace(s[0]) then Space else Literal(s[0])] + Text(s[1..])
  {
  }

  /** The values `sscanf` stores, up to the first directive that fails. */
  function Scan(f: Format, text: string): seq<nat> {
    if f == [] then []
    else
      match f[0]
      case Space => Scan(f[1..], SkipSpace(text))
      case Literal(c) => if text != "" && text[0] == c then Scan(f[1..], text[1..]) else []
      case Hex(width, stored) =>
        match ScanHex(text)
        case NoNumber => []
        case Number(value, rest) => (if stored then [value % width] else []) + Scan(f[1..], rest)
  }

  /* ---------- printing by the same format ---------- */

  /**
   The text starts with the values printed by the format, with any white space where the format has
   some, and white space or the end of the text after a number.
   */
  predicate Prints(f: Format, values: seq<nat>, text: string) {
    if f == [] then values == []
    else
      match f[0]
      case Space => Prints(f[1..], values, SkipSpace(text))
      case Literal(c) => text != "" && text[0] == c && Prints(f[1..], values, text[1..])
      case Hex(_, _) =>
        values != [] && var d := HexText(values[0]);
        d <= text && (|d| == |text| || IsSpace(text[|d|])) && Prints(f[1..], values[1..], text[|d|..])
  }

  /** The stored ones of the values, cut to their widths. */
  function Kept(f: Format, values: seq<nat>): seq<nat> {
    if f == [] then []
    else if !f[0].Hex? then Kept(f[1..], values)
    else if values == [] then []
    else (if f[0].stored then [values[0] % f[0].width] else []) + Kept(f[1..], values[1..])
  }

  lemma {:induction false} HexRoundTrip(n: nat)
    ensures HexValue(HexText(n)) == n
  {
    if n >= 16 {
      HexRoundTrip(n / 16);
      var s := HexText(n);
      assert s[..|s| - 1] == HexText(n / 16);
    }
  }

  lemma {:induction false} AllDigits(d: string, rest: string)
    requires (forall c :: c in d ==> IsDigit(c)) && (rest == "" || !IsDigit(rest[0]))
    ensures Digits(d + rest) == d
  {
    if d == "" {
      assert d + rest == rest;
    } else {
      AllDigits(d[1..], rest);
      assert (d + rest)[1..] == d[1..] + rest;
    }
  }

  lemma PrintedNumberScanned(n: nat, text: string)
    requires n < U64 && HexText(n) <= text && (|HexText(n)| == |text| || IsSpace(text[|HexText(n)|]))
    ensures ScanHex(text) == Number(n, text[|HexText(n)|..])
  {
    hide HexText, HexValue;
    var d := HexText(n);
    HexRoundTrip(n);
    AllDigits(d, text[|d|..]);
    assert text == d + text[|d|..];
    assert IsDigit(text[0]);
    assert |d| >= 2 ==> IsDigit(d[1]);
  }

  /** Scanning what was printed by the same format gives the values back. */
  lemma {:induction false} ScanPrinted(f: Format, values: seq<nat>, text: string)
    requires Prints(f, values, text) && forall v :: v in values ==> v < U64
    ensures Scan(f, text) == Kept(f, values)
  {
    hide ScanHex, HexText;
    if f != [] {
      match f[0]
      case Space => ScanPrinted(f[1..], values, SkipSpace(text));
      case Literal(_) => ScanPrinted(f[1..], values, text[1..]);
      case Hex(_, _) =>
        assert values[0] in values;
        PrintedNumberScanned(values[0], text);
        assert forall v :: v in values[1..] ==> v in values;
        ScanPrinted(f[1..], values[1..], text[|HexText(values[0])|..]);
    }
  }

  lemma {:induction false} TextKeepsNothing(s: string, f: Format, values: seq<nat>)
    ensures Kept(Text(s) + f, values) == Kept(f, values)
  {
    if s == "" {
      assert Text(s) + f == f;
    } else {
      TextCons(s);
      hide Text;
      TextKeepsNothing(s[1..], f, values);
      assert (Text(s) + f)[1..] == Text(s[1..]) + f;
    }
  }

  /* ---------- one way to print ---------- */

  function Printed(f: Format, values: seq<nat>): string {
    if f == [] then ""
    else
      match f[0]
      case Space => " " + Printed(f[1..], values)
      case Literal(c) => [c] + Printed(f[1..], values)
      case Hex(_, _) => if values == [] then "" else HexText(values[0]) + Printed(f[1..], values[1..])
  }

  /** White space or the end follows every conversion, and there are as many as there are values. */
  predicate Printable(f: Format, n: nat) {
    if f == [] then n == 0
    else
      match f[0]
      case Space => Printable(f[1..], n)
      case Literal(c) => !IsSpace(c) && Printable(f[1..], n)
      case Hex(_, _) => n > 0 && (|f| == 1 || f[1].Space?) && Printable(f[1..], n - 1)
  }

  lemma {:induction false} PrintedPrints(f: Format, values: seq<nat>)
    requires Printable(f, |values|)
    ensures Prints(f, values, Printed(f, values)) && Prints(f, values, SkipSpace(Printed(f, values)))
  {
    hide HexText;
    var text := Printed(f, values);
    if f != [] {
      match f[0]
      case Space =>
        PrintedPrints(f[1..], values);
        assert text[1..] == Printed(f[1..], values);
      case Literal(_) =>
        PrintedPrints(f[1..], values);
        assert text[1..] == Printed(f[1..], values);
      case Hex(_, _) =>
        PrintedPrints(f[1..], values[1..]);
        assert text[|HexText(values[0])|..] == Printed(f[1..], values[1..]);
        assert IsDigit(text[0]);
    }
  }
}
