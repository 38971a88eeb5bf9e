/** The text reader and the reader of `.nv.info` bytes build the same table from the same entries. */
module KernelTextLaws {
  import opened Attempts
  import opened Bytes
  import opened LaunchArguments
  import opened KernelParams
  import opened KernelParamsLaws
  import opened Scanning
  import opened KernelText

  /* ---------- text that shows a list of entries ---------- */

  /** The lines of one entry: its name, its value, and lines after each that do not matter. */
  datatype Paragraph = Paragraph(name: string, between: seq<string>, value: string, after: seq<string>)

  /** A line the reader passes over. */
  predicate Quiet(line: string) {
    var s := ScanLine(line);
    s.KeyOnly? || (s.KeyValue? && s.key != "Attribute:" && s.key != "Value:")
  }

  predicate IsBlank(line: string) {
    ScanLine(line).Blank?
  }

  /** Lines that change nothing: quiet ones, and blank ones of which no two follow each other. */
  predicate AllQuiet(lines: seq<string>) {
    lines == [] ||
    ((if IsBlank(lines[0]) then |lines| == 1 || !IsBlank(lines[1]) else Quiet(lines[0])) && AllQuiet(lines[1..]))
  }

  /** A blank line at the end is followed by another line, which is not blank. */
  predicate GoesOnFrom(lines: seq<string>, rest: seq<string>) {
    lines != [] && IsBlank(lines[|lines| - 1]) ==> rest != [] && !IsBlank(rest[0])
  }

  function Lines(p: Paragraph): seq<string> {
    [p.name] + (p.between + ([p.value] + p.after))
  }

  function AllLines(ps: seq<Paragraph>): seq<string> {
    if ps == [] then [] else Lines(ps[0]) + AllLines(ps[1..])
  }

  /** The value as it is printed for an entry whose attribute has a given name. */
  predicate ShowsValue(a: Attribute, name: string, value: string) {
    match a
    case Parameter(index, ordinal, offset, size, _) =>
      name == NAMES[KPARAM] && Prints(ParameterFormat(), [index, ordinal, offset, size], value)
    case ParameterSize(size) => name == NAMES[PARAM_SIZE] && Prints(SizeFormat(), [size], value)
    case Other(_, _, _) =>
      name != NAMES[KPARAM] && name != NAMES[PARAM_SIZE] &&
      (name == NAMES[PARAM_CBANK] ==> |Scan(BankFormat(), value)| == 1)
  }

  predicate Shows(p: Paragraph, a: Attribute) {
    var n, v := ScanLine(p.name), ScanLine(p.value);
    n.KeyValue? && n.key == "Attribute:" && v.KeyValue? && v.key == "Value:" && ShowsValue(a, n.value, v.value) &&
    AllQuiet(p.between) && AllQuiet(p.after)
  }

  /** The last paragraph ends in no blank line: that would belong to the end of the text. */
  predicate ShowsAll(ps: seq<Paragraph>, l: seq<Attribute>) {
    |ps| == |l| && (forall i :: 0 <= i < |ps| ==> Shows(ps[i], l[i])) &&
    (ps != [] ==> GoesOnFrom(ps[|ps| - 1].after, []))
  }

  /** The end of the text for a kernel: the end of the file, or two blank lines and other text. */
  predicate Ends(tail: seq<string>) {
    tail == [] || (ScanLine(tail[0]).Blank? && (|tail| == 1 || ScanLine(tail[1]).Blank?))
  }

  /* ---------- what the scanned values are ---------- */

  lemma {:induction false} TextKeeps(s: string, d: Directive, f: Format, values: seq<nat>)
    requires values != [] && d.Hex? && d.width > 0
    ensures Kept(Text(s) + ([d] + f), values) == (if d.stored then [values[0] % d.width] else []) + Kept(f, values[1..])
  {
    hide Text;
    TextKeepsNothing(s, [d] + f, values);
    assert ([d] + f)[1..] == f;
  }

  lemma FourKept(first: string, second: string, third: string, fourth: string, i: nat, o: nat, f: nat, s: nat)
    requires o < U16 && f < U16 && s < U16
    ensures Kept(FourNumbers(first, second, third, fourth), [i, o, f, s]) == [o, f, s]
  {
    hide Text, Kept;
    var h, k := Hex(U16, true), Hex(U16, false);
    var f4 := Text(fourth) + [h, Space];
    var f3 := Text(third) + ([h] + f4);
    var f2 := Text(second) + ([h] + f3);
    assert [h, Space] == [h] + [Space];
    TextKeeps(first, k, f2, [i, o, f, s]);
    TextKeeps(second, h, f3, [o, f, s]);
    TextKeeps(third, h, f4, [f, s]);
    TextKeeps(fourth, h, [Space], [s]);
    SpaceKeepsNothing();
    assert [i, o, f, s][1..] == [o, f, s] && [o, f, s][1..] == [f, s] && [f, s][1..] == [s] && [s][1..] == [];
  }

  lemma SpaceKeepsNothing()
    ensures Kept([Space], []) == []
  {
  }

  lemma OneKept(first: string, n: nat)
    requires n < U64
    ensures Kept(OneNumber(first), [n]) == [n]
  {
    hide Text;
    TextKeepsNothing(first, [Hex(U64, true)], [n]);
  }

  /* ---------- the reader on such text ---------- */

  lemma ParameterRead(a: Attribute, value: string, info: KernelInfo, added: Added)
    requires ValidAttribute(a) && a.Parameter? && |info.offsets| == |info.sizes|
    requires ShowsValue(a, NAMES[KPARAM], value)
    ensures ReadValue(KPARAM, value, info, added) == Ok(Apply(a, info, added))
  {
    hide FourNumbers, Store, Prints, Scan, Kept;
    FourKept("Index : 0x", " Ordinal : 0x", " Offset : 0x", " Size : 0x", a.index, a.ordinal, a.offset, a.size);
    ScanPrinted(ParameterFormat(), [a.index, a.ordinal, a.offset, a.size], value);
  }

  lemma SizeRead(a: Attribute, value: string, info: KernelInfo, added: Added)
    requires ValidAttribute(a) && a.ParameterSize? && |info.offsets| == |info.sizes|
    requires ShowsValue(a, NAMES[PARAM_SIZE], value)
    ensures ReadValue(PARAM_SIZE, value, info, added) == Ok(Apply(a, info, added))
  {
    hide OneNumber, Prints, Scan, Kept, ParameterFormat, BankFormat;
    OneKept("0x", a.size);
    ScanPrinted(SizeFormat(), [a.size], value);
  }

  lemma NamesDiffer()
    ensures NAMES[0] != NAMES[1] && NAMES[1] != NAMES[2] && NAMES[0] != NAMES[2]
  {
    assert |NAMES[0]| == 18 && |NAMES[1]| == 23 && |NAMES[2]| == 18;
    assert NAMES[0][7] == 'K' && NAMES[2][7] == 'P';
  }

  lemma ValueRead(a: Attribute, name: string, value: string, info: KernelInfo, added: Added)
    requires ValidAttribute(a) && |info.offsets| == |info.sizes| && ShowsValue(a, name, value)
    ensures ReadValue(StateOf(name), value, info, added) == Ok(Apply(a, info, added))
  {
    hide Prints, Scan, ParameterFormat, SizeFormat, BankFormat, Store;
    NamesDiffer();
    match a
    case Parameter(_, _, _, _, _) => ParameterRead(a, value, info, added);
    case ParameterSize(_) => SizeRead(a, value, info, added);
    case Other(_, _, _) =>
  }

  /** One blank line before a line that is not blank is forgotten. */
  lemma BlankForgotten(lines: seq<string>, state: nat, info: KernelInfo, added: Added)
    requires lines != [] && !IsBlank(lines[0]) && |info.offsets| == |info.sizes|
    ensures ReadFrom(lines, state, 1, info, added) == ReadFrom(lines, state, 0, info, added)
  {
    hide ScanLine, ReadKey;
  }

  lemma {:induction false} QuietRead(quiet: seq<string>, rest: seq<string>, state: nat, info: KernelInfo, added: Added)
    requires AllQuiet(quiet) && GoesOnFrom(quiet, rest) && |info.offsets| == |info.sizes|
    ensures ReadFrom(quiet + rest, state, 0, info, added) == ReadFrom(rest, state, 0, info, added)
    decreases |quiet|
  {
    hide ScanLine, StateOf, ReadValue;
    var all := quiet + rest;
    if quiet == [] {
      assert all == rest;
    } else {
      assert all[0] == quiet[0] && all[1..] == quiet[1..] + rest;
      if IsBlank(quiet[0]) {
        BlankForgotten(all[1..], state, info, added);
      }
      QuietRead(quiet[1..], rest, state, info, added);
    }
  }

  lemma ParagraphRead(p: Paragraph, a: Attribute, rest: seq<string>, state: nat, info: KernelInfo, added: Added)
    requires ValidAttribute(a) && Shows(p, a) && GoesOnFrom(p.after, rest) && |info.offsets| == |info.sizes|
    ensures exists next: nat :: ReadFrom(Lines(p) + rest, state, 0, info, added) ==
              ReadFrom(rest, next, 0, Apply(a, info, added), added)
  {
    hide ScanLine, StateOf, ReadValue, ShowsValue, Apply;
    var n, v := ScanLine(p.name).value, ScanLine(p.value).value;
    var next := StateOf(n);
    var now := Apply(a, info, added);
    ValueRead(a, n, v, info, added);
    var valueOn := [p.value] + (p.after + rest);
    var all := Lines(p) + rest;
    assert all == [p.name] + (p.between + valueOn);
    assert all[0] == p.name && all[1..] == p.between + valueOn;
    QuietRead(p.between, valueOn, next, info, added);
    assert valueOn[0] == p.value && valueOn[1..] == p.after + rest;
    QuietRead(p.after, rest, next, now, added);
    assert ReadFrom(all, state, 0, info, added) == ReadFrom(rest, next, 0, now, added);
  }

  lemma EndRead(tail: seq<string>, state: nat, info: KernelInfo, added: Added)
    requires Ends(tail) && |info.offsets| == |info.sizes|
    ensures ReadFrom(tail, state, 0, info, added) == Ok((info, if |tail| < 2 then [] else tail[2..]))
  {
    hide ScanLine;
    if |tail| >= 2 {
      assert tail[1..][0] == tail[1] && tail[1..][1..] == tail[2..];
    } else if |tail| == 1 {
      assert tail[1..] == [];
    }
  }

  lemma NextParagraph(ps: seq<Paragraph>, l: seq<Attribute>, tail: seq<string>)
    requires ShowsAll(ps, l) && ps != []
    ensures ShowsAll(ps[1..], l[1..]) && GoesOnFrom(ps[0].after, AllLines(ps[1..]) + tail)
  {
    hide ScanLine, ShowsValue, AllQuiet;
    if |ps| > 1 {
      assert Shows(ps[1], l[1]);
      assert (AllLines(ps[1..]) + tail)[0] == ps[1].name;
    }
  }

  /** Text that shows a list of entries is read up to its end, and the entries are applied in order. */
  lemma {:induction false} TextRead(ps: seq<Paragraph>, l: seq<Attribute>, tail: seq<string>, state: nat,
                                    info: KernelInfo, added: Added)
    requires ValidList(l) && ShowsAll(ps, l) && Ends(tail) && |info.offsets| == |info.sizes|
    ensures ReadFrom(AllLines(ps) + tail, state, 0, info, added) ==
              Ok((ApplyAll(l, info, added), if |tail| < 2 then [] else tail[2..]))
    decreases |ps|
  {
    hide ReadFrom, Shows, ScanLine, Apply, ValidAttribute, Lines;
    if ps == [] {
      assert AllLines(ps) + tail == tail;
      EndRead(tail, state, info, added);
    } else {
      assert Shows(ps[0], l[0]);
      var rest := AllLines(ps[1..]) + tail;
      assert AllLines(ps) + tail == Lines(ps[0]) + rest;
      NextParagraph(ps, l, tail);
      ParagraphRead(ps[0], l[0], rest, state, info, added);
      var next: nat :| ReadFrom(Lines(ps[0]) + rest, state, 0, info, added) ==
        ReadFrom(rest, next, 0, Apply(l[0], info, added), added);
      TextRead(ps[1..], l[1..], tail, next, Apply(l[0], info, added), added);
    }
  }

  /* ---------- agreement ---------- */

  lemma SameUpToArea(l: seq<Attribute>, was: nat, a: Added, b: Added)
    requires Covered(l)
    ensures var info := ApplyAll(l, KernelInfo(was, [], []), a);
            info.offsets == Table(l, b).offsets && info.sizes == Table(l, b).sizes &&
            info.paramSize == AreaSize(l, was) && Table(l, b).paramSize == AreaSize(l, 0)
  {
    hide ApplyAll, Slot, Slots, AreaSize;
    CoveredTable(l, a, b);
    AppliedIsTable(l, was, a);
    AppliedIsTable(l, 0, a);
    assert ApplyAll(l, KernelInfo(was, [], []), a).offsets == Table(l, a).offsets;
    assert ApplyAll(l, KernelInfo(was, [], []), a).sizes == Table(l, a).sizes;
    AppliedIsTable(l, 0, b);
  }

  lemma {:induction false} AreaSizeSet(l: seq<Attribute>, was: nat)
    ensures AreaSize(l, was) == AreaSize(l, 0) <==> (was == 0 || exists a :: a in l && a.ParameterSize?)
  {
    hide AreaSize;
    var k := LastSize(l, was);
    var m := LastSize(l, 0);
    if k >= 0 {
      AreaSizeFixed(l, k, was);
    }
  }

  lemma {:induction false} AreaSizeFixed(l: seq<Attribute>, k: nat, was: nat)
    requires k < |l| && l[k].ParameterSize?
    ensures AreaSize(l, was) == AreaSize(l, 0)
  {
    if k < |l| - 1 {
      AreaSizeFixed(l[..|l| - 1], k, was);
    }
  }

  /**
   The two readers agree. On the bytes and on the text of the same entries, whatever the memory held
   that their arrays were allocated in, both succeed and build the same slots; and they agree on the
   size of the parameter area just when some entry gives it or the text reader's record held 0.
   */
  lemma ReadersAgree(l: seq<Attribute>, head: seq<string>, ps: seq<Paragraph>, tail: seq<string>, was: nat,
                     inBytes: Added, inText: Added)
    requires ValidList(l) && Covered(l) && ShowsAll(ps, l) && Ends(tail)
    requires AllQuiet(head) && GoesOnFrom(head, AllLines(ps))
    ensures var bytes := Parse(EncodeAll(l), Empty(), inBytes);
            var text := ReadFrom(head + (AllLines(ps) + tail), ATTR_T_LAST, 0, KernelInfo(was, [], []), inText);
            bytes.Ok? && text.Ok? && text.value.1 == (if |tail| < 2 then [] else tail[2..]) &&
            text.value.0.offsets == bytes.value.offsets && text.value.0.sizes == bytes.value.sizes &&
            (text.value.0 == bytes.value <==> (was == 0 || exists a :: a in l && a.ParameterSize?))
  {
    hide Parse, ReadFrom, ApplyAll, AreaSize, Covered, AllLines, EncodeAll;
    ListParsed(l, inBytes);
    assert AllLines(ps) != [] ==> (AllLines(ps) + tail)[0] == AllLines(ps)[0];
    QuietRead(head, AllLines(ps) + tail, ATTR_T_LAST, KernelInfo(was, [], []), inText);
    TextRead(ps, l, tail, ATTR_T_LAST, KernelInfo(was, [], []), inText);
    SameUpToArea(l, was, inText, inBytes);
    AreaSizeSet(l, was);
  }

  /* ---------- every list has such a text ---------- */

  lemma {:induction false} WordTaken(key: string, rest: string, max: nat)
    requires |key| <= max && (forall c :: c in key ==> !IsSpace(c)) && rest != "" && IsSpace(rest[0])
    ensures Word(key + rest, max) == key
  {
    if key == "" {
      assert key + rest == rest;
    } else {
      assert (key + rest)[1..] == key[1..] + rest;
      WordTaken(key[1..], rest, max - 1);
    }
  }

  /** A key, a space, a value and the end of the line are read as that key and value. */
  lemma LineScanned(key: string, value: string)
    requires 0 < |key| <= 31 && (forall c :: c in key ==> !IsSpace(c)) && 0 < |value| < 255 && !IsSpace(value[0])
    ensures ScanLine(key + " " + value + "\n") == KeyValue(key, value)
  {
    hide Word;
    var rest := " " + value + "\n";
    var line := key + rest;
    assert line == key + " " + value + "\n";
    assert line[0] == key[0] && IsSpace(rest[0]);
    WordTaken(key, rest, 31);
    assert SkipSpace(line) == line && line[|key|..] == rest;
    assert rest[1..] == value + "\n";
    assert SkipSpace(rest) == value + "\n";
    assert (value + "\n")[..|value|] == value;
  }

  lemma {:induction false} HexTextLength(n: nat, k: nat)
    requires k > 0 && n < Pow256(k)
    ensures |HexText(n)| <= 2 * k
  {
    if k > 1 && n >= 256 {
      assert n / 16 / 16 == n / 256;
      HexTextLength(n / 256, k - 1);
    }
  }

  lemma {:induction false} PrintedLength(f: Format, values: seq<nat>)
    requires forall v :: v in values ==> v < U64
    ensures |Printed(f, values)| <= |f| + 16 * |values|
  {
    hide HexText;
    if f != [] {
      if !f[0].Hex? {
        PrintedLength(f[1..], values);
      } else if values != [] {
        assert values[0] in values && forall v :: v in values[1..] ==> v in values;
        Pow256Values();
        HexTextLength(values[0], 8);
        PrintedLength(f[1..], values[1..]);
      }
    }
  }

  lemma CharacterPrintable(d: Directive, f: Format, n: nat)
    requires !d.Hex? && (d.Literal? ==> !IsSpace(d.c)) && Printable(f, n)
    ensures Printable([d] + f, n)
  {
    assert ([d] + f)[1..] == f;
  }

  lemma {:induction false} TextPrintable(s: string, f: Format, n: nat)
    requires Printable(f, n)
    ensures Printable(Text(s) + f, n)
  {
    hide Printable;
    if s == "" {
      assert Text(s) + f == f;
    } else {
      TextCons(s);
      var d := if IsSpace(s[0]) then Space else Literal(s[0]);
      TextPrintable(s[1..], f, n);
      CharacterPrintable(d, Text(s[1..]) + f, n);
      assert Text(s) + f == [d] + (Text(s[1..]) + f);
    }
  }

  lemma NumberPrintable(d: Directive, f: Format, n: nat)
    requires d.Hex? && d.width > 0 && Printable(f, n) && (f == [] || f[0].Space?)
    ensures Printable([d] + f, n + 1)
  {
    assert ([d] + f)[1..] == f;
  }

  lemma FourPrintable(first: string, second: string, third: string, fourth: string)
    requires second != "" && third != "" && fourth != "" && second[0] == third[0] == fourth[0] == ' '
    ensures Printable(FourNumbers(first, second, third, fourth), 4)
  {
    var h, k := Hex(U16, true), Hex(U16, false);
    assert Text(second)[0].Space? && Text(third)[0].Space? && Text(fourth)[0].Space?;
    hide Text;
    var f4 := Text(fourth) + [h, Space];
    var f3 := Text(third) + ([h] + f4);
    var f2 := Text(second) + ([h] + f3);
    assert Printable([Space], 0);
    assert [h, Space] == [h] + [Space];
    hide Printable;
    NumberPrintable(h, [Space], 0);
    TextPrintable(fourth, [h, Space], 1);
    NumberPrintable(h, f4, 1);
    TextPrintable(third, [h] + f4, 2);
    NumberPrintable(h, f3, 2);
    TextPrintable(second, [h] + f3, 3);
    NumberPrintable(k, f2, 3);
    TextPrintable(first, [k] + f2, 4);
  }

  lemma PrintedHead(s: string, f: Format, values: seq<nat>)
    requires s != "" && !IsSpace(s[0])
    ensures var p := Printed(Text(s) + f, values); p != "" && p[0] == s[0]
  {
    assert (Text(s) + f)[0] == Literal(s[0]);
  }

  function LineOf(key: string, value: string): string {
    key + " " + value + "\n"
  }

  /** One way to write an entry; the name stands for any the reader does not know. */
  function Rendered(a: Attribute): Paragraph {
    match a
    case Parameter(index, ordinal, offset, size, _) =>
      Paragraph(LineOf("Attribute:", NAMES[KPARAM]), [],
                LineOf("Value:", Printed(ParameterFormat(), [index, ordinal, offset, size])), [])
    case ParameterSize(size) =>
      Paragraph(LineOf("Attribute:", NAMES[PARAM_SIZE]), [], LineOf("Value:", Printed(SizeFormat(), [size])), [])
    case Other(_, _, _) => Paragraph(LineOf("Attribute:", "EIATTR_EXTERNS"), [], LineOf("Value:", "0"), [])
  }

  lemma AttributeLine(name: string)
    requires 0 < |name| < 255 && !IsSpace(name[0])
    ensures ScanLine(LineOf("Attribute:", name)) == KeyValue("Attribute:", name)
  {
    hide ScanLine;
    LineScanned("Attribute:", name);
  }

  lemma ValueLine(value: string)
    requires 0 < |value| < 255 && !IsSpace(value[0])
    ensures ScanLine(LineOf("Value:", value)) == KeyValue("Value:", value)
  {
    hide ScanLine;
    LineScanned("Value:", value);
  }

  lemma ParameterText(values: seq<nat>)
    requires |values| == 4 && forall v :: v in values ==> v < U64
    ensures var p := Printed(ParameterFormat(), values);
            0 < |p| < 255 && !IsSpace(p[0]) && Prints(ParameterFormat(), values, p)
  {
    hide Text, Printed, Prints, Printable;
    FourPrintable("Index : 0x", " Ordinal : 0x", " Offset : 0x", " Size : 0x");
    PrintedPrints(ParameterFormat(), values);
    PrintedLength(ParameterFormat(), values);
    var rest: Format := [Hex(U16, false)] + (Text(" Ordinal : 0x") + ([Hex(U16, true)] +
      (Text(" Offset : 0x") + ([Hex(U16, true)] + (Text(" Size : 0x") + [Hex(U16, true), Space])))));
    PrintedHead("Index : 0x", rest, values);
  }

  lemma SizeText(size: nat)
    requires size < U64
    ensures var p := Printed(SizeFormat(), [size]);
            0 < |p| < 255 && !IsSpace(p[0]) && Prints(SizeFormat(), [size], p)
  {
    hide Text, Printed, Prints, Printable;
    NumberOnly();
    TextPrintable("0x", [Hex(U64, true)], 1);
    PrintedPrints(SizeFormat(), [size]);
    PrintedLength(SizeFormat(), [size]);
    PrintedHead("0x", [Hex(U64, true)], [size]);
  }

  lemma NumberOnly()
    ensures Printable([Hex(U64, true)], 1)
  {
  }

  lemma RenderedShows(a: Attribute)
    requires ValidAttribute(a)
    ensures Shows(Rendered(a), a) && Rendered(a).after == []
  {
    hide ScanLine, LineOf, Printed, Prints, Scan, ParameterFormat, SizeFormat, BankFormat;
    NamesDiffer();
    match a
    case Parameter(index, ordinal, offset, size, _) =>
      ParameterText([index, ordinal, offset, size]);
      AttributeLine(NAMES[KPARAM]);
      ValueLine(Printed(ParameterFormat(), [index, ordinal, offset, size]));
    case ParameterSize(size) =>
      SizeText(size);
      AttributeLine(NAMES[PARAM_SIZE]);
      ValueLine(Printed(SizeFormat(), [size]));
    case Other(_, _, _) =>
      assert |"EIATTR_EXTERNS"| == 14;
      AttributeLine("EIATTR_EXTERNS");
      ValueLine("0");
  }

  /** The texts the agreement is about exist for every list of entries. */
  lemma EveryListHasText(l: seq<Attribute>)
    requires ValidList(l)
    ensures exists ps :: ShowsAll(ps, l)
  {
    hide Shows, Rendered, ValidAttribute;
    var ps := seq(|l|, i requires 0 <= i < |l| => Rendered(l[i]));
    forall i | 0 <= i < |ps|
      ensures Shows(ps[i], l[i]) && ps[i].after == []
    {
      assert l[i] in l;
      RenderedShows(l[i]);
    }
    assert ShowsAll(ps, l);
  }
}
