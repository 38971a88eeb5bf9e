/**
 The text reader on the very lines that `cuobjdump` prints, spelled out: names of attributes, labels of
 values, digits, and the widths of the fields they are read into.
 */
module KernelTextLines {
  import opened Attempts
  import opened Bytes
  import opened LaunchArguments
  import opened KernelParams
  import opened Scanning
  import opened KernelText
  import opened KernelTextLaws

  /* ---------- characters and numbers ---------- */

  lemma WhiteSpace(c: char)
    ensures IsSpace(c) <==> c == ' ' || c == '\t' || c == '\n' || c == '\U{0B}' || c == '\U{0C}' || c == '\r'
  {
  }

  /** Leading white space, and only that, is skipped. */
  lemma {:induction false} SpaceSkipped(s: string)
    ensures var k := |s| - |SkipSpace(s)|;
            0 <= k && s[k..] == SkipSpace(s) && (forall i :: 0 <= i < k ==> IsSpace(s[i])) &&
            (k == |s| || !IsSpace(s[k]))
  {
    if s != "" && IsSpace(s[0]) {
      SpaceSkipped(s[1..]);
      var k := |s[1..]| - |SkipSpace(s[1..])|;
      assert forall i :: 1 <= i < k + 1 ==> s[i] == s[1..][i - 1];
    }
  }

  /** A number is printed in small digits, and read from small or capital ones. */
  lemma HexDigits(n: nat)
    ensures n < 10 ==> HexText(n) == [('0' as int + n) as char]
    ensures 10 <= n < 16 ==> HexText(n) == [('a' as int + n - 10) as char]
    ensures n >= 16 ==> HexText(n) == HexText(n / 16) + HexText(n % 16)
  {
  }

  lemma DigitValues(c: char)
    ensures DigitValue(c) ==
            if c in "0123456789" then c as int - 48
            else if c in "abcdef" then c as int - 87 else if c in "ABCDEF" then c as int - 55 else -1
  {
  }

  lemma HexTextAlone(n: nat)
    ensures Digits(HexText(n)) == HexText(n) && HexValue(HexText(n)) == n && HexText(n)[0] !in "+-xX" &&
            !IsSpace(HexText(n)[0]) && SkipSpace(HexText(n)) == HexText(n)
    ensures |HexText(n)| >= 2 ==> HexText(n)[1] !in "xX"
  {
    hide HexText, HexValue;
    HexRoundTrip(n);
    AllDigits(HexText(n), "");
    assert HexText(n) + "" == HexText(n);
    assert IsDigit(HexText(n)[0]);
    assert |HexText(n)| >= 2 ==> IsDigit(HexText(n)[1]);
  }

  /** Numbers of more than 64 bits give the largest one; a sign is taken, and so is a prefix. */
  lemma NumberScanned(n: nat)
    ensures ScanHex(HexText(n)) == Number(if n < 0x1_0000_0000_0000_0000 then n else 0xFFFF_FFFF_FFFF_FFFF, "")
    ensures 0 < n < 0x1_0000_0000_0000_0000 ==> ScanHex("-" + HexText(n)) == Number(0x1_0000_0000_0000_0000 - n, "")
    ensures n < 0x1_0000_0000_0000_0000 ==> ScanHex("+" + HexText(n)) == Number(n, "")
    ensures n < 0x1_0000_0000_0000_0000 ==> ScanHex("0x" + HexText(n)) == ScanHex("0X" + HexText(n)) == Number(n, "")
  {
    hide HexText, HexValue, Digits;
    HexTextAlone(n);
    var d := HexText(n);
    assert d[|d|..] == "";
    assert ("-" + d)[1..] == d && ("+" + d)[1..] == d && ("0x" + d)[2..] == d && ("0X" + d)[2..] == d;
  }

  /** A prefix or a sign alone is no number, and neither is text that begins otherwise. */
  lemma NothingScanned(c: char, rest: string)
    requires !IsSpace(c) && !IsDigit(c) && c !in "+-"
    ensures ScanHex("") == ScanHex("0x") == ScanHex("0X") == ScanHex("+") == ScanHex("-") == NoNumber
    ensures ScanHex([c] + rest) == NoNumber
  {
    assert "0x"[2..] == "" && "0X"[2..] == "" && "+"[1..] == "" && "-"[1..] == "";
  }

  /* ---------- lines ---------- */

  /**
   The key of a line is its first word, at most 31 characters of it; the value is what follows the next white
   space, at most 255 characters, without the last of them.
   */
  lemma LineInNumbers(line: string)
    ensures var s := SkipSpace(line);
            if s == "" then ScanLine(line) == Blank
            else
              ScanLine(line) != Blank && var key := ScanLine(line).key;
              key <= s && 1 <= |key| <= 31 && (forall c :: c in key ==> !IsSpace(c)) &&
              (|key| == 31 || key == s || IsSpace(s[|key|])) &&
              var rest := SkipSpace(s[|key|..]);
              if rest == "" then ScanLine(line) == KeyOnly(key)
              else ScanLine(line) == KeyValue(key, rest[..(if |rest| < 255 then |rest| else 255) - 1])
  {
    hide SkipSpace, Word;
    var s := SkipSpace(line);
    if s != "" {
      WordEnds(s, 31);
    }
  }

  lemma {:induction false} WordEnds(s: string, max: nat)
    ensures var w := Word(s, max); |w| == max || w == s || IsSpace(s[|w|])
  {
    if s != "" && max > 0 && !IsSpace(s[0]) {
      WordEnds(s[1..], max - 1);
    }
  }

  lemma AttributeScanned(name: string)
    requires 0 < |name| < 255 && !IsSpace(name[0])
    ensures ScanLine("Attribute: " + name + "\n") == KeyValue("Attribute:", name)
  {
    hide ScanLine;
    LineScanned("Attribute:", name);
    assert "Attribute: " + name + "\n" == "Attribute:" + " " + name + "\n";
  }

  lemma ValueScanned(value: string)
    requires 0 < |value| < 255 && !IsSpace(value[0])
    ensures ScanLine("Value: " + value + "\n") == KeyValue("Value:", value)
  {
    hide ScanLine;
    LineScanned("Value:", value);
    assert "Value: " + value + "\n" == "Value:" + " " + value + "\n";
  }

  /** Lines that change nothing: those with another key, those with a key alone; and what is blank. */
  lemma QuietLines(key: string, value: string)
    requires 0 < |key| <= 31 && (forall c :: c in key ==> !IsSpace(c))
    ensures 0 < |value| < 255 && !IsSpace(value[0]) && key !in {"Attribute:", "Value:"} ==>
              Quiet(key + " " + value + "\n")
    ensures Quiet(key + "\n") && IsBlank("\n") && IsBlank("")
  {
    if 0 < |value| < 255 && !IsSpace(value[0]) {
      LineScanned(key, value);
    }
    WordTaken(key, "\n", 31);
    assert (key + "\n")[0] == key[0] && (key + "\n")[|key|..] == "\n" && "\n"[1..] == "";
    assert SkipSpace("\n") == "" && SkipSpace(key + "\n") == key + "\n";
    hide Word;
  }

  /* ---------- values ---------- */

  /** No two blanks follow each other, and none is the last. */
  predicate SingleSpaced(s: string) {
    forall k :: 0 <= k < |s| && IsSpace(s[k]) ==> k + 1 < |s| && !IsSpace(s[k + 1])
  }

  lemma {:induction false} LabelPrints(words: string, f: Format, values: seq<nat>, rest: string)
    requires SingleSpaced(words) && Prints(f, values, rest)
    ensures Prints(Text(words) + f, values, words + rest)
  {
    if words == "" {
      assert Text(words) + f == f && words + rest == rest;
    } else {
      TextCons(words);
      assert (Text(words) + f)[1..] == Text(words[1..]) + f && (words + rest)[1..] == words[1..] + rest;
      assert SingleSpaced(words[1..]) by {
        assert forall k :: 0 <= k < |words[1..]| ==> words[1..][k] == words[k + 1];
      }
      LabelPrints(words[1..], f, values, rest);
      if IsSpace(words[0]) {
        assert SkipSpace(words + rest) == words[1..] + rest;
      }
    }
  }

  lemma NumberPrints(d: Directive, f: Format, n: nat, values: seq<nat>, rest: string)
    requires d.Hex? && d.width > 0 && (rest == "" || IsSpace(rest[0])) && Prints(f, values, rest)
    ensures Prints([d] + f, [n] + values, HexText(n) + rest)
  {
    hide HexText;
    assert ([d] + f)[1..] == f && ([n] + values)[1..] == values && (HexText(n) + rest)[|HexText(n)|..] == rest;
  }

  function ParameterText(index: nat, ordinal: nat, offset: nat, size: nat): string {
    "Index : 0x" + (HexText(index) + (" Ordinal : 0x" + (HexText(ordinal) + (" Offset : 0x" + (HexText(offset) +
    (" Size : 0x" + HexText(size)))))))
  }

  lemma LabelsSingleSpaced()
    ensures SingleSpaced("Index : 0x") && SingleSpaced(" Ordinal : 0x") && SingleSpaced(" Offset : 0x") &&
            SingleSpaced(" Size : 0x")
  {
    FirstLabels();
    hide SingleSpaced;
    LastLabels();
  }

  lemma FirstLabels()
    ensures SingleSpaced("Index : 0x") && SingleSpaced(" Ordinal : 0x")
  {
  }

  lemma LastLabels()
    ensures SingleSpaced(" Offset : 0x") && SingleSpaced(" Size : 0x")
  {
  }

  lemma PrefixesSingleSpaced()
    ensures SingleSpaced("0x") && SingleSpaced(" 0x")
  {
  }

  lemma LastPrints(size: nat)
    ensures Prints([Hex(U16, true), Space], [size], HexText(size)) && Prints([Hex(U64, true)], [size], HexText(size))
  {
    hide HexText;
    var d := HexText(size);
    assert d[|d|..] == "" && [size][1..] == [];
    assert Prints([Space], [], "");
  }

  lemma ParameterPrints(i: nat, o: nat, f: nat, s: nat)
    ensures Prints(ParameterFormat(), [i, o, f, s], ParameterText(i, o, f, s))
  {
    hide HexText, Text, Prints, SingleSpaced;
    LabelsSingleSpaced();
    LastPrints(s);
    var h, k := Hex(U16, true), Hex(U16, false);
    var t4 := " Size : 0x" + HexText(s);
    var t3 := " Offset : 0x" + (HexText(f) + t4);
    var t2 := " Ordinal : 0x" + (HexText(o) + t3);
    var f4: Format := Text(" Size : 0x") + [h, Space];
    var f3: Format := Text(" Offset : 0x") + ([h] + f4);
    var f2: Format := Text(" Ordinal : 0x") + ([h] + f3);
    LabelPrints(" Size : 0x", [h, Space], [s], HexText(s));
    NumberPrints(h, f4, f, [s], t4);
    LabelPrints(" Offset : 0x", [h] + f4, [f] + [s], HexText(f) + t4);
    assert [f] + [s] == [f, s];
    NumberPrints(h, f3, o, [f, s], t3);
    LabelPrints(" Ordinal : 0x", [h] + f3, [o] + [f, s], HexText(o) + t3);
    assert [o] + [f, s] == [o, f, s];
    NumberPrints(k, f2, i, [o, f, s], t2);
    LabelPrints("Index : 0x", [k] + f2, [i] + [o, f, s], HexText(i) + t2);
    assert [i] + [o, f, s] == [i, o, f, s];
  }

  lemma FourCut(i: nat, o: nat, f: nat, s: nat)
    ensures Kept(ParameterFormat(), [i, o, f, s]) == [o % 0x1_0000, f % 0x1_0000, s % 0x1_0000]
  {
    hide Text, Kept;
    var h, k := Hex(U16, true), Hex(U16, false);
    var f4 := Text(" Size : 0x") + [h, Space];
    var f3 := Text(" Offset : 0x") + ([h] + f4);
    var f2 := Text(" Ordinal : 0x") + ([h] + f3);
    assert [h, Space] == [h] + [Space];
    TextKeeps("Index : 0x", k, f2, [i, o, f, s]);
    TextKeeps(" Ordinal : 0x", h, f3, [o, f, s]);
    TextKeeps(" Offset : 0x", h, f4, [f, s]);
    TextKeeps(" Size : 0x", h, [Space], [s]);
    SpaceKeepsNothing();
    assert [i, o, f, s][1..] == [o, f, s] && [o, f, s][1..] == [f, s] && [f, s][1..] == [s] && [s][1..] == [];
  }

  lemma ParameterScanned(i: nat, o: nat, f: nat, s: nat)
    requires i < U64 && o < U64 && f < U64 && s < U64
    ensures Scan(ParameterFormat(), ParameterText(i, o, f, s)) == [o % 0x1_0000, f % 0x1_0000, s % 0x1_0000]
  {
    hide ParameterText, Scan, Prints, Kept, ParameterFormat;
    ParameterPrints(i, o, f, s);
    ScanPrinted(ParameterFormat(), [i, o, f, s], ParameterText(i, o, f, s));
    FourCut(i, o, f, s);
  }

  lemma ParameterTextJoined(i: nat, o: nat, f: nat, s: nat)
    ensures ParameterText(i, o, f, s) ==
            "Index : 0x" + HexText(i) + " Ordinal : 0x" + HexText(o) + " Offset : 0x" + HexText(f) + " Size : 0x" +
            HexText(s)
  {
    hide HexText;
  }

  /** The line of a parameter: its ordinal, offset and size are stored, cut to sixteen bits. */
  lemma ParameterValue(i: nat, o: nat, f: nat, s: nat, info: KernelInfo, added: Added)
    requires i < U64 && o < U64 && f < U64 && s < U64 && |info.offsets| == |info.sizes|
    ensures ReadValue(StateOf("EIATTR_KPARAM_INFO"),
                      "Index : 0x" + HexText(i) + " Ordinal : 0x" + HexText(o) + " Offset : 0x" + HexText(f) +
                      " Size : 0x" + HexText(s), info, added) ==
            Ok(Store(info, o % 0x1_0000, f % 0x1_0000, s % 0x1_0000, added))
  {
    hide HexText, Scan, ParameterFormat, ParameterText, Store;
    NamesDiffer();
    ParameterScanned(i, o, f, s);
    ParameterTextJoined(i, o, f, s);
  }

  /** The line with the size of the parameter area. */
  lemma SizeValue(n: nat, info: KernelInfo, added: Added)
    requires n < U64 && |info.offsets| == |info.sizes|
    ensures ReadValue(StateOf("EIATTR_CBANK_PARAM_SIZE"), "0x" + HexText(n), info, added) ==
            Ok(KernelInfo(n, info.offsets, info.sizes))
  {
    hide HexText, Text, Scan, Prints, Kept;
    NamesDiffer();
    PrefixesSingleSpaced();
    LastPrints(n);
    LabelPrints("0x", [Hex(U64, true)], [n], HexText(n));
    ScanPrinted(SizeFormat(), [n], "0x" + HexText(n));
    OneKept("0x", n);
  }

  /** The line with the parameter bank holds two numbers, and is not used. */
  lemma BankValue(a: nat, b: nat, info: KernelInfo, added: Added)
    requires a < U64 && b < U64 && |info.offsets| == |info.sizes|
    ensures ReadValue(StateOf("EIATTR_PARAM_CBANK"), "0x" + HexText(a) + " 0x" + HexText(b), info, added) == Ok(info)
  {
    hide HexText, Text, Scan, Prints, Kept, SingleSpaced;
    NamesDiffer();
    PrefixesSingleSpaced();
    LastPrints(b);
    var second: Format := Text(" 0x") + [Hex(U64, true)];
    LabelPrints(" 0x", [Hex(U64, true)], [b], HexText(b));
    NumberPrints(Hex(U32, false), second, a, [b], " 0x" + HexText(b));
    LabelPrints("0x", [Hex(U32, false)] + second, [a] + [b], HexText(a) + (" 0x" + HexText(b)));
    assert [a] + [b] == [a, b] && [a, b][1..] == [b] && [b][1..] == [];
    var text := "0x" + (HexText(a) + (" 0x" + HexText(b)));
    assert text == "0x" + HexText(a) + " 0x" + HexText(b);
    ScanPrinted(BankFormat(), [a, b], text);
    TextKeeps("0x", Hex(U32, false), second, [a, b]);
    OneKept(" 0x", b);
  }

  /** After any other attribute, and before the first, values are passed over. */
  lemma OtherValue(name: string, value: string, info: KernelInfo, added: Added)
    requires name !in {"EIATTR_KPARAM_INFO", "EIATTR_CBANK_PARAM_SIZE", "EIATTR_PARAM_CBANK"}
    requires |info.offsets| == |info.sizes|
    ensures StateOf(name) == ATTR_T_LAST && ReadValue(ATTR_T_LAST, value, info, added) == Ok(info)
  {
  }

  /** A value that begins otherwise is an error. */
  lemma OddValue(value: string, info: KernelInfo, added: Added)
    requires |info.offsets| == |info.sizes| && value != ""
    ensures value[0] != 'I' ==> ReadValue(StateOf("EIATTR_KPARAM_INFO"), value, info, added) == Failed
    ensures value[0] != '0' ==> ReadValue(StateOf("EIATTR_CBANK_PARAM_SIZE"), value, info, added) == Failed &&
                                ReadValue(StateOf("EIATTR_PARAM_CBANK"), value, info, added) == Failed
  {
    NamesDiffer();
    if value[0] != 'I' {
      OddText("Index : 0x", ParameterFormat(), value);
    }
    if value[0] != '0' {
      OddText("0x", SizeFormat(), value);
      OddText("0x", BankFormat(), value);
    }
    hide Text, Scan;
  }

  lemma OddText(words: string, f: Format, value: string)
    requires words != "" && !IsSpace(words[0]) && Text(words) <= f && value != "" && value[0] != words[0]
    ensures Scan(f, value) == []
  {
    assert f[0] == Literal(words[0]);
  }

  /* ---------- the lines of a parameter ---------- */

  lemma {:induction false} HexTextShort(n: nat)
    requires n < U64
    ensures |HexText(n)| <= 16
  {
    Pow256Values();
    HexTextLength(n, 8);
  }

  /** Two lines of the text, whatever comes before and after them. */
  lemma ParameterLines(i: nat, o: nat, f: nat, s: nat, rest: seq<string>, state: nat, blanks: nat, info: KernelInfo,
                       added: Added)
    requires i < U64 && o < U64 && f < U64 && s < U64 && |info.offsets| == |info.sizes|
    ensures var value := "Index : 0x" + HexText(i) + " Ordinal : 0x" + HexText(o) + " Offset : 0x" + HexText(f) +
                         " Size : 0x" + HexText(s);
            ReadFrom(["Attribute: " + "EIATTR_KPARAM_INFO" + "\n", "Value: " + value + "\n"] + rest, state, blanks,
                     info, added) ==
            ReadFrom(rest, StateOf("EIATTR_KPARAM_INFO"), 0,
                     Store(info, o % 0x1_0000, f % 0x1_0000, s % 0x1_0000, added), added)
  {
    hide HexText, ScanLine, ReadValue, StateOf, Store;
    var value := "Index : 0x" + HexText(i) + " Ordinal : 0x" + HexText(o) + " Offset : 0x" + HexText(f) +
                 " Size : 0x" + HexText(s);
    HexTextShort(i);
    HexTextShort(o);
    HexTextShort(f);
    HexTextShort(s);
    assert value[0] == 'I' && |"EIATTR_KPARAM_INFO"| == 18;
    AttributeScanned("EIATTR_KPARAM_INFO");
    ValueScanned(value);
    ParameterValue(i, o, f, s, info, added);
    TwoLinesRead("EIATTR_KPARAM_INFO", value, rest, state, blanks, info, added);
  }

  lemma TwoLinesRead(name: string, value: string, rest: seq<string>, state: nat, blanks: nat, info: KernelInfo,
                     added: Added)
    requires |info.offsets| == |info.sizes| && ReadValue(StateOf(name), value, info, added).Ok?
    requires ScanLine("Attribute: " + name + "\n") == KeyValue("Attribute:", name)
    requires ScanLine("Value: " + value + "\n") == KeyValue("Value:", value)
    ensures ReadFrom(["Attribute: " + name + "\n", "Value: " + value + "\n"] + rest, state, blanks, info, added) ==
            ReadFrom(rest, StateOf(name), 0, ReadValue(StateOf(name), value, info, added).value, added)
  {
    hide ScanLine, ReadValue, StateOf;
    var second := ["Value: " + value + "\n"] + rest;
    var all := ["Attribute: " + name + "\n", "Value: " + value + "\n"] + rest;
    assert all[0] == "Attribute: " + name + "\n" && all[1..] == second;
    assert second[0] == "Value: " + value + "\n" && second[1..] == rest;
  }
}
