/** What each conversion of a format prints, with and without a width. */
module PrintLaws {
  import opened Machine
  import opened NumberText
  import opened NumberLaws
  import opened Printf

  const DECIMAL: string := "0123456789"

  /** A conversion: `zeros` leading zeros, the digits of a width, and a letter. */
  function Spec(zeros: nat, w: string, c: char): string {
    "%" + Repeat('0', zeros) + w + [c]
  }

  /** A width is a row of digits that does not begin with a zero; without any it is 0. */
  predicate IsWidth(w: string) {
    Over(w, DECIMAL) && (w != [] ==> w[0] != '0') && Value(w, DECIMAL) < 0x8000_0000
  }

  lemma DecimalDigit(c: char)
    ensures IsDigit(c) <==> c in DECIMAL
    ensures IsDigit(c) ==> PlaceOf(c, DECIMAL) == c as int - '0' as int
  {
    assert LOWER[..10] == DECIMAL;
    if c in DECIMAL {
      var k := PlaceOf(c, DECIMAL);
      AlphabetIs(10, 'a', k);
    }
    if IsDigit(c) {
      PlaceOfDigit(10, 'a', c as int - '0' as int);
    }
  }

  lemma OverParts(p: string, w: string)
    requires Over(p, DECIMAL) && Over(w, DECIMAL) && w != []
    ensures w[0] in DECIMAL && Over(w[1..], DECIMAL)
  {
  }

  lemma {:induction false} NumberIs(p: string, w: string, c: char)
    requires Over(p, DECIMAL) && Over(w, DECIMAL) && Over(p + w, DECIMAL) && !IsDigit(c)
    ensures SkipDigits(w + [c]) == [c] && Number(w + [c], Value(p, DECIMAL)) == Value(p + w, DECIMAL)
    decreases |w|
  {
    hide PlaceOf, IsDigit, Value, Over;
    if w == [] {
      assert w + [c] == [c] && p + w == p;
    } else {
      OverParts(p, w);
      DecimalDigit(w[0]);
      var q := p + [w[0]];
      ValueOfMore(p, w[0], DECIMAL);
      assert w + [c] == [w[0]] + (w[1..] + [c]);
      assert p + w == q + w[1..];
      NumberIs(q, w[1..], c);
    }
  }

  lemma {:induction false} ZerosSkipped(zeros: nat, f: string)
    requires f != [] ==> f[0] != '0'
    ensures SkipZeros(Repeat('0', zeros) + f) == f
  {
    if zeros == 0 {
      assert Repeat('0', 0) + f == f;
    } else {
      assert (Repeat('0', zeros) + f)[1..] == Repeat('0', zeros - 1) + f;
      ZerosSkipped(zeros - 1, f);
    }
  }

  /** How a conversion is scanned. */
  lemma SpecScans(zeros: nat, w: string, c: char)
    requires IsWidth(w) && !IsDigit(c)
    ensures var f := Spec(zeros, w, c);
            && |f| > 1 && f[0] == '%' && Letter(f[1..]) == [c] && WidthOf(f[1..]) == Value(w, DECIMAL)
            && PadOf(f[1..]) == if zeros > 0 then 2 else 0
    ensures c != '%' ==> Spec(zeros, w, c)[1] != '%'
  {
    hide Value;
    var f, g := Spec(zeros, w, c), w + [c];
    assert f[1..] == Repeat('0', zeros) + g;
    ZerosSkipped(zeros, g);
    NoValue(DECIMAL);
    assert [] + w == w;
    NumberIs([], w, c);
    if w != [] {
      DecimalDigit(w[0]);
    }
  }

  /** The one conversion of such a format. */
  lemma SpecPrints(zeros: nat, w: string, c: char, arg: Arg)
    requires IsWidth(w) && TakesArg(c) && ArgFits(c, arg)
    ensures WellFormed(Spec(zeros, w, c), [arg])
    ensures Format(Spec(zeros, w, c), [arg]) == Convert(c, arg, Value(w, DECIMAL), if zeros > 0 then 2 else 0)
  {
    hide Letter, WidthOf, PadOf, Convert, Value, ArgFits;
    SpecScans(zeros, w, c);
    var f := Spec(zeros, w, c);
    ConversionStep(f, [arg]);
    assert [c][1..] == [];
  }

  // ---- What the letters print ----

  /** "%d": a minus sign for a negative number and for no other, and its decimal numeral. */
  lemma PrintsDecimal(i: Int32)
    ensures WellFormed("%d", [IntArg(i)])
    ensures var t, v := Format("%d", [IntArg(i)]), i as int;
            if v == 0 then t == "0"
            else if v < 0 then t != [] && t[0] == '-' && Numeral(t[1..], "0123456789", -v)
            else Numeral(t, "0123456789", v)
  {
    hide Numeral, Plain;
    Natural('d', IntArg(i));
    PlainIs(i, 10, true, 'a');
    TenDigits('a');
    IntTextIs(i, 10, true, 0, 0, 'a');
  }

  /** "%x" and "%X": the hexadecimal numeral of the number modulo 2^32, in lower or upper case. */
  lemma PrintsHexadecimal(i: Int32, upper: bool)
    ensures WellFormed(if upper then "%X" else "%x", [IntArg(i)])
    ensures var t, v := Format(if upper then "%X" else "%x", [IntArg(i)]), i as int;
            if v == 0 then t == "0"
            else Numeral(t, if upper then "0123456789ABCDEF" else "0123456789abcdef",
                         if v < 0 then v + 0x1_0000_0000 else v)
  {
    hide Numeral, Plain;
    var letBase := if upper then 'A' else 'a';
    Natural(if upper then 'X' else 'x', IntArg(i));
    PlainIs(i, 16, false, letBase);
    SixteenDigits(letBase);
    IntTextIs(i, 16, false, 0, 0, letBase);
  }

  lemma SixteenDigits(letBase: char)
    requires Letters(letBase)
    ensures Alphabet(16, letBase) == if letBase == 'A' then "0123456789ABCDEF" else "0123456789abcdef"
  {
  }

  /** "%s": the string, or "(null)". */
  lemma PrintsString(s: Option<string>)
    requires s.Some? ==> CString(s.value)
    ensures WellFormed("%s", [StrArg(s)])
    ensures Format("%s", [StrArg(s)]) == if s.Some? then s.value else "(null)"
  {
    Natural('s', StrArg(s));
    FieldIs(if s.Some? then s.value else "(null)", 0, 0);
  }

  /** "%c": the character with the argument's lowest eight bits, NUL being no text at all. */
  lemma PrintsChar(i: Int32)
    ensures WellFormed("%c", [IntArg(i)])
    ensures var t := Format("%c", [IntArg(i)]);
            if i % 256 == 0 then t == "" else |t| == 1 && t[0] as int == i % 256
  {
    Natural('c', IntArg(i));
    FieldIs(CharText(i), 0, 0);
  }

  /** "%%" is a percent sign. */
  lemma PrintsPercent()
    ensures WellFormed("%%", []) && Format("%%", []) == "%"
  {
    assert "%%"[2..] == [];
  }

  /** A percent sign at the very end prints nothing. */
  lemma PrintsLoneSign()
    ensures WellFormed("%", []) && Format("%", []) == ""
  {
  }

  /** Any other letter prints nothing and takes no argument, whatever its flags and width. */
  lemma PrintsNothing(zeros: nat, w: string, c: char)
    requires IsWidth(w) && !IsDigit(c) && c !in {'d', 'x', 'X', 's', 'c', '%'}
    ensures WellFormed(Spec(zeros, w, c), []) && Format(Spec(zeros, w, c), []) == ""
  {
    hide Letter, WidthOf, PadOf, Value;
    SpecScans(zeros, w, c);
    ConversionStep(Spec(zeros, w, c), []);
    assert [c][1..] == [];
  }

  lemma Natural(c: char, arg: Arg)
    requires TakesArg(c) && ArgFits(c, arg)
    ensures WellFormed("%" + [c], [arg]) && Format("%" + [c], [arg]) == Convert(c, arg, 0, 0)
    ensures c == 'd' ==> "%" + [c] == "%d"
    ensures c == 'x' ==> "%" + [c] == "%x"
    ensures c == 'X' ==> "%" + [c] == "%X"
    ensures c == 's' ==> "%" + [c] == "%s"
    ensures c == 'c' ==> "%" + [c] == "%c"
  {
    hide Convert, ArgFits;
    NoValue(DECIMAL);
    assert Spec(0, "", c) == "%" + [c];
    SpecPrints(0, "", c, arg);
  }

  // ---- Widths ----

  /** With a width: what the letter prints without one, filled up on the left with spaces; with leading
      zeros filled up with zeros, which come after the sign of a number. */
  lemma PrintsPadded(zeros: nat, w: string, c: char, arg: Arg)
    requires IsWidth(w) && TakesArg(c) && ArgFits(c, arg)
    ensures WellFormed(Spec(zeros, w, c), [arg]) && WellFormed("%" + [c], [arg])
    ensures var t, plain, n := Format(Spec(zeros, w, c), [arg]), Format("%" + [c], [arg]), Value(w, DECIMAL);
            if n <= |plain| then t == plain
            else if zeros == 0 then t == Repeat(' ', n - |plain|) + plain
            else if c == 'd' && arg.i < 0 then plain != [] && t == "-" + Repeat('0', n - |plain|) + plain[1..]
            else t == Repeat('0', n - |plain|) + plain
  {
    hide Value, Format, WellFormed;
    Natural(c, arg);
    SpecPrints(zeros, w, c, arg);
    ConvertPads(c, arg, Value(w, DECIMAL), zeros > 0);
  }

  lemma ConvertPads(c: char, arg: Arg, n: nat, zero: bool)
    requires TakesArg(c) && ArgFits(c, arg)
    ensures var t, plain := Convert(c, arg, n, if zero then 2 else 0), Convert(c, arg, 0, 0);
            if n <= |plain| then t == plain
            else if !zero then t == Repeat(' ', n - |plain|) + plain
            else if c == 'd' && arg.i < 0 then plain != [] && t == "-" + Repeat('0', n - |plain|) + plain[1..]
            else t == Repeat('0', n - |plain|) + plain
  {
    hide IntText, Plain, Field;
    if c == 's' || c == 'c' {
      TextPads(if c == 'c' then CharText(arg.i) else if arg.s.Some? then arg.s.value else "(null)", n, zero);
    } else {
      NumberPads(arg.i, if c == 'd' then 10 else 16, c == 'd', if c == 'X' then 'A' else 'a', n, zero);
    }
  }

  lemma TextPads(s: string, n: nat, zero: bool)
    ensures Field(s, 0, 0) == s
    ensures Field(s, n, if zero then 2 else 0) ==
            if n <= |s| then s else Repeat(if zero then '0' else ' ', n - |s|) + s
  {
    hide Field;
    FieldIs(s, n, if zero then 2 else 0);
    FieldIs(s, 0, 0);
  }

  lemma NumberPads(i: Int32, b: nat, sg: bool, letBase: char, n: nat, zero: bool)
    requires Base(b) && Letters(letBase) && (sg <==> b == 10)
    ensures var t, plain := IntText(i, b, sg, n, if zero then 2 else 0, letBase), IntText(i, b, sg, 0, 0, letBase);
            if n <= |plain| then t == plain
            else if !zero then t == Repeat(' ', n - |plain|) + plain
            else if sg && i < 0 then plain != [] && t == "-" + Repeat('0', n - |plain|) + plain[1..]
            else t == Repeat('0', n - |plain|) + plain
  {
    hide IntText, Plain, Field, Numeral;
    IntTextIs(i, b, sg, 0, 0, letBase);
    IntTextIs(i, b, sg, n, if zero then 2 else 0, letBase);
    TextPads(Plain(i, b, sg, letBase), n, zero);
    TextPads(Plain(i, b, sg, letBase), 0, false);
    PlainIs(i, b, sg, letBase);
  }

  // ---- Reading back what was printed ----

  /** "%d", with any flag and width, is read back in base 10 as the number, or as its magnitude when
      negative; the minimum int stays itself. */
  lemma DecimalReadsBack(zeros: nat, w: string, i: Int32)
    requires IsWidth(w)
    ensures WellFormed(Spec(zeros, w, 'd'), [IntArg(i)])
    ensures var v := i as int;
            Parse(Format(Spec(zeros, w, 'd'), [IntArg(i)]), 10, 0) ==
            if v < 0 && v != -0x8000_0000 then -v else v
  {
    hide Parse, Format, WellFormed, Value, IntText;
    SpecPrints(zeros, w, 'd', IntArg(i));
    RoundTripIff(i, 10, true, Value(w, DECIMAL), if zeros > 0 then 2 else 0, 'a');
    ExpectedIs(i, 10, true);
  }

  /** "%x" and "%X" are read back in base 16 as the number. */
  lemma HexadecimalReadsBack(zeros: nat, w: string, upper: bool, i: Int32)
    requires IsWidth(w)
    ensures var f := Spec(zeros, w, if upper then 'X' else 'x');
            WellFormed(f, [IntArg(i)]) && Parse(Format(f, [IntArg(i)]), 16, 0) == i
  {
    hide Parse, Format, WellFormed, Value, IntText;
    SpecPrints(zeros, w, if upper then 'X' else 'x', IntArg(i));
    RoundTripIff(i, 16, false, Value(w, DECIMAL), if zeros > 0 then 2 else 0, if upper then 'A' else 'a');
    ExpectedIs(i, 16, false);
  }
}
