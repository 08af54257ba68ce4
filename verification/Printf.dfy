/** The formatter: `prints`, `printi` and `print`, writing character by character. */
module Printf {
  import opened Machine
  import opened NumberText

  /** An argument of the variable list: an `int`, or a `char *` that may be NULL. */
  datatype Arg = IntArg(i: Int32) | StrArg(s: Option<string>)

  predicate CString(s: string) {
    '\0' !in s
  }

  // ---- Formats ----

  /** What follows the leading zeros. */
  function SkipZeros(f: string): (g: string)
    ensures |g| <= |f|
  {
    if f != [] && f[0] == '0' then SkipZeros(f[1..]) else f
  }

  predicate IsDigit(c: char) {
    '0' <= c <= '9'
  }

  function SkipDigits(f: string): (g: string)
    ensures |g| <= |f|
  {
    if f != [] && IsDigit(f[0]) then SkipDigits(f[1..]) else f
  }

  /** The value of the leading digits, after `acc`. */
  function Number(f: string, acc: nat): nat {
    if f != [] && IsDigit(f[0]) then Number(f[1..], acc * 10 + (f[0] as int - '0' as int)) else acc
  }

  /** A conversion, from what follows the percent sign: flags, width, letter and the rest. */
  function PadOf(f: string): nat {
    if f != [] && f[0] == '0' then 2 else 0
  }

  function WidthOf(f: string): nat {
    Number(SkipZeros(f), 0)
  }

  /** The conversion letter and what follows it. */
  function Letter(f: string): (l: string)
    ensures |l| <= |f|
  {
    SkipDigits(SkipZeros(f))
  }

  predicate TakesInt(c: char) {
    c in {'d', 'x', 'X', 'c'}
  }

  predicate TakesArg(c: char) {
    TakesInt(c) || c == 's'
  }

  predicate ArgFits(c: char, arg: Arg) {
    if c == 's' then arg.StrArg? && (arg.s.Some? ==> CString(arg.s.value)) else arg.IntArg?
  }

  /** Every conversion is complete, its width is an `int`, and its argument is there. */
  predicate WellFormed(f: string, args: seq<Arg>)
    decreases |f|
  {
    if f == [] then true
    else if f[0] != '%' then WellFormed(f[1..], args)
    else if |f| == 1 then true
    else if f[1] == '%' then WellFormed(f[2..], args)
    else
      var l := Letter(f[1..]);
      && l != [] && WidthOf(f[1..]) < 0x8000_0000
      && if TakesArg(l[0]) then args != [] && ArgFits(l[0], args[0]) && WellFormed(l[1..], args[1..])
         else WellFormed(l[1..], args)
  }

  /** The text of one conversion. */
  function Convert(c: char, arg: Arg, width: nat, pad: nat): string
    requires TakesArg(c) && ArgFits(c, arg)
  {
    if c == 's' then Field(if arg.s.Some? then arg.s.value else "(null)", width, pad)
    else if c == 'd' then IntText(arg.i, 10, true, width, pad, 'a')
    else if c == 'x' then IntText(arg.i, 16, false, width, pad, 'a')
    else if c == 'X' then IntText(arg.i, 16, false, width, pad, 'A')
    else Field(CharText(arg.i), width, pad)
  }

  /** A `char` argument as a string of its own; NUL makes it empty. */
  function CharText(i: Int32): string {
    if i % 256 == 0 then [] else [(i % 256) as char]
  }

  /** Everything that a format and its arguments produce. */
  function Format(f: string, args: seq<Arg>): string
    requires WellFormed(f, args)
    decreases |f|
  {
    if f == [] then []
    else if f[0] != '%' then [f[0]] + Format(f[1..], args)
    else if |f| == 1 then []
    else if f[1] == '%' then "%" + Format(f[2..], args)
    else
      var l := Letter(f[1..]);
      if TakesArg(l[0])
      then Convert(l[0], args[0], WidthOf(f[1..]), PadOf(f[1..])) + Format(l[1..], args[1..])
      else Format(l[1..], args)
  }

  /** The width of a converted field: what was asked for, or the natural length if that is more. */
  lemma ConvertWidth(c: char, arg: Arg, width: nat, pad: nat)
    requires TakesArg(c) && ArgFits(c, arg)
    ensures |Convert(c, arg, width, pad)| == Max(width, |Convert(c, arg, 0, 0)|)
  {
    if TakesInt(c) && c != 'c' {
      var b, sg, letBase := if c == 'd' then 10 else 16, c == 'd', if c == 'X' then 'A' else 'a';
      IntTextWidth(arg.i, b, sg, width, pad, letBase);
      IntTextWidth(arg.i, b, sg, 0, 0, letBase);
    }
  }

  /** Text without a percent sign is printed as it is. */
  lemma {:induction false} PlainText(f: string, args: seq<Arg>)
    requires '%' !in f
    ensures WellFormed(f, args) && Format(f, args) == f
    decreases |f|
  {
    if f != [] {
      assert f[0] in f && forall c :: c in f[1..] ==> c in f;
      PlainText(f[1..], args);
      assert f == [f[0]] + f[1..];
    }
  }

  // ---- Formats compose ----

  /** No single percent sign at the end. */
  predicate Complete(f: string)
    decreases |f|
  {
    if f == [] then true
    else if f[0] != '%' then Complete(f[1..])
    else if |f| == 1 then false
    else if f[1] == '%' then Complete(f[2..])
    else Letter(f[1..]) != [] ==> Complete(Letter(f[1..])[1..])
  }

  /** How many arguments a format uses. */
  function Uses(f: string): nat
    decreases |f|
  {
    if f == [] then 0
    else if f[0] != '%' then Uses(f[1..])
    else if |f| == 1 then 0
    else if f[1] == '%' then Uses(f[2..])
    else
      var l := Letter(f[1..]);
      if l == [] then 0 else (if TakesArg(l[0]) then 1 else 0) + Uses(l[1..])
  }

  lemma {:induction false} SkipZerosAppend(f: string, g: string)
    requires SkipZeros(f) != []
    ensures SkipZeros(f + g) == SkipZeros(f) + g
    decreases |f|
  {
    if f[0] == '0' {
      assert (f + g)[1..] == f[1..] + g;
      SkipZerosAppend(f[1..], g);
    }
  }

  lemma {:induction false} SkipDigitsAppend(f: string, g: string, acc: nat)
    requires SkipDigits(f) != []
    ensures SkipDigits(f + g) == SkipDigits(f) + g && Number(f + g, acc) == Number(f, acc)
    decreases |f|
  {
    if IsDigit(f[0]) {
      assert (f + g)[1..] == f[1..] + g;
      SkipDigitsAppend(f[1..], g, acc * 10 + (f[0] as int - '0' as int));
    }
  }

  lemma LetterAppend(f: string, g: string)
    requires Letter(f) != []
    ensures Letter(f + g) == Letter(f) + g && WidthOf(f + g) == WidthOf(f) && PadOf(f + g) == PadOf(f)
  {
    SkipZerosAppend(f, g);
    SkipDigitsAppend(SkipZeros(f), g, 0);
  }

  /** Formats one after the other print their texts one after the other: a conversion ends where it
      ends, whatever follows it. */
  lemma {:induction false} FormatAppend(f: string, a: seq<Arg>, g: string, b: seq<Arg>)
    requires WellFormed(f, a) && Complete(f) && |a| == Uses(f) && WellFormed(g, b)
    ensures WellFormed(f + g, a + b) && Format(f + g, a + b) == Format(f, a) + Format(g, b)
    decreases |f|
  {
    hide Convert, Letter, WidthOf, PadOf;
    if f == [] {
      assert f + g == g && a + b == b;
    } else if f[0] != '%' {
      assert (f + g)[1..] == f[1..] + g;
      FormatAppend(f[1..], a, g, b);
    } else if f[1] == '%' {
      assert (f + g)[2..] == f[2..] + g;
      FormatAppend(f[2..], a, g, b);
    } else {
      var l := Letter(f[1..]);
      if TakesArg(l[0]) {
        FormatAppend(l[1..], a[1..], g, b);
      } else {
        FormatAppend(l[1..], a, g, b);
      }
      ConversionAppend(f, a, g, b);
    }
  }

  predicate IsConversion(f: string) {
    |f| > 1 && f[0] == '%' && f[1] != '%'
  }

  /** The arguments left after a conversion with the given letter. */
  function RestArgs(c: char, args: seq<Arg>): seq<Arg> {
    if TakesArg(c) && args != [] then args[1..] else args
  }

  lemma ConversionStep(f: string, args: seq<Arg>)
    requires IsConversion(f)
    ensures var l := Letter(f[1..]);
            && (WellFormed(f, args) <==>
                  && l != [] && WidthOf(f[1..]) < 0x8000_0000
                  && (TakesArg(l[0]) ==> args != [] && ArgFits(l[0], args[0]))
                  && WellFormed(l[1..], RestArgs(l[0], args)))
            && (WellFormed(f, args) ==>
                  Format(f, args) ==
                  (if TakesArg(l[0]) then Convert(l[0], args[0], WidthOf(f[1..]), PadOf(f[1..])) else [])
                  + Format(l[1..], RestArgs(l[0], args)))
  {
  }

  lemma ConversionAppend(f: string, a: seq<Arg>, g: string, b: seq<Arg>)
    requires IsConversion(f) && WellFormed(f, a) && WellFormed(g, b) && Letter(f[1..]) != []
    requires var l := Letter(f[1..]); var rest := RestArgs(l[0], a);
             && (TakesArg(l[0]) ==> a != [])
             && WellFormed(l[1..], rest) && WellFormed(l[1..] + g, rest + b)
             && Format(l[1..] + g, rest + b) == Format(l[1..], rest) + Format(g, b)
    ensures WellFormed(f + g, a + b) && Format(f + g, a + b) == Format(f, a) + Format(g, b)
  {
    hide Convert, Letter, WidthOf, PadOf, Format, WellFormed, ArgFits, TakesArg;
    var l := Letter(f[1..]);
    assert (f + g)[1..] == f[1..] + g && IsConversion(f + g);
    LetterAppend(f[1..], g);
    assert (l + g)[1..] == l[1..] + g && (l + g)[0] == l[0];
    assert RestArgs(l[0], a + b) == RestArgs(l[0], a) + b;
    ConversionStep(f, a);
    ConversionStep(f + g, a + b);
  }

  // ---- Writing ----

  /** Where the characters go: the UART, or a buffer that is terminated at the end. */
  class Sink {
    const isBuffer: bool
    var text: string
    var terminated: bool

    constructor (isBuffer: bool)
      ensures text == [] && !terminated && this.isBuffer == isBuffer
    {
      this.isBuffer, text, terminated := isBuffer, [], false;
    }

    /** `printchar`. */
    method PrintChar(c: char)
      modifies this`text
      ensures text == old(text) + [c]
    {
      text := text + [c];
    }

    /** The padding loops of `prints`. */
    method PrintPad(c: char, width: int) returns (pc: nat)
      modifies this`text
      ensures text == old(text) + Repeat(c, pc) && pc == if width > 0 then width else 0
    {
      pc := 0;
      var left := width;
      while left > 0
        invariant text == old(text) + Repeat(c, pc)
        invariant if width > 0 then 0 <= left && pc + left == width else pc == 0 && left == width
        decreases left
      {
        PrintChar(c);
        RepeatMore(c, pc);
        pc := pc + 1;
        left := left - 1;
      }
    }

    /** The loop of `prints` over the string. */
    method PrintAll(s: string) returns (pc: nat)
      requires CString(s)
      modifies this`text
      ensures text == old(text) + s && pc == |s|
    {
      pc := 0;
      while pc < |s|
        invariant pc <= |s| && text == old(text) + s[..pc]
      {
        PrintChar(s[pc]);
        assert s[..pc + 1] == s[..pc] + [s[pc]];
        pc := pc + 1;
      }
      assert s[..pc] == s;
    }

    /** `prints`. */
    method Prints(s: string, width: int, pad: nat) returns (pc: nat)
      requires CString(s)
      modifies this`text
      ensures text == old(text) + Field(s, width, pad) && pc == |Field(s, width, pad)|
    {
      hide PadChar, Missing, PadZero;
      var padChar, left := PlanField(s, width, pad);
      pc := 0;
      if !PadRight(pad) {
        pc := PrintPad(padChar, left);
        left := 0;
      }
      var body := PrintAll(s);
      var more := PrintPad(padChar, left);
      pc := pc + body + more;
    }

    /** `printi`: the digits go into a 12-byte buffer from its end. */
    method Printi(i: Int32, b: nat, sg: bool, width: nat, pad: nat, letBase: char) returns (pc: nat)
      requires Base(b) && Letters(letBase)
      modifies this`text
      ensures text == old(text) + IntText(i, b, sg, width, pad, letBase)
      ensures pc == |IntText(i, b, sg, width, pad, letBase)|
    {
      hide Digits, Magnitude, Field, Wrap;
      var printBuf := new char[PRINT_BUF_LEN];
      if i == 0 {
        printBuf[0] := '0';
        printBuf[1] := '\0';
        assert printBuf[..1] == "0";
        pc := Prints(printBuf[..1], width, pad);
        return;
      }
      var u := Magnitude(i, b, sg);
      var neg := Negative(i, b, sg);
      var s := PutDigits(printBuf, u, b, letBase);
      BufferSuffices(i, b, sg, width, pad, letBase);
      DigitsAreText(u, b, letBase);
      ghost var digits := Digits(u, b, letBase);
      if neg {
        if width != 0 && PadZero(pad) {
          PrintChar('-');
          pc := Prints(printBuf[s..PRINT_BUF_LEN - 1], width - 1, pad);
          pc := 1 + pc;
          return;
        }
        s := s - 1;
        printBuf[s] := '-';
        assert printBuf[s..PRINT_BUF_LEN - 1] == "-" + digits;
      } else {
        assert printBuf[s..PRINT_BUF_LEN - 1] == "" + digits;
      }
      pc := Prints(printBuf[s..PRINT_BUF_LEN - 1], width, pad);
    }

    /** One conversion of `print`. */
    method PrintArg(c: char, arg: Arg, width: nat, pad: nat) returns (pc: nat)
      requires TakesArg(c) && ArgFits(c, arg)
      modifies this`text
      ensures text == old(text) + Convert(c, arg, width, pad) && pc == |Convert(c, arg, width, pad)|
    {
      hide Field, IntText;
      if c == 's' {
        pc := Prints(if arg.s.Some? then arg.s.value else "(null)", width, pad);
      } else if c == 'd' {
        pc := Printi(arg.i, 10, true, width, pad, 'a');
      } else if c == 'x' {
        pc := Printi(arg.i, 16, false, width, pad, 'a');
      } else if c == 'X' {
        pc := Printi(arg.i, 16, false, width, pad, 'A');
      } else {
        pc := Prints(CharText(arg.i), width, pad);
      }
    }

    /** `print`: returns exactly the number of characters it emits. */
    method Print(format: string, args: seq<Arg>) returns (pc: nat)
      requires CString(format) && WellFormed(format, args)
      modifies this
      ensures text == old(text) + Format(format, args) && pc == |Format(format, args)|
      ensures terminated == (old(terminated) || isBuffer)
    {
      hide Convert;
      pc := 0;
      var f, a := format, args;
      while f != []
        invariant WellFormed(f, a) && terminated == old(terminated)
        invariant text + Format(f, a) == old(text) + Format(format, args)
        invariant pc + |Format(f, a)| == |Format(format, args)|
        decreases |f|
      {
        ghost var emitted, todo := text, Format(f, a);
        if f[0] == '%' {
          if |f| == 1 {
            f := [];
          } else if f[1] == '%' {
            PrintChar('%');
            pc := pc + 1;
            f := f[2..];
            assert todo == "%" + Format(f, a);
          } else {
            var width, pad, l := ScanConversion(f[1..]);
            f := l[1..];
            if TakesArg(l[0]) {
              var n := PrintArg(l[0], a[0], width, pad);
              pc := pc + n;
              ghost var field := Convert(l[0], a[0], width, pad);
              a := a[1..];
              assert todo == field + Format(f, a);
              assert emitted + todo == (emitted + field) + Format(f, a);
            } else {
              assert todo == Format(f, a);
            }
          }
        } else {
          PrintChar(f[0]);
          pc := pc + 1;
          assert todo == [f[0]] + Format(f[1..], a);
          f := f[1..];
        }
      }
      if isBuffer {
        terminated := true;
      }
    }
  }

  /** The counting loop of `prints`. */
  method Length(s: string) returns (len: nat)
    ensures len == |s|
  {
    len := 0;
    while len < |s|
      invariant len <= |s|
    {
      len := len + 1;
    }
  }

  /** How `prints` turns the width into a count of padding characters. */
  method PlanField(s: string, width: int, pad: nat) returns (padChar: char, left: int)
    ensures padChar == PadChar(width, pad) && (if left > 0 then left else 0) == Missing(s, width)
  {
    padChar := ' ';
    left := width;
    if left > 0 {
      var len := Length(s);
      if len >= left {
        left := 0;
      } else {
        left := left - len;
      }
      if PadZero(pad) {
        padChar := '0';
      }
    }
  }

  /** The flags and the width of a conversion. */
  method ScanConversion(format: string) returns (width: Int32, pad: nat, rest: string)
    requires WidthOf(format) < 0x8000_0000
    ensures width == WidthOf(format) && pad == PadOf(format) && rest == Letter(format)
  {
    var f := format;
    width, pad := 0, 0;
    while f != [] && f[0] == '0'
      invariant SkipZeros(f) == SkipZeros(format)
      invariant pad == (if f == format then 0 else 2) && (f != format ==> PadOf(format) == 2)
      invariant |f| <= |format|
      decreases |f|
    {
      f := f[1..];
      pad := 2;
    }
    while f != [] && IsDigit(f[0])
      invariant width >= 0 && SkipDigits(f) == Letter(format) && Number(f, width) == WidthOf(format)
      decreases |f|
    {
      NumberGrows(f[1..], width * 10 + (f[0] as int - '0' as int));
      width := width * 10;
      width := width + (f[0] as int - '0' as int);
      f := f[1..];
    }
    rest := f;
  }

  /** The width never exceeds what it becomes, so no step of the scan overflows. */
  lemma {:induction false} NumberGrows(f: string, acc: nat)
    ensures acc <= Number(f, acc)
    decreases |f|
  {
    if f != [] && IsDigit(f[0]) {
      NumberGrows(f[1..], acc * 10 + (f[0] as int - '0' as int));
    }
  }

  /** The digit loop of `printi`. */
  method PutDigits(printBuf: array<char>, number: Word, b: nat, letBase: char) returns (s: nat)
    requires printBuf.Length == PRINT_BUF_LEN && Base(b) && Letters(letBase)
    modifies printBuf
    ensures s == PRINT_BUF_LEN - 1 - |Digits(number, b, letBase)|
    ensures printBuf[s..PRINT_BUF_LEN - 1] == Digits(number, b, letBase) && printBuf[PRINT_BUF_LEN - 1] == '\0'
  {
    PowersOfTen();
    DigitsLength(number, b, letBase, 8);
    DigitsLength(number, b, letBase, 10);
    var u: nat := number;
    s := PRINT_BUF_LEN - 1;
    printBuf[s] := '\0';
    assert printBuf[s..PRINT_BUF_LEN - 1] == [];
    assert Digits(u, b, letBase) + [] == Digits(u, b, letBase);
    while u != 0
      invariant s <= PRINT_BUF_LEN - 1
      invariant printBuf[PRINT_BUF_LEN - 1] == '\0'
      invariant Digits(u, b, letBase) + printBuf[s..PRINT_BUF_LEN - 1] == Digits(number, b, letBase)
      decreases u
    {
      var t := u % b;
      ghost var tail := printBuf[s..PRINT_BUF_LEN - 1];
      assert Digits(u, b, letBase) == Digits(u / b, b, letBase) + [DigitChar(t, letBase)];
      assert |Digits(number, b, letBase)| == |Digits(u, b, letBase)| + |tail|;
      s := s - 1;
      printBuf[s] := DigitChar(t, letBase);
      assert printBuf[s..PRINT_BUF_LEN - 1] == [DigitChar(t, letBase)] + tail;
      u := u / b;
    }
  }

  lemma RepeatMore(c: char, n: nat)
    ensures Repeat(c, n) + [c] == Repeat(c, n + 1)
  {
  }

  lemma {:induction false} DigitsAreText(u: nat, b: nat, letBase: char)
    requires Base(b) && Letters(letBase)
    ensures CString(Digits(u, b, letBase))
    decreases u
  {
    if u != 0 {
      DigitsAreText(u / b, b, letBase);
      assert Digits(u, b, letBase) == Digits(u / b, b, letBase) + [DigitChar(u % b, letBase)];
    }
  }
}
