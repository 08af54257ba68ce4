/** Numbers as text: the digits that `printi` produces and the value that `ascii_strn2val` reads. */
module NumberText {
  import opened Machine

  const INT_MIN: int := -0x8000_0000

  type Int32 = x: int | -0x8000_0000 <= x < 0x8000_0000

  /** Two's complement: what a 32-bit `int` makes of a result that does not fit. */
  function WrapInt(x: int): Int32 {
    (x + TOP_BIT) % WORD_LIMIT - TOP_BIT
  }

  // ---- Fields ----

  /** The flag bits of `pad`. */
  predicate PadRight(pad: nat) {
    pad % 2 == 1
  }

  predicate PadZero(pad: nat) {
    pad / 2 % 2 == 1
  }

  function Repeat(c: char, n: nat): (s: string)
    ensures |s| == n && forall i :: 0 <= i < n ==> s[i] == c
  {
    if n == 0 then [] else [c] + Repeat(c, n - 1)
  }

  function PadChar(width: int, pad: nat): char {
    if width > 0 && PadZero(pad) then '0' else ' '
  }

  function Missing(s: string, width: int): nat {
    if width > |s| then width - |s| else 0
  }

  /** What `prints` emits. */
  function Field(s: string, width: int, pad: nat): (f: string)
    ensures |f| == Max(width, |s|)
  {
    var fill := Repeat(PadChar(width, pad), Missing(s, width));
    if PadRight(pad) then s + fill else fill + s
  }

  // ---- Digits ----

  function DigitChar(t: nat, letBase: char): char
    requires t < 16 && (letBase == 'a' || letBase == 'A')
  {
    if t >= 10 then (t - 10 + letBase as int) as char else (t + '0' as int) as char
  }

  predicate Base(b: nat) {
    b == 10 || b == 16
  }

  predicate Letters(letBase: char) {
    letBase == 'a' || letBase == 'A'
  }

  function Digits(u: nat, b: nat, letBase: char): string
    requires Base(b) && Letters(letBase)
  {
    if u == 0 then [] else Digits(u / b, b, letBase) + [DigitChar(u % b, letBase)]
  }

  /** The sign is printed for signed decimal numbers only. */
  predicate Negative(i: Int32, b: nat, sg: bool) {
    sg && b == 10 && i < 0
  }

  function Magnitude(i: Int32, b: nat, sg: bool): Word {
    var v: int := i;
    if Negative(i, b, sg) then Wrap(-v) else Wrap(v)
  }

  /** Sign and digits without any padding. */
  function Plain(i: Int32, b: nat, sg: bool, letBase: char): string
    requires Base(b) && Letters(letBase)
  {
    if i == 0 then "0" else (if Negative(i, b, sg) then "-" else "") + Digits(Magnitude(i, b, sg), b, letBase)
  }

  /** What `printi` emits: with zero padding the sign goes before the zeros. */
  function IntText(i: Int32, b: nat, sg: bool, width: int, pad: nat, letBase: char): string
    requires Base(b) && Letters(letBase)
  {
    if i != 0 && Negative(i, b, sg) && width != 0 && PadZero(pad)
    then "-" + Field(Digits(Magnitude(i, b, sg), b, letBase), width - 1, pad)
    else Field(Plain(i, b, sg, letBase), width, pad)
  }

  /** A padded number is as wide as asked for or as its own text, whichever is more. */
  lemma IntTextWidth(i: Int32, b: nat, sg: bool, width: nat, pad: nat, letBase: char)
    requires Base(b) && Letters(letBase)
    ensures |IntText(i, b, sg, width, pad, letBase)| == Max(width, |Plain(i, b, sg, letBase)|)
  {
  }

  function Power(b: nat, k: nat): nat {
    if k == 0 then 1 else b * Power(b, k - 1)
  }

  /** The number of digits is the least power of the base that exceeds the number. */
  lemma {:induction false} DigitsLength(u: nat, b: nat, letBase: char, k: nat)
    requires Base(b) && Letters(letBase)
    ensures |Digits(u, b, letBase)| <= k <==> u < Power(b, k)
    decreases k
  {
    if k == 0 {
    } else if u == 0 {
      PowerPositive(b, k);
    } else {
      var q, p := u / b, Power(b, k - 1);
      assert |Digits(u, b, letBase)| == |Digits(q, b, letBase)| + 1;
      DigitsLength(q, b, letBase, k - 1);
      DivLess(u, b, p);
    }
  }

  lemma DivLess(u: nat, b: nat, p: nat)
    requires Base(b)
    ensures u / b < p <==> u < b * p
  {
    if b == 10 {
      assert u / 10 < p <==> u < 10 * p;
    } else {
      assert u / 16 < p <==> u < 16 * p;
    }
  }

  lemma {:induction false} PowerPositive(b: nat, k: nat)
    requires 0 < b
    ensures 0 < Power(b, k)
  {
    if k > 0 {
      PowerPositive(b, k - 1);
    }
  }

  lemma PowersOfTen()
    ensures Power(10, 9) == 1_000_000_000 && Power(10, 10) == 10_000_000_000 && Power(16, 8) == WORD_LIMIT
  {
    assert Power(10, 3) == 1000;
    assert Power(10, 6) == 1_000_000;
    assert Power(16, 4) == 0x1_0000;
  }

  const PRINT_BUF_LEN: nat := 12

  /** How much of the 12-byte buffer a number takes, its terminator included; with zero padding the
      sign is not stored. */
  function Stored(i: Int32, b: nat, sg: bool, width: int, pad: nat, letBase: char): nat
    requires Base(b) && Letters(letBase)
  {
    if Negative(i, b, sg) && width != 0 && PadZero(pad)
    then |Digits(Magnitude(i, b, sg), b, letBase)| + 1
    else |Plain(i, b, sg, letBase)| + 1
  }

  /** The buffer is never exceeded, and is filled exactly by the ten-digit negative numbers whose
      sign is stored. */
  lemma BufferSuffices(i: Int32, b: nat, sg: bool, width: int, pad: nat, letBase: char)
    requires Base(b) && Letters(letBase)
    ensures Stored(i, b, sg, width, pad, letBase) <= 12
    ensures Stored(i, b, sg, width, pad, letBase) == 12 <==>
            Negative(i, b, sg) && i <= -1_000_000_000 && !(width != 0 && PadZero(pad))
  {
    var u := Magnitude(i, b, sg);
    PowersOfTen();
    DigitsLength(u, b, letBase, 8);
    DigitsLength(u, b, letBase, 9);
    DigitsLength(u, b, letBase, 10);
  }

  // ---- Reading ----

  const NO_DIGIT: nat := 255           // (char)(-1)

  /** `ascii_char2val`. */
  function CharVal(c: char): nat {
    if '0' <= c <= '9' then c as int - '0' as int
    else if 'a' <= c <= 'f' || 'A' <= c <= 'F' then c as int % 8 + 9
    else NO_DIGIT
  }

  /** The loop of `ascii_strn2val` from the value `val` on: what is no digit is skipped before the
      number and ends it afterwards. */
  function Parse(s: string, base: nat, val: Int32): Int32
    decreases |s|
  {
    if s == [] then val else
      var v := CharVal(s[0]);
      if v == NO_DIGIT || v >= base
      then if val == 0 then Parse(s[1..], base, val) else val
      else Parse(s[1..], base, WrapInt(val * base + v))
  }

  /** `ascii_strn2val`; the count is a `char`. */
  method Strn2Val(str: string, base: nat, n: nat) returns (val: Int32)
    requires n <= |str| && n < 256 && base < 128
    ensures val == Parse(str[..n], base, 0)
  {
    val := 0;
    var s := str[..n];
    var left := n;
    while left != 0
      invariant left == |s| && Parse(str[..n], base, 0) == Parse(s, base, val)
      decreases left
    {
      var v := CharVal(s[0]);
      if v == NO_DIGIT || v >= base {
        if val == 0 {
          s := s[1..];
          left := left - 1;
          continue;
        } else {
          break;
        }
      }
      val := WrapInt(val * base + v);
      s := s[1..];
      left := left - 1;
    }
  }

  // ---- The round trip ----

  lemma DigitValue(t: nat, b: nat, letBase: char)
    requires Base(b) && t < b && Letters(letBase)
    ensures CharVal(DigitChar(t, letBase)) == t
  {
  }

  /** The last digit, and the number that the others make. */
  lemma LastDigit(u: nat, b: nat, letBase: char) returns (q: nat, r: nat)
    requires Base(b) && Letters(letBase) && u > 0
    ensures q < u && r < b && q * b + r == u
    ensures Digits(u, b, letBase) == Digits(q, b, letBase) + [DigitChar(r, letBase)]
  {
    q, r := u / b, u % b;
  }

  lemma WrapIntStep(x: int, b: nat, d: nat)
    requires Base(b)
    ensures WrapInt(WrapInt(x) * b + d) == WrapInt(x * b + d)
  {
    var q := (x + TOP_BIT) / WORD_LIMIT;
    assert WrapInt(x) == x - q * WORD_LIMIT;
    WrapIntShift(x * b + d, -(q * b));
    assert WrapInt(x) * b + d == x * b + d + -(q * b) * WORD_LIMIT;
  }

  lemma WrapIntShift(x: int, q: int)
    ensures WrapInt(x + q * WORD_LIMIT) == WrapInt(x)
  {
  }

  /** Reading back the digits of a number gives the number, whatever follows. */
  lemma {:induction false} ParseDigits(u: nat, b: nat, letBase: char, rest: string)
    requires Base(b) && Letters(letBase)
    ensures Parse(Digits(u, b, letBase) + rest, b, 0) == Parse(rest, b, WrapInt(u))
    decreases u
  {
    hide WrapInt, CharVal, DigitChar, Parse, Digits;
    if u == 0 {
      assert Digits(u, b, letBase) + rest == rest by {
        NoDigits(b, letBase);
      }
      WrapIntZero();
    } else {
      var q, r := LastDigit(u, b, letBase);
      var d := DigitChar(r, letBase);
      assert Digits(u, b, letBase) + rest == Digits(q, b, letBase) + ([d] + rest);
      ParseDigits(q, b, letBase, [d] + rest);
      DigitValue(r, b, letBase);
      ParseOneMore(d, r, b, WrapInt(q), rest);
      WrapIntStep(q, b, r);
    }
  }

  lemma NoDigits(b: nat, letBase: char)
    requires Base(b) && Letters(letBase)
    ensures Digits(0, b, letBase) == []
  {
  }

  lemma WrapIntZero()
    ensures WrapInt(0) == 0
  {
  }

  lemma ParseOneMore(d: char, r: nat, b: nat, val: Int32, rest: string)
    requires Base(b) && CharVal(d) == r && r < b
    ensures Parse([d] + rest, b, val) == Parse(rest, b, WrapInt(val * b + r))
  {
    assert ([d] + rest)[1..] == rest;
  }

  /** Before the number, padding and sign change nothing. */
  lemma {:induction false} ParseSkips(c: char, n: nat, b: nat, rest: string)
    requires Base(b) && (c == ' ' || c == '0' || c == '-')
    ensures Parse(Repeat(c, n) + rest, b, 0) == Parse(rest, b, 0)
    decreases n
  {
    if n == 0 {
      assert Repeat(c, 0) + rest == rest;
    } else {
      assert (Repeat(c, n) + rest)[1..] == Repeat(c, n - 1) + rest;
      ParseSkips(c, n - 1, b, rest);
      assert WrapInt(0 * b + 0) == 0;
    }
  }

  /** After it, spaces end it or are skipped; either way the value stands. */
  lemma {:induction false} ParseSpaces(n: nat, b: nat, val: Int32)
    requires Base(b)
    ensures Parse(Repeat(' ', n), b, val) == val
    decreases n
  {
    if n > 0 {
      assert Repeat(' ', n)[1..] == Repeat(' ', n - 1);
      ParseSpaces(n - 1, b, val);
    }
  }

  /** Zeros after the number are read as digits. */
  lemma {:induction false} ParseZeros(n: nat, b: nat, x: int)
    requires Base(b)
    ensures Parse(Repeat('0', n), b, WrapInt(x)) == WrapInt(x * Power(b, n))
    decreases n
  {
    hide WrapInt, CharVal, Parse;
    if n == 0 {
      ParseEnd(b, WrapInt(x));
      assert x * Power(b, 0) == x;
    } else {
      assert Repeat('0', n) == ['0'] + Repeat('0', n - 1);
      DigitValue(0, b, 'a');
      ParseOneMore('0', 0, b, WrapInt(x), Repeat('0', n - 1));
      WrapIntStep(x, b, 0);
      ParseZeros(n - 1, b, x * b);
      Multiplied(x, b, Power(b, n - 1));
    }
  }

  lemma ParseEnd(b: nat, val: Int32)
    ensures Parse("", b, val) == val
  {
  }

  lemma Multiplied(x: int, b: int, p: int)
    ensures x * b * p == x * (b * p)
  {
  }

  /** A field is padding on the left, the text, and padding on the right. */
  lemma FieldShape(s: string, width: int, pad: nat)
    ensures var missing := Missing(s, width);
            var k := if PadRight(pad) then missing else 0;
            Field(s, width, pad) ==
            Repeat(PadChar(width, pad), missing - k) + s + Repeat(PadChar(width, pad), k)
  {
  }

  lemma Joins(a: string, b: string, c: string, d: string)
    ensures a + (b + c) + d == a + (b + (c + d))
  {
    assert a + (b + c) + d == a + ((b + c) + d);
    assert (b + c) + d == b + (c + d);
  }

  /** The shape of every nonzero number: what is skipped, the digits, and padding on the right. */
  lemma IntTextShape(i: Int32, b: nat, sg: bool, width: nat, pad: nat, letBase: char)
    returns (c: char, n: nat, d: char, m: nat, k: nat)
    requires Base(b) && Letters(letBase) && i != 0
    ensures c in {' ', '0', '-'} && d in {' ', '0', '-'} && (k > 0 ==> PadRight(pad))
    ensures k == if PadRight(pad) then Missing(Plain(i, b, sg, letBase), width) else 0
    ensures IntText(i, b, sg, width, pad, letBase) ==
            Repeat(c, n) + (Repeat(d, m) + (Digits(Magnitude(i, b, sg), b, letBase) + Repeat(PadChar(width, pad), k)))
  {
    hide Digits, Magnitude, Field, Repeat, PadRight, PadZero;
    var digits, plain := Digits(Magnitude(i, b, sg), b, letBase), Plain(i, b, sg, letBase);
    var missing := Missing(plain, width);
    k := if PadRight(pad) then missing else 0;
    var right := Repeat(PadChar(width, pad), k);
    if Negative(i, b, sg) && width != 0 && PadZero(pad) {
      c, n, d, m := '-', 1, '0', missing - k;
      One('-');
      FieldShape(digits, width - 1, pad);
      SameFill(width, pad, missing - k);
      SameFill(width, pad, k);
      assert Repeat(d, m) + digits + right == Repeat(d, m) + (digits + right);
    } else {
      c, n, d, m := PadChar(width, pad), missing - k, '-', if Negative(i, b, sg) then 1 else 0;
      One('-');
      FieldShape(plain, width, pad);
      Joins(Repeat(c, n), Repeat(d, m), digits, right);
    }
  }

  lemma One(c: char)
    ensures Repeat(c, 1) == [c] && Repeat(c, 0) == []
  {
    assert Repeat(c, 1) == [c] + Repeat(c, 0);
  }

  /** Making room for the sign changes the padding character only where no padding is left. */
  lemma SameFill(width: nat, pad: nat, n: nat)
    requires PadZero(pad) && width > 0 && (n > 0 ==> width > 1)
    ensures Repeat(PadChar(width - 1, pad), n) == Repeat('0', n)
    ensures PadChar(width, pad) == '0'
  {
  }

  /** The value a printed number stands for: its magnitude when signed decimal, else itself. */
  function Expected(i: Int32, b: nat, sg: bool): Int32 {
    WrapInt(Magnitude(i, b, sg))
  }

  lemma ExpectedIs(i: Int32, b: nat, sg: bool)
    ensures !Negative(i, b, sg) ==> Expected(i, b, sg) == i
    ensures Negative(i, b, sg) && i != INT_MIN ==> Expected(i, b, sg) == -i
    ensures Negative(i, b, sg) && i == INT_MIN ==> Expected(i, b, sg) == INT_MIN
  {
  }

  /** What is read back: zeros padded on the right count as digits, nothing else is noticed. */
  lemma ReadBack(i: Int32, b: nat, sg: bool, width: nat, pad: nat, letBase: char)
    requires Base(b) && Letters(letBase)
    ensures Parse(IntText(i, b, sg, width, pad, letBase), b, 0) ==
            if PadRight(pad) && PadZero(pad)
            then WrapInt(Magnitude(i, b, sg) * Power(b, Missing(Plain(i, b, sg, letBase), width)))
            else Expected(i, b, sg)
  {
    hide Parse, Digits, WrapInt, IntText, Magnitude;
    if i == 0 {
      ReadBackZero(b, sg, width, pad, letBase);
    } else {
      var c, n, d, m, k := IntTextShape(i, b, sg, width, pad, letBase);
      var u := Magnitude(i, b, sg);
      var right := Repeat(PadChar(width, pad), k);
      var digits := Digits(u, b, letBase);
      ParseSkips(c, n, b, Repeat(d, m) + (digits + right));
      ParseSkips(d, m, b, digits + right);
      ParseDigits(u, b, letBase, right);
      if PadChar(width, pad) == ' ' {
        ParseSpaces(k, b, WrapInt(u));
      } else {
        ParseZeros(k, b, u);
      }
    }
  }

  lemma ReadBackZero(b: nat, sg: bool, width: nat, pad: nat, letBase: char)
    requires Base(b) && Letters(letBase)
    ensures Parse(IntText(0, b, sg, width, pad, letBase), b, 0) == 0
    ensures Magnitude(0, b, sg) == 0 && WrapInt(0) == 0
  {
    var fill := Repeat(PadChar(width, pad), Missing("0", width));
    ParseSkips(PadChar(width, pad), Missing("0", width), b, "0");
    ParseSkips(PadChar(width, pad), Missing("0", width), b, "");
    assert fill + "" == fill;
    assert ("0" + fill)[1..] == fill;
    assert "0"[1..] == [];
  }

  // ---- Exactly when the round trip holds ----

  lemma OddTimesOdd(m: int, x: int)
    requires m % 2 == 1 && x % 2 == 1
    ensures (m * x) % 2 == 1
  {
    var a, c := m / 2, x / 2;
    assert m * x == 2 * (2 * a * c + a + c) + 1;
  }

  /** An odd factor supplies no power of two: if `m * x` is a multiple of one, so is `x`. */
  lemma {:induction false} OddCancels(m: int, x: int, k: nat, q: int) returns (y: int)
    requires m % 2 == 1 && m * x == q * Power(2, k)
    ensures x == y * Power(2, k)
    decreases k
  {
    if k == 0 {
      y := x;
    } else {
      var p := Power(2, k - 1);
      assert m * x == 2 * (q * p) by {
        Associates(q, p);
      }
      if x % 2 == 1 {
        OddTimesOdd(m, x);
        assert false;
      }
      var h := x / 2;
      assert m * x == 2 * (m * h) by {
        Associates(m, h);
      }
      y := OddCancels(m, h, k - 1, q);
      Associates(y, p);
    }
  }

  lemma Associates(a: int, b: int)
    ensures a * (2 * b) == 2 * (a * b)
  {
  }

  lemma Even(n: int, m: int)
    requires n == 2 * m
    ensures n % 2 == 0
  {
  }

  lemma EvenPower(b: nat, k: nat)
    requires Base(b) && k > 0
    ensures Power(b, k) % 2 == 0
  {
    var p := Power(b, k - 1);
    Even(b * p, if b == 10 then 5 * p else 8 * p);
  }

  lemma PowerTwo32()
    ensures Power(2, 32) == WORD_LIMIT
  {
    assert Power(2, 8) == 256;
    assert Power(2, 16) == 256 * Power(2, 8);
    assert Power(2, 24) == 256 * Power(2, 16);
    assert Power(2, 32) == 256 * Power(2, 24);
  }

  lemma SameWrap(a: int, b: int) returns (q: int)
    requires WrapInt(a) == WrapInt(b)
    ensures a - b == q * WORD_LIMIT
  {
    q := (a + TOP_BIT) / WORD_LIMIT - (b + TOP_BIT) / WORD_LIMIT;
  }

  lemma ZerosChange(u: Word, p: nat)
    requires u != 0 && p % 2 == 0
    ensures WrapInt(u * p) != WrapInt(u)
  {
    var x: int := u;
    if WrapInt(x * p) == WrapInt(x) {
      var q := SameWrap(x * p, x);
      PowerTwo32();
      assert (p - 1) * x == x * p - x;
      var y := OddCancels(p - 1, x, 32, q);
      assert false;
    }
  }

  /** Printing and reading back returns the number - its magnitude when signed decimal - for every
      32-bit value, width and padding, except when zeros have been appended on the right. */
  lemma RoundTripIff(i: Int32, b: nat, sg: bool, width: nat, pad: nat, letBase: char)
    requires Base(b) && Letters(letBase)
    ensures Parse(IntText(i, b, sg, width, pad, letBase), b, 0) == Expected(i, b, sg) <==>
            !(PadRight(pad) && PadZero(pad)) || i == 0 || width <= |Plain(i, b, sg, letBase)|
  {
    hide WrapInt, Parse, IntText, Plain, Power, Magnitude, PadRight, PadZero;
    ReadBack(i, b, sg, width, pad, letBase);
    if PadRight(pad) && PadZero(pad) {
      var k, u := Missing(Plain(i, b, sg, letBase), width), Magnitude(i, b, sg);
      if k > 0 && i != 0 {
        EvenPower(b, k);
        MagnitudeZero(i, b, sg);
        ZerosChange(u, Power(b, k));
      } else if k == 0 {
        PowerZero(b);
        assert u * Power(b, 0) == u;
      } else {
        MagnitudeZero(i, b, sg);
        assert u * Power(b, k) == u;
      }
    }
  }

  lemma PowerZero(b: nat)
    ensures Power(b, 0) == 1
  {
  }

  lemma MagnitudeZero(i: Int32, b: nat, sg: bool)
    ensures Magnitude(i, b, sg) == 0 <==> i == 0
  {
  }
}
