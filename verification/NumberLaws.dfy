/** What a printed number is and what a text is read as, said without the code that prints and reads:
    digits are places in an alphabet, and a numeral is worth what positional notation gives it. */
module NumberLaws {
  import opened Machine
  import opened NumberText

  const LOWER: string := "0123456789abcdef"
  const UPPER: string := "0123456789ABCDEF"

  predicate Over(s: string, alphabet: string) {
    forall i :: 0 <= i < |s| ==> s[i] in alphabet
  }

  function PlaceOf(c: char, alphabet: string): (k: nat)
    requires c in alphabet
    ensures k < |alphabet| && alphabet[k] == c
  {
    if alphabet[0] == c then 0 else 1 + PlaceOf(c, alphabet[1..])
  }

  function Value(s: string, alphabet: string): nat
    requires Over(s, alphabet)
    decreases |s|
  {
    if s == [] then 0
    else Value(s[..|s| - 1], alphabet) * |alphabet| + PlaceOf(s[|s| - 1], alphabet)
  }

  /** `s` is the numeral of `v`, without leading zeros. */
  predicate Numeral(s: string, alphabet: string, v: nat) {
    s != [] && Over(s, alphabet) && Value(s, alphabet) == v && (|s| > 1 ==> s[0] != '0')
  }

  /** The digits of base `b` in one of the two alphabets. */
  function Alphabet(b: nat, letBase: char): string
    requires Base(b)
  {
    if letBase == 'A' then UPPER[..b] else LOWER[..b]
  }

  lemma AlphabetIs(b: nat, letBase: char, t: nat)
    requires Base(b) && Letters(letBase) && t < b
    ensures |Alphabet(b, letBase)| == b && DigitChar(t, letBase) == Alphabet(b, letBase)[t]
    ensures DigitChar(t, letBase) == '0' <==> t == 0
  {
    var a := Alphabet(b, letBase);
    if t < 8 {
      if t < 4 {
        assert t in {0, 1, 2, 3};
      } else {
        assert t in {4, 5, 6, 7};
      }
    } else if t < 12 {
      assert t in {8, 9, 10, 11};
    } else {
      assert t in {12, 13, 14, 15};
    }
  }

  lemma PlaceOfDigit(b: nat, letBase: char, t: nat)
    requires Base(b) && Letters(letBase) && t < b
    ensures |Alphabet(b, letBase)| == b
    ensures DigitChar(t, letBase) in Alphabet(b, letBase) && PlaceOf(DigitChar(t, letBase), Alphabet(b, letBase)) == t
  {
    AlphabetIs(b, letBase, t);
    var k := PlaceOf(DigitChar(t, letBase), Alphabet(b, letBase));
    AlphabetIs(b, letBase, k);
    SameDigit(t, k, letBase);
  }

  lemma SameDigit(t: nat, k: nat, letBase: char)
    requires t < 16 && k < 16 && Letters(letBase) && DigitChar(t, letBase) == DigitChar(k, letBase)
    ensures t == k
  {
  }

  lemma ValueOfMore(s: string, c: char, alphabet: string)
    requires Over(s, alphabet) && c in alphabet
    ensures Over(s + [c], alphabet)
    ensures Value(s + [c], alphabet) == Value(s, alphabet) * |alphabet| + PlaceOf(c, alphabet)
  {
    assert (s + [c])[..|s + [c]| - 1] == s;
  }

  /** The digits that are printed for a nonzero number are its numeral. */
  lemma {:induction false} DigitsNumeral(u: nat, b: nat, letBase: char)
    requires Base(b) && Letters(letBase) && u > 0
    ensures |Alphabet(b, letBase)| == b && Numeral(Digits(u, b, letBase), Alphabet(b, letBase), u)
    ensures Digits(u, b, letBase)[0] != '0'
    decreases u
  {
    hide Digits, DigitChar, Value, PlaceOf, Alphabet;
    var q, r := LastDigit(u, b, letBase);
    var d, a := DigitChar(r, letBase), Alphabet(b, letBase);
    PlaceOfDigit(b, letBase, r);
    AlphabetIs(b, letBase, r);
    if q == 0 {
      NoDigits(b, letBase);
      NoValue(a);
      ValueOfMore([], d, a);
      assert [] + [d] == [d] && q * b == 0;
    } else {
      DigitsNumeral(q, b, letBase);
      ValueOfMore(Digits(q, b, letBase), d, a);
    }
  }

  lemma NoValue(alphabet: string)
    ensures Over([], alphabet) && Value([], alphabet) == 0
  {
  }

  // ---- Padding ----

  /** The four ways of padding. */
  lemma FieldIs(s: string, width: int, pad: nat)
    requires pad < 4
    ensures width <= |s| ==> Field(s, width, pad) == s
    ensures width > |s| ==>
            var n := width - |s|;
            Field(s, width, pad) ==
            if pad == 0 then Repeat(' ', n) + s
            else if pad == 1 then s + Repeat(' ', n)
            else if pad == 2 then Repeat('0', n) + s
            else s + Repeat('0', n)
  {
    assert Repeat(PadChar(width, pad), 0) == [];
  }

  // ---- The text of a number ----

  /** Without a width: a sign for a negative signed decimal number and for no other, and the numeral. */
  lemma PlainIs(i: Int32, b: nat, sg: bool, letBase: char)
    requires Base(b) && Letters(letBase)
    ensures var t, v := Plain(i, b, sg, letBase), i as int;
            if v == 0 then t == "0"
            else if sg && b == 10 && v < 0
            then t != [] && t[0] == '-' && Numeral(t[1..], "0123456789", -v)
            else Numeral(t, Alphabet(b, letBase), if v < 0 then v + 0x1_0000_0000 else v)
  {
    hide Digits, Numeral, Alphabet, Magnitude;
    if i != 0 {
      var u := Magnitude(i, b, sg);
      MagnitudeIs(i, b, sg);
      DigitsNumeral(u, b, letBase);
      var digits := Digits(u, b, letBase);
      TenDigits(letBase);
      assert ("-" + digits)[1..] == digits && "" + digits == digits;
    }
  }

  lemma MagnitudeIs(i: Int32, b: nat, sg: bool)
    ensures var v := i as int;
            Magnitude(i, b, sg) == if v >= 0 then v else if Negative(i, b, sg) then -v else v + 0x1_0000_0000
  {
  }

  lemma TenDigits(letBase: char)
    requires Letters(letBase)
    ensures Alphabet(10, letBase) == "0123456789"
  {
  }

  /** With a width: as `FieldIs` says, but zeros on the left come after the sign. */
  lemma IntTextIs(i: Int32, b: nat, sg: bool, width: nat, pad: nat, letBase: char)
    requires Base(b) && Letters(letBase) && pad < 4
    ensures var t, plain := IntText(i, b, sg, width, pad, letBase), Plain(i, b, sg, letBase);
            if width <= |plain| then t == plain
            else if sg && b == 10 && i < 0 && pad == 2
            then t == "-" + Repeat('0', width - |plain|) + plain[1..]
            else t == Field(plain, width, pad)
  {
    hide Digits, Magnitude, Field, PlaceOf;
    var digits, plain := Digits(Magnitude(i, b, sg), b, letBase), Plain(i, b, sg, letBase);
    FieldIs(plain, width, pad);
    if i != 0 && Negative(i, b, sg) && width != 0 && PadZero(pad) {
      assert plain == "-" + digits && plain[1..] == digits;
      FieldIs(digits, width - 1, pad);
      if width > |plain| {
        var zeros := Repeat('0', width - |plain|);
        assert "-" + (zeros + digits) == "-" + zeros + digits;
        assert "-" + (digits + zeros) == plain + zeros;
      }
    }
  }

  // ---- Reading ----

  /** Is `c` a digit of base `b`, in either case? */
  predicate DigitOf(c: char, b: nat) {
    Base(b) && (c in LOWER[..b] || c in UPPER[..b])
  }

  function Worth(c: char, b: nat): nat
    requires DigitOf(c, b)
  {
    if c in LOWER[..b] then PlaceOf(c, LOWER[..b]) else PlaceOf(c, UPPER[..b])
  }

  /** The parser's value of a character is that of the digit; every other character is no digit. */
  lemma CharValIs(c: char, b: nat)
    requires Base(b)
    ensures CharVal(c) < b <==> DigitOf(c, b)
    ensures DigitOf(c, b) ==> CharVal(c) == Worth(c, b)
  {
    hide PlaceOf, DigitChar;
    if CharVal(c) < b {
      IsDigitChar(c, b);
    }
    if DigitOf(c, b) {
      var letBase := if c in LOWER[..b] then 'a' else 'A';
      var k := Worth(c, b);
      AlphabetIs(b, letBase, k);
      DigitValue(k, b, letBase);
    }
  }

  lemma IsDigitChar(c: char, b: nat)
    requires Base(b) && CharVal(c) < b
    ensures DigitOf(c, b)
  {
    var k := CharVal(c);
    var letBase := if 'A' <= c <= 'F' then 'A' else 'a';
    AlphabetIs(b, letBase, k);
    assert Alphabet(b, letBase)[k] == c;
  }

  /** The number that a row of digits, in either case, stands for. */
  function Worths(s: string, b: nat): nat
    requires forall i :: 0 <= i < |s| ==> DigitOf(s[i], b)
    decreases |s|
  {
    if s == [] then 0 else Worths(s[..|s| - 1], b) * b + Worth(s[|s| - 1], b)
  }

  lemma ParseDigit(c: char, rest: string, b: nat, val: Int32)
    requires DigitOf(c, b)
    ensures Parse([c] + rest, b, val) == Parse(rest, b, WrapInt(val * b + Worth(c, b)))
  {
    CharValIs(c, b);
    assert ([c] + rest)[1..] == rest;
  }

  lemma {:induction false} ParseRow(p: string, s: string, rest: string, b: nat)
    requires Base(b)
    requires (forall i :: 0 <= i < |p| ==> DigitOf(p[i], b)) && forall i :: 0 <= i < |s| ==> DigitOf(s[i], b)
    requires forall i :: 0 <= i < |p + s| ==> DigitOf((p + s)[i], b)
    ensures Parse(s + rest, b, WrapInt(Worths(p, b))) == Parse(rest, b, WrapInt(Worths(p + s, b)))
    decreases |s|
  {
    hide Parse, WrapInt, Worth, DigitOf;
    if s == [] {
      assert p + s == p && s + rest == rest;
    } else {
      var q := p + [s[0]];
      assert q[..|q| - 1] == p;
      assert s + rest == [s[0]] + (s[1..] + rest);
      ParseDigit(s[0], s[1..] + rest, b, WrapInt(Worths(p, b)));
      WrapIntStep(Worths(p, b), b, Worth(s[0], b));
      assert p + s == q + s[1..];
      ParseRow(q, s[1..], rest, b);
    }
  }

  /** A row of digits is read as its number modulo 2^32, whatever the case of each. */
  lemma ParseNumber(s: string, rest: string, b: nat)
    requires Base(b) && forall i :: 0 <= i < |s| ==> DigitOf(s[i], b)
    ensures Parse(s + rest, b, 0) == Parse(rest, b, WrapInt(Worths(s, b)))
  {
    assert [] + s == s;
    ParseRow([], s, rest, b);
  }

  /** Before the number, whatever is no digit is skipped. */
  lemma ParseSkipsOther(c: char, rest: string, b: nat)
    requires Base(b) && !DigitOf(c, b)
    ensures Parse([c] + rest, b, 0) == Parse(rest, b, 0)
  {
    CharValIs(c, b);
    assert ([c] + rest)[1..] == rest;
  }

  /** After it, whatever is no digit ends it. */
  lemma {:induction false} ParseStops(t: string, c: char, rest: string, b: nat, val: Int32)
    requires Base(b) && !DigitOf(c, b) && Parse(t, b, val) != 0
    ensures Parse(t + ([c] + rest), b, val) == Parse(t, b, val)
    decreases |t|
  {
    if t == [] {
      CharValIs(c, b);
      assert t + ([c] + rest) == [c] + rest;
    } else {
      assert (t + ([c] + rest))[1..] == t[1..] + ([c] + rest);
      var v := CharVal(t[0]);
      if v == NO_DIGIT || v >= b {
        if val == 0 {
          ParseStops(t[1..], c, rest, b, val);
        }
      } else {
        ParseStops(t[1..], c, rest, b, WrapInt(val * b + v));
      }
    }
  }

  lemma TenTwenty()
    ensures Parse("10:20", 10, 0) == 10
  {
    assert "10" + ([':'] + "20") == "10:20";
    assert "10"[1..] == "0" && "0"[1..] == "";
    assert Parse("10", 10, 0) == 10;
    ParseStops("10", ':', "20", 10, 0);
  }
}
