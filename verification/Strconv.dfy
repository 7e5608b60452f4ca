/** Decimal and hexadecimal numerals: `strconv.ParseInt`, `%d` and `%05d`. */
module Strconv {
  import opened Strings

  const MAX_INT64: int := 0x7fff_ffff_ffff_ffff
  const MIN_INT64: int := -0x8000_0000_0000_0000

  datatype Option<+T> = None | Some(value: T)

  // ---------------------------------------------------------------------------
  // Printing
  // ---------------------------------------------------------------------------

  function DigitChar(d: nat): (c: char)
    requires d < 10
    ensures '0' <= c <= '9' && DigitValue(c) == d
  {
    ('0' as int + d) as char
  }

  /** `%d` of a number that is not negative. */
  function Itoa(n: nat): (s: string)
    ensures |s| > 0
    ensures forall c :: c in s ==> '0' <= c <= '9'
  {
    if n < 10 then [DigitChar(n)] else Itoa(n / 10) + [DigitChar(n % 10)]
  }

  /** `%d` of any integer. */
  function FormatInt(n: int): string {
    if n < 0 then "-" + Itoa(-n) else Itoa(n)
  }

  function Zeros(n: nat): (s: string)
    ensures |s| == n
    ensures forall c :: c in s ==> c == '0'
  {
    seq(n, i => '0')
  }

  /** `%05d`: at least five characters, the sign counted, zeros after the sign. */
  function Pad5(n: int): string {
    if n < 0 then "-" + Padded(-n, 4) else Padded(n, 5)
  }

  function Padded(n: nat, width: nat): string {
    var digits := Itoa(n);
    if |digits| < width then Zeros(width - |digits|) + digits else digits
  }

  // ---------------------------------------------------------------------------
  // Parsing
  // ---------------------------------------------------------------------------

  /** Value of a digit in bases up to 16, or -1. */
  function DigitValue(c: char): int {
    if '0' <= c <= '9' then c as int - '0' as int
    else if 'a' <= c <= 'f' then c as int - 'a' as int + 10
    else if 'A' <= c <= 'F' then c as int - 'A' as int + 10
    else -1
  }

  predicate AllDigits(s: string, base: nat) {
    forall c :: c in s ==> 0 <= DigitValue(c) < base
  }

  function Value(s: string, base: nat): (v: nat)
    requires AllDigits(s, base)
  {
    if s == "" then 0 else Value(s[..|s| - 1], base) * base + DigitValue(s[|s| - 1])
  }

  /** `strconv.ParseInt(s, base, 64)` for bases 10 and 16. */
  function ParseInt(s: string, base: nat): (r: Option<int>)
    ensures r.Some? ==> MIN_INT64 <= r.value <= MAX_INT64
  {
    var negative := s != "" && s[0] == '-';
    var digits := if s != "" && (s[0] == '-' || s[0] == '+') then s[1..] else s;
    if digits == "" || !AllDigits(digits, base) then
      None
    else
      var v: int := Value(digits, base);
      if negative then
        if -v >= MIN_INT64 then Some(-v) else None
      else
        if v <= MAX_INT64 then Some(v) else None
  }

  // ---------------------------------------------------------------------------
  // What the numerals are
  // ---------------------------------------------------------------------------

  /** The digits are 0 to 9 and the letters a to f, in either case. */
  lemma DigitsAre(c: char)
    ensures forall i :: 0 <= i < 16 ==> DigitValue("0123456789abcdef"[i]) == DigitValue("0123456789ABCDEF"[i]) == i
    ensures 0 <= DigitValue(c) <==> c in "0123456789abcdefABCDEF"
    ensures DigitValue(c) < 16
  {
    hide Value;
    if 0 <= DigitValue(c) < 10 { assert "0123456789abcdefABCDEF"[DigitValue(c)] == c; }
    if 'a' <= c <= 'f' { assert "0123456789abcdefABCDEF"[DigitValue(c)] == c; }
    if 'A' <= c <= 'F' { assert "0123456789abcdefABCDEF"[DigitValue(c) + 6] == c; }
  }

  /** A numeral is read with its last digit counting once and those before it
      `base` times. */
  lemma ValueStep(s: string, c: char, base: nat)
    requires AllDigits(s + [c], base)
    ensures AllDigits(s, base) && Value(s + [c], base) == Value(s, base) * base + DigitValue(c)
    ensures Value("", base) == 0
  {
    assert (s + [c])[..|s|] == s;
    forall x | x in s ensures x in s + [c] {}
  }

  /** What a sign or none, and a numeral, stand for. */
  function Signed(sign: string, v: nat): int {
    if sign == "-" then 0 - v else v
  }

  lemma ParseSignAndDigits(sign: string, digits: string, base: nat)
    requires base == 10 || base == 16
    requires sign in {"", "+", "-"} && digits != "" && AllDigits(digits, base)
    ensures var v := Signed(sign, Value(digits, base));
            ParseInt(sign + digits, base) == if MIN_INT64 <= v <= MAX_INT64 then Some(v) else None
  {
    hide Value;
    var s := sign + digits;
    NumeralIsUnsigned(digits, base);
    if sign == "" {
      assert s == digits;
    } else {
      assert s[0] == sign[0] && s[1..] == digits;
    }
  }

  /** A number is parsed just from a sign or none, one digit or more, and a value
      that fits int64. */
  lemma ParseIntIff(s: string, base: nat, v: int)
    requires base == 10 || base == 16
    ensures ParseInt(s, base) == Some(v) <==>
              MIN_INT64 <= v <= MAX_INT64
              && exists sign, digits :: s == sign + digits && sign in {"", "+", "-"}
                   && digits != "" && AllDigits(digits, base) && v == Signed(sign, Value(digits, base))
  {
    hide Value;
    if ParseInt(s, base) == Some(v) {
      var digits := if s[0] == '-' || s[0] == '+' then s[1..] else s;
      var sign := if s[0] == '-' then "-" else if s[0] == '+' then "+" else "";
      assert s == sign + digits;
      ParseSignAndDigits(sign, digits, base);
    }
    if sign, digits :| s == sign + digits && sign in {"", "+", "-"}
                       && digits != "" && AllDigits(digits, base) && v == Signed(sign, Value(digits, base)) {
      ParseSignAndDigits(sign, digits, base);
    }
  }

  /** A character that is neither a digit nor a sign in front refuses the string. */
  lemma NoNumeral(s: string, base: nat, i: nat)
    requires (base == 10 || base == 16) && i < |s| && !(0 <= DigitValue(s[i]) < base)
    requires i == 0 ==> s[0] !in {'+', '-'}
    ensures ParseInt(s, base) == None
  {
    var digits := if s[0] == '-' || s[0] == '+' then s[1..] else s;
    assert s[i] in digits by { if digits == s { assert digits[i] == s[i]; } else { assert digits[i - 1] == s[i]; } }
  }

  lemma PrintedExamples()
    ensures Itoa(0) == "0" && Itoa(305) == "305" && FormatInt(-17) == "-17"
    ensures Pad5(7) == "00007" && Pad5(-3) == "-0003"
  {
    assert Itoa(30) == "30" && Itoa(17) == "17";
    assert Zeros(4) == "0000" && Zeros(3) == "000";
  }

  /** Numbers of more than five digits are not cut. */
  lemma LongNumberExample()
    ensures Pad5(123456) == "123456"
  {
    hide Zeros;
    assert Itoa(12) == "12";
    assert Itoa(123) == "123";
    assert Itoa(1234) == "1234";
    assert Itoa(12345) == "12345";
    assert Itoa(123456) == "123456";
  }

  lemma DecimalExample()
    ensures AllDigits("305", 10) && Value("305", 10) == 305
  {
    hide Value;
    assert AllDigits("305", 10);
    assert "30" + ['5'] == "305" && "3" + ['0'] == "30" && "" + ['3'] == "3";
    ValueStep("30", '5', 10);
    ValueStep("3", '0', 10);
    ValueStep("", '3', 10);
  }

  lemma HexadecimalExample()
    ensures AllDigits("1aF", 16) && Value("1aF", 16) == 431
  {
    hide Value;
    assert AllDigits("1aF", 16);
    assert "1a" + ['F'] == "1aF" && "1" + ['a'] == "1a" && "" + ['1'] == "1";
    ValueStep("1a", 'F', 16);
    ValueStep("1", 'a', 16);
    ValueStep("", '1', 16);
  }

  // ---------------------------------------------------------------------------
  // Round trips
  // ---------------------------------------------------------------------------

  lemma {:induction false} ItoaValue(n: nat)
    ensures AllDigits(Itoa(n), 10) && Value(Itoa(n), 10) == n
  {
    if n < 10 {
      assert Itoa(n)[..0] == "";
    } else {
      ItoaValue(n / 10);
      assert Itoa(n)[..|Itoa(n)| - 1] == Itoa(n / 10);
    }
  }

  lemma ItoaInjective(m: nat, n: nat)
    requires Itoa(m) == Itoa(n)
    ensures m == n
  {
    ItoaValue(m);
    ItoaValue(n);
  }

  /** Leading zeros do not change a value. */
  lemma {:induction false} ZerosValue(k: nat, s: string)
    requires AllDigits(s, 10)
    ensures AllDigits(Zeros(k) + s, 10) && Value(Zeros(k) + s, 10) == Value(s, 10)
  {
    if s != "" {
      ZerosValue(k, s[..|s| - 1]);
      assert (Zeros(k) + s)[..|Zeros(k) + s| - 1] == Zeros(k) + s[..|s| - 1];
    } else if k != 0 {
      ZerosValue(k - 1, s);
      assert (Zeros(k) + s)[..k - 1] == Zeros(k - 1) + s;
    }
  }

  lemma NumeralIsUnsigned(s: string, base: nat)
    requires s != "" && AllDigits(s, base)
    ensures s[0] != '-' && s[0] != '+'
  {
    assert s[0] in s;
  }

  /** `ParseInt` reads back what `%d` prints. */
  lemma ParseFormatted(n: int)
    requires MIN_INT64 <= n <= MAX_INT64
    ensures ParseInt(FormatInt(n), 10) == Some(n)
  {
    var m := if n < 0 then -n else n;
    ItoaValue(m);
    NumeralIsUnsigned(Itoa(m), 10);
    assert n < 0 ==> FormatInt(n)[1..] == Itoa(m);
  }

  lemma PaddedValue(n: nat, width: nat)
    ensures Padded(n, width) != ""
    ensures AllDigits(Padded(n, width), 10) && Value(Padded(n, width), 10) == n
    ensures '/' !in Padded(n, width)
  {
    ItoaValue(n);
    if |Itoa(n)| < width { ZerosValue(width - |Itoa(n)|, Itoa(n)); }
    assert DigitValue('/') == -1;
  }

  /** `%05d` prints different numbers differently, and never a slash. */
  lemma Pad5Value(n: int)
    ensures ParseSigned(Pad5(n)) == n
    ensures '/' !in Pad5(n)
  {
    var width := if n < 0 then 4 else 5;
    var padded := Padded(if n < 0 then -n else n, width);
    PaddedValue(if n < 0 then -n else n, width);
    NumeralIsUnsigned(padded, 10);
    assert n < 0 ==> Pad5(n)[1..] == padded;
  }

  ghost function ParseSigned(s: string): int {
    if s != "" && s[0] == '-' && AllDigits(s[1..], 10) then 0 - Value(s[1..], 10)
    else if AllDigits(s, 10) then Value(s, 10)
    else 0
  }
}
