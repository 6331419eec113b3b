/** Character classes, ASCII lower-casing and decimal numerals, as the Go
    code uses them on byte strings. */
module Text {
  datatype Option<+T> = None | Some(value: T)

  predicate IsDecimalChar(c: char) { '0' <= c <= '9' }

  predicate IsLetterOrDigit(c: char) { 'A' <= c <= 'Z' || 'a' <= c <= 'z' || IsDecimalChar(c) }

  predicate IsFirstIdentChar(c: char) {
    'a' <= c <= 'z' || 'A' <= c <= 'Z' || c == '_' || c == ':'
  }

  predicate IsIdentChar(c: char) { IsFirstIdentChar(c) || IsDecimalChar(c) || c == '.' }

  predicate IsSpaceChar(c: char) {
    c == ' ' || c == '\t' || c == '\n' || c == '\U{0B}' || c == '\U{0C}' || c == '\r'
  }

  /** Characters that only occur inside identifiers of Graphite paths. */
  predicate IsGraphiteChar(c: char) { c == '-' || c == '|' || c == '?' }

  function LowerChar(c: char): char {
    if 'A' <= c <= 'Z' then (c as int + 32) as char else c
  }

  function Lower(s: string): (r: string)
    ensures |r| == |s|
  {
    seq(|s|, i requires 0 <= i < |s| => LowerChar(s[i]))
  }

  /** The first position of `c` in `s`, or -1. */
  function IndexOf(s: string, c: char): (n: int)
    ensures -1 <= n < |s|
    ensures n < 0 ==> c !in s
    ensures n >= 0 ==> s[n] == c && c !in s[..n]
  {
    if s == [] then -1
    else if s[0] == c then 0
    else
      var n := IndexOf(s[1..], c);
      if n < 0 then -1
      else
        assert s[..n + 1] == [s[0]] + s[1..][..n];
        n + 1
  }

  /** Where the run of decimal digits from position `i` ends. */
  function DigitsEnd(s: string, i: nat): (n: nat)
    requires i <= |s|
    ensures i <= n <= |s|
    ensures n > i ==> IsDecimalChar(s[i])
    decreases |s| - i
  {
    if i < |s| && IsDecimalChar(s[i]) then DigitsEnd(s, i + 1) else i
  }

  // ----- decimal numerals -----

  predicate AllDecimal(s: string) { forall i | 0 <= i < |s| :: IsDecimalChar(s[i]) }

  function DigitChar(d: nat): (c: char)
    requires d < 10
    ensures IsDecimalChar(c)
  {
    ('0' as int + d) as char
  }

  function Digits(n: nat): (s: string)
    ensures s != [] && AllDecimal(s)
  {
    if n < 10 then [DigitChar(n)] else Digits(n / 10) + [DigitChar(n % 10)]
  }

  /** fmt's %d and strconv.Itoa. */
  function Itoa(n: int): string {
    if n < 0 then "-" + Digits(-n) else Digits(n)
  }

  function DigitsValue(s: string): nat
    requires AllDecimal(s)
  {
    if s == [] then 0
    else
      10 * DigitsValue(s[..|s| - 1]) + (s[|s| - 1] as nat - '0' as nat)
  }

  const MAX_INT64: int := 0x7fff_ffff_ffff_ffff

  /** strconv.Atoi on a 64-bit platform: optional sign, digits, range check. */
  function Atoi(s: string): Option<int> {
    var neg := s != [] && s[0] == '-';
    var body := if s != [] && (s[0] == '-' || s[0] == '+') then s[1..] else s;
    if body == [] || !AllDecimal(body) then None
    else
      var v := if neg then -(DigitsValue(body) as int) else DigitsValue(body);
      if -MAX_INT64 - 1 <= v <= MAX_INT64 then Some(v) else None
  }

  lemma {:induction false} DigitsValueOfDigits(n: nat)
    ensures DigitsValue(Digits(n)) == n
  {
    if n >= 10 {
      DigitsValueOfDigits(n / 10);
      var s := Digits(n);
      assert s[..|s| - 1] == Digits(n / 10);
    } else {
      var s := Digits(n);
      assert s[..|s| - 1] == [];
    }
  }

  lemma DigitsInjective(m: nat, n: nat)
    requires Digits(m) == Digits(n)
    ensures m == n
  {
    DigitsValueOfDigits(m);
    DigitsValueOfDigits(n);
  }

  lemma AtoiOfItoa(n: nat)
    requires n <= MAX_INT64
    ensures Atoi(Itoa(n)) == Some(n)
  {
    DigitsValueOfDigits(n);
    var s := Digits(n);
    assert IsDecimalChar(s[0]);
  }

  /** The last digit is the unit, the digits before it count tens. */
  lemma NumeralsAreDecimal()
    ensures Itoa(1024) == "1024" && Itoa(-7) == "-7" && Atoi("1024") == Some(1024)
  {
    assert Digits(1) == "1" && Digits(10) == "10" && Digits(102) == "102" && Digits(1024) == "1024";
    DigitsValueOfDigits(1024);
    assert IsDecimalChar(Digits(1024)[0]);
  }

  function Zeros(n: nat): string { seq(n, _ => '0') }

  lemma ZerosEnd(n: nat)
    ensures Zeros(n + 1) == Zeros(n) + "0"
  {
  }

  lemma NextDigit(n: nat, d: nat)
    requires n > 0 && d < 10
    ensures Digits(10 * n + d) == Digits(n) + [DigitChar(d)]
  {
    assert (10 * n + d) / 10 == n && (10 * n + d) % 10 == d;
  }

  /** Every decimal numeral is the numeral of its value after some zeros. */
  lemma {:induction false} NumeralOfValue(s: string) returns (z: nat)
    requires s != "" && AllDecimal(s)
    ensures s == Zeros(z) + Digits(DigitsValue(s))
  {
    var front, c := s[..|s| - 1], s[|s| - 1];
    var d := c as int - '0' as int;
    assert s == front + [c] && [DigitChar(d)] == [c];
    if front == "" {
      z := 0;
    } else {
      var n := DigitsValue(front);
      z := NumeralOfValue(front);
      if n == 0 {
        assert Digits(n) == "0";
        ZerosEnd(z);
        z := z + 1;
      } else {
        NextDigit(n, d);
      }
    }
  }

  lemma {:induction false} ValueAfterZeros(z: nat, n: nat)
    ensures AllDecimal(Zeros(z) + Digits(n)) && DigitsValue(Zeros(z) + Digits(n)) == n
    decreases n
  {
    var s := Zeros(z) + Digits(n);
    if n < 10 {
      assert s[..|s| - 1] == Zeros(z);
      ValueOfZeros(z);
    } else {
      assert s[..|s| - 1] == Zeros(z) + Digits(n / 10);
      ValueAfterZeros(z, n / 10);
    }
  }

  lemma {:induction false} ValueOfZeros(z: nat)
    ensures DigitsValue(Zeros(z)) == 0
  {
    if z > 0 {
      ZerosEnd(z - 1);
      assert Zeros(z)[..z - 1] == Zeros(z - 1);
      ValueOfZeros(z - 1);
    }
  }

  lemma AtoiReads(s: string) returns (z: nat, sign: string)
    requires Atoi(s).Some?
    ensures var v := Atoi(s).value;
            IsSignOf(sign, v) && s == sign + (Zeros(z) + Digits(if v < 0 then -v else v)) && -MAX_INT64 - 1 <= v <= MAX_INT64
  {
    hide Digits, DigitsValue, Zeros, AllDecimal;
    if s[0] == '-' || s[0] == '+' {
      var body := s[1..];
      sign := [s[0]];
      assert s == sign + body;
      z := NumeralOfValue(body);
    } else {
      sign := "";
      z := NumeralOfValue(s);
      assert "" + s == s;
    }
  }

  lemma AtoiOf(z: nat, sign: string, v: int)
    requires IsSignOf(sign, v) && -MAX_INT64 - 1 <= v <= MAX_INT64
    ensures Atoi(sign + (Zeros(z) + Digits(if v < 0 then -v else v))) == Some(v)
  {
    hide Digits, DigitsValue;
    var n := if v < 0 then -v else v;
    var body := Zeros(z) + Digits(n);
    var s := sign + body;
    ValueAfterZeros(z, n);
    assert IsDecimalChar(body[0]);
    assert sign != "" ==> s[0] == sign[0] && s[1..] == body;
    assert sign == "" ==> s == body;
  }

  /** Atoi reads exactly the numerals of its range: perhaps a sign, zeros, and
      the digits of the number. */
  lemma AtoiIsExact(s: string, v: int)
    ensures Atoi(s) == Some(v) <==>
            && -MAX_INT64 - 1 <= v <= MAX_INT64
            && exists z: nat, sign :: IsSignOf(sign, v) && s == sign + (Zeros(z) + Digits(if v < 0 then -v else v))
  {
    hide Digits, Atoi, Zeros, IsSignOf;
    if Atoi(s) == Some(v) { var z, sign := AtoiReads(s); }
    if -MAX_INT64 - 1 <= v <= MAX_INT64 {
      if z: nat, sign :| IsSignOf(sign, v) && s == sign + (Zeros(z) + Digits(if v < 0 then -v else v)) {
        AtoiOf(z, sign, v);
      }
    }
  }

  predicate IsSignOf(sign: string, v: int) {
    if v < 0 then sign == "-" else if v > 0 then sign == "" || sign == "+" else sign in {"", "+", "-"}
  }
}
