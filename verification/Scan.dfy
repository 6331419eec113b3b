/** The hand-written scanners of the lexer. Each function says which prefix of
    a string a scanner takes; the method of the same name finds it with the
    lexer's index-advancing loop. */
module Scan {
  import opened Text

  // ----- durations -----

  /** Length of the duration at the start of `s`, or -1. */
  function DurationLength(s: string, canBeNegative: bool): (n: int)
    ensures -1 <= n <= |s| && n != 0
    ensures n > 0 && !canBeNegative ==> IsDecimalChar(s[0])
  {
    if s == [] then -1
    else
      var i := DigitsEnd(s, if s[0] == '-' && canBeNegative then 1 else 0);
      if i == 0 || i == |s| then -1
      else if s[i] != '.' then DurationEnd(s, i)
      else
        var j := DigitsEnd(s, i + 1);
        if j == |s| then -1 else DurationEnd(s, j)
  }

  function DurationEnd(s: string, i: nat): (n: int)
    requires i < |s|
    ensures n == -1 || n == i + 1
  {
    if s[i] in UNITS then i + 1 else -1
  }

  const UNITS := {'s', 'm', 'h', 'd', 'w', 'y', 'i'}

  /** Nothing, or a point and any number of digits. */
  predicate IsFraction(t: string) { t == "" || (t[0] == '.' && AllDecimal(t[1..])) }

  /** A sign where it is allowed, or else a digit at least; digits; perhaps a
      point and digits; a unit. */
  predicate IsDurationOf(t: string, canBeNegative: bool, sign: string, whole: string, fraction: string, unit: char) {
    && t == sign + whole + fraction + [unit]
    && ((sign == "" && whole != "") || (sign == "-" && canBeNegative))
    && AllDecimal(whole) && IsFraction(fraction) && unit in UNITS
  }

  lemma {:induction false} DigitsEndAt(s: string, i: nat, n: nat)
    requires i <= n <= |s| && (forall k | i <= k < n :: IsDecimalChar(s[k])) && (n < |s| ==> !IsDecimalChar(s[n]))
    ensures DigitsEnd(s, i) == n
    decreases n - i
  {
    if i < n { DigitsEndAt(s, i + 1, n); }
  }

  lemma {:induction false} DigitsEndIs(s: string, i: nat)
    requires i <= |s|
    ensures AllDecimal(s[i..DigitsEnd(s, i)])
    ensures DigitsEnd(s, i) < |s| ==> !IsDecimalChar(s[DigitsEnd(s, i)])
    decreases |s| - i
  {
    if i < |s| && IsDecimalChar(s[i]) {
      DigitsEndIs(s, i + 1);
      assert s[i..DigitsEnd(s, i)] == [s[i]] + s[i + 1..DigitsEnd(s, i)];
    }
  }

  /** The scanner takes exactly the durations. */
  lemma DurationIsExact(s: string, canBeNegative: bool, n: nat)
    requires 0 < n <= |s|
    ensures DurationLength(s, canBeNegative) == n <==>
            exists sign, whole, fraction, unit :: IsDurationOf(s[..n], canBeNegative, sign, whole, fraction, unit)
  {
    if DurationLength(s, canBeNegative) == n {
      ScannedIsDuration(s, canBeNegative, n);
    }
    if sign, whole, fraction, unit :| IsDurationOf(s[..n], canBeNegative, sign, whole, fraction, unit) {
      DurationIsScanned(s, canBeNegative, n, sign, whole, fraction, unit);
    }
  }

  lemma ScannedIsDuration(s: string, canBeNegative: bool, n: nat)
    requires 0 < n <= |s| && DurationLength(s, canBeNegative) == n
    ensures exists sign, whole, fraction, unit :: IsDurationOf(s[..n], canBeNegative, sign, whole, fraction, unit)
  {
    hide AllDecimal, DigitsEnd;
    var k := if s[0] == '-' && canBeNegative then 1 else 0;
    var i := DigitsEnd(s, k);
    DigitsEndIs(s, k);
    var j := FractionEnd(s, i);
    assert n == j + 1 && s[j] in UNITS;
    Pieces(s, k, i, j);
    assert s[..k] == if k == 1 then "-" else "";
    assert IsDurationOf(s[..n], canBeNegative, s[..k], s[k..i], s[i..j], s[j]);
  }

  lemma FractionEnd(s: string, i: nat) returns (j: nat)
    requires i < |s|
    ensures j == if s[i] == '.' then DigitsEnd(s, i + 1) else i
    ensures i <= j <= |s| && IsFraction(s[i..j])
    ensures s[i] == '.' ==> AllDecimal(s[i + 1..j])
  {
    hide DigitsEnd;
    j := i;
    if s[i] == '.' {
      j := DigitsEnd(s, i + 1);
      DigitsEndIs(s, i + 1);
      assert s[i..j][1..] == s[i + 1..j];
    }
  }

  lemma Pieces(s: string, k: nat, i: nat, j: nat)
    requires k <= i <= j <= |s|
    ensures s[..j] == s[..k] + s[k..i] + s[i..j]
    ensures j < |s| ==> s[..j + 1] == s[..k] + s[k..i] + s[i..j] + [s[j]]
    ensures s[..i] + s[i..j] + s[j..] == s
  {
  }

  lemma DurationIsScanned(s: string, canBeNegative: bool, n: nat, sign: string, whole: string, fraction: string, unit: char)
    requires 0 < n <= |s| && IsDurationOf(s[..n], canBeNegative, sign, whole, fraction, unit)
    ensures DurationLength(s, canBeNegative) == n
  {
    var k, i, j := |sign|, |sign| + |whole|, |sign| + |whole| + |fraction|;
    forall q | 0 <= q < n ensures s[q] == s[..n][q] { }
    forall q | k <= q < i ensures IsDecimalChar(s[q]) { assert s[q] == whole[q - k]; }
    assert s[j] == unit;
    if fraction == "" {
      DigitsEndAt(s, k, i);
    } else {
      assert s[i] == fraction[0];
      forall q | i + 1 <= q < j ensures IsDecimalChar(s[q]) { assert s[q] == fraction[1..][q - i - 1]; }
      DigitsEndAt(s, k, i);
      DigitsEndAt(s, i + 1, j);
    }
  }

  method ScanDigits(s: string, from: nat) returns (i: nat)
    requires from <= |s|
    ensures i == DigitsEnd(s, from)
  {
    i := from;
    while i < |s| && IsDecimalChar(s[i])
      invariant from <= i <= |s|
      invariant DigitsEnd(s, i) == DigitsEnd(s, from)
    {
      i := i + 1;
    }
  }

  method ScanDuration(s: string, canBeNegative: bool) returns (n: int)
    ensures n == DurationLength(s, canBeNegative)
  {
    if |s| == 0 {
      return -1;
    }
    var i := 0;
    if s[0] == '-' && canBeNegative {
      i := i + 1;
    }
    i := ScanDigits(s, i);
    if i == 0 || i == |s| {
      return -1;
    }
    if s[i] == '.' {
      var j := i;
      i := ScanDigits(s, i + 1);
      if i == j || i == |s| {
        return -1;
      }
    }
    return DurationEnd(s, i);
  }

  // ----- numbers -----

  predicate IsNumberPrefix(s: string) {
    s != [] && (IsDecimalChar(s[0]) || (s[0] == '.' && |s| > 1 && IsDecimalChar(s[1])))
  }

  /** Length of the number at the start of `s`, or -1 when a part of it is
      missing. */
  function NumberLength(s: string): (n: int)
    requires IsNumberPrefix(s)
    ensures n == -1 || 0 < n <= |s|
  {
    var i := DigitsEnd(s, 0);
    if i == |s| then i
    else if s[i] != '.' then ExponentEnd(s, i)
    else
      var j := DigitsEnd(s, i + 1);
      if j == i + 1 then -1 else if j == |s| then j else ExponentEnd(s, j)
  }

  function ExponentEnd(s: string, i: nat): (n: int)
    requires i < |s|
    ensures n == -1 || i <= n <= |s|
  {
    if s[i] != 'e' && s[i] != 'E' then i
    else if i + 1 == |s| then -1
    else
      var k := if s[i + 1] == '-' || s[i + 1] == '+' then i + 2 else i + 1;
      var n := DigitsEnd(s, k);
      if n == k then -1 else n
  }

  /** Nothing, or a point and one digit at least. */
  predicate IsDecimals(t: string) { t == "" || (t[0] == '.' && |t| > 1 && AllDecimal(t[1..])) }

  /** Nothing, or the letter e, perhaps a sign, and one digit at least. */
  predicate IsExponent(t: string) {
    t == "" ||
    (&& (t[0] == 'e' || t[0] == 'E') && |t| > 1
     && var digits := if t[1] == '-' || t[1] == '+' then t[2..] else t[1..];
        digits != "" && AllDecimal(digits))
  }

  predicate IsNumberOf(t: string, whole: string, decimals: string, exponent: string) {
    t == whole + decimals + exponent && AllDecimal(whole) && IsDecimals(decimals) && IsExponent(exponent)
  }

  /** The scanner takes a whole text if and only if it is a number. */
  lemma NumberIsExact(s: string)
    requires IsNumberPrefix(s)
    ensures NumberLength(s) == |s| <==> exists whole, decimals, exponent :: IsNumberOf(s, whole, decimals, exponent)
  {
    if NumberLength(s) == |s| { ScannedIsNumber(s); }
    if whole, decimals, exponent :| IsNumberOf(s, whole, decimals, exponent) { NumberIsScanned(s, whole, decimals, exponent); }
  }

  lemma ScannedIsNumber(s: string)
    requires IsNumberPrefix(s) && NumberLength(s) == |s|
    ensures exists whole, decimals, exponent :: IsNumberOf(s, whole, decimals, exponent)
  {
    hide AllDecimal, DigitsEnd, ExponentEnd, IsExponent;
    var i := DigitsEnd(s, 0);
    DigitsEndIs(s, 0);
    assert s[..i] == s[0..i];
    var j := i;
    if i < |s| {
      j := FractionEnd(s, i);
      assert s[i..j] == "" || s[i..j][1..] == s[i + 1..j];
    }
    if j < |s| { ScannedIsExponent(s, j); } else { NoExponent(); }
    Pieces(s, 0, i, j);
    assert IsNumberOf(s, s[..i], s[i..j], s[j..]);
  }

  lemma NoExponent()
    ensures IsExponent("")
  {
  }

  lemma ScannedIsExponent(s: string, j: nat)
    requires j < |s| && ExponentEnd(s, j) == |s|
    ensures IsExponent(s[j..])
  {
    var t := s[j..];
    var k := if s[j + 1] == '-' || s[j + 1] == '+' then j + 2 else j + 1;
    DigitsEndIs(s, k);
    assert s[k..|s|] == t[k - j..];
  }

  lemma ExponentIsScanned(s: string, j: nat)
    requires j < |s| && IsExponent(s[j..])
    ensures ExponentEnd(s, j) == |s|
  {
    var t := s[j..];
    assert t[0] == s[j] && t[1] == s[j + 1];
    var k := if s[j + 1] == '-' || s[j + 1] == '+' then j + 2 else j + 1;
    forall q | k <= q < |s| ensures IsDecimalChar(s[q]) { assert s[q] == t[k - j..][q - k]; }
    DigitsEndAt(s, k, |s|);
  }

  lemma NumberIsScanned(s: string, whole: string, decimals: string, exponent: string)
    requires IsNumberPrefix(s) && IsNumberOf(s, whole, decimals, exponent)
    ensures NumberLength(s) == |s|
  {
    var i, j := |whole|, |whole| + |decimals|;
    assert s[j..] == exponent;
    forall q | 0 <= q < i ensures IsDecimalChar(s[q]) { assert s[q] == whole[q]; }
    if decimals != "" {
      assert s[i] == decimals[0];
      forall q | i + 1 <= q < j ensures IsDecimalChar(s[q]) { assert s[q] == decimals[1..][q - i - 1]; }
      DigitsEndAt(s, i + 1, j);
    }
    if exponent != "" { assert s[j] == exponent[0]; }
    DigitsEndAt(s, 0, i);
    if j < |s| { ExponentIsScanned(s, j); }
  }

  /** scanPositiveNumber, returning the length of the token. */
  method ScanPositiveNumber(s: string) returns (n: int)
    requires IsNumberPrefix(s)
    ensures n == NumberLength(s)
  {
    var i := ScanDigits(s, 0);
    if i == |s| {
      return i;
    }
    if s[i] != '.' && s[i] != 'e' && s[i] != 'E' {
      return i;
    }
    if s[i] == '.' {
      i := i + 1;
      var j := ScanDigits(s, i);
      if j == i {
        return -1;
      }
      i := j;
      if i == |s| {
        return i;
      }
    }
    if s[i] != 'e' && s[i] != 'E' {
      return i;
    }
    i := i + 1;
    if i == |s| {
      return -1;
    }
    if s[i] == '-' || s[i] == '+' {
      i := i + 1;
    }
    var j := ScanDigits(s, i);
    return if j == i then -1 else j;
  }

  // ----- character ranges and value lists of Graphite paths -----

  /** Where a loop over the body of a bracket or brace list ended:
      rejected, or stopped at position `i`. */
  datatype Stop = Reject | At(i: nat)

  /** The body of `[...]` from position `i`, with the characters seen so far
      and whether a `-` was among them. */
  function RangeBody(s: string, i: nat, count: nat, isRange: bool): (r: (Stop, nat, bool))
    requires i <= |s|
    ensures r.0.At? ==> i <= r.0.i <= |s|
    decreases |s| - i
  {
    if i == |s| then (At(i), count, isRange)
    else if IsIdentChar(s[i]) then RangeBody(s, i + 1, count + 1, isRange)
    else if s[i] == '\\' then
      if i + 2 > |s| then (At(i + 1), count, isRange) else RangeBody(s, i + 2, count + 1, isRange)
    else if s[i] == '^' then
      if i != 1 then (Reject, count, isRange) else RangeBody(s, i + 1, count, isRange)
    else if s[i] == '-' then
      if isRange || i == 1 || i == |s| - 2 || (i < |s| - 1 && s[i + 1] == '-') then (Reject, count, isRange)
      else RangeBody(s, i + 1, count, true)
    else (At(i), count, isRange)
  }

  /** Length of the character range at the start of `s`, or -1. */
  function CharRangeLength(s: string): (n: int)
    ensures n == -1 || 1 < n <= |s|
  {
    if s == [] || s[0] != '[' then -1
    else if DurationLength(s[1..], true) > -1 then -1  // a lookback window, not a range
    else
      var (stop, count, isRange) := RangeBody(s, 1, 0, false);
      if stop.Reject? || stop.i == 1 || stop.i == |s| || s[stop.i] != ']' then -1
      else if isRange && count != 2 then -1
      else stop.i + 1
  }

  // ----- what a bracket expression is made of -----

  function Joined(units: seq<string>): string { if units == [] then "" else units[0] + Joined(units[1..]) }

  /** A character, an escaped one, or the dash of a range. */
  predicate IsUnit(u: string) {
    || (|u| == 1 && (IsIdentChar(u[0]) || u[0] == '-'))
    || (|u| == 2 && u[0] == '\\')
  }

  function Dashes(units: seq<string>): nat { if units == [] then 0 else (if units[0] == "-" then 1 else 0) + Dashes(units[1..]) }

  /** A dash may stand where the body of a bracket expression ends only if
      more text follows the bracket. */
  predicate DashEndsOpen(units: seq<string>, atEnd: bool) { units != [] && units[|units| - 1] == "-" ==> !atEnd }

  /** The body between the bracket, or the caret, and the closing bracket. */
  predicate IsRangeBody(s: string, i: nat, j: nat, units: seq<string>) {
    && 1 <= i <= j < |s| && s[i..j] == Joined(units) && s[j] == ']'
    && (forall u <- units :: IsUnit(u)) && (i == 1 ==> units == [] || units[0] != "-") && DashEndsOpen(units, j == |s| - 1)
  }

  lemma JoinedCons(u: string, units: seq<string>)
    ensures Joined([u] + units) == u + Joined(units) && Dashes([u] + units) == (if u == "-" then 1 else 0) + Dashes(units)
  {
    assert ([u] + units)[1..] == units;
  }

  /** The unit that the loop takes at position `i`. */
  function UnitAt(s: string, i: nat): string
    requires i < |s|
  {
    if s[i] == '\\' && i + 2 <= |s| then s[i..i + 2] else s[i..i + 1]
  }

  lemma {:induction false} UnitsOfRange(s: string, i: nat, count: nat, isRange: bool) returns (units: seq<string>)
    requires 1 <= i <= |s| && !(i == 1 && i < |s| && s[i] == '^')
    requires var stop := RangeBody(s, i, count, isRange).0; stop.At? && stop.i < |s| && s[stop.i] == ']'
    ensures var (stop, c, r) := RangeBody(s, i, count, isRange);
            && IsRangeBody(s, i, stop.i, units) && Dashes(units) + (if isRange then 1 else 0) <= 1
            && c == count + |units| - Dashes(units) && r == (isRange || Dashes(units) > 0)
    decreases |s| - i
  {
    hide RangeBody, IsIdentChar;
    RangeStep(s, i, count, isRange);
    if s[i] == ']' {
      units := [];
      assert s[i..i] == "";
    } else {
      var u := UnitAt(s, i);
      var more := UnitsOfRange(s, i + |u|, if s[i] == '-' then count else count + 1, isRange || s[i] == '-');
      units := [u] + more;
      JoinedCons(u, more);
      var j := RangeBody(s, i, count, isRange).0.i;
      assert s[i..j] == s[i..i + |u|] + s[i + |u|..j];
      assert u == "-" <==> s[i] == '-';
    }
  }

  /** One turn of the loop that does not reject. */
  lemma RangeStep(s: string, i: nat, count: nat, isRange: bool)
    requires 1 <= i <= |s| && !(i == 1 && i < |s| && s[i] == '^')
    requires var stop := RangeBody(s, i, count, isRange).0; stop.At? && stop.i < |s| && s[stop.i] == ']'
    ensures i < |s| && (s[i] == ']' ==> RangeBody(s, i, count, isRange) == (At(i), count, isRange))
    ensures s[i] != ']' ==>
      && IsUnit(UnitAt(s, i)) && i + |UnitAt(s, i)| <= |s|
      && RangeBody(s, i, count, isRange) ==
         RangeBody(s, i + |UnitAt(s, i)|, if s[i] == '-' then count else count + 1, isRange || s[i] == '-')
      && (s[i] == '-' ==> !isRange && i != 1 && i != |s| - 2)
  {
  }

  lemma {:induction false} RangeOfUnits(s: string, i: nat, j: nat, count: nat, isRange: bool, units: seq<string>)
    requires IsRangeBody(s, i, j, units) && Dashes(units) + (if isRange then 1 else 0) <= 1
    ensures RangeBody(s, i, count, isRange) == (At(j), count + |units| - Dashes(units), isRange || Dashes(units) > 0)
    decreases |units|
  {
    if units == [] {
      assert i == j by { assert |s[i..j]| == 0; }
    } else {
      hide IsRangeBody, IsUnit;
      var u, more := units[0], units[1..];
      FirstUnit(s, i, j, units);
      RangeOfUnits(s, i + |u|, j, if u == "-" then count else count + 1, isRange || u == "-", more);
    }
  }

  lemma FirstUnit(s: string, i: nat, j: nat, units: seq<string>)
    requires IsRangeBody(s, i, j, units) && units != []
    ensures var u, k := units[0], i + |units[0]|;
            && k <= j && IsRangeBody(s, k, j, units[1..]) && Dashes(units) == (if u == "-" then 1 else 0) + Dashes(units[1..])
            && s[i..k] == u && (u == "-" ==> s[i] == '-' && i != 1 && i != |s| - 2 && (s[k] == '-' ==> Dashes(units[1..]) > 0))
            && (u != "-" && |u| == 1 ==> IsIdentChar(s[i])) && (|u| != 1 ==> |u| == 2 && s[i] == '\\')
  {
    hide IsIdentChar;
    var u, more := units[0], units[1..];
    assert units == [u] + more && u in units;
    JoinedCons(u, more);
    var k := i + |u|;
    assert s[i..j] == u + Joined(more);
    assert s[i..k] == s[i..j][..|u|] == u && s[k..j] == s[i..j][|u|..] == Joined(more);
    assert s[i] == s[i..k][0];
    NextUnit(s, k, j, more);
  }

  /** What follows a unit is another one or the closing bracket. */
  lemma NextUnit(s: string, k: nat, j: nat, units: seq<string>)
    requires k <= j < |s| && s[k..j] == Joined(units) && s[j] == ']' && forall u <- units :: IsUnit(u)
    ensures if units == [] then k == j else units[0] != "" && s[k] == units[0][0]
    ensures s[k] == '-' <==> units != [] && units[0] == "-"
  {
    if units == [] {
      assert |s[k..j]| == 0;
    } else {
      assert units == [units[0]] + units[1..] && units[0] in units;
      JoinedCons(units[0], units[1..]);
      assert s[k..j][0] == units[0][0];
    }
  }

  /** A bracket expression up to its bracket at `j`: no window, perhaps a
      caret, then units with at most one dash, which is not the first one, and,
      if there is one, two others. */
  ghost predicate IsBracketed(s: string, j: nat) {
    && 1 < j < |s| && s[0] == '[' && DurationLength(s[1..], true) < 0
    && exists i, units :: IsBracketBody(s, i, j, units)
  }

  predicate IsBracketBody(s: string, i: nat, j: nat, units: seq<string>) {
    && IsRangeBody(s, i, j, units) && (i == 1 || (i == 2 && s[1] == '^'))
    && Dashes(units) <= 1 && (Dashes(units) > 0 ==> |units| == 3)
  }

  /** The scanner takes exactly the bracket expressions. */
  lemma CharRangeIsExact(s: string, j: nat)
    ensures CharRangeLength(s) == j + 1 <==> IsBracketed(s, j)
  {
    hide DurationLength;
    if CharRangeLength(s) == j + 1 {
      var i := if s[1] == '^' then 2 else 1;
      var units := UnitsOfRange(s, i, 0, false);
      assert IsBracketBody(s, i, j, units);
    }
    if IsBracketed(s, j) {
      var i, units :| IsBracketBody(s, i, j, units);
      if i == 1 { NoCaretFirst(s, j, units); }
      RangeOfUnits(s, i, j, 0, false, units);
    }
  }

  lemma NoCaretFirst(s: string, j: nat, units: seq<string>)
    requires IsRangeBody(s, 1, j, units)
    ensures s[1] != '^'
  {
    NextUnit(s, 1, j, units);
    if units != [] { assert units[0] in units; }
  }

  method ScanCharRange(s: string) returns (n: int)
    ensures n == CharRangeLength(s)
  {
    if |s| == 0 || s[0] != '[' {
      return -1;
    }
    var d := ScanDuration(s[1..], true);
    if d > -1 {
      return -1;
    }
    var i, charCount, isRange := 1, 0, false;
    ghost var body := RangeBody(s, 1, 0, false);
    while i < |s|
      invariant 1 <= i <= |s| && 0 <= charCount
      invariant RangeBody(s, i, charCount, isRange) == body
    {
      if IsIdentChar(s[i]) {
        i, charCount := i + 1, charCount + 1;
      } else if s[i] == '\\' {
        i := i + 2;
        if i > |s| {
          i := i - 1;
          break;
        }
        charCount := charCount + 1;
      } else if s[i] == '^' {
        if i != 1 {
          return -1;
        }
        i := i + 1;
      } else if s[i] == '-' {
        if isRange {
          return -1;
        }
        if i == 1 || i == |s| - 2 {
          return -1;
        }
        if i < |s| - 1 && s[i + 1] == '-' {
          return -1;
        }
        isRange := true;
        i := i + 1;
      } else {
        break;
      }
    }
    assert body == (At(i), charCount, isRange);
    if i == 1 || i == |s| || s[i] != ']' {
      return -1;
    }
    if isRange && charCount != 2 {
      return -1;
    }
    return i + 1;
  }

  /** The body of `{...}` from position `i`. */
  function ListBody(s: string, i: nat): (r: Stop)
    requires i <= |s|
    ensures r.At? ==> i <= r.i <= |s|
    decreases |s| - i
  {
    if i == |s| then At(i)
    else if IsIdentChar(s[i]) || IsSpaceChar(s[i]) || s[i] == '-' then ListBody(s, i + 1)
    else if s[i] == '\\' then if i + 2 > |s| then At(i + 1) else ListBody(s, i + 2)
    else if s[i] == ',' then
      if i == 1 || i == |s| - 2 || (i < |s| - 1 && s[i + 1] == ',') then Reject else ListBody(s, i + 1)
    else if s[i] == '[' then
      var j := CharRangeLength(s[i..]);
      if j < 0 then Reject else ListBody(s, i + j)
    else At(i)
  }

  /** Length of the value list at the start of `s`, or -1. */
  function ValueListLength(s: string): (n: int)
    ensures n == -1 || 1 < n <= |s|
  {
    if |s| < 2 || s[0] != '{' then -1
    else
      var stop := ListBody(s, 1);
      if stop.Reject? || stop.i == 1 || stop.i == |s| || s[stop.i] != '}' then -1 else stop.i + 1
  }

  // ----- what a brace list is made of -----

  /** A character, an escaped one, a comma between values, or a bracket
      expression; a comma may stand before the brace if more text follows. */
  ghost predicate IsListUnit(s: string, i: nat, u: string) {
    || (|u| == 1 && (IsIdentChar(u[0]) || IsSpaceChar(u[0]) || u[0] == '-'))
    || (|u| == 2 && u[0] == '\\')
    || (u == "," && i != 1 && i != |s| - 2 && (i + 1 < |s| ==> s[i + 1] != ','))
    || (|u| > 2 && i <= |s| && IsBracketed(s[i..], |u| - 1))
  }

  ghost predicate IsListBody(s: string, i: nat, j: nat, units: seq<string>)
    decreases |units|
  {
    if units == [] then i == j < |s| && s[j] == '}'
    else
      var k := i + |units[0]|;
      k <= j <= |s| && s[i..k] == units[0] && IsListUnit(s, i, units[0]) && IsListBody(s, k, j, units[1..])
  }

  /** One turn of the loop that does not reject. */
  lemma ListStep(s: string, i: nat) returns (u: string)
    requires 1 <= i <= |s| && ListBody(s, i).At? && ListBody(s, i).i < |s| && s[ListBody(s, i).i] == '}'
    ensures i < |s| && (s[i] == '}' ==> ListBody(s, i) == At(i))
    ensures s[i] != '}' ==>
      u != "" && i + |u| <= |s| && s[i..i + |u|] == u && IsListUnit(s, i, u) && ListBody(s, i) == ListBody(s, i + |u|)
  {
    hide CharRangeLength, IsBracketed;
    var n := if s[i] == '\\' then 2 else if s[i] == '[' then CharRangeLength(s[i..]) else 1;
    if s[i] == '[' {
      CharRangeIsExact(s[i..], n - 1);
      BracketComesFirst(s[i..], n - 1);
    }
    u := if i + n <= |s| then s[i..i + n] else "";
    assert n == 1 ==> u == [s[i]];
  }

  lemma {:induction false} UnitsOfList(s: string, i: nat) returns (units: seq<string>)
    requires 1 <= i <= |s| && ListBody(s, i).At? && ListBody(s, i).i < |s| && s[ListBody(s, i).i] == '}'
    ensures IsListBody(s, i, ListBody(s, i).i, units)
    decreases |s| - i
  {
    hide ListBody, IsListUnit;
    var u := ListStep(s, i);
    if s[i] == '}' {
      units := [];
    } else {
      var more := UnitsOfList(s, i + |u|);
      units := [u] + more;
      assert units[1..] == more;
    }
  }

  lemma {:induction false} ListOfUnits(s: string, i: nat, j: nat, units: seq<string>)
    requires 1 <= i <= |s| && IsListBody(s, i, j, units)
    ensures ListBody(s, i) == At(j) && j < |s| && s[j] == '}'
    decreases |units|
  {
    hide CharRangeLength, IsBracketed;
    if units != [] {
      var u := units[0];
      if |u| > 2 {
        CharRangeIsExact(s[i..], |u| - 1);
        assert s[i..][0] == '[' by { BracketComesFirst(s[i..], |u| - 1); }
      }
      assert s[i] == u[0];
      ListOfUnits(s, i + |u|, j, units[1..]);
    }
  }

  lemma BracketComesFirst(s: string, j: nat)
    requires IsBracketed(s, j)
    ensures s != "" && s[0] == '[' && j > 1
  {
  }

  /** The scanner takes exactly the brace lists. */
  lemma ValueListIsExact(s: string, j: nat)
    ensures ValueListLength(s) == j + 1 <==> |s| > 1 && s[0] == '{' && exists units :: units != [] && IsListBody(s, 1, j, units)
  {
    hide ListBody, IsListUnit;
    if ValueListLength(s) == j + 1 {
      var units := UnitsOfList(s, 1);
      assert IsListBody(s, 1, j, units);
    }
    if |s| > 1 && s[0] == '{' {
      if units :| units != [] && IsListBody(s, 1, j, units) {
        ListOfUnits(s, 1, j, units);
        UnitsAreSome(s, 1, j, units);
      }
    }
  }

  lemma UnitsAreSome(s: string, i: nat, j: nat, units: seq<string>)
    requires units != [] && IsListBody(s, i, j, units)
    ensures j > i
  {
    hide IsBracketed;
    assert units[0] != "" by { assert IsListUnit(s, i, units[0]); }
  }

  method ScanValueList(s: string) returns (n: int)
    ensures n == ValueListLength(s)
  {
    hide CharRangeLength, IsIdentChar, IsSpaceChar;
    if |s| < 2 || s[0] != '{' {
      return -1;
    }
    var i := 1;
    while i < |s|
      invariant 1 <= i <= |s|
      invariant ListBody(s, i) == ListBody(s, 1)
    {
      if IsIdentChar(s[i]) || IsSpaceChar(s[i]) || s[i] == '-' {
        i := i + 1;
      } else if s[i] == '\\' {
        i := i + 2;
        if i > |s| {
          i := i - 1;
          break;
        }
      } else if s[i] == ',' {
        if i == 1 || i == |s| - 2 {
          return -1;
        }
        if i < |s| - 1 && s[i + 1] == ',' {
          return -1;
        }
        i := i + 1;
      } else if s[i] == '[' {
        var j := ScanCharRange(s[i..]);
        if j < 0 {
          return -1;
        }
        i := i + j;
      } else {
        break;
      }
    }
    assert ListBody(s, 1) == At(i);
    if i == 1 || i == |s| || s[i] != '}' {
      return -1;
    }
    return i + 1;
  }

  // ----- identifiers -----

  predicate IsIdentPrefix(s: string) { s != [] && (s[0] == '\\' || IsFirstIdentChar(s[0])) }

  /** State of the identifier loop: position, whether a dot made it a
      Graphite path, and where a plain identifier would have ended. */
  datatype IdentScan = IdentScan(i: nat, isGraphite: bool, guess: int)

  function IdentBody(s: string, st: IdentScan): (r: IdentScan)
    requires st.i <= |s| && st.guess <= st.i
    ensures st.i <= r.i <= |s| && r.guess <= r.i
    ensures st.guess >= 0 ==> r.guess == st.guess
    ensures st.guess < 0 && r.guess >= 0 ==> st.i <= r.guess
    decreases |s| - st.i
  {
    var i := st.i;
    if i == |s| then st
    else if s[i] == '.' && i < |s| - 1 && s[i + 1] == '.' then st
    else
      var g := st.isGraphite || s[i] == '.';
      if IsIdentChar(s[i]) then IdentBody(s, st.(i := i + 1, isGraphite := g))
      else if IsGraphiteChar(s[i]) then
        IdentBody(s, st.(i := i + 1, guess := if !g && st.guess < 0 then i else st.guess))
      else
        var next := SpecialStep(s, i, g);
        if next.1 then IdentBody(s, st.(i := next.0)) else st.(i := next.0)
  }

  /** Past an escaped character or, in a Graphite path, past a wildcard:
      the position reached and whether the identifier goes on there. */
  function SpecialStep(s: string, i: nat, isGraphite: bool): (r: (nat, bool))
    requires i < |s|
    ensures i <= r.0 <= |s| && (r.1 ==> i < r.0)
  {
    if s[i] == '\\' then if i + 2 > |s| then (i + 1, false) else (i + 2, true)
    else if !isGraphite then (i, false)
    else if s[i] == '*' then (i + 1, true)
    else if s[i] == '{' then
      var j := ValueListLength(s[i..]);
      if j < 0 then (i, false) else (i + j, true)
    else if s[i] == '[' then
      var j := CharRangeLength(s[i..]);
      if j < 0 then (i, false) else (i + j, true)
    else (i, false)
  }

  method ScanSpecial(s: string, i: nat, isGraphite: bool) returns (next: nat, more: bool)
    requires i < |s|
    ensures (next, more) == SpecialStep(s, i, isGraphite)
  {
    if s[i] == '\\' {
      next := i + 2;
      if next > |s| {
        return next - 1, false;
      }
      return next, true;
    }
    if !isGraphite {
      return i, false;
    }
    var j := -1;
    if s[i] == '*' {
      j := 1;
    } else if s[i] == '{' {
      j := ScanValueList(s[i..]);
    } else if s[i] == '[' {
      j := ScanCharRange(s[i..]);
    }
    if j < 0 {
      return i, false;
    }
    return i + j, true;
  }

  /** Length of the identifier or Graphite path at the start of `s`. */
  function IdentLength(s: string): (n: nat)
    requires IsIdentPrefix(s)
    ensures 0 < n <= |s|
  {
    var r := IdentBody(s, IdentScan(0, false, -1));
    assert r == IdentBody(s, IdentScan(if s[0] != '\\' || |s| == 1 then 1 else 2, false, -1));
    if !r.isGraphite && r.guess >= 0 then r.guess else r.i
  }

  lemma DotIsIdentChar()
    ensures IsIdentChar('.')
  {
  }

  /** scanIdent, returning the length of the token. */
  method ScanIdent(s: string) returns (n: nat)
    requires IsIdentPrefix(s)
    ensures n == IdentLength(s)
  {
    hide IsIdentChar, IsGraphiteChar, SpecialStep;
    DotIsIdentChar();
    var i, isGraphite, guess := 0, false, -1;
    ghost var end := IdentBody(s, IdentScan(0, false, -1));
    while i < |s|
      invariant 0 <= i <= |s| && guess <= i
      invariant IdentBody(s, IdentScan(i, isGraphite, guess)) == end
    {
      if s[i] == '.' {
        if i < |s| - 1 && s[i + 1] == '.' {
          break;
        }
        isGraphite := true;
      }
      if IsIdentChar(s[i]) {
        i := i + 1;
        continue;
      }
      if IsGraphiteChar(s[i]) {
        if !isGraphite && guess < 0 {
          guess := i;
        }
        i := i + 1;
        continue;
      }
      var next, more := ScanSpecial(s, i, isGraphite);
      i := next;
      if !more {
        break;
      }
    }
    assert end == IdentScan(i, isGraphite, guess);
    if !isGraphite && guess >= 0 {
      return guess;
    }
    return i;
  }

  // ----- strings -----

  predicate IsStringPrefix(s: string) { s != [] && (s[0] == '"' || s[0] == '\'' || s[0] == '`') }

  /** Reading left to right from just after the opening quote, is the
      character at position `i` escaped by a backslash before it? */
  function IsEscaped(s: string, i: nat): bool
    requires 1 <= i <= |s|
  {
    i > 1 && s[i - 1] == '\\' && !IsEscaped(s, i - 1)
  }

  predicate IsClosingQuote(s: string, i: nat) {
    1 <= i < |s| && s[i] == s[0] && !IsEscaped(s, i)
  }

  /** How many backslashes end right before position `i`. */
  function Backslashes(s: string, i: nat): (n: nat)
    requires i <= |s|
    ensures n <= i
  {
    if i > 0 && s[i - 1] == '\\' then 1 + Backslashes(s, i - 1) else 0
  }

  /** Counting backslashes backwards decides the same as reading forwards. */
  lemma {:induction false} BackwardCountIsForwardScan(s: string, i: nat)
    requires IsStringPrefix(s) && 1 <= i <= |s|
    ensures IsEscaped(s, i) <==> Backslashes(s, i) % 2 == 1
  {
    if i > 1 { BackwardCountIsForwardScan(s, i - 1); }
  }

  /** The first closing quote from position `i` on, or -1. */
  function ClosingQuote(s: string, i: nat): (n: int)
    requires 1 <= i <= |s|
    ensures n == -1 || (i <= n && IsClosingQuote(s, n))
    ensures forall k | i <= k < (if n == -1 then |s| else n) :: !IsClosingQuote(s, k)
    decreases |s| - i
  {
    if i == |s| then -1 else if IsClosingQuote(s, i) then i else ClosingQuote(s, i + 1)
  }

  /** scanString, returning the length of the token: it ends at the first
      quote that is not escaped, and there is none without such a quote. */
  method ScanString(s: string) returns (n: int)
    requires IsStringPrefix(s)
    ensures n == if ClosingQuote(s, 1) < 0 then -1 else ClosingQuote(s, 1) + 1
  {
    if |s| < 2 {
      return -1;
    }
    var quote := s[0];
    var i := 1;
    while true
      invariant 1 <= i <= |s|
      invariant ClosingQuote(s, i) == ClosingQuote(s, 1)
      decreases |s| - i
    {
      var n := IndexOf(s[i..], quote);
      SkipOtherChars(s, i, if n < 0 then |s| else i + n);
      if n < 0 {
        return -1;
      }
      i := i + n;
      var bs := 0;
      while bs < i && s[i - bs - 1] == '\\'
        invariant 0 <= bs <= i
        invariant bs + Backslashes(s, i - bs) == Backslashes(s, i)
      {
        bs := bs + 1;
      }
      BackwardCountIsForwardScan(s, i);
      if bs % 2 == 0 {
        return i + 1;
      }
      i := i + 1;
    }
  }

  lemma {:induction false} SkipOtherChars(s: string, i: nat, j: nat)
    requires IsStringPrefix(s) && 1 <= i <= j <= |s|
    requires s[0] !in s[i..j]
    ensures ClosingQuote(s, i) == ClosingQuote(s, j)
    decreases j - i
  {
    if i < j {
      assert s[i] == s[i..j][0] && s[i + 1..j] == s[i..j][1..];
      SkipOtherChars(s, i + 1, j);
    }
  }
}
