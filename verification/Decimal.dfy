/** Decimal text of integers, and the library conversions `stoll` and `stoull` that read it back. */
module Decimal {
  import opened Word
  import opened Options

  predicate IsDigit(c: char) {
    '0' <= c <= '9'
  }

  predicate AllDigits(s: string) {
    forall i | 0 <= i < |s| :: IsDigit(s[i])
  }

  function DigitOf(d: nat): (c: char)
    requires d < 10
    ensures IsDigit(c) && ValueOf(c) == d
  {
    ('0' as int + d) as char
  }

  function ValueOf(c: char): (d: nat)
    requires IsDigit(c)
    ensures d < 10
  {
    c as int - '0' as int
  }

  function PrintNat(n: nat): (s: string)
    ensures |s| > 0 && AllDigits(s) && Value(s) == n
  {
    if n < 10 then [DigitOf(n)] else PrintNat(n / 10) + [DigitOf(n % 10)]
  }

  function PrintInt(x: int): string {
    if x < 0 then "-" + PrintNat(-x) else PrintNat(x)
  }

  function Value(s: string): nat
    requires AllDigits(s)
  {
    if s == "" then 0 else 10 * Value(s[..|s| - 1]) + ValueOf(s[|s| - 1])
  }

  /** How many digits the text starts with. */
  function DigitRun(s: string): (k: nat)
    ensures k <= |s| && AllDigits(s[..k]) && (k < |s| ==> !IsDigit(s[k]))
  {
    if s == "" || !IsDigit(s[0]) then 0
    else
      var k := DigitRun(s[1..]);
      assert s[..k + 1] == [s[0]] + s[1..][..k];
      k + 1
  }

  predicate IsSpace(c: char) {
    c == ' ' || '\t' <= c <= '\r'
  }

  function SkipSpace(s: string): string {
    if s != "" && IsSpace(s[0]) then SkipSpace(s[1..]) else s
  }

  /** White space, an optional sign, then as many digits as there are; anything after is ignored. */
  function ReadNumber(s: string): Option<(bool, nat)> {
    var t := SkipSpace(s);
    var signed := t != "" && (t[0] == '-' || t[0] == '+');
    var body := if signed then t[1..] else t;
    var k := DigitRun(body);
    if k == 0 then None else Some((signed && t[0] == '-', Value(body[..k])))
  }

  /** `stoll`: None is the exception for no digits, or for a value outside `int64_t`. */
  function StoLL(s: string): Option<int64> {
    match ReadNumber(s)
    case None => None
    case Some((negative, n)) =>
      var m: int := n;
      var x := if negative then -m else m;
      if FitsInt64(x) then Some(x) else None
  }

  /** `stoull`: a minus sign negates in unsigned arithmetic. */
  function StoULL(s: string): Option<uint64> {
    match ReadNumber(s)
    case None => None
    case Some((negative, n)) =>
      var m: int := n;
      if m >= TWO_TO_64 then None else Some(if negative then Unsigned(-m) else m)
  }

  /** Text that a printed number may be followed by without being read differently. */
  predicate Stops(tail: string) {
    tail == "" || !IsDigit(tail[0])
  }

  lemma {:induction false} DigitRunStops(digits: string, tail: string)
    requires AllDigits(digits) && Stops(tail)
    ensures DigitRun(digits + tail) == |digits|
  {
    if digits == "" {
      assert digits + tail == tail;
    } else {
      assert (digits + tail)[1..] == digits[1..] + tail;
      DigitRunStops(digits[1..], tail);
    }
  }

  lemma ReadDigits(digits: string, tail: string)
    requires AllDigits(digits) && digits != "" && Stops(tail)
    ensures ReadNumber(digits + tail) == Some((false, Value(digits)))
    ensures ReadNumber("-" + (digits + tail)) == Some((true, Value(digits)))
  {
    hide Value;
    var body := digits + tail;
    DigitRunStops(digits, tail);
    assert body[..|digits|] == digits;
    assert body[0] == digits[0];
    assert ("-" + body)[1..] == body;
    assert SkipSpace(body) == body && SkipSpace("-" + body) == "-" + body;
  }

  lemma ReadPrinted(x: int, tail: string)
    requires Stops(tail)
    ensures ReadNumber(PrintInt(x) + tail) == Some((x < 0, if x < 0 then -x else x))
  {
    var digits := PrintNat(if x < 0 then -x else x);
    ReadDigits(digits, tail);
    hide ReadNumber, PrintNat, Value;
    assert "-" + digits + tail == "-" + (digits + tail);
  }

  /** Printing and reading back is the identity on every machine value, whatever text follows. */
  lemma SignedRoundTrip(x: int64, tail: string)
    requires Stops(tail)
    ensures StoLL(PrintInt(x) + tail) == Some(x)
  {
    ReadPrinted(x, tail);
  }

  lemma UnsignedRoundTrip(x: int, tail: string)
    requires Stops(tail) && -TWO_TO_64 < x < TWO_TO_64
    ensures StoULL(PrintInt(x) + tail) == Some(Unsigned(x))
  {
    ReadPrinted(x, tail);
  }

  /** How a number is printed: digits without a leading zero, after a minus sign if it is negative. */
  lemma PrintedForm(x: int)
    ensures x < 0 ==> PrintInt(x) == "-" + PrintInt(-x)
    ensures x >= 0 ==> AllDigits(PrintInt(x)) && Value(PrintInt(x)) == x
    ensures x > 0 ==> PrintInt(x)[0] != '0'
    ensures PrintInt(0) == "0"
  {
    if x > 0 {
      NoLeadingZero(x);
    }
  }

  lemma {:induction false} NoLeadingZero(n: nat)
    requires n > 0
    ensures PrintNat(n)[0] != '0'
  {
    if n >= 10 {
      NoLeadingZero(n / 10);
    }
  }

  /** The six white-space characters of the C locale. */
  lemma SpacesAre(c: char)
    ensures IsSpace(c) <==> c as int in {0x20, 0x09, 0x0a, 0x0b, 0x0c, 0x0d}
  {
  }

  lemma {:induction false} SkipsSpaces(spaces: string, rest: string)
    requires (forall i | 0 <= i < |spaces| :: IsSpace(spaces[i])) && (rest == "" || !IsSpace(rest[0]))
    ensures SkipSpace(spaces + rest) == rest
  {
    if spaces == "" {
      assert spaces + rest == rest;
    } else {
      assert (spaces + rest)[1..] == spaces[1..] + rest;
      SkipsSpaces(spaces[1..], rest);
    }
  }

  /** What the conversions accept: any white space, at most one sign, digits, and then anything. */
  lemma Accepted(spaces: string, sign: string, digits: string, tail: string)
    requires forall i | 0 <= i < |spaces| :: IsSpace(spaces[i])
    requires sign in {"", "+", "-"} && AllDigits(digits) && digits != "" && Stops(tail)
    ensures ReadNumber(spaces + (sign + (digits + tail))) == Some((sign == "-", Value(digits)))
  {
    var body := digits + tail;
    assert IsDigit(body[0]);
    SkipsSpaces(spaces, sign + body);
    DigitRunStops(digits, tail);
    assert body[..|digits|] == digits;
    hide SkipSpace, DigitRun, Value, IsSpace, IsDigit, AllDigits;
    if sign == "" {
      assert sign + body == body;
    } else {
      assert (sign + body)[1..] == body;
    }
  }

  /** And what they refuse: text without a digit there. */
  lemma Refused(spaces: string, sign: string, tail: string)
    requires forall i | 0 <= i < |spaces| :: IsSpace(spaces[i])
    requires sign in {"", "+", "-"} && Stops(tail)
    requires sign == "" ==> tail == "" || (!IsSpace(tail[0]) && tail[0] != '+' && tail[0] != '-')
    ensures ReadNumber(spaces + (sign + tail)) == None
  {
    SkipsSpaces(spaces, sign + tail);
    hide SkipSpace;
    if sign == "" {
      assert sign + tail == tail;
    } else {
      assert (sign + tail)[1..] == tail;
    }
  }

  /** Values beyond the type's range are refused; `stoull` turns a negative value into its complement. */
  lemma Ranges(s: string, negative: bool, n: nat)
    requires ReadNumber(s) == Some((negative, n))
    ensures StoLL(s).Some? <==> if negative then n <= 0x8000_0000_0000_0000 else n <= 0x7fff_ffff_ffff_ffff
    ensures StoULL(s).Some? <==> n <= 0xffff_ffff_ffff_ffff
    ensures StoULL(s).Some? && negative && n > 0 ==> StoULL(s).value == 0x1_0000_0000_0000_0000 - n
  {
    hide ReadNumber;
  }
}
