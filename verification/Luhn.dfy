/** The card number check digit as the code computes it. */
module Luhn {
  import opened Decimal

  /** The source subtracts '0' from a byte, in a byte: a character other than a digit gives some number
      below 256. For a digit it is the digit's value. */
  function ByteValue(c: char): (d: nat)
    ensures d < 256
    ensures IsDigit(c) ==> d == ValueOf(c)
    ensures c as int < 256 ==> d == if c < '0' then c as int + 208 else c as int - 48
  {
    (c as int - '0' as int) % 256
  }

  /** A digit's contribution, doubled or not, with 9 cast out. */
  function Term(d: nat, double: bool): nat {
    if !double then d else if 2 * d > 9 then 2 * d - 9 else 2 * d
  }

  /** The weighted sum from the last digit to the first, alternating from `double`. */
  function Sum(body: string, double: bool): nat {
    if body == "" then 0 else
      Term(ByteValue(body[|body| - 1]), double) + Sum(body[..|body| - 1], !double)
  }

  /** What is missing to the next multiple of ten. */
  function Complement(sum: nat): (d: nat)
    ensures d < 10 && (sum + d) % 10 == 0
  {
    (10 - sum % 10) % 10
  }

  function CheckDigit(body: string): (d: nat)
    ensures d < 10 && (Sum(body, false) + d) % 10 == 0
  {
    Complement(Sum(body, false))
  }

  /** The loop of the source: the last digit of the body is the first one not doubled. */
  method LuhnCheckDigit(body: string) returns (d: nat)
    ensures d == CheckDigit(body)
  {
    var sum := 0;
    var double := false;
    var i := |body|;
    assert body[..i] == body;
    while i > 0
      invariant 0 <= i <= |body|
      invariant sum + Sum(body[..i], double) == Sum(body, false)
    {
      i := i - 1;
      assert body[..i + 1][..i] == body[..i];
      var digit := ByteValue(body[i]);
      if double {
        digit := digit * 2;
        if digit > 9 { digit := digit - 9; }
      }
      sum := sum + digit;
      double := !double;
    }
    d := (10 - sum % 10) % 10;
  }

  predicate Valid(pan: string) {
    |pan| >= 2 && CheckDigit(pan[..|pan| - 1]) == ByteValue(pan[|pan| - 1])
  }

  method ValidateLuhn(pan: string) returns (ok: bool)
    ensures ok <==> Valid(pan)
  {
    if |pan| < 2 { return false; }
    var expected := ByteValue(pan[|pan| - 1]);
    var d := LuhnCheckDigit(pan[..|pan| - 1]);
    ok := d == expected;
  }

  /** The same sum by positions, from the first digit on: each contributes by its distance from the last. */
  function SumOfFirst(body: string, double: bool, k: nat): nat
    requires k <= |body|
  {
    if k == 0 then 0 else
      SumOfFirst(body, double, k - 1)
      + Term(ByteValue(body[k - 1]), if (|body| - k) % 2 == 0 then double else !double)
  }

  /** The sum has nothing in it but its digits, doubled at every other position counted from the last. */
  lemma {:induction false} SumByPositions(body: string, double: bool)
    ensures Sum(body, double) == SumOfFirst(body, double, |body|)
  {
    if body != "" {
      var n := |body| - 1;
      SumByPositions(body[..n], !double);
      SumOfPrefix(body, double, n);
      hide Sum, Term;
      SumLast(body, double);
    }
  }

  lemma {:induction false} SumOfPrefix(body: string, double: bool, k: nat)
    requires k < |body|
    ensures SumOfFirst(body, double, k) == SumOfFirst(body[..|body| - 1], !double, k)
  {
    hide Term;
    if k > 0 {
      SumOfPrefix(body, double, k - 1);
      OtherParity(|body| - k);
    }
  }

  lemma OtherParity(n: nat)
    requires n > 0
    ensures (n % 2 == 0) <==> ((n - 1) % 2 != 0)
  {
  }

  /** The smallest difference: after 18 the standard wants a 2, and the code a 0. */
  lemma KnownDigits()
    ensures StandardCheckDigit("18") == 2 && CheckDigit("18") == 0
  {
    assert Sum("", true) == 0 && Sum("", false) == 0;
    assert "1"[..0] == "" && "18"[..1] == "1";
    assert Sum("1", true) == 2 && Sum("1", false) == 1;
    assert Sum("18", true) == 8 && Sum("18", false) == 10;
  }

  /** The weighted sum of the whole number: its body, and its last digit undoubled. */
  function Checksum(pan: string): nat
    requires pan != ""
  {
    Sum(pan[..|pan| - 1], false) + ByteValue(pan[|pan| - 1])
  }

  lemma CheckDigitCompletes(sum: nat, d: nat)
    requires d < 10
    ensures Complement(sum) == d <==> (sum + d) % 10 == 0
  {
  }

  /** Validity is one congruence. */
  lemma ValidMeans(pan: string)
    requires |pan| >= 2 && IsDigit(pan[|pan| - 1])
    ensures Valid(pan) <==> Checksum(pan) % 10 == 0
  {
    CheckDigitCompletes(Sum(pan[..|pan| - 1], false), ByteValue(pan[|pan| - 1]));
    hide Sum;
  }

  /** Appending the computed digit always validates. */
  lemma AppendValidates(body: string)
    requires body != ""
    ensures Valid(body + [DigitOf(CheckDigit(body))])
  {
    var pan := body + [DigitOf(CheckDigit(body))];
    assert pan[..|pan| - 1] == body;
  }

  lemma TermInjective(x: nat, y: nat, double: bool)
    requires x < 10 && y < 10
    ensures Term(x, double) < 10 && (Term(x, double) == Term(y, double) <==> x == y)
  {
  }

  /** Whether the digit at `i` is doubled, in a text whose last digit is doubled if `double` says so. */
  function Weight(length: nat, i: nat, double: bool): bool
    requires i < length
  {
    if (length - 1 - i) % 2 == 0 then double else !double
  }

  ghost predicate DifferAt(s: string, t: string, i: nat) {
    |s| == |t| && i < |s| && s[..i] == t[..i] && s[i + 1..] == t[i + 1..]
  }

  lemma DifferShort(s: string, t: string, i: nat)
    requires DifferAt(s, t, i)
    ensures var n := |s| - 1;
      if i < n then DifferAt(s[..n], t[..n], i) && s[n] == t[n] else s[..n] == t[..n]
  {
    var n := |s| - 1;
    if i < n {
      assert s[..n][..i] == s[..i] && t[..n][..i] == t[..i];
      assert s[..n][i + 1..] == s[i + 1..][..n - i - 1];
      assert t[..n][i + 1..] == t[i + 1..][..n - i - 1];
      assert s[i + 1..][n - i - 1] == s[n];
      assert t[i + 1..][n - i - 1] == t[n];
    }
  }

  /** Changing one digit changes the sum by the difference of its two terms. */
  lemma {:induction false} SumChange(s: string, t: string, i: nat, double: bool)
    requires DifferAt(s, t, i)
    ensures Sum(t, double) - Sum(s, double) ==
      Term(ByteValue(t[i]), Weight(|s|, i, double)) - Term(ByteValue(s[i]), Weight(|s|, i, double))
  {
    var n := |s| - 1;
    DifferShort(s, t, i);
    SumLast(s, double);
    SumLast(t, double);
    hide Term, Sum, DifferAt;
    if i < n {
      SumChange(s[..n], t[..n], i, !double);
      WeightShort(n, i, double);
      hide Weight;
    }
  }

  lemma SumLast(s: string, double: bool)
    requires s != ""
    ensures Sum(s, double) == Term(ByteValue(s[|s| - 1]), double) + Sum(s[..|s| - 1], !double)
  {
  }

  lemma WeightShort(n: nat, i: nat, double: bool)
    requires i < n
    ensures Weight(n + 1, i, double) == Weight(n, i, !double)
  {
  }

  /** The weights in a whole number: the last two digits are both undoubled. */
  function PanWeight(length: nat, i: nat): bool
    requires i < length
  {
    i + 1 < length && Weight(length - 1, i, false)
  }

  lemma ChecksumChange(s: string, t: string, i: nat)
    requires DifferAt(s, t, i)
    ensures Checksum(t) - Checksum(s) ==
      Term(ByteValue(t[i]), PanWeight(|s|, i)) - Term(ByteValue(s[i]), PanWeight(|s|, i))
  {
    DifferShort(s, t, i);
    if i + 1 < |s| {
      SumChange(s[..|s| - 1], t[..|s| - 1], i, false);
      hide Sum, Weight, Term;
    }
  }

  lemma CloseMultiples(a: nat, b: nat)
    requires a % 10 == 0 && b % 10 == 0 && -10 < b - a < 10
    ensures a == b
  {
  }

  /** Every change of a single digit of a valid number is detected. */
  lemma SingleChangeDetected(s: string, t: string, i: nat)
    requires AllDigits(s) && AllDigits(t) && |s| >= 2 && DifferAt(s, t, i) && s[i] != t[i] && Valid(s)
    ensures !Valid(t)
  {
    ValidMeans(s);
    ValidMeans(t);
    ChecksumChange(s, t, i);
    TermInjective(ByteValue(s[i]), ByteValue(t[i]), PanWeight(|s|, i));
    hide Checksum, Term, PanWeight, Valid, DifferAt;
    if Valid(t) {
      CloseMultiples(Checksum(s), Checksum(t));
      assert false;
    }
  }

  /** The two digits at `i` and `i + 1` exchanged. */
  function Swapped(s: string, i: nat): string
    requires i + 1 < |s|
  {
    s[i := s[i + 1]][i + 1 := s[i]]
  }

  lemma SwappedDigits(s: string, i: nat)
    requires AllDigits(s) && i + 1 < |s|
    ensures var mid := s[i := s[i + 1]];
      && AllDigits(mid) && AllDigits(Swapped(s, i)) && |Swapped(s, i)| == |s|
      && DifferAt(s, mid, i) && DifferAt(mid, Swapped(s, i), i + 1)
      && Swapped(s, i)[i + 1] == s[i]
  {
  }

  lemma SwapTerms(x: nat, y: nat, double: bool)
    requires x < 10 && y < 10
    ensures (Term(y, double) - Term(x, double) + Term(x, !double) - Term(y, !double)) % 10 == 0
      <==> x == y || (x == 0 && y == 9) || (x == 9 && y == 0)
  {
  }

  lemma SameResidue(a: nat, b: nat)
    requires a % 10 == 0
    ensures b % 10 == 0 <==> (b - a) % 10 == 0
  {
    TensShift(b, a / 10);
    assert b - a == b - 10 * (a / 10);
  }

  lemma TensShift(n: int, q: int)
    ensures (n - 10 * q) % 10 == n % 10
  {
    var r, k := n % 10, n / 10;
    assert n - 10 * q == 10 * (k - q) + r;
  }

  lemma NeighbourWeights(length: nat, i: nat)
    requires i + 1 < length
    ensures PanWeight(length, i + 1) == if i + 2 == length then PanWeight(length, i) else !PanWeight(length, i)
  {
  }

  /** What a swap does to the checksum. */
  lemma SwapChange(s: string, i: nat)
    requires AllDigits(s) && i + 1 < |s|
    ensures AllDigits(Swapped(s, i)) && |Swapped(s, i)| == |s|
    ensures var x, y := ByteValue(s[i]), ByteValue(s[i + 1]);
      var w, w' := PanWeight(|s|, i), PanWeight(|s|, i + 1);
      Checksum(Swapped(s, i)) - Checksum(s) == Term(y, w) - Term(x, w) + Term(x, w') - Term(y, w')
  {
    SwappedDigits(s, i);
    var mid := s[i := s[i + 1]];
    ChecksumChange(s, mid, i);
    ChecksumChange(mid, Swapped(s, i), i + 1);
    hide Checksum, Term, PanWeight, DifferAt, Swapped;
  }

  /** Exchanging two neighbouring digits of a valid number goes unnoticed exactly if they are equal, if
      they are 0 and 9, or if one of them is the check digit: the code weighs the check digit and its
      neighbour alike, where Annex B of ISO/IEC 7812-1 doubles the neighbour. */
  lemma SwapDetectedExactly(s: string, i: nat)
    requires AllDigits(s) && i + 1 < |s| && Valid(s)
    ensures AllDigits(Swapped(s, i))
    ensures Valid(Swapped(s, i)) <==>
      || s[i] == s[i + 1]
      || (s[i] == '0' && s[i + 1] == '9') || (s[i] == '9' && s[i + 1] == '0')
      || i + 2 == |s|
  {
    var t := Swapped(s, i);
    SwapChange(s, i);
    ValidMeans(s);
    ValidMeans(t);
    SameResidue(Checksum(s), Checksum(t));
    NeighbourWeights(|s|, i);
    SwapTerms(ValueOf(s[i]), ValueOf(s[i + 1]), PanWeight(|s|, i));
    SwapCases(s[i], s[i + 1]);
    hide Checksum, Term, PanWeight, Valid, Swapped, ValueOf;
  }

  lemma SwapCases(c: char, d: char)
    requires IsDigit(c) && IsDigit(d)
    ensures ValueOf(c) == ValueOf(d) <==> c == d
    ensures ValueOf(c) == 0 <==> c == '0'
    ensures ValueOf(c) == 9 <==> c == '9'
    ensures ValueOf(d) == 0 <==> d == '0'
    ensures ValueOf(d) == 9 <==> d == '9'
  {
  }

  /** The check digit of Annex B of ISO/IEC 7812-1 doubles the last digit of the body. */
  function StandardCheckDigit(body: string): nat {
    Complement(Sum(body, true))
  }

  /** What doubling a digit adds to its contribution. */
  function Gap(d: nat): int
    requires d < 10
  {
    if d <= 4 then d else d - 9
  }

  /** The gaps of the digits with alternating signs, the last one counting up. */
  function AlternatingGap(body: string): int
    requires AllDigits(body)
  {
    if body == "" then 0 else Gap(ValueOf(body[|body| - 1])) - AlternatingGap(body[..|body| - 1])
  }

  /** Doubling the other half of the digits changes the sum by the alternating gap. */
  lemma {:induction false} SumsDiffer(body: string)
    requires AllDigits(body)
    ensures Sum(body, true) - Sum(body, false) == AlternatingGap(body)
  {
    if body != "" {
      SumsDiffer(body[..|body| - 1]);
      GapIs(ValueOf(body[|body| - 1]));
      hide Term, Gap;
    }
  }

  lemma GapIs(d: nat)
    requires d < 10
    ensures Term(d, true) - Term(d, false) == Gap(d)
  {
  }

  /** Equal residues modulo ten. */
  lemma SameResidues(a: nat, b: nat)
    ensures a % 10 == b % 10 <==> (b - a) % 10 == 0
  {
  }

  lemma ComplementOf(r: nat, q: nat)
    requires r < 10 && q < 10
    ensures (10 - r) % 10 == (10 - q) % 10 <==> r == q
  {
  }

  lemma SameComplement(a: nat, b: nat)
    ensures Complement(a) == Complement(b) <==> (b - a) % 10 == 0
  {
    ComplementOf(a % 10, b % 10);
    SameResidues(a, b);
  }

  lemma OneGap(body: string)
    requires AllDigits(body) && |body| == 1
    ensures AlternatingGap(body) % 10 == 0 <==> body[0] == '0' || body[0] == '9'
  {
    assert body[..0] == "";
    assert AlternatingGap(body) == Gap(ValueOf(body[0]));
    SwapCases(body[0], body[0]);
  }

  /** The code's digit is the standard one exactly if the alternating gap of the body's digits is a
      multiple of ten; for a body of one digit, exactly for 0 and 9. */
  lemma DiffersFromStandard(body: string)
    requires AllDigits(body)
    ensures CheckDigit(body) == StandardCheckDigit(body) <==> AlternatingGap(body) % 10 == 0
    ensures |body| == 1 ==> (CheckDigit(body) == StandardCheckDigit(body) <==> body[0] == '0' || body[0] == '9')
  {
    SameComplement(Sum(body, false), Sum(body, true));
    SumsDiffer(body);
    if |body| == 1 {
      OneGap(body);
    }
    hide Sum, Complement, AlternatingGap;
  }

  /** The generator, with its random digits as a parameter; too short a length gives no number. */
  method GenerateTestPan(bin: string, totalLength: int, random: nat -> nat) returns (pan: string)
    requires forall i :: random(i) < 10
    ensures |bin| >= totalLength ==> pan == ""
    ensures |bin| < totalLength ==> |pan| == totalLength && bin <= pan && AllDigits(pan[|bin|..])
    ensures forall i | |bin| <= i < |pan| - 1 :: pan[i] == DigitOf(random(i - |bin|))
    ensures |bin| < totalLength && totalLength >= 2 ==> Valid(pan)
  {
    if |bin| >= totalLength { return ""; }
    var randomLength := totalLength - 1 - |bin|;
    var body := bin;
    for i := 0 to randomLength
      invariant |body| == |bin| + i && bin <= body && AllDigits(body[|bin|..])
      invariant forall j | |bin| <= j < |body| :: body[j] == DigitOf(random(j - |bin|))
    {
      body := body + [DigitOf(random(i))];
    }
    var check := LuhnCheckDigit(body);
    pan := body + [DigitOf(check)];
    if body != "" {
      AppendValidates(body);
    }
    hide Valid, CheckDigit;
  }
}
