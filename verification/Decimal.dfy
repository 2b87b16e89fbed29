/** Decimal printing (%d, %ld, %lu) and the digit scan of atoi and sscanf. */
module Decimal {

  predicate IsDigit(c: char) { '0' <= c <= '9' }

  function DigitChar(d: nat): (c: char)
    requires d < 10
    ensures IsDigit(c) && DigitValue(c) == d
  {
    '0' + d as char
  }

  function DigitValue(c: char): (d: nat)
    requires IsDigit(c)
    ensures d < 10
  {
    c as int - '0' as int
  }

  predicate AllDigits(s: string) { forall i :: 0 <= i < |s| ==> IsDigit(s[i]) }

  function Digits(n: nat): (s: string)
    ensures s != "" && AllDigits(s)
  {
    if n < 10 then [DigitChar(n)] else Digits(n / 10) + [DigitChar(n % 10)]
  }

  /** %d of any integer. */
  function Print(n: int): string {
    if n < 0 then "-" + Digits(-n) else Digits(n)
  }

  function Value(s: string): nat
    requires AllDigits(s)
  {
    if s == "" then 0 else Value(s[..|s| - 1]) * 10 + DigitValue(s[|s| - 1])
  }

  lemma {:induction false} ValueOfDigits(n: nat)
    ensures Value(Digits(n)) == n
  {
    if n >= 10 {
      ValueOfDigits(n / 10);
      assert Digits(n)[..|Digits(n)| - 1] == Digits(n / 10);
    } else {
      assert [DigitChar(n)][..0] == "";
    }
  }

  /** A number below ten to the k prints in at most k characters. */
  lemma {:induction false} DigitsLength(n: nat, k: nat)
    requires k >= 1 && n < Pow10(k)
    ensures |Digits(n)| <= k
  {
    if n >= 10 {
      assert Pow10(1) == 10 * Pow10(0);
      DigitsLength(n / 10, k - 1);
    }
  }

  function Pow10(k: nat): nat { if k == 0 then 1 else 10 * Pow10(k - 1) }

  /** End of the maximal digit run that starts at `i`. */
  function DigitRun(s: string, i: nat): (j: nat)
    requires i <= |s|
    ensures i <= j <= |s|
    ensures AllDigits(s[i..j])
    ensures j < |s| ==> !IsDigit(s[j])
    decreases |s| - i
  {
    if i < |s| && IsDigit(s[i]) then
      var j := DigitRun(s, i + 1);
      assert forall k :: 0 < k < j - i ==> s[i..j][k] == s[i + 1..j][k - 1];
      j
    else i
  }

  /** The scan stops exactly at the end of a printed number that is not
      followed by another digit, and reads that number back. */
  lemma ScanDigits(s: string, i: nat, n: nat)
    requires i + |Digits(n)| <= |s|
    requires s[i..i + |Digits(n)|] == Digits(n)
    requires i + |Digits(n)| < |s| ==> !IsDigit(s[i + |Digits(n)|])
    ensures DigitRun(s, i) == i + |Digits(n)|
    ensures Value(s[i..DigitRun(s, i)]) == n
  {
    var e := i + |Digits(n)|;
    var j := DigitRun(s, i);
    assert forall k :: i <= k < e ==> s[k] == Digits(n)[k - i];
    assert forall k :: i <= k < j ==> s[k] == s[i..j][k - i];
    ValueOfDigits(n);
  }

  /** isspace in the C locale. */
  predicate IsSpace(c: char) {
    c == ' ' || c == '\t' || c == '\n' || c == '\r' || c as int == 11 || c as int == 12
  }

  function SkipSpaces(s: string, i: nat): (j: nat)
    requires i <= |s|
    ensures i <= j <= |s|
    ensures forall k :: i <= k < j ==> IsSpace(s[k])
    ensures j < |s| ==> !IsSpace(s[j])
    decreases |s| - i
  {
    if i < |s| && IsSpace(s[i]) then SkipSpaces(s, i + 1) else i
  }

  /** The start of the digits after an optional sign. */
  function AfterSign(s: string, i: nat): (j: nat)
    requires i <= |s|
    ensures i <= j <= i + 1 && j <= |s|
  {
    if i < |s| && (s[i] == '-' || s[i] == '+') then i + 1 else i
  }

  /** Value of an optionally signed digit run at `i`. */
  function ScanInt(s: string, i: nat): int
    requires i <= |s|
  {
    var d := AfterSign(s, i);
    var v: int := Value(s[d..DigitRun(s, d)]);
    if i < |s| && s[i] == '-' then -v else v
  }

  /** `text` stands at position i of `s`. */
  ghost predicate StandsAt(s: string, i: nat, text: string) {
    i + |text| <= |s| && forall k :: 0 <= k < |text| ==> s[i + k] == text[k]
  }

  function Abs(n: int): nat { if n < 0 then -n else n }

  /** Where the digits of a printed number start, and what its sign tells. */
  lemma SignOfPrinted(s: string, i: nat, n: int)
    requires StandsAt(s, i, Print(n))
    ensures i < |s| && !IsSpace(s[i]) && (s[i] == '-' <==> n < 0)
    ensures AfterSign(s, i) == (if n < 0 then i + 1 else i) && StandsAt(s, AfterSign(s, i), Digits(Abs(n)))
  {
    var d := Digits(Abs(n));
    assert IsDigit(d[0]);
    assert s[i + 0] == Print(n)[0];
    if n < 0 {
      forall k | 0 <= k < |d| ensures s[(i + 1) + k] == d[k] {
        assert s[i + (1 + k)] == Print(n)[1 + k];
      }
    }
  }

  /** The digits of a printed number are read back when no digit follows it. */
  lemma ScanPrinted(s: string, i: nat, n: int)
    requires StandsAt(s, i, Print(n))
    requires i + |Print(n)| < |s| ==> !IsDigit(s[i + |Print(n)|])
    ensures i < |s| && !IsSpace(s[i]) && (s[i] == '-' <==> n < 0)
    ensures DigitRun(s, AfterSign(s, i)) == i + |Print(n)| > AfterSign(s, i)
    ensures Value(s[AfterSign(s, i)..DigitRun(s, AfterSign(s, i))]) == Abs(n)
  {
    SignOfPrinted(s, i, n);
    ScanStanding(s, AfterSign(s, i), Abs(n));
  }

  lemma ScanStanding(s: string, start: nat, m: nat)
    requires StandsAt(s, start, Digits(m))
    requires start + |Digits(m)| < |s| ==> !IsDigit(s[start + |Digits(m)|])
    ensures DigitRun(s, start) == start + |Digits(m)|
    ensures Value(s[start..DigitRun(s, start)]) == m
  {
    var d := Digits(m);
    assert s[start..start + |d|] == d;
    ScanDigits(s, start, m);
  }

  lemma ScanPrintedInt(s: string, i: nat, n: int)
    requires StandsAt(s, i, Print(n))
    requires i + |Print(n)| < |s| ==> !IsDigit(s[i + |Print(n)|])
    ensures ScanInt(s, i) == n && i < |s| && !IsSpace(s[i])
  {
    ScanPrinted(s, i, n);
  }

  lemma SkipOneSpace(s: string, i: nat)
    requires i + 1 < |s| && s[i] == ' ' && !IsSpace(s[i + 1])
    ensures SkipSpaces(s, i) == i + 1
  {
    assert SkipSpaces(s, i) == SkipSpaces(s, i + 1);
  }
}
