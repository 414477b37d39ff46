/** `parseInt(s)` with the default radix on decimal input: leading white
    space, an optional sign, then the longest run of decimal digits; no digit
    at all is NaN (None). The digits' decimal rendering of a number is its
    inverse. */
module Numbers {
  import opened Common
  import opened Text

  function DigitValue(c: char): int {
    c as int - '0' as int
  }

  function DigitChar(d: int): char
    requires 0 <= d < 10
  {
    (d + '0' as int) as char
  }

  /** The longest prefix of decimal digits. */
  function LeadingDigits(s: string): (r: string)
    ensures |r| <= |s| && r == s[..|r|]
    ensures forall i :: 0 <= i < |r| ==> IsDigit(r[i])
    ensures |r| < |s| ==> !IsDigit(s[|r|])
  {
    if |s| > 0 && IsDigit(s[0]) then [s[0]] + LeadingDigits(s[1..]) else ""
  }

  /** The value of a digit string, most significant digit first. */
  function DecimalValue(ds: string): int
    decreases |ds|
  {
    if |ds| == 0 then 0 else DecimalValue(ds[..|ds| - 1]) * 10 + DigitValue(ds[|ds| - 1])
  }

  /** `parseInt(s)`: leading white space is skipped, then the sign and digits
      are read. None stands for NaN. */
  function ParseInt(s: string): Option<int>
    decreases |s|
  {
    if |s| > 0 && IsSpace(s[0]) then ParseInt(s[1..]) else ParseSigned(s)
  }

  /** Skipping white space one character at a time is reading what is left
      once the string is trimmed at the start. */
  lemma {:induction false} ParseIntReadsTrimmed(s: string)
    ensures ParseInt(s) == ParseSigned(TrimStart(s))
    decreases |s|
  {
    if |s| > 0 && IsSpace(s[0]) {
      ParseIntReadsTrimmed(s[1..]);
    }
  }

  /** An optional sign and the digit run after it. */
  function ParseSigned(t: string): Option<int> {
    var ds := LeadingDigits(SignlessBody(t));
    if |ds| == 0 then None
    else if IsNegative(t) then Some(-DecimalValue(ds))
    else Some(DecimalValue(ds))
  }

  predicate IsNegative(t: string) {
    |t| > 0 && t[0] == '-'
  }

  /** The text after an optional leading sign. */
  function SignlessBody(t: string): string {
    if |t| > 0 && (t[0] == '-' || t[0] == '+') then t[1..] else t
  }

  /** The decimal rendering of a natural number, without leading zeros. */
  function ShowNat(n: nat): (s: string)
    ensures |s| > 0
    ensures forall i :: 0 <= i < |s| ==> IsDigit(s[i])
  {
    if n < 10 then [DigitChar(n)] else ShowNat(n / 10) + [DigitChar(n % 10)]
  }

  /** Reading the rendering back gives the number. */
  lemma {:induction false} DecimalValueOfShow(n: nat)
    ensures DecimalValue(ShowNat(n)) == n
  {
    var s := ShowNat(n);
    if n >= 10 {
      DecimalValueOfShow(n / 10);
      assert s[..|s| - 1] == ShowNat(n / 10);
    } else {
      assert s[..0] == "";
    }
  }

  /** The digit run of a digit string followed by a non-digit is that string. */
  lemma {:induction false} LeadingDigitsOfRun(ds: string, rest: string)
    requires forall i :: 0 <= i < |ds| ==> IsDigit(ds[i])
    requires |rest| == 0 || !IsDigit(rest[0])
    ensures LeadingDigits(ds + rest) == ds
    decreases |ds|
  {
    if |ds| > 0 {
      LeadingDigitsOfRun(ds[1..], rest);
      assert (ds + rest)[1..] == ds[1..] + rest;
    } else {
      assert ds + rest == rest;
    }
  }

  /** A digit run followed by a non-digit reads as the run's value, negated
      after a minus sign. */
  lemma ParseSignedRun(ds: string, rest: string)
    requires |ds| > 0 && forall i :: 0 <= i < |ds| ==> IsDigit(ds[i])
    requires |rest| == 0 || !IsDigit(rest[0])
    ensures ParseSigned(ds + rest) == Some(DecimalValue(ds))
  {
    LeadingDigitsOfRun(ds, rest);
    var t := ds + rest;
    assert t[0] == ds[0];
    assert !IsNegative(t);
    assert SignlessBody(t) == t;
  }

  lemma ParseSignedRunNegative(ds: string, rest: string)
    requires |ds| > 0 && forall i :: 0 <= i < |ds| ==> IsDigit(ds[i])
    requires |rest| == 0 || !IsDigit(rest[0])
    ensures ParseSigned("-" + (ds + rest)) == Some(-DecimalValue(ds))
  {
    LeadingDigitsOfRun(ds, rest);
    var t := ds + rest;
    var u := "-" + t;
    assert u[1..] == t;
    assert IsNegative(u);
    assert SignlessBody(u) == t;
    ParseSignedNegative(u, ds);
  }

  lemma ParseSignedNegative(u: string, ds: string)
    requires IsNegative(u) && |ds| > 0 && LeadingDigits(SignlessBody(u)) == ds
    ensures ParseSigned(u) == Some(-DecimalValue(ds))
  {
  }

  /** Text that starts with no white space is read as it stands. */
  lemma ParseIntUntrimmed(u: string)
    requires |u| > 0 && !IsSpace(u[0])
    ensures ParseInt(u) == ParseSigned(u)
  {
  }

  /** A digit run, optionally after a minus sign, read by `parseInt`. */
  lemma ParseIntRun(ds: string, rest: string)
    requires |ds| > 0 && forall i :: 0 <= i < |ds| ==> IsDigit(ds[i])
    requires |rest| == 0 || !IsDigit(rest[0])
    ensures ParseInt(ds + rest) == Some(DecimalValue(ds))
  {
    assert (ds + rest)[0] == ds[0];
    ParseIntUntrimmed(ds + rest);
    ParseSignedRun(ds, rest);
  }

  lemma ParseIntRunNegative(ds: string, rest: string, v: int)
    requires |ds| > 0 && forall i :: 0 <= i < |ds| ==> IsDigit(ds[i])
    requires |rest| == 0 || !IsDigit(rest[0])
    requires DecimalValue(ds) == v
    ensures ParseInt("-" + (ds + rest)) == Some(-v)
  {
    ParseIntUntrimmed("-" + (ds + rest));
    ParseSignedRunNegative(ds, rest);
  }

  /** `parseInt` undoes the decimal rendering, and stops at the first
      character that is not a digit: `parseInt("12abc")` is 12. */
  lemma ParseIntShow(n: nat, rest: string)
    requires |rest| == 0 || !IsDigit(rest[0])
    ensures ParseInt(ShowNat(n) + rest) == Some(n)
  {
    ParseIntRun(ShowNat(n), rest);
    DecimalValueOfShow(n);
  }

  /** A minus sign in front negates. */
  lemma ParseIntShowNegative(n: nat, rest: string)
    requires |rest| == 0 || !IsDigit(rest[0])
    ensures ParseInt("-" + (ShowNat(n) + rest)) == Some(-(n as int))
  {
    DecimalValueOfShow(n);
    ParseIntRunNegative(ShowNat(n), rest, n);
  }

  /** Text without any digit after the white space and sign is NaN. */
  lemma ParseIntNaN(s: string)
    requires forall i :: 0 <= i < |s| ==> !IsDigit(s[i])
    ensures ParseInt(s).None?
  {
  }
}
