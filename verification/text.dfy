/** The string tests and conversions the handlers apply to request text:
    Python's `isdigit`, `isspace`, `lower` and `strip` restricted to ASCII,
    and the decimal form of the integer ids that arrive in URLs. */
module Text {

  predicate IsAsciiDigit(c: char) {
    '0' as int <= c as int <= '9' as int
  }

  /** `s.isdigit()`: non-empty and made of decimal digits only. */
  predicate IsDigits(s: string) {
    |s| > 0 && forall i :: 0 <= i < |s| ==> IsAsciiDigit(s[i])
  }

  /** `c.isspace()` for ASCII: space, tab to carriage return, and the four
      separator controls 0x1C-0x1F. */
  predicate IsSpace(c: char) {
    c == ' ' || (9 <= c as int <= 13) || (28 <= c as int <= 31)
  }

  /** `not s or s.isspace()`: empty or whitespace only. */
  predicate IsBlank(s: string) {
    forall i :: 0 <= i < |s| ==> IsSpace(s[i])
  }

  /** Some character is not whitespace. */
  ghost predicate HasText(s: string) {
    exists i :: 0 <= i < |s| && !IsSpace(s[i])
  }

  /** Some character is not a decimal digit. */
  ghost predicate HasNonDigit(s: string) {
    exists i :: 0 <= i < |s| && !IsAsciiDigit(s[i])
  }

  /** The two-step name check used throughout the validators (first
      `isdigit`, then `not s or s.isspace()`) passes exactly for strings that
      contain a non-whitespace character and a non-digit character. */
  lemma NameChecksPass(s: string)
    ensures !IsDigits(s) && !IsBlank(s) <==> HasText(s) && HasNonDigit(s)
  {
    if HasText(s) {
      var i :| 0 <= i < |s| && !IsSpace(s[i]);
      assert !IsBlank(s);
    }
    if !IsDigits(s) && !IsBlank(s) {
      var i :| 0 <= i < |s| && !IsSpace(s[i]);
      assert HasText(s);
      if |s| > 0 {
        var j :| 0 <= j < |s| && !IsAsciiDigit(s[j]);
        assert HasNonDigit(s);
      }
    }
  }

  lemma BlankIsNoText(s: string)
    ensures IsBlank(s) <==> !HasText(s)
  {
  }

  predicate IsUpper(c: char) {
    'A' <= c <= 'Z'
  }

  function LowerChar(c: char): char {
    if IsUpper(c) then (c as int + 32) as char else c
  }

  /** `s.lower()` on ASCII letters. */
  function Lower(s: string): (r: string)
    ensures |r| == |s|
    decreases |s|
  {
    if |s| == 0 then [] else [LowerChar(s[0])] + Lower(s[1..])
  }

  /** `Lower` leaves no upper-case letter, keeps every other character, and
      moves each upper-case one to its lower-case partner. */
  lemma LowerShape(s: string)
    ensures forall i :: 0 <= i < |s| ==> !IsUpper(Lower(s)[i])
    ensures forall i :: 0 <= i < |s| && !IsUpper(s[i]) ==> Lower(s)[i] == s[i]
    ensures forall i :: 0 <= i < |s| && IsUpper(s[i]) ==> Lower(s)[i] as int == s[i] as int + 32
  {
    LowerAt(s);
  }

  lemma {:induction false} LowerAt(s: string)
    ensures forall i :: 0 <= i < |s| ==> Lower(s)[i] == LowerChar(s[i])
    decreases |s|
  {
    if |s| > 0 {
      LowerAt(s[1..]);
      assert forall i :: 1 <= i < |s| ==> Lower(s)[i] == Lower(s[1..])[i - 1];
    }
  }

  /** `s.lstrip()`: drops the whitespace at the front; what is left is a
      suffix of `s`. */
  function StripLeft(s: string): (r: string)
    ensures |r| <= |s|
    ensures r == [] || !IsSpace(r[0])
    ensures forall i :: 0 <= i < |r| ==> r[i] == s[|s| - |r| + i]
    ensures forall i :: 0 <= i < |s| - |r| ==> IsSpace(s[i])
    decreases |s|
  {
    if |s| > 0 && IsSpace(s[0]) then StripLeft(s[1..]) else s
  }

  /** `s.rstrip()`: drops the whitespace at the end; what is left is a
      prefix of `s`. */
  function StripRight(s: string): (r: string)
    ensures |r| <= |s|
    ensures r == [] || !IsSpace(r[|r| - 1])
    ensures forall i :: 0 <= i < |r| ==> r[i] == s[i]
    ensures forall i :: |r| <= i < |s| ==> IsSpace(s[i])
    decreases |s|
  {
    if |s| > 0 && IsSpace(s[|s| - 1]) then StripRight(s[..|s| - 1]) else s
  }

  /** `s.strip()`: drops leading and trailing whitespace. */
  function Strip(s: string): (r: string)
    ensures |r| <= |s|
    ensures r == [] || (!IsSpace(r[0]) && !IsSpace(r[|r| - 1]))
  {
    StripRight(StripLeft(s))
  }

  /** The name normalisation `name.lower().strip()`. */
  function Normalize(s: string): string {
    Strip(Lower(s))
  }

  lemma StripKeepsTrimmed(s: string)
    requires s == [] || (!IsSpace(s[0]) && !IsSpace(s[|s| - 1]))
    ensures Strip(s) == s
  {
  }

  lemma LowerOfLower(s: string)
    requires forall i :: 0 <= i < |s| ==> !IsUpper(s[i])
    ensures Lower(s) == s
  {
  }

  /** `Strip` keeps a contiguous run of its input, so it adds no upper-case letter. */
  lemma StripKeepsNoUpper(s: string)
    requires forall i :: 0 <= i < |s| ==> !IsUpper(s[i])
    ensures forall i :: 0 <= i < |Strip(s)| ==> !IsUpper(Strip(s)[i])
  {
    var t := StripLeft(s);
    var r := StripRight(t);
    forall i | 0 <= i < |r|
      ensures !IsUpper(r[i])
    {
      var k := |s| - |t| + i;
      assert r[i] == t[i];
      assert t[i] == s[k];
    }
  }

  /** Normalising twice is normalising once: a stored normalised name is its
      own normal form. */
  lemma {:induction false} NormalizeIdempotent(s: string)
    ensures Normalize(Normalize(s)) == Normalize(s)
  {
    var n := Normalize(s);
    LowerShape(s);
    StripKeepsNoUpper(Lower(s));
    LowerOfLower(n);
    StripKeepsTrimmed(n);
  }

  /** A normalised string carries no outer whitespace and no upper-case letter. */
  lemma NormalizeShape(s: string)
    ensures var n := Normalize(s);
            (n == [] || (!IsSpace(n[0]) && !IsSpace(n[|n| - 1])))
            && forall i :: 0 <= i < |n| ==> !IsUpper(n[i])
  {
    LowerShape(s);
    StripKeepsNoUpper(Lower(s));
  }

  /** A string already in normal form is left alone. */
  lemma NormalFixed(s: string)
    requires forall i :: 0 <= i < |s| ==> !IsUpper(s[i])
    requires s == [] || (!IsSpace(s[0]) && !IsSpace(s[|s| - 1]))
    ensures Normalize(s) == s
  {
    LowerOfLower(s);
    StripKeepsTrimmed(s);
  }

  /** A capitalised word normalises to its lower-case spelling. */
  lemma NormalCapitalised(c: char, t: string)
    requires IsUpper(c)
    requires forall i :: 0 <= i < |t| ==> !IsUpper(t[i])
    requires t == [] || !IsSpace(t[|t| - 1])
    ensures Normalize([c] + t) == [LowerChar(c)] + t
  {
    var s := [c] + t;
    assert s[1..] == t;
    LowerOfLower(t);
    var l := [LowerChar(c)] + t;
    assert Lower(s) == l;
    StripKeepsTrimmed(l);
  }

  function DigitChar(d: nat): (c: char)
    requires d < 10
    ensures IsAsciiDigit(c)
  {
    ('0' as int + d) as char
  }

  /** The integer a string of digits denotes (leading zeros allowed, as in
      the database's cast of the URL id). */
  function DigitsValue(s: string): nat
    requires forall i :: 0 <= i < |s| ==> IsAsciiDigit(s[i])
    decreases |s|
  {
    if |s| == 0 then 0
    else
      assert IsAsciiDigit(s[|s| - 1]);
      DigitsValue(s[..|s| - 1]) * 10 + (s[|s| - 1] as int - '0' as int)
  }

  /** The decimal form of `n`, as `str(n)` writes it. */
  function Decimal(n: nat): (r: string)
    ensures IsDigits(r)
    decreases n
  {
    if n < 10 then [DigitChar(n)]
    else Decimal(n / 10) + [DigitChar(n % 10)]
  }

  /** Reading back the decimal form of `n` gives `n`. */
  lemma {:induction false} DecimalRoundTrip(n: nat)
    ensures DigitsValue(Decimal(n)) == n
    decreases n
  {
    var r := Decimal(n);
    if n >= 10 {
      DecimalRoundTrip(n / 10);
      assert r[..|r| - 1] == Decimal(n / 10);
    }
  }

  /** Distinct numbers have distinct decimal forms. */
  lemma DecimalInjective(m: nat, n: nat)
    requires Decimal(m) == Decimal(n)
    ensures m == n
  {
    DecimalRoundTrip(m);
    DecimalRoundTrip(n);
  }
}
