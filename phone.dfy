/**
 * Israeli phone-number canonicalisation (src/lib/phone.ts). Every component
 * that stores or looks up a phone number keys on `CanonPhone`.
 */
module Phone {
  import opened Strings
  import opened Options

  /** `s.replace(/\D/g, "")`: keep the decimal digits, in order. */
  function DigitsOf(s: string): (r: string)
    ensures AllDigits(r)
    ensures |r| <= |s|
  {
    if s == [] then []
    else (if IsDigit(s[0]) then [s[0]] else []) + DigitsOf(s[1..])
  }

  lemma {:induction false} DigitsOfDigits(s: string)
    requires AllDigits(s)
    ensures DigitsOf(s) == s
  {
    if s != [] {
      DigitsOfDigits(s[1..]);
    }
  }

  /** Removing non-digits is compositional, so text inserted between digits never matters. */
  lemma {:induction false} DigitsOfConcat(a: string, b: string)
    ensures DigitsOf(a + b) == DigitsOf(a) + DigitsOf(b)
  {
    if a == [] {
      assert a + b == b;
    } else {
      assert (a + b)[0] == a[0];
      assert (a + b)[1..] == a[1..] + b;
      DigitsOfConcat(a[1..], b);
    }
  }

  /** `canonPhone`: a 10-digit local number `0XXXXXXXXX` and a 9-digit
      mobile number whose leading 0 was lost (`5XXXXXXXX`) both become
      `972XXXXXXXXX`; every other digit string is returned as it is. */
  function CanonPhone(input: string): (r: string)
    ensures AllDigits(r)
  {
    var digits := DigitsOf(input);
    if |digits| == 10 && StartsWith(digits, "0") then "972" + digits[1..]
    else if |digits| == 9 && StartsWith(digits, "5") then "972" + digits
    else digits
  }

  /** The three cases of `canonPhone`, stated on the digits of the input. */
  lemma CanonPhoneCases(input: string)
    ensures var d := DigitsOf(input);
            && (|d| == 10 && d[0] == '0' ==> CanonPhone(input) == "972" + d[1..])
            && (|d| == 9 && d[0] == '5' ==> CanonPhone(input) == "972" + d)
            && (!(|d| == 10 && d[0] == '0') && !(|d| == 9 && d[0] == '5') ==> CanonPhone(input) == d)
  {}

  /** Non-digit characters never affect the result. */
  lemma CanonPhoneIgnoresNonDigits(input: string)
    ensures CanonPhone(input) == CanonPhone(DigitsOf(input))
  {
    DigitsOfDigits(DigitsOf(input));
  }

  /** A digit string already in international form is left as it is. */
  lemma CanonPhoneKeepsInternational(s: string)
    requires AllDigits(s) && StartsWith(s, "972")
    ensures CanonPhone(s) == s
  {
    DigitsOfDigits(s);
  }

  /** Canonicalising twice is canonicalising once. */
  lemma CanonPhoneIdempotent(input: string)
    ensures CanonPhone(CanonPhone(input)) == CanonPhone(input)
  {
    var r := CanonPhone(input);
    DigitsOfDigits(r);
    var d := DigitsOf(input);
    if |d| == 10 && StartsWith(d, "0") {
      assert r[0] == '9' && |r| == 12;
    } else if |d| == 9 && StartsWith(d, "5") {
      assert r[0] == '9' && |r| == 12;
    }
  }

  /** The local form, the form with the leading 0 lost, and the international
      form of one Israeli mobile number all canonicalise to the same string. */
  lemma CanonPhoneMobileForms(n: string)
    requires |n| == 9 && AllDigits(n) && n[0] == '5'
    ensures CanonPhone("0" + n) == "972" + n
    ensures CanonPhone(n) == "972" + n
    ensures CanonPhone("972" + n) == "972" + n
    ensures CanonPhone("+972" + n) == "972" + n
  {
    DigitsOfDigits("0" + n);
    assert ("0" + n)[1..] == n;
    DigitsOfDigits(n);
    DigitsOfDigits("972" + n);
    assert "+972" + n == "+" + ("972" + n);
    DigitsOfConcat("+", "972" + n);
    assert DigitsOf("+") == "";
  }

  /** `samePhone`: false when either side is null, undefined or empty,
      otherwise equality of the canonical forms. */
  function SamePhone(a: Option<string>, b: Option<string>): (r: bool)
    ensures r ==> a.Some? && b.Some? && a.value != "" && b.value != ""
  {
    if a.None? || b.None? || a.value == "" || b.value == "" then false
    else CanonPhone(a.value) == CanonPhone(b.value)
  }

  lemma SamePhoneSymmetric(a: Option<string>, b: Option<string>)
    ensures SamePhone(a, b) == SamePhone(b, a)
  {}

  lemma SamePhoneTransitive(a: Option<string>, b: Option<string>, c: Option<string>)
    requires SamePhone(a, b) && SamePhone(b, c)
    ensures SamePhone(a, c)
  {}

  /** Two spellings of one number are the same phone. */
  lemma SamePhoneLocalAndInternational(n: string)
    requires |n| == 9 && AllDigits(n) && n[0] == '5'
    ensures SamePhone(Some("0" + n), Some("+972" + n))
  {
    CanonPhoneMobileForms(n);
  }

  /** Non-empty strings without any digit all count as the same phone:
      each canonicalises to the empty string. */
  lemma SamePhoneDigitless(a: string, b: string)
    requires a != "" && b != "" && DigitsOf(a) == "" && DigitsOf(b) == ""
    ensures SamePhone(Some(a), Some(b))
  {}
}
