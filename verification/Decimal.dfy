// Decimal spellings of array indices: what `std::to_string` (and Python's `str`)
// writes and what `std::stoi` reads back.
module Decimal {
  import opened Common
  import opened DebugTypes

  predicate IsDigit(c: char) {
    '0' <= c <= '9'
  }

  function DigitValue(c: char): nat
    requires IsDigit(c)
  {
    c as int - '0' as int
  }

  function DigitChar(d: nat): (c: char)
    requires d < 10
    ensures IsDigit(c) && DigitValue(c) == d
  {
    (d + '0' as int) as char
  }

  function ToString(n: nat): (s: string)
    ensures s != "" && forall k :: 0 <= k < |s| ==> IsDigit(s[k])
  {
    if n < 10 then [DigitChar(n)] else ToString(n / 10) + [DigitChar(n % 10)]
  }

  /** The number spelled by a string of digits, most significant first. */
  function DigitsValue(s: string): nat
    requires forall k :: 0 <= k < |s| ==> IsDigit(s[k])
  {
    if s == "" then 0 else 10 * DigitsValue(s[..|s| - 1]) + DigitValue(s[|s| - 1])
  }

  function SkipSpaces(s: string): string {
    if s != "" && (s[0] == ' ' || 9 <= s[0] as int <= 13) then SkipSpaces(s[1..]) else s
  }

  function LeadingDigits(s: string): (d: string)
    ensures forall k :: 0 <= k < |d| ==> IsDigit(d[k])
  {
    if s != "" && IsDigit(s[0]) then [s[0]] + LeadingDigits(s[1..]) else ""
  }

  /** `std::stoi`: leading blanks, an optional sign, the longest run of digits, and
      whatever follows ignored. `None` is the exception it throws when there is no
      digit or the number does not fit an `int`. */
  function Stoi(s: string): Option<int> {
    var t := SkipSpaces(s);
    var negative := t != "" && t[0] == '-';
    var u := if t != "" && (t[0] == '-' || t[0] == '+') then t[1..] else t;
    var d := LeadingDigits(u);
    if d == "" then None
    else
      var n: int := DigitsValue(d);
      var v := if negative then -n else n;
      if -INT_MAX - 1 <= v <= INT_MAX then Some(v) else None
  }

  lemma {:induction false} LeadingDigitsOfDigits(s: string)
    requires forall k :: 0 <= k < |s| ==> IsDigit(s[k])
    ensures LeadingDigits(s) == s
  {
    if s != "" {
      LeadingDigitsOfDigits(s[1..]);
      assert s == [s[0]] + s[1..];
    }
  }

  lemma {:induction false} DigitsValueOfToString(n: nat)
    ensures DigitsValue(ToString(n)) == n
  {
    var s := ToString(n);
    if n >= 10 {
      DigitsValueOfToString(n / 10);
      assert s[..|s| - 1] == ToString(n / 10);
    } else {
      assert s[..|s| - 1] == "";
    }
  }

  /** Reading back a written index gives the index, for every index an `int` holds. */
  lemma StoiOfToString(n: nat)
    ensures Stoi(ToString(n)) == if n <= INT_MAX then Some(n) else None
  {
    var s := ToString(n);
    assert IsDigit(s[0]);
    assert SkipSpaces(s) == s;
    LeadingDigitsOfDigits(s);
    DigitsValueOfToString(n);
  }

  // ---- What numerals are ----

  /** A numeral has no leading zero, and appending a digit to it counts ten times what
      was there. */
  lemma Numerals(q: nat, d: nat)
    requires d < 10
    ensures ToString(d) == ["0123456789"[d]]
    ensures q > 0 ==> ToString(10 * q + d) == ToString(q) + ["0123456789"[d]]
  {
    assert (10 * q + d) / 10 == q && (10 * q + d) % 10 == d;
  }

  predicate Blank(c: char) {
    c == ' ' || c == '\t' || c == '\n' || 11 as char <= c <= 12 as char || c == '\r'
  }

  predicate Digits(s: string) {
    forall k | 0 <= k < |s| :: IsDigit(s[k])
  }

  /** How `std::stoi` takes a string apart. */
  predicate Parts(s: string, blanks: string, sign: string, digits: string, rest: string) {
    && s == blanks + (sign + (digits + rest))
    && (forall k | 0 <= k < |blanks| :: Blank(blanks[k]))
    && sign in {"", "-", "+"}
    && Digits(digits)
    && (sign == "" && digits == "" && rest != "" ==> !Blank(rest[0]) && rest[0] != '-' && rest[0] != '+')
    && (rest != "" ==> !IsDigit(rest[0]))
  }

  /** The number read is that of the digits behind blanks and sign, negative with a minus
      sign; without digits, or if it does not fit an `int`, there is none. */
  lemma StoiExact(s: string, blanks: string, sign: string, digits: string, rest: string)
    requires Parts(s, blanks, sign, digits, rest)
    ensures Stoi(s) ==
            if digits == "" then None else
            var v: int := if sign == "-" then 0 - DigitsValue(digits) else DigitsValue(digits);
            if -0x8000_0000 <= v < 0x8000_0000 then Some(v) else None
  {
    var t := sign + (digits + rest);
    BlanksSkipped(blanks, t);
    DigitsLead(digits, rest);
    if sign == "" { assert t == digits + rest; } else { assert t[1..] == digits + rest; }
  }

  /** Every string has such parts. */
  lemma {:induction false} HasParts(s: string)
      returns (blanks: string, sign: string, digits: string, rest: string)
    ensures Parts(s, blanks, sign, digits, rest)
  {
    if s != "" && Blank(s[0]) {
      blanks, sign, digits, rest := HasParts(s[1..]);
      blanks := [s[0]] + blanks;
    } else {
      blanks, sign := "", if s != "" && s[0] in "+-" then [s[0]] else "";
      digits, rest := TakeDigits(s[|sign|..]);
    }
  }

  lemma {:induction false} TakeDigits(s: string) returns (digits: string, rest: string)
    ensures s == digits + rest && Digits(digits) && (rest != "" ==> !IsDigit(rest[0]))
  {
    if s != "" && IsDigit(s[0]) {
      digits, rest := TakeDigits(s[1..]);
      digits := [s[0]] + digits;
    } else {
      digits, rest := "", s;
    }
  }

  lemma {:induction false} BlanksSkipped(blanks: string, t: string)
    requires (forall k | 0 <= k < |blanks| :: Blank(blanks[k])) && (t != "" ==> !Blank(t[0]))
    ensures SkipSpaces(blanks + t) == t
  {
    if blanks == "" {
      assert blanks + t == t;
    } else {
      assert (blanks + t)[1..] == blanks[1..] + t;
      BlanksSkipped(blanks[1..], t);
    }
  }

  lemma {:induction false} DigitsLead(digits: string, rest: string)
    requires Digits(digits) && (rest != "" ==> !IsDigit(rest[0]))
    ensures LeadingDigits(digits + rest) == digits
  {
    if digits == "" {
      assert digits + rest == rest;
    } else {
      assert (digits + rest)[1..] == digits[1..] + rest;
      DigitsLead(digits[1..], rest);
      assert digits == [digits[0]] + digits[1..];
    }
  }

  lemma ToStringInjective(m: nat, n: nat)
    requires ToString(m) == ToString(n)
    ensures m == n
  {
    DigitsValueOfToString(m);
    DigitsValueOfToString(n);
  }
}
