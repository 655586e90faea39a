/** The C library's reading of decimal numbers, and their printing. */
module CString {
  predicate IsDigit(c: char) {
    '0' <= c <= '9'
  }

  predicate AllDigits(s: string) {
    forall i :: 0 <= i < |s| ==> IsDigit(s[i])
  }

  /** isspace in the C locale */
  predicate IsSpace(c: char) {
    c == ' ' || c == '\t' || c == '\n' || c == '\r' || c as int == 11 || c as int == 12
  }

  /** The value of a run of digits. */
  function Decimal(s: string): nat
    requires AllDigits(s)
  {
    if s == "" then 0 else Decimal(s[..|s| - 1]) * 10 + (s[|s| - 1] as int - '0' as int)
  }

  /** The longest prefix of digits. */
  function LeadingDigits(s: string): (d: string)
    ensures AllDigits(d) && d <= s
    ensures |d| < |s| ==> !IsDigit(s[|d|])
  {
    if s != "" && IsDigit(s[0]) then
      var rest := LeadingDigits(s[1..]);
      assert s == [s[0]] + s[1..];
      [s[0]] + rest
    else ""
  }

  /** atoi on numbers that fit. */
  function Atoi(s: string): int {
    if s != "" && IsSpace(s[0]) then Atoi(s[1..])
    else if s != "" && s[0] == '-' then -(Decimal(LeadingDigits(s[1..])) as int)
    else if s != "" && s[0] == '+' then Decimal(LeadingDigits(s[1..]))
    else Decimal(LeadingDigits(s))
  }

  function Print(n: nat): (s: string)
    ensures AllDigits(s) && s != ""
  {
    if n < 10 then [('0' as int + n) as char] else Print(n / 10) + [('0' as int + n % 10) as char]
  }

  lemma {:induction false} DecimalPrint(n: nat)
    ensures Decimal(Print(n)) == n
  {
    var s := Print(n);
    if n < 10 {
      assert s[..0] == "";
    } else {
      DecimalPrint(n / 10);
      assert s[..|s| - 1] == Print(n / 10);
    }
  }

  function Pow10(k: nat): nat {
    if k == 0 then 1 else 10 * Pow10(k - 1)
  }

  lemma {:induction false} PrintLength(n: nat, k: nat)
    requires n < Pow10(k) && 0 < k
    ensures |Print(n)| <= k
  {
    if n >= 10 {
      PrintLength(n / 10, k - 1);
    }
  }

  lemma {:induction false} LeadingDigitsOf(digits: string, rest: string)
    requires AllDigits(digits) && (rest == "" || !IsDigit(rest[0]))
    ensures LeadingDigits(digits + rest) == digits
  {
    if digits == "" {
      assert digits + rest == rest;
    } else {
      assert (digits + rest)[1..] == digits[1..] + rest;
      LeadingDigitsOf(digits[1..], rest);
      assert digits == [digits[0]] + digits[1..];
    }
  }

  /** The blanks are the space and the character codes 9 to 13. */
  lemma BlankCodes(c: char)
    ensures IsSpace(c) <==> c as int == 32 || 9 <= c as int <= 13
  {
  }

  lemma {:induction false} AtoiSkipsBlanks(blanks: string, s: string)
    requires forall i :: 0 <= i < |blanks| ==> IsSpace(blanks[i])
    ensures Atoi(blanks + s) == Atoi(s)
    decreases |blanks|
  {
    if blanks == "" {
      assert blanks + s == s;
    } else {
      assert (blanks + s)[1..] == blanks[1..] + s;
      AtoiSkipsBlanks(blanks[1..], s);
    }
  }

  lemma AtoiOfSign(sign: char, digits: string, rest: string)
    requires AllDigits(digits) && digits != "" && (rest == "" || !IsDigit(rest[0]))
    requires sign == '+' || sign == '-'
    ensures Atoi([sign] + (digits + rest)) == if sign == '-' then -(Decimal(digits) as int) else Decimal(digits)
  {
    var s := [sign] + (digits + rest);
    assert s[0] == sign && s[1..] == digits + rest;
    LeadingDigitsOf(digits, rest);
  }

  /** Blanks are skipped, then one sign is taken, then as many digits as there are. */
  lemma AtoiOfSigned(blanks: string, sign: char, digits: string, rest: string)
    requires forall i :: 0 <= i < |blanks| ==> IsSpace(blanks[i])
    requires AllDigits(digits) && digits != "" && (rest == "" || !IsDigit(rest[0]))
    requires sign == '+' || sign == '-'
    ensures Atoi(blanks + (digits + rest)) == Decimal(digits)
    ensures Atoi(blanks + ([sign] + (digits + rest)))
            == if sign == '-' then -(Decimal(digits) as int) else Decimal(digits)
  {
    AtoiSkipsBlanks(blanks, digits + rest);
    AtoiOfDigits(digits, rest);
    AtoiSkipsBlanks(blanks, [sign] + (digits + rest));
    AtoiOfSign(sign, digits, rest);
  }

  lemma AtoiOfDigits(digits: string, rest: string)
    requires AllDigits(digits) && digits != "" && (rest == "" || !IsDigit(rest[0]))
    ensures Atoi(digits + rest) == Decimal(digits)
  {
    LeadingDigitsOf(digits, rest);
    assert (digits + rest)[0] == digits[0];
  }
}
