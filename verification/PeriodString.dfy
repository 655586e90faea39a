/** Period strings such as 2d10h30m45s (src/governor_config.c). */
module PeriodString {
  import opened Data
  import opened CString

  const MAX_VAL_LEN := 10
  const TWO32 := 0x1_0000_0000

  /** Unsigned 32-bit arithmetic. */
  function Wrap(n: nat): (w: nat)
    ensures w < TWO32 && (n < TWO32 ==> w == n)
  {
    if n < TWO32 then n else Wrap(n - TWO32)
  }

  lemma {:induction false} WrapIsModulo(n: nat)
    ensures Wrap(n) == n % TWO32
  {
    if n >= TWO32 {
      WrapIsModulo(n - TWO32);
    }
  }

  lemma {:induction false} WrapAdd(a: nat, b: nat)
    ensures Wrap(Wrap(a) + b) == Wrap(a + b)
  {
    if a >= TWO32 {
      WrapAdd(a - TWO32, b);
    }
  }

  lemma {:induction false} WrapMultiple(a: nat, k: nat)
    ensures Wrap(a + TWO32 * k) == Wrap(a)
  {
    if k > 0 {
      WrapMultiple(a, k - 1);
    }
  }

  lemma {:induction false} WrapTimes(a: nat, b: nat)
    ensures Wrap(Wrap(a) * b) == Wrap(a * b)
  {
    if a >= TWO32 {
      WrapTimes(a - TWO32, b);
      assert a * b == (a - TWO32) * b + TWO32 * b;
      WrapMultiple((a - TWO32) * b, b);
    }
  }

  /** The seconds, or None when the program prints an error and exits. */
  type Result = Option<nat>

  function UnitSeconds(unit: char): nat {
    match unit
    case 's' => 1
    case 'S' => 1
    case 'm' => 60
    case 'M' => 60
    case 'h' => 3600
    case 'H' => 3600
    case 'd' => 86400
    case 'D' => 86400
    case _ => 1
  }

  /** get_seconds, in unsigned arithmetic; sscanf finds no number in an empty string. */
  function GetSeconds(value: string, unit: char): Result
    requires AllDigits(value)
  {
    if value == "" then None else Some(Wrap(Wrap(Decimal(value)) * UnitSeconds(unit)))
  }

  /** The rest of the string, with the digits read since the last unit and the sum so far. */
  function Scan(rest: string, value: string, result: nat): Result
    requires AllDigits(value)
  {
    if rest == "" then Some(result)
    else if IsDigit(rest[0]) then
      if |value| >= MAX_VAL_LEN then None else Scan(rest[1..], value + [rest[0]], result)
    else
      var seconds := GetSeconds(value, rest[0]);
      if seconds.None? then None else Scan(rest[1..], "", Wrap(result + seconds.value))
  }

  /** atoi of a string that passed the scan: it starts with a digit, or is empty. */
  function Fallback(period: string): nat {
    Decimal(LeadingDigits(period))
  }

  lemma FallbackIsAtoi(period: string)
    requires Scan(period, "", 0).Some?
    ensures Fallback(period) == Atoi(period)
  {
  }

  function Parse(period: string): Result {
    var result := Scan(period, "", 0);
    if result == Some(0) then Some(Wrap(Fallback(period))) else result
  }

  method GetSecondsOf(value: string, unit: char) returns (r: Result)
    requires AllDigits(value)
    ensures r == GetSeconds(value, unit)
  {
    if value == "" {
      return None;
    }
    var val := Wrap(Decimal(value));
    match unit {
      case 's' => return Some(val);
      case 'S' => return Some(val);
      case 'm' => return Some(Wrap(val * 60));
      case 'M' => return Some(Wrap(val * 60));
      case 'h' => return Some(Wrap(val * 60 * 60));
      case 'H' => return Some(Wrap(val * 60 * 60));
      case 'd' => return Some(Wrap(val * 60 * 60 * 24));
      case 'D' => return Some(Wrap(val * 60 * 60 * 24));
      case _ => return Some(val);
    }
  }

  /** The loop over the string with its buffer of digits. */
  method ParsePeriod(period: string) returns (r: Result)
    ensures r == Parse(period)
  {
    var value := new char[MAX_VAL_LEN];
    var pos := 0;
    var result: nat := 0;
    var index := 0;
    while index < |period|
      invariant 0 <= index <= |period| && 0 <= pos <= MAX_VAL_LEN
      invariant AllDigits(value[..pos])
      invariant Scan(period, "", 0) == Scan(period[index..], value[..pos], result)
    {
      assert period[index..][0] == period[index] && period[index..][1..] == period[index + 1..];
      if IsDigit(period[index]) {
        if pos >= MAX_VAL_LEN {
          return None;
        }
        ghost var before := value[..pos];
        value[pos] := period[index];
        pos := pos + 1;
        assert value[..pos] == before + [period[index]];
      } else {
        var seconds := GetSecondsOf(value[..pos], period[index]);
        pos := 0;
        if seconds.None? {
          return None;
        }
        result := Wrap(result + seconds.value);
        assert value[..0] == "";
      }
      index := index + 1;
    }
    if result == 0 {
      FallbackIsAtoi(period);
      var n := Atoi(period);
      result := Wrap(n);
    }
    return Some(result);
  }

  // ----- What the sum is -----

  datatype Segment = Segment(digits: string, unit: char) {
    predicate Valid() {
      1 <= |digits| <= MAX_VAL_LEN && AllDigits(digits) && unit in "sSmMhHdD"
    }

    function Seconds(): nat
      requires Valid()
    {
      Decimal(digits) * UnitSeconds(unit)
    }
  }

  predicate AllValid(segments: seq<Segment>) {
    forall i :: 0 <= i < |segments| ==> segments[i].Valid()
  }

  function Text(segments: seq<Segment>): string {
    if segments == [] then "" else segments[0].digits + [segments[0].unit] + Text(segments[1..])
  }

  function Total(segments: seq<Segment>): nat
    requires AllValid(segments)
  {
    if segments == [] then 0 else segments[0].Seconds() + Total(segments[1..])
  }

  lemma {:induction false} ScanDigits(digits: string, value: string, rest: string, result: nat)
    requires AllDigits(digits) && AllDigits(value) && |value| + |digits| <= MAX_VAL_LEN
    ensures AllDigits(value + digits)
    ensures Scan(digits + rest, value, result) == Scan(rest, value + digits, result)
  {
    if digits == "" {
      assert digits + rest == rest && value + digits == value;
    } else {
      assert (digits + rest)[1..] == digits[1..] + rest;
      assert value + [digits[0]] + digits[1..] == value + digits;
      ScanDigits(digits[1..], value + [digits[0]], rest, result);
    }
  }

  lemma ScanUnit(value: string, unit: char, rest: string, result: nat)
    requires AllDigits(value) && value != "" && !IsDigit(unit)
    ensures Scan([unit] + rest, value, result) == Scan(rest, "", Wrap(result + Decimal(value) * UnitSeconds(unit)))
  {
    assert ([unit] + rest)[1..] == rest;
    var seconds := Decimal(value) * UnitSeconds(unit);
    WrapTimes(Decimal(value), UnitSeconds(unit));
    WrapAdd(seconds, result);
    assert Wrap(seconds) + result == result + Wrap(seconds);
  }

  lemma ScanSegment(s: Segment, rest: string, result: nat)
    requires s.Valid()
    ensures Scan(s.digits + ([s.unit] + rest), "", result) == Scan(rest, "", Wrap(result + s.Seconds()))
  {
    ScanDigits(s.digits, "", [s.unit] + rest, result);
    assert "" + s.digits == s.digits;
    ScanUnit(s.digits, s.unit, rest, result);
  }

  lemma TextCons(segments: seq<Segment>, rest: string)
    requires segments != []
    ensures Text(segments) + rest == segments[0].digits + ([segments[0].unit] + (Text(segments[1..]) + rest))
  {
  }

  lemma {:induction false} ScanSegments(segments: seq<Segment>, rest: string, result: nat)
    requires AllValid(segments) && result < TWO32
    ensures Scan(Text(segments) + rest, "", result) == Scan(rest, "", Wrap(result + Total(segments)))
    decreases |segments|
  {
    if segments == [] {
      assert Text(segments) + rest == rest;
      assert Total(segments) == 0 && Wrap(result) == result;
    } else {
      ScanSegments(segments[1..], rest, Wrap(result + segments[0].Seconds()));
      ScanAll(segments, rest, result);
    }
  }

  /** One segment and the remaining ones make all. */
  lemma ScanAll(segments: seq<Segment>, rest: string, result: nat)
    requires AllValid(segments) && segments != []
    requires var first := Wrap(result + segments[0].Seconds());
             Scan(Text(segments[1..]) + rest, "", first) == Scan(rest, "", Wrap(first + Total(segments[1..])))
    ensures Scan(Text(segments) + rest, "", result) == Scan(rest, "", Wrap(result + Total(segments)))
  {
    ScanFirst(segments, rest, result);
    TotalNext(segments, result);
  }

  lemma TotalNext(segments: seq<Segment>, result: nat)
    requires AllValid(segments) && segments != []
    ensures Wrap(Wrap(result + segments[0].Seconds()) + Total(segments[1..])) == Wrap(result + Total(segments))
  {
    WrapAdd(result + segments[0].Seconds(), Total(segments[1..]));
    assert result + Total(segments) == result + segments[0].Seconds() + Total(segments[1..]);
  }

  lemma ScanFirst(segments: seq<Segment>, rest: string, result: nat)
    requires segments != [] && segments[0].Valid()
    ensures Scan(Text(segments) + rest, "", result)
            == Scan(Text(segments[1..]) + rest, "", Wrap(result + segments[0].Seconds()))
  {
    TextCons(segments, rest);
    ScanSegment(segments[0], Text(segments[1..]) + rest, result);
  }

  lemma FallbackOfSegments(segments: seq<Segment>, rest: string)
    requires AllValid(segments) && segments != []
    ensures Fallback(Text(segments) + rest) == Decimal(segments[0].digits)
  {
    var s := segments[0];
    TextCons(segments, rest);
    LeadingDigitsOf(s.digits, [s.unit] + (Text(segments[1..]) + rest));
  }

  lemma ParseSegments(segments: seq<Segment>)
    requires AllValid(segments)
    ensures Scan(Text(segments), "", 0) == Some(Wrap(Total(segments)))
    ensures segments != [] ==> Fallback(Text(segments)) == Decimal(segments[0].digits)
  {
    ScanToEnd(segments, "", 0);
    if segments != [] {
      assert Text(segments) + "" == Text(segments);
      FallbackOfSegments(segments, "");
    }
  }

  lemma ScanToEnd(segments: seq<Segment>, digits: string, zero: nat)
    requires AllValid(segments) && AllDigits(digits) && |digits| <= MAX_VAL_LEN && zero == 0
    ensures Scan(Text(segments) + digits, "", zero) == Some(Wrap(Total(segments)))
    ensures digits == "" ==> Text(segments) + digits == Text(segments)
  {
    ScanSegments(segments, digits, zero);
    assert digits + "" == digits && "" + digits == digits;
    ScanDigits(digits, "", "", Wrap(Total(segments)));
  }

  lemma {:induction false} PartOfTotal(segments: seq<Segment>)
    requires AllValid(segments) && segments != []
    ensures Decimal(segments[0].digits) <= Total(segments)
  {
    var s := segments[0];
    assert Decimal(s.digits) * UnitSeconds(s.unit) >= Decimal(s.digits) * 1;
  }

  /** The sum of value times unit comes back if and only if it fits in 32 bits; an all-zero string,
      which goes through the fallback, included. */
  lemma ParseIsSumIffItFits(segments: seq<Segment>)
    requires AllValid(segments)
    ensures Parse(Text(segments)) == Some(Total(segments)) <==> Total(segments) < TWO32
  {
    ParseSegments(segments);
    if segments != [] {
      PartOfTotal(segments);
    }
  }

  /** What any text of segments parses to: the sum modulo 2^32, unless that is 0; then the number
      before the first unit, modulo 2^32. */
  lemma ParseWraps(segments: seq<Segment>)
    requires AllValid(segments) && segments != []
    ensures var wrapped := Total(segments) % TWO32;
            Parse(Text(segments)) == Some(if wrapped != 0 then wrapped else Decimal(segments[0].digits) % TWO32)
  {
    ParseSegments(segments);
    WrapIsModulo(Total(segments));
    WrapIsModulo(Decimal(segments[0].digits));
  }

  lemma {:induction false} TextConcat(a: seq<Segment>, b: seq<Segment>)
    requires AllValid(a) && AllValid(b)
    ensures Text(a + b) == Text(a) + Text(b)
    ensures Total(a + b) == Total(a) + Total(b)
  {
    if a == [] {
      assert a + b == b && Text(a) + Text(b) == Text(b);
    } else {
      assert (a + b)[1..] == a[1..] + b;
      TextConcat(a[1..], b);
    }
  }

  /** Parsing is additive over concatenation as long as the sum fits. */
  lemma ParseAdds(a: seq<Segment>, b: seq<Segment>)
    requires AllValid(a) && AllValid(b) && Total(a) + Total(b) < TWO32
    ensures Parse(Text(a) + Text(b)).Some? && Parse(Text(a)).Some? && Parse(Text(b)).Some?
    ensures Parse(Text(a) + Text(b)).value == Parse(Text(a)).value + Parse(Text(b)).value
  {
    TextConcat(a, b);
    ParseIsSumIffItFits(a);
    ParseIsSumIffItFits(b);
    ParseIsSumIffItFits(a + b);
  }

  lemma DigitsAlone(digits: string)
    requires AllDigits(digits) && |digits| <= MAX_VAL_LEN
    ensures Parse(digits) == Some(Wrap(Decimal(digits)))
  {
    assert digits + "" == digits && "" + digits == digits;
    ScanDigits(digits, "", "", 0);
    LeadingDigitsOf(digits, "");
  }

  lemma DigitsAfterUnits(segments: seq<Segment>, digits: string)
    requires AllValid(segments) && segments != [] && Total(segments) < TWO32
    requires AllDigits(digits) && |digits| <= MAX_VAL_LEN
    ensures Parse(Text(segments) + digits) == Some(Total(segments))
  {
    ScanToEnd(segments, digits, 0);
    PartOfTotal(segments);
    FallbackOfSegments(segments, digits);
  }

  /** Digits without a unit at the end are forgotten when units come before them, alone they are seconds. */
  lemma BareDigits(segments: seq<Segment>, digits: string)
    requires AllValid(segments) && Total(segments) < TWO32
    requires AllDigits(digits) && |digits| <= MAX_VAL_LEN
    ensures Parse(Text(segments) + digits)
            == Some(if segments == [] then Wrap(Decimal(digits)) else Total(segments))
  {
    if segments == [] {
      assert Text(segments) + digits == digits;
      DigitsAlone(digits);
    } else {
      DigitsAfterUnits(segments, digits);
    }
  }

  // ----- When the program exits -----

  ghost predicate UnitWithoutDigits(s: string, i: int) {
    0 <= i < |s| && !IsDigit(s[i]) && (i == 0 || !IsDigit(s[i - 1]))
  }

  ghost predicate TooManyDigits(s: string, i: int) {
    0 <= i && i + MAX_VAL_LEN < |s| && AllDigits(s[i..i + MAX_VAL_LEN + 1])
  }

  ghost predicate Malformed(s: string) {
    (exists i :: UnitWithoutDigits(s, i)) || (exists i :: TooManyDigits(s, i))
  }

  /** A string whose first unit has digits before it, at most ten: only what follows matters. */
  lemma UnitTail(s: string, n: nat, i: int)
    requires 2 <= n <= |s| && IsDigit(s[n - 2]) && !IsDigit(s[n - 1])
    requires forall j :: 0 <= j < n - 1 ==> IsDigit(s[j])
    ensures UnitWithoutDigits(s, i) <==> n <= i && UnitWithoutDigits(s[n..], i - n)
  {
    if n <= i < |s| {
      assert s[n..][i - n] == s[i];
      assert i > n ==> s[n..][i - n - 1] == s[i - 1];
    }
  }

  lemma DigitsTail(s: string, n: nat, i: int)
    requires 2 <= n <= |s| && n - 1 <= MAX_VAL_LEN && !IsDigit(s[n - 1])
    ensures TooManyDigits(s, i) <==> n <= i && TooManyDigits(s[n..], i - n)
  {
    if 0 <= i && i + MAX_VAL_LEN < |s| {
      var run := s[i..i + MAX_VAL_LEN + 1];
      if i < n {
        assert run[n - 1 - i] == s[n - 1];
      } else {
        assert s[n..][i - n..i - n + MAX_VAL_LEN + 1] == run;
      }
    }
  }

  lemma MalformedTail(value: string, unit: char, rest: string)
    requires AllDigits(value) && 1 <= |value| <= MAX_VAL_LEN && !IsDigit(unit)
    ensures Malformed(value + [unit] + rest) <==> Malformed(rest)
  {
    var s, n := value + [unit] + rest, |value| + 1;
    assert s[n..] == rest && s[n - 1] == unit;
    assert forall j :: 0 <= j < n - 1 ==> s[j] == value[j];
    forall i: int
      ensures UnitWithoutDigits(s, i) <==> n <= i && UnitWithoutDigits(rest, i - n)
      ensures TooManyDigits(s, i) <==> n <= i && TooManyDigits(rest, i - n)
    {
      UnitTail(s, n, i);
      DigitsTail(s, n, i);
    }
    if i :| UnitWithoutDigits(rest, i) {
      assert UnitWithoutDigits(s, i + n);
    }
    if i :| TooManyDigits(rest, i) {
      assert TooManyDigits(s, i + n);
    }
  }

  lemma {:induction false} ScanExits(rest: string, value: string, result: nat)
    requires AllDigits(value) && |value| <= MAX_VAL_LEN
    ensures Scan(rest, value, result).None? <==> Malformed(value + rest)
    decreases |rest|
  {
    var s := value + rest;
    if rest == "" {
      assert forall i :: 0 <= i < |s| ==> s[i] == value[i];
    } else if IsDigit(rest[0]) {
      if |value| >= MAX_VAL_LEN {
        assert s[0..MAX_VAL_LEN + 1] == value + [rest[0]];
        assert TooManyDigits(s, 0);
      } else {
        assert value + [rest[0]] + rest[1..] == s;
        ScanExits(rest[1..], value + [rest[0]], result);
      }
    } else if value == "" {
      assert UnitWithoutDigits(s, 0);
    } else {
      assert s == value + [rest[0]] + rest[1..];
      MalformedTail(value, rest[0], rest[1..]);
      assert "" + rest[1..] == rest[1..];
      ScanExits(rest[1..], "", Wrap(result + GetSeconds(value, rest[0]).value));
    }
  }

  /** The program exits exactly on a unit with no digits before it or on more than ten digits. */
  lemma ExitsIffMalformed(period: string)
    ensures Parse(period).None? <==> Malformed(period)
  {
    ScanExits(period, "", 0);
    assert "" + period == period;
  }

  // ----- Printing -----

  function DaysToSeconds(d: nat, h: nat, m: nat, s: nat): seq<Segment> {
    [Segment(Print(d), 'd'), Segment(Print(h), 'h'), Segment(Print(m), 'm'), Segment(Print(s), 's')]
  }

  function Canonical(n: nat): seq<Segment> {
    DaysToSeconds(n / 86400, n % 86400 / 3600, n % 86400 % 3600 / 60, n % 86400 % 3600 % 60)
  }

  lemma Pow10Ten()
    ensures Pow10(10) == 10_000_000_000
  {
    assert Pow10(5) == 100_000;
  }

  lemma PrintedSegment(x: nat, unit: char)
    requires x < TWO32 && unit in "sSmMhHdD"
    ensures Segment(Print(x), unit).Valid() && Segment(Print(x), unit).Seconds() == x * UnitSeconds(unit)
  {
    Pow10Ten();
    PrintLength(x, 10);
    DecimalPrint(x);
  }

  /** A text that does not fit: 99999 days come back as 49979008 seconds. */
  lemma TooManyDays()
    ensures var days := [Segment(Print(99999), 'd')];
            && AllValid(days) && Total(days) == 99999 * 86400
            && Parse(Text(days)) == Some(49979008)
  {
    var days := [Segment(Print(99999), 'd')];
    PrintedSegment(99999, 'd');
    assert days[1..] == [];
    ParseWraps(days);
  }

  lemma SplitTime(n: nat)
    ensures n == n / 86400 * 86400 + n % 86400 / 3600 * 3600 + n % 86400 % 3600 / 60 * 60 + n % 86400 % 3600 % 60
    ensures n / 86400 <= n
  {
  }

  lemma TotalOfFour(s: seq<Segment>)
    requires |s| == 4 && AllValid(s)
    ensures Total(s) == s[0].Seconds() + s[1].Seconds() + s[2].Seconds() + s[3].Seconds()
  {
    assert Total(s) == s[0].Seconds() + Total(s[1..]);
    assert Total(s[1..]) == s[1].Seconds() + Total(s[1..][1..]);
    assert Total(s[1..][1..]) == s[2].Seconds() + Total(s[1..][1..][1..]);
    assert Total(s[1..][1..][1..]) == s[3].Seconds() + Total(s[1..][1..][1..][1..]);
  }

  lemma PrintedSegments(d: nat, h: nat, m: nat, s: nat)
    requires d < TWO32 && h < TWO32 && m < TWO32 && s < TWO32
    ensures AllValid(DaysToSeconds(d, h, m, s))
    ensures var four := DaysToSeconds(d, h, m, s);
            && four[0].Seconds() == d * 86400 && four[1].Seconds() == h * 3600
            && four[2].Seconds() == m * 60 && four[3].Seconds() == s
  {
    PrintedSegment(d, 'd');
    PrintedSegment(h, 'h');
    PrintedSegment(m, 'm');
    PrintedSegment(s, 's');
  }

  /** The unit letters in either case. */
  lemma PrintedInAnyCase(d: nat, h: nat, m: nat, s: nat, units: string)
    requires d < TWO32 && h < TWO32 && m < TWO32 && s < TWO32
    requires |units| == 4 && units[0] in "dD" && units[1] in "hH" && units[2] in "mM" && units[3] in "sS"
    ensures var four := InUnits(d, h, m, s, units);
            && AllValid(four)
            && four[0].Seconds() == d * 86400 && four[1].Seconds() == h * 3600
            && four[2].Seconds() == m * 60 && four[3].Seconds() == s
  {
    PrintedSegment(d, units[0]);
    PrintedSegment(h, units[1]);
    PrintedSegment(m, units[2]);
    PrintedSegment(s, units[3]);
  }

  function InUnits(d: nat, h: nat, m: nat, s: nat, units: string): seq<Segment>
    requires |units| == 4
  {
    [Segment(Print(d), units[0]), Segment(Print(h), units[1]), Segment(Print(m), units[2]), Segment(Print(s), units[3])]
  }

  /** Any other letter counts as seconds. */
  lemma OtherUnit(digits: string, unit: char)
    requires 1 <= |digits| <= MAX_VAL_LEN && AllDigits(digits) && !IsDigit(unit) && unit !in "sSmMhHdD"
    ensures Parse(digits + [unit]) == Parse(digits + "s")
  {
    OneUnit(digits, unit, "", 0);
    OneUnit(digits, 's', "", 0);
    assert digits + ['s'] == digits + "s";
  }

  lemma OneUnit(digits: string, unit: char, none: string, zero: nat)
    requires 1 <= |digits| <= MAX_VAL_LEN && AllDigits(digits) && !IsDigit(unit) && none == "" && zero == 0
    ensures Scan(digits + [unit], none, zero) == Some(Wrap(Decimal(digits) * UnitSeconds(unit)))
    ensures Fallback(digits + [unit]) == Decimal(digits)
  {
    assert none + digits == digits && [unit] + none == [unit] && digits + ([unit] + none) == digits + [unit];
    OneUnitScan(digits, unit, none, zero);
    LeadingDigitsOf(digits, [unit]);
  }

  lemma OneUnitScan(digits: string, unit: char, none: string, zero: nat)
    requires 1 <= |digits| <= MAX_VAL_LEN && AllDigits(digits) && !IsDigit(unit) && none == "" && zero == 0
    ensures Scan(digits + ([unit] + none), none, zero) == Some(Wrap(Decimal(digits) * UnitSeconds(unit)))
  {
    ScanDigits(digits, none, [unit] + none, zero);
    assert none + digits == digits;
    ScanUnit(digits, unit, none, zero);
  }

  lemma ParseFour(segments: seq<Segment>, total: nat)
    requires |segments| == 4 && AllValid(segments) && total < TWO32
    requires total == segments[0].Seconds() + segments[1].Seconds() + segments[2].Seconds() + segments[3].Seconds()
    ensures Parse(Text(segments)) == Some(total)
  {
    TotalOfFour(segments);
    ParseIsSumIffItFits(segments);
  }

  /** The same with the units in either case. */
  lemma PrintParseAnyCase(n: nat, units: string)
    requires n < TWO32
    requires |units| == 4 && units[0] in "dD" && units[1] in "hH" && units[2] in "mM" && units[3] in "sS"
    ensures var four := InUnits(n / 86400, n % 86400 / 3600, n % 86400 % 3600 / 60, n % 86400 % 3600 % 60, units);
            Parse(Text(four)) == Some(n)
  {
    SplitTime(n);
    PrintedInAnyCase(n / 86400, n % 86400 / 3600, n % 86400 % 3600 / 60, n % 86400 % 3600 % 60, units);
    ParseFour(InUnits(n / 86400, n % 86400 / 3600, n % 86400 % 3600 / 60, n % 86400 % 3600 % 60, units), n);
  }

  /** Every number of seconds that fits in 32 bits survives printing and parsing. */
  lemma PrintParse(n: nat)
    requires n < TWO32
    ensures Parse(Text(Canonical(n))) == Some(n)
  {
    SplitTime(n);
    PrintedSegments(n / 86400, n % 86400 / 3600, n % 86400 % 3600 / 60, n % 86400 % 3600 % 60);
    ParseFour(Canonical(n), n);
  }
}
