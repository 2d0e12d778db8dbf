/**
 * duration_from_timespan: parsing `[-][d.]hh:mm:ss[.f...]` into seconds and nanoseconds.
 */
module Timespan {
  import opened Basics
  import opened StringView

  const LONG_MAX: int := 0x7FFF_FFFF_FFFF_FFFF
  const LONG_MIN: int := -0x8000_0000_0000_0000

  predicate FitsLong(x: int) { LONG_MIN <= x <= LONG_MAX }

  /** Conversion of a long to a 32-bit int. */
  function ToInt32(x: int): int { (x + 0x8000_0000) % 0x1_0000_0000 - 0x8000_0000 }

  // ---------------------------------------------------------------- strtol, base 10

  predicate IsDigit(c: char) { '0' <= c <= '9' }

  function DigitValue(c: char): nat
    requires IsDigit(c)
  {
    c as int - '0' as int
  }

  predicate IsSpace(c: char) { c == ' ' || '\U{0009}' <= c <= '\U{000D}' }

  function SkipSpaces(s: string): (r: string)
    ensures |r| <= |s|
  {
    if s != [] && IsSpace(s[0]) then SkipSpaces(s[1..]) else s
  }

  /** The number written by the longest digit prefix of s, continuing from acc. */
  function Digits(s: string, acc: nat): nat
    decreases |s|
  {
    if s == [] || !IsDigit(s[0]) then acc else Digits(s[1..], 10 * acc + DigitValue(s[0]))
  }

  function Clamp(x: int): int {
    if x > LONG_MAX then LONG_MAX else if x < LONG_MIN then LONG_MIN else x
  }

  /** Leading blanks, an optional sign, digits; anything else ends the number; saturating. */
  function ParseLong(s: string): int {
    var t := SkipSpaces(s);
    if t != [] && t[0] == '-' then Clamp(0 - Digits(t[1..], 0))
    else if t != [] && t[0] == '+' then Clamp(Digits(t[1..], 0))
    else Clamp(Digits(t, 0))
  }

  // ---------------------------------------------------------------- the parser

  datatype Duration = Duration(seconds: int, nanos: int)

  /** BadFormat is the thrown invalid_argument; Overflow is signed overflow, undefined in C++. */
  datatype ParseResult = Parsed(duration: Duration) | BadFormat | Overflow

  function DurationFromValues(days: int, hours: int, minutes: int, seconds: int, nanoseconds: int): ParseResult {
    var a := days * 86400;
    var b := a + 3600 * hours;
    var c := b + 60 * minutes;
    var d := c + seconds;
    if FitsLong(a) && FitsLong(3600 * hours) && FitsLong(b) && FitsLong(60 * minutes) && FitsLong(c) && FitsLong(d)
    then Parsed(Duration(d, nanoseconds)) else Overflow
  }

  /** The first nine characters, padded with zeros on the right. */
  function NineDigits(s: string): (r: string)
    ensures |r| == 9
  {
    if |s| >= 9 then s[..9] else s + seq(9 - |s|, _ => '0')
  }

  function Parse(timespan: string): ParseResult {
    var sections := Split(timespan, ':');
    if |sections| != 3 then BadFormat else ParseSections(sections[0], sections[1], sections[2])
  }

  /** The sign comes from the days when there are days, from the hours otherwise. */
  predicate Negative(firstSection: string) { '-' in Split(firstSection, '.')[0] }

  function Signed(negative: bool, x: int): int { if negative then -x else x }

  function ParseSections(firstSection: string, middle: string, lastSection: string): ParseResult {
    var first, third := Split(firstSection, '.'), Split(lastSection, '.');
    if |first| > 2 || |third| > 2 then BadFormat
    else ParsePieces(Negative(firstSection), first, middle, third)
  }

  function ParsePieces(negative: bool, first: seq<string>, middle: string, third: seq<string>): ParseResult
    requires first != [] && third != []
  {
    Assemble(|first| == 2, negative, if |first| == 2 then ParseLong(first[0]) else 0, ParseLong(first[|first| - 1]),
             ParseLong(middle), ParseLong(third[0]),
             if |third| == 2 then Signed(negative, ToInt32(ParseLong(NineDigits(third[1])))) else 0)
  }

  /** The sign is already part of the number read first: days when there are days, hours otherwise. */
  function Assemble(withDays: bool, negative: bool, days: int, hours: int, minutes: int, seconds: int, nanos: int)
    : ParseResult
  {
    var h := if withDays then Signed(negative, hours) else hours;
    var m, s := Signed(negative, minutes), Signed(negative, seconds);
    if !FitsLong(h) || !FitsLong(m) || !FitsLong(s) then Overflow else DurationFromValues(days, h, m, s, nanos)
  }

  /** -1 when the text holds a dash anywhere. */
  method SignOf(text: string) returns (sign: int)
    requires |text| < NPOS
    ensures sign == if '-' in text then -1 else 1
  {
    var dash := FindChar(text, '-', 0);
    sign := if dash != NPOS then -1 else 1;
  }

  method Times(sign: int, x: int) returns (y: int)
    requires sign == 1 || sign == -1
    ensures y == Signed(sign == -1, x)
  {
    y := sign * x;
  }

  /** The nanos of a fraction: cut to nine characters, or padded with zeros. */
  method NanosOf(fraction: string, sign: int) returns (nanos: int)
    requires sign == 1 || sign == -1
    ensures nanos == Signed(sign == -1, ToInt32(ParseLong(NineDigits(fraction))))
  {
    if |fraction| >= 9 {
      nanos := Times(sign, ToInt32(ParseLong(fraction[..9])));
    } else {
      nanos := Times(sign, ToInt32(ParseLong(fraction + seq(9 - |fraction|, _ => '0'))));
    }
  }

  /** The source's statement order: each section is split and converted before the next is looked at. */
  method DurationFromTimespan(timespan: string) returns (r: ParseResult)
    requires |timespan| < NPOS
    ensures r == Parse(timespan)
  {
    var sections := SplitByFind(timespan, ':');
    if |sections| != 3 {
      return BadFormat;
    }
    SplitPiecesAreShort(timespan, ':', 0);
    SplitPiecesAreShort(timespan, ':', 2);
    r := DurationFromSections(sections[0], sections[1], sections[2]);
  }

  method DurationFromSections(firstSection: string, middle: string, lastSection: string) returns (r: ParseResult)
    requires |firstSection| < NPOS && |lastSection| < NPOS
    ensures r == ParseSections(firstSection, middle, lastSection)
  {
    var days := 0;
    var hours: int;
    var subsplit := SplitByFind(firstSection, '.');
    if |subsplit| > 2 {
      return BadFormat;
    }
    SplitPiecesAreShort(firstSection, '.', 0);
    var sign := SignOf(subsplit[0]);
    if |subsplit| == 2 {
      days := ParseLong(subsplit[0]);
      hours := Times(sign, ParseLong(subsplit[1]));
    } else {
      hours := ParseLong(subsplit[0]);
    }
    var minutes := Times(sign, ParseLong(middle));
    var subsplitSec := SplitByFind(lastSection, '.');
    if |subsplitSec| > 2 {
      return BadFormat;
    }
    var nanos := 0;
    var seconds := Times(sign, ParseLong(subsplitSec[0]));
    if |subsplitSec| == 2 {
      nanos := NanosOf(subsplitSec[1], sign);
    }
    if !FitsLong(hours) || !FitsLong(minutes) || !FitsLong(seconds) {
      return Overflow;
    }
    r := DurationFromValues(days, hours, minutes, seconds, nanos);
  }

  lemma {:induction false} SplitPiecesAreShort(s: string, delim: char, i: nat)
    requires i < |Split(s, delim)|
    ensures |Split(s, delim)[i]| <= |s|
  {
    if s != [] {
      var rest := Split(s[1..], delim);
      if s[0] == delim {
        if i > 0 {
          SplitPiecesAreShort(s[1..], delim, i - 1);
        }
      } else {
        SplitPiecesAreShort(s[1..], delim, i);
      }
    }
  }

  /** Exactly the inputs with a wrong number of separators are refused. */
  lemma RefusedIff(timespan: string)
    ensures Parse(timespan) == BadFormat <==>
      !(multiset(timespan)[':'] == 2
        && AtMostOneDot(Split(timespan, ':')[0])
        && (|Split(timespan, ':')| > 2 ==> AtMostOneDot(Split(timespan, ':')[2])))
  {
    var sections := Split(timespan, ':');
    SplitCounts(timespan, ':');
    RefusedBySections(timespan);
    AtMostOneDotIff(sections[0]);
    if |sections| == 3 {
      AtMostOneDotIff(sections[2]);
    }
  }

  predicate AtMostOneDot(s: string) { multiset(s)['.'] <= 1 }

  /** The first piece runs up to the first delimiter. */
  lemma {:induction false} FirstPiece(s: string, delim: char)
    ensures var p := Split(s, delim)[0]; p <= s && delim !in p && (|p| < |s| ==> s[|p|] == delim)
  {
    if s != [] && s[0] != delim {
      FirstPiece(s[1..], delim);
    }
  }

  /** The sign is that of a dash before the first separator of either kind. */
  lemma NegativeIff(timespan: string)
    ensures Negative(Split(timespan, ':')[0]) <==>
      exists i :: 0 <= i < |timespan| && timespan[i] == '-' && ':' !in timespan[..i] && '.' !in timespan[..i]
  {
    LeadingPart(timespan);
    DashBefore(Split(Split(timespan, ':')[0], '.')[0], timespan);
  }

  lemma LeadingPart(timespan: string)
    ensures var p := Split(Split(timespan, ':')[0], '.')[0];
      && p <= timespan && ':' !in p && '.' !in p
      && (|p| < |timespan| ==> timespan[|p|] == ':' || timespan[|p|] == '.')
  {
    FirstPiece(timespan, ':');
    FirstPiece(Split(timespan, ':')[0], '.');
  }

  lemma DashBefore(p: string, s: string)
    requires p <= s && ':' !in p && '.' !in p && (|p| < |s| ==> s[|p|] == ':' || s[|p|] == '.')
    ensures '-' in p <==> exists i :: 0 <= i < |s| && s[i] == '-' && ':' !in s[..i] && '.' !in s[..i]
  {
    if '-' in p {
      var i :| 0 <= i < |p| && p[i] == '-';
      assert s[..i] == p[..i];
      assert s[i] == '-';
    }
    if i :| 0 <= i < |s| && s[i] == '-' && ':' !in s[..i] && '.' !in s[..i] {
      assert forall j :: 0 <= j < i ==> s[..i][j] == s[j];
      assert i < |p|;
      assert p[i] == '-';
    }
  }

  lemma AtMostOneDotIff(s: string)
    ensures AtMostOneDot(s) <==> |Split(s, '.')| <= 2
  {
    SplitCounts(s, '.');
  }

  lemma RefusedBySections(timespan: string)
    ensures var sections := Split(timespan, ':');
      Parse(timespan) == BadFormat <==>
        |sections| != 3 || |Split(sections[0], '.')| > 2 || |Split(sections[2], '.')| > 2
  {
  }

  // ---------------------------------------------------------------- numbers

  predicate AllDigits(s: string) { forall i :: 0 <= i < |s| ==> IsDigit(s[i]) }

  function Value(s: string): nat { Digits(s, 0) }

  predicate IsSign(s: string) { s == "" || s == "-" || s == "+" }

  /**
   * How strtol reads: blanks, a sign, digits, and whatever follows them.  Every string has
   * such parts; without sign and digits, what follows must not look like more of them.
   */
  lemma ParseLongReads(blanks: string, sign: string, digits: string, rest: string)
    requires (forall i :: 0 <= i < |blanks| ==> IsSpace(blanks[i])) && IsSign(sign) && AllDigits(digits)
    requires rest == "" || !IsDigit(rest[0])
    requires sign == digits == "" && rest != "" ==> !IsSpace(rest[0]) && rest[0] != '-' && rest[0] != '+'
    ensures var v := Signed(sign == "-", Value(digits));
      ParseLong(blanks + (sign + (digits + rest)))
        == if v > LONG_MAX then LONG_MAX else if v < LONG_MIN then LONG_MIN else v
  {
    var number := digits + rest;
    SkipBlanks(blanks, sign + number);
    DigitsEnd(digits, rest, 0);
    if sign == "" {
      assert sign + number == number;
    } else {
      assert (sign + number)[1..] == number;
    }
  }

  lemma {:induction false} SkipBlanks(blanks: string, s: string)
    requires (forall i :: 0 <= i < |blanks| ==> IsSpace(blanks[i])) && (s == "" || !IsSpace(s[0]))
    ensures SkipSpaces(blanks + s) == s
  {
    if blanks == "" {
      assert blanks + s == s;
    } else {
      SkipBlanks(blanks[1..], s);
      assert (blanks + s)[1..] == blanks[1..] + s;
    }
  }

  lemma {:induction false} DigitsEnd(digits: string, rest: string, acc: nat)
    requires AllDigits(digits) && (rest == "" || !IsDigit(rest[0]))
    ensures Digits(digits + rest, acc) == Digits(digits, acc)
    decreases |digits|
  {
    if digits == "" {
      assert digits + rest == rest;
    } else {
      DigitsEnd(digits[1..], rest, 10 * acc + DigitValue(digits[0]));
      assert (digits + rest)[1..] == digits[1..] + rest;
    }
  }

  lemma {:induction false} DigitsSnoc(s: string, acc: nat, c: char)
    requires AllDigits(s) && IsDigit(c)
    ensures Digits(s + [c], acc) == 10 * Digits(s, acc) + DigitValue(c)
    decreases |s|
  {
    if s == [] {
      assert [] + [c] == [c];
      assert [c][1..] == [];
    } else {
      DigitsSnoc(s[1..], 10 * acc + DigitValue(s[0]), c);
      assert (s + [c])[1..] == s[1..] + [c];
    }
  }

  lemma {:induction false} ZerosAppended(s: string, n: nat)
    requires AllDigits(s)
    ensures Value(s + seq(n, _ => '0')) == Value(s) * Pow10(n)
  {
    if n == 0 {
      assert s + seq(0, _ => '0') == s;
    } else {
      ZerosAppended(s, n - 1);
      TimesTen(Value(s), Pow10(n - 1));
      DigitsSnoc(s + seq(n - 1, _ => '0'), 0, '0');
      assert s + seq(n, _ => '0') == s + seq(n - 1, _ => '0') + ['0'];
    }
  }

  function Pow10(n: nat): nat { if n == 0 then 1 else 10 * Pow10(n - 1) }

  lemma {:induction false} DigitsBound(s: string, acc: nat)
    ensures acc <= Digits(s, acc)
    ensures Digits(s, acc) < (acc + 1) * Pow10(|s|)
    decreases |s|
  {
    Pow10Positive(|s|);
    if s != [] && IsDigit(s[0]) {
      var acc', p := 10 * acc + DigitValue(s[0]), Pow10(|s| - 1);
      DigitsBound(s[1..], acc');
      MulMonotone(acc' + 1, 10 * (acc + 1), p);
      TimesTen(acc + 1, p);
    } else {
      MulMonotone(1, Pow10(|s|), acc + 1);
    }
  }

  lemma TimesTen(a: nat, p: nat)
    ensures (10 * a) * p == a * (10 * p)
  {
  }

  lemma {:induction false} Pow10Positive(n: nat)
    ensures Pow10(n) > 0
  {
    if n > 0 {
      Pow10Positive(n - 1);
    }
  }

  lemma {:induction false} Pow10Monotone(m: nat, n: nat)
    requires m <= n
    ensures Pow10(m) <= Pow10(n)
    decreases n
  {
    if m < n {
      Pow10Monotone(m, n - 1);
    }
  }

  lemma Pow10Nine()
    ensures Pow10(9) == 1_000_000_000
  {
    assert Pow10(3) == 1000;
    assert Pow10(6) == 1000 * Pow10(3);
    assert Pow10(9) == 1000 * Pow10(6);
  }

  /** Whatever the nine characters are, nanos stay below one second and the int cast is exact. */
  lemma NineCharsBound(s: string)
    requires |s| <= 9
    ensures -1_000_000_000 < ParseLong(s) < 1_000_000_000
    ensures ToInt32(ParseLong(s)) == ParseLong(s)
  {
    var t := SkipSpaces(s);
    ShortDigits(t);
    if t != [] {
      ShortDigits(t[1..]);
    }
  }

  lemma ShortDigits(s: string)
    requires |s| <= 9
    ensures Value(s) < 1_000_000_000
  {
    DigitsBound(s, 0);
    Pow10Monotone(|s|, 9);
    Pow10Nine();
  }

  // ---------------------------------------------------------------- fractions

  function WithoutSign(t: string): string {
    if t != [] && (t[0] == '-' || t[0] == '+') then t[1..] else t
  }

  /** What is left of a number behind blanks and a sign. */
  function Unsigned(s: string): string { WithoutSign(SkipSpaces(s)) }

  /** A number that goes on to the end of the text. */
  predicate IsNumber(s: string) { AllDigits(Unsigned(s)) }

  /**
   * What a fraction is read as.  Of nine characters and more, the first nine are read as they
   * stand.  A shorter number is scaled to nine characters, its sign and blanks counted among
   * them; a number with something behind it is not scaled at all.
   */
  function FractionRead(s: string): int {
    if |s| >= 9 then ParseLong(s[..9])
    else if IsNumber(s) then ParseLong(s) * Pow10(9 - |s|)
    else ParseLong(s)
  }

  lemma {:induction false} DigitsStop(s: string, more: string, acc: nat, k: nat)
    requires k < |s| && !IsDigit(s[k])
    ensures Digits(s + more, acc) == Digits(s, acc)
    decreases |s|
  {
    assert (s + more)[0] == s[0];
    if IsDigit(s[0]) {
      DigitsStop(s[1..], more, 10 * acc + DigitValue(s[0]), k - 1);
      assert (s + more)[1..] == s[1..] + more;
    }
  }

  lemma {:induction false} SkipThenZeros(s: string, zeros: string)
    requires zeros != "" && zeros[0] == '0'
    ensures SkipSpaces(s + zeros) == SkipSpaces(s) + zeros
  {
    var t := s + zeros;
    if s == "" {
      assert t == zeros && SkipSpaces(s) == s;
    } else {
      assert t[0] == s[0] && t[1..] == s[1..] + zeros;
      if IsSpace(s[0]) {
        SkipThenZeros(s[1..], zeros);
        assert SkipSpaces(t) == SkipSpaces(t[1..]);
      } else {
        assert SkipSpaces(t) == t;
      }
    }
  }

  /** A number of at most nine characters never saturates. */
  lemma ShortNumber(s: string)
    requires |s| <= 9
    ensures ParseLong(s) == Signed(SkipSpaces(s) != "" && SkipSpaces(s)[0] == '-', Value(Unsigned(s)))
    ensures Value(Unsigned(s)) < 1_000_000_000
  {
    ShortDigits(Unsigned(s));
  }

  lemma UnsignedZeros(s: string, zeros: string)
    requires zeros != "" && zeros[0] == '0'
    ensures Unsigned(s + zeros) == Unsigned(s) + zeros
    ensures var t, t' := SkipSpaces(s), SkipSpaces(s + zeros);
      (t' != "" && t'[0] == '-') == (t != "" && t[0] == '-')
  {
    SkipThenZeros(s, zeros);
    WithoutSignZeros(SkipSpaces(s), zeros);
  }

  lemma WithoutSignZeros(t: string, zeros: string)
    requires zeros != "" && zeros[0] == '0'
    ensures WithoutSign(t + zeros) == WithoutSign(t) + zeros
    ensures (t + zeros)[0] == '-' <==> t != "" && t[0] == '-'
  {
    if t == "" {
      assert t + zeros == zeros;
    } else if t[0] == '-' || t[0] == '+' {
      assert WithoutSign(t + zeros) == (t + zeros)[1..];
      assert (t + zeros)[1..] == t[1..] + zeros;
    }
  }

  lemma PaddedNumber(s: string)
    requires |s| < 9
    ensures ParseLong(s + seq(9 - |s|, _ => '0')) == FractionRead(s)
  {
    var zeros := seq(9 - |s|, _ => '0');
    UnsignedZeros(s, zeros);
    ShortNumber(s + zeros);
    ShortNumber(s);
    if IsNumber(s) {
      ZerosAppended(Unsigned(s), 9 - |s|);
      SignedTimes(Value(Unsigned(s)), Pow10(9 - |s|));
    } else {
      var k :| 0 <= k < |Unsigned(s)| && !IsDigit(Unsigned(s)[k]);
      DigitsStop(Unsigned(s), zeros, 0, k);
    }
  }

  lemma SignedTimes(value: nat, scale: nat)
    ensures Signed(true, value) * scale == Signed(true, value * scale)
  {
  }

  /** Cutting or padding to nine characters, strtol and the int cast read exactly that. */
  lemma FractionIsRead(s: string)
    ensures ParseLong(NineDigits(s)) == FractionRead(s) == ToInt32(ParseLong(NineDigits(s)))
    ensures -1_000_000_000 < FractionRead(s) < 1_000_000_000
  {
    NineCharsBound(NineDigits(s));
    if |s| < 9 {
      PaddedNumber(s);
    }
  }

  /** Every accepted input yields less than one second of nanos. */
  lemma NanosBelowOneSecond(timespan: string)
    requires Parse(timespan).Parsed?
    ensures -1_000_000_000 < Parse(timespan).duration.nanos < 1_000_000_000
  {
    var third := Split(Split(timespan, ':')[2], '.');
    if |third| == 2 {
      NineCharsBound(NineDigits(third[1]));
    }
  }

  // ---------------------------------------------------------------- well-formed timespans

  /** The fields as written.  Fields may be empty, which strtol reads as 0. */
  datatype Fields = Fields(
    negative: bool,
    days: Option<string>,
    hours: string,
    minutes: string,
    seconds: string,
    fraction: Option<string>)

  predicate WellFormed(f: Fields) {
    && (f.days.Some? ==> AllDigits(f.days.value))
    && AllDigits(f.hours) && AllDigits(f.minutes) && AllDigits(f.seconds)
    && (f.fraction.Some? ==> AllDigits(f.fraction.value))
  }

  function FirstSection(f: Fields): string {
    (if f.negative then "-" else "") + (if f.days.Some? then f.days.value + "." else "") + f.hours
  }

  function ThirdSection(f: Fields): string {
    f.seconds + if f.fraction.Some? then "." + f.fraction.value else ""
  }

  function Render(f: Fields): string {
    FirstSection(f) + ":" + f.minutes + ":" + ThirdSection(f)
  }

  function Days(f: Fields): nat { if f.days.Some? then Value(f.days.value) else 0 }

  /** Seconds before the seconds field. */
  function Minutes(f: Fields): nat {
    86400 * Days(f) + 3600 * Value(f.hours) + 60 * Value(f.minutes)
  }

  /** The billionths that digits behind the point stand for; from the tenth on they count for nothing. */
  function Billionths(digits: string): nat {
    if |digits| <= 9 then Value(digits) * Pow10(9 - |digits|) else Value(digits[..9])
  }

  function Nanos(f: Fields): nat {
    if f.fraction.Some? then Billionths(f.fraction.value) else 0
  }

  /** The duration a timespan denotes. */
  function Meaning(f: Fields): Duration {
    Duration(Signed(f.negative, Minutes(f) + Value(f.seconds)), Signed(f.negative, Nanos(f)))
  }

  lemma ParseDigits(s: string)
    requires AllDigits(s)
    ensures ParseLong(s) == Clamp(Value(s))
    ensures ParseLong("-" + s) == Clamp(0 - Value(s))
  {
  }

  /** Fields that contain neither separator, whatever else they contain. */
  predicate Separable(f: Fields) {
    && (f.days.Some? ==> Plain(f.days.value))
    && Plain(f.hours) && Plain(f.minutes) && Plain(f.seconds)
    && (f.fraction.Some? ==> Plain(f.fraction.value))
  }

  predicate Plain(s: string) { ':' !in s && '.' !in s }

  function Dash(f: Fields): string { if f.negative then "-" else "" }

  lemma SplitOne(a: string, delim: char, b: string)
    requires delim !in a && delim !in b
    ensures Split(a + [delim] + b, delim) == [a, b]
  {
    SplitAtFirst(a, delim, b);
    SplitOfFree(b, delim);
  }

  lemma SplitRender(f: Fields)
    requires Separable(f)
    ensures Split(Render(f), ':') == [FirstSection(f), f.minutes, ThirdSection(f)]
  {
    var rest := f.minutes + [':'] + ThirdSection(f);
    assert Render(f) == FirstSection(f) + [':'] + rest;
    SplitOne(f.minutes, ':', ThirdSection(f));
    SplitAtFirst(FirstSection(f), ':', rest);
  }

  lemma SplitFirst(f: Fields)
    requires Separable(f)
    ensures Split(FirstSection(f), '.')
            == if f.days.Some? then [Dash(f) + f.days.value, f.hours] else [Dash(f) + f.hours]
  {
    if f.days.Some? {
      assert FirstSection(f) == (Dash(f) + f.days.value) + ['.'] + f.hours;
      SplitOne(Dash(f) + f.days.value, '.', f.hours);
    } else {
      assert FirstSection(f) == Dash(f) + f.hours;
      SplitOfFree(FirstSection(f), '.');
    }
  }

  lemma SplitThird(f: Fields)
    requires Separable(f)
    ensures Split(ThirdSection(f), '.') == if f.fraction.Some? then [f.seconds, f.fraction.value] else [f.seconds]
  {
    if f.fraction.Some? {
      assert ThirdSection(f) == f.seconds + ['.'] + f.fraction.value;
      SplitOne(f.seconds, '.', f.fraction.value);
    } else {
      assert ThirdSection(f) == f.seconds;
      SplitOfFree(ThirdSection(f), '.');
    }
  }

  lemma SignOfFields(f: Fields)
    requires Separable(f) && '-' !in if f.days.Some? then f.days.value else f.hours
    ensures Negative(FirstSection(f)) == f.negative
  {
    SplitFirst(f);
    if f.negative {
      assert Split(FirstSection(f), '.')[0][0] == '-';
    }
  }

  /** The parser field by field; the number read first must not carry a further dash. */
  lemma ParseFields(f: Fields)
    requires Separable(f) && '-' !in if f.days.Some? then f.days.value else f.hours
    ensures Parse(Render(f))
            == Assemble(f.days.Some?, f.negative, if f.days.Some? then ParseLong(Dash(f) + f.days.value) else 0,
                        if f.days.Some? then ParseLong(f.hours) else ParseLong(Dash(f) + f.hours),
                        ParseLong(f.minutes), ParseLong(f.seconds),
                        if f.fraction.Some? then Signed(f.negative, FractionRead(f.fraction.value)) else 0)
  {
    SplitRender(f);
    SectionsOfFields(f);
  }

  lemma SectionsOfFields(f: Fields)
    requires Separable(f) && '-' !in if f.days.Some? then f.days.value else f.hours
    ensures ParseSections(FirstSection(f), f.minutes, ThirdSection(f))
            == Assemble(f.days.Some?, f.negative, if f.days.Some? then ParseLong(Dash(f) + f.days.value) else 0,
                        if f.days.Some? then ParseLong(f.hours) else ParseLong(Dash(f) + f.hours),
                        ParseLong(f.minutes), ParseLong(f.seconds),
                        if f.fraction.Some? then Signed(f.negative, FractionRead(f.fraction.value)) else 0)
  {
    SplitFirst(f);
    SplitThird(f);
    SignOfFields(f);
    PiecesOfFields(f, Split(FirstSection(f), '.'), Split(ThirdSection(f), '.'));
  }

  lemma PiecesOfFields(f: Fields, first: seq<string>, third: seq<string>)
    requires first == if f.days.Some? then [Dash(f) + f.days.value, f.hours] else [Dash(f) + f.hours]
    requires third == if f.fraction.Some? then [f.seconds, f.fraction.value] else [f.seconds]
    ensures ParsePieces(f.negative, first, f.minutes, third)
            == Assemble(f.days.Some?, f.negative, if f.days.Some? then ParseLong(Dash(f) + f.days.value) else 0,
                        if f.days.Some? then ParseLong(f.hours) else ParseLong(Dash(f) + f.hours),
                        ParseLong(f.minutes), ParseLong(f.seconds),
                        if f.fraction.Some? then Signed(f.negative, FractionRead(f.fraction.value)) else 0)
  {
    if f.fraction.Some? {
      FractionIsRead(f.fraction.value);
    }
  }

  lemma DigitsAreRead(s: string)
    requires AllDigits(s)
    ensures FractionRead(s) == Billionths(s) < 1_000_000_000
  {
    FractionIsRead(s);
    if |s| <= 9 {
      assert SkipSpaces(s) == s;
      ParseDigits(s);
      ShortNumber(s);
      if |s| == 9 {
        assert s[..9] == s && Pow10(0) == 1;
      }
    } else {
      ParseDigits(s[..9]);
      ShortNumber(s[..9]);
    }
  }

  /** What the parser computes for a well-formed timespan of any size: only the seconds field can saturate silently. */
  lemma ParseWellFormed(f: Fields)
    requires WellFormed(f)
    ensures var total := Signed(f.negative, Minutes(f) + Clamp(Value(f.seconds)));
      Parse(Render(f)) == if FitsLong(total) then Parsed(Duration(total, Signed(f.negative, Nanos(f)))) else Overflow
  {
    ParseToSum(f);
    FractionOfDigits(f);
  }

  function SignedFraction(f: Fields): int {
    if f.fraction.Some? then Signed(f.negative, FractionRead(f.fraction.value)) else 0
  }

  lemma FractionOfDigits(f: Fields)
    requires f.fraction.Some? ==> AllDigits(f.fraction.value)
    ensures SignedFraction(f) == Signed(f.negative, Nanos(f))
  {
    if f.fraction.Some? {
      DigitsAreRead(f.fraction.value);
    }
  }

  /** Digit fields around any minutes and any fraction. */
  lemma ParseFieldValues(f: Fields)
    requires WellFormed(f.(minutes := "", fraction := None)) && Separable(f)
    ensures Parse(Render(f))
            == Assemble(f.days.Some?, f.negative, if f.days.Some? then Clamp(Signed(f.negative, Days(f))) else 0,
                        if f.days.Some? then Clamp(Value(f.hours)) else Clamp(Signed(f.negative, Value(f.hours))),
                        ParseLong(f.minutes), Clamp(Value(f.seconds)), SignedFraction(f))
  {
    ParseFields(f);
    if f.days.Some? {
      ParseDashed(f, f.days.value);
      ParseDigits(f.hours);
    } else {
      ParseDashed(f, f.hours);
    }
    ParseDigits(f.seconds);
  }

  /** The parser on digit fields of any size, whatever the fraction is. */
  lemma ParseToSum(f: Fields)
    requires WellFormed(f.(fraction := None)) && Separable(f)
    ensures Parse(Render(f))
            == Sum(f.negative, Days(f), Value(f.hours), Value(f.minutes), Clamp(Value(f.seconds)), SignedFraction(f))
  {
    ParseFieldValues(f);
    ParseDigits(f.minutes);
    SumSaturates(f.negative, f.days.Some?, Days(f), Value(f.hours), Value(f.minutes), Value(f.seconds),
                 SignedFraction(f));
  }

  lemma ParseDashed(f: Fields, digits: string)
    requires AllDigits(digits)
    ensures ParseLong(Dash(f) + digits) == Clamp(Signed(f.negative, Value(digits)))
  {
    ParseDigits(digits);
    assert "" + digits == digits;
  }

  function Sum(negative: bool, days: nat, hours: nat, minutes: nat, seconds: nat, nanos: int): ParseResult {
    var total := Signed(negative, 86400 * days + 3600 * hours + 60 * minutes + seconds);
    if FitsLong(total) then Parsed(Duration(total, nanos)) else Overflow
  }

  /** Fields of one sign overflow somewhere exactly when their sum does. */
  lemma SameSignSum(negative: bool, days: nat, hours: nat, minutes: nat, seconds: nat, nanos: int)
    ensures DurationFromValues(Signed(negative, days), Signed(negative, hours), Signed(negative, minutes),
                               Signed(negative, seconds), nanos)
      == Sum(negative, days, hours, minutes, seconds, nanos)
  {
  }

  /** Saturation in days, hours or minutes is always visible as overflow of the sum. */
  lemma SumSaturates(negative: bool, withDays: bool, days: nat, hours: nat, minutes: nat, seconds: nat, nanos: int)
    requires !withDays ==> days == 0
    ensures Assemble(withDays, negative, if withDays then Clamp(Signed(negative, days)) else 0,
               if withDays then Clamp(hours) else Clamp(Signed(negative, hours)), Clamp(minutes), Clamp(seconds), nanos)
      == Sum(negative, days, hours, minutes, Clamp(seconds), nanos)
  {
    if days <= LONG_MAX && hours <= LONG_MAX && minutes <= LONG_MAX {
      SameSignSum(negative, days, hours, minutes, Clamp(seconds), nanos);
    } else if negative {
      assert !FitsLong(-(86400 * days + 3600 * hours + 60 * minutes + Clamp(seconds)));
    } else {
      assert !FitsLong(86400 * days + 3600 * hours + 60 * minutes + Clamp(seconds));
    }
  }

  /** Parsing gives the denoted duration exactly when it fits 64 bits and the seconds field alone does too. */
  lemma ParseIsMeaning(f: Fields)
    requires WellFormed(f)
    ensures Parse(Render(f)) == Parsed(Meaning(f)) <==> FitsLong(Meaning(f).seconds) && Value(f.seconds) <= LONG_MAX
    ensures -1_000_000_000 < Meaning(f).nanos < 1_000_000_000
    ensures !(Meaning(f).seconds < 0 < Meaning(f).nanos) && !(Meaning(f).nanos < 0 < Meaning(f).seconds)
  {
    ParseWellFormed(f);
    if f.fraction.Some? {
      DigitsAreRead(f.fraction.value);
    }
  }

  // ---------------------------------------------------------------- when the signs agree

  predicate SignsAgree(d: Duration) {
    !(d.seconds < 0 < d.nanos) && !(d.nanos < 0 < d.seconds)
  }

  predicate ThreeSections(timespan: string) { |Split(timespan, ':')| == 3 }

  /** The whole seconds three sections spell out, each field as strtol reads it, the sign taken off the first. */
  function WholeOf(firstSection: string, middle: string, lastSection: string): int {
    var first, negative := Split(firstSection, '.'), Negative(firstSection);
    (if |first| == 2 then 86400 * Signed(negative, ParseLong(first[0])) + 3600 * ParseLong(first[1])
     else 3600 * Signed(negative, ParseLong(first[|first| - 1])))
    + 60 * ParseLong(middle) + ParseLong(Split(lastSection, '.')[0])
  }

  /** The fraction they spell out, 0 when there is none. */
  function FractionOf(lastSection: string): int {
    var third := Split(lastSection, '.');
    if |third| == 2 then FractionRead(third[1]) else 0
  }

  function WholeRead(timespan: string): int
    requires ThreeSections(timespan)
  {
    var sections := Split(timespan, ':');
    WholeOf(sections[0], sections[1], sections[2])
  }

  function FractionPart(timespan: string): int
    requires ThreeSections(timespan)
  {
    FractionOf(Split(timespan, ':')[2])
  }

  lemma AssembledIs(withDays: bool, negative: bool, days: int, hours: int, minutes: int, seconds: int, nanos: int)
    requires !withDays ==> days == 0
    ensures var r, leading := Assemble(withDays, negative, days, hours, minutes, seconds, nanos),
                              if withDays then 86400 * Signed(negative, days) + 3600 * hours
                              else 3600 * Signed(negative, hours);
      r.Parsed? ==> r.duration == Duration(Signed(negative, leading + 60 * minutes + seconds), nanos)
  {
  }

  lemma SectionsMeaning(firstSection: string, middle: string, lastSection: string)
    ensures var r, negative := ParseSections(firstSection, middle, lastSection), Negative(firstSection);
      r.Parsed? ==>
        r.duration == Duration(Signed(negative, WholeOf(firstSection, middle, lastSection)),
                               Signed(negative, FractionOf(lastSection)))
  {
    var first, third, negative := Split(firstSection, '.'), Split(lastSection, '.'), Negative(firstSection);
    if |third| == 2 {
      FractionIsRead(third[1]);
    }
    if |first| <= 2 {
      AssembledIs(|first| == 2, negative, if |first| == 2 then ParseLong(first[0]) else 0,
                  ParseLong(first[|first| - 1]), ParseLong(middle), ParseLong(third[0]),
                  Signed(negative, FractionOf(lastSection)));
    }
  }

  /** Every accepted input, well-formed or not, yields its sign times what it spells out. */
  lemma AcceptedMeaning(timespan: string)
    requires Parse(timespan).Parsed?
    ensures ThreeSections(timespan)
    ensures var negative := Negative(Split(timespan, ':')[0]);
      Parse(timespan).duration
        == Duration(Signed(negative, WholeRead(timespan)), Signed(negative, FractionPart(timespan)))
  {
    var sections := Split(timespan, ':');
    SectionsMeaning(sections[0], sections[1], sections[2]);
  }

  /**
   * For every accepted input: seconds and nanos agree in sign exactly when the sum of the
   * fields and the fraction do, as they are written, or one of them is zero.
   */
  lemma SignsAgreeIff(timespan: string)
    requires Parse(timespan).Parsed?
    ensures ThreeSections(timespan)
    ensures SignsAgree(Parse(timespan).duration) <==>
      || WholeRead(timespan) == 0
      || FractionPart(timespan) == 0
      || (WholeRead(timespan) < 0 <==> FractionPart(timespan) < 0)
  {
    AcceptedMeaning(timespan);
    SignsOfProduct(Negative(Split(timespan, ':')[0]), WholeRead(timespan), FractionPart(timespan));
  }

  lemma SignsOfProduct(negative: bool, whole: int, fraction: int)
    ensures SignsAgree(Duration(Signed(negative, whole), Signed(negative, fraction))) <==>
      whole == 0 || fraction == 0 || (whole < 0 <==> fraction < 0)
  {
  }

  /** No dash except possibly as the very first character. */
  predicate OnlyLeadingDash(s: string) { forall i :: 0 < i < |s| ==> s[i] != '-' }

  lemma {:induction false} PiecesOfFree(s: string, delim: char, c: char)
    requires c !in s
    ensures forall i :: 0 <= i < |Split(s, delim)| ==> c !in Split(s, delim)[i]
  {
    if s != [] {
      PiecesOfFree(s[1..], delim, c);
    }
  }

  lemma LeadingDashStaysFirst(s: string, delim: char)
    requires OnlyLeadingDash(s) && delim != '-'
    ensures OnlyLeadingDash(Split(s, delim)[0])
    ensures forall i :: 1 <= i < |Split(s, delim)| ==> '-' !in Split(s, delim)[i]
  {
    if s != [] {
      PiecesOfFree(s[1..], delim, '-');
    }
  }

  lemma {:induction false} ReadsNonNegative(s: string)
    requires '-' !in s
    ensures ParseLong(s) >= 0
  {
    SkippedPart(s);
  }

  lemma {:induction false} SkippedPart(s: string)
    ensures forall c :: c in SkipSpaces(s) ==> c in s
  {
    if s != [] && IsSpace(s[0]) {
      SkippedPart(s[1..]);
    }
  }

  lemma LeadingRead(s: string)
    requires OnlyLeadingDash(s)
    ensures Signed('-' in s, ParseLong(s)) >= 0
  {
    if '-' in s {
      assert s[0] == '-';
      assert SkipSpaces(s) == s;
    } else {
      ReadsNonNegative(s);
    }
  }

  /** One dash, at the very front or nowhere, is enough: every such accepted input has agreeing signs. */
  lemma OneLeadingDashIsSafe(timespan: string)
    requires Parse(timespan).Parsed? && OnlyLeadingDash(timespan)
    ensures SignsAgree(Parse(timespan).duration)
  {
    SignsAgreeIff(timespan);
    var sections := Split(timespan, ':');
    LeadingDashStaysFirst(timespan, ':');
    LeadingDashStaysFirst(sections[0], '.');
    var first, third := Split(sections[0], '.'), Split(sections[2], '.');
    LeadingRead(first[0]);
    if |first| > 1 {
      ReadsNonNegative(first[1]);
    }
    ReadsNonNegative(sections[1]);
    PiecesOfFree(sections[2], '.', '-');
    ReadsNonNegative(third[0]);
    if |third| > 1 {
      ReadsNonNegative(NineDigits(third[1]));
      FractionIsRead(third[1]);
    }
  }

  /** A second sign in the fraction breaks the agreement exactly when it is read negative after non-zero fields. */
  lemma SecondSignInFraction(f: Fields)
    requires WellFormed(f.(fraction := None)) && Separable(f) && Parse(Render(f)).Parsed?
    ensures SignsAgree(Parse(Render(f)).duration) <==>
      || Minutes(f) + Value(f.seconds) == 0
      || f.fraction.None?
      || FractionRead(f.fraction.value) >= 0
  {
    ParseToSum(f);
  }

  /** A second sign in the minutes breaks it exactly when they outweigh the other fields and a fraction remains. */
  lemma SecondSignInMinutes(f: Fields, minutes: string)
    requires WellFormed(f.(minutes := "")) && AllDigits(minutes) && f.minutes == "-" + minutes
    requires Parse(Render(f)).Parsed?
    ensures SignsAgree(Parse(Render(f)).duration) <==>
      Nanos(f) == 0 || 60 * Value(minutes) <= 86400 * Days(f) + 3600 * Value(f.hours) + Clamp(Value(f.seconds))
  {
    ParseMinusMinutes(f, minutes);
    AssembledSigns(f.negative, f.days.Some?, Days(f), Value(f.hours), Value(minutes), Clamp(Value(f.seconds)),
                   Nanos(f));
  }

  lemma ParseMinusMinutes(f: Fields, minutes: string)
    requires WellFormed(f.(minutes := "")) && AllDigits(minutes) && f.minutes == "-" + minutes
    ensures Parse(Render(f))
            == Assemble(f.days.Some?, f.negative, if f.days.Some? then Clamp(Signed(f.negative, Days(f))) else 0,
                        if f.days.Some? then Clamp(Value(f.hours)) else Clamp(Signed(f.negative, Value(f.hours))),
                        Clamp(0 - Value(minutes)), Clamp(Value(f.seconds)), Signed(f.negative, Nanos(f)))
  {
    MinusMinutes(f, minutes);
    FractionOfDigits(f);
    ParseFieldValues(f);
  }

  lemma MinusMinutes(f: Fields, minutes: string)
    requires WellFormed(f.(minutes := "")) && AllDigits(minutes) && f.minutes == "-" + minutes
    ensures Separable(f) && ParseLong(f.minutes) == Clamp(0 - Value(minutes))
  {
    ParseDigits(minutes);
  }

  lemma AssembledSigns(negative: bool, withDays: bool, days: nat, hours: nat, minutes: nat, seconds: nat, nanos: nat)
    requires !withDays ==> days == 0
    ensures var r := Assemble(withDays, negative, if withDays then Clamp(Signed(negative, days)) else 0,
                              if withDays then Clamp(hours) else Clamp(Signed(negative, hours)), Clamp(0 - minutes),
                              seconds, Signed(negative, nanos));
      r.Parsed? ==>
        (SignsAgree(r.duration) <==> nanos == 0 || 60 * minutes <= 86400 * days + 3600 * hours + seconds)
  {
  }

  lemma DigitPadded(c: char)
    requires IsDigit(c)
    ensures Value([c]) == DigitValue(c)
    ensures Billionths([c]) == 100_000_000 * DigitValue(c)
  {
    assert Digits([c], 0) == Digits([c][1..], DigitValue(c)) == DigitValue(c);
    Pow10Values();
  }

  lemma MinusDigitPadded(c: char)
    requires IsDigit(c)
    ensures FractionRead(['-', c]) == -10_000_000 * DigitValue(c)
  {
    assert ['-', c] == "-" + [c];
    ParseDigits([c]);
    Pow10Values();
    DigitPadded(c);
  }

  /** `0:0:c.-d`: c seconds and, unless a digit is 0, nanos of the other sign. */
  lemma FractionDisagrees(c: char, d: char)
    requires IsDigit(c) && IsDigit(d)
    ensures Parse(Render(Fields(false, None, "0", "0", [c], Some(['-', d]))))
            == Parsed(Duration(DigitValue(c), -10_000_000 * DigitValue(d)))
  {
    var f := Fields(false, None, "0", "0", [c], Some(['-', d]));
    DigitPadded(c);
    DigitPadded('0');
    MinusDigitPadded(d);
    ParseToSum(f);
  }

  lemma BlankIsNotScaled(c: char)
    requires IsDigit(c)
    ensures FractionRead([c, ' ']) == DigitValue(c)
  {
    var s := [c, ' '];
    assert SkipSpaces(s) == s && Unsigned(s)[1] == ' ';
    ParseLongReads("", "", [c], " ");
    assert s == "" + ("" + ([c] + " "));
    assert Digits([c], 0) == Digits([c][1..], DigitValue(c)) == DigitValue(c);
  }

  /** `0:0:c.d` with a blank at its end: c seconds and d nanos, not d tenths of a second. */
  lemma BlankUnscales(c: char, d: char)
    requires IsDigit(c) && IsDigit(d)
    ensures Parse(Render(Fields(false, None, "0", "0", [c], Some([d, ' ']))))
            == Parsed(Duration(DigitValue(c), DigitValue(d)))
  {
    var f := Fields(false, None, "0", "0", [c], Some([d, ' ']));
    DigitPadded(c);
    DigitPadded('0');
    BlankIsNotScaled(d);
    ParseToSum(f);
  }

  /** `0:-c:0.d`: minus c minutes and, unless a digit is 0, nanos of the other sign. */
  lemma MinutesDisagree(c: char, d: char)
    requires IsDigit(c) && IsDigit(d)
    ensures Parse(Render(Fields(false, None, "0", ['-', c], "0", Some([d]))))
            == Parsed(Duration(-60 * DigitValue(c), 100_000_000 * DigitValue(d)))
  {
    var f := Fields(false, None, "0", ['-', c], "0", Some([d]));
    DigitPadded(c);
    DigitPadded(d);
    DigitPadded('0');
    assert ['-', c] == "-" + [c];
    ParseMinusMinutes(f, [c]);
  }

  // ---------------------------------------------------------------- rendering a duration

  /** n in exactly `width` digits, when it fits. */
  function FixedDigits(n: nat, width: nat): (s: string)
    ensures |s| == width && AllDigits(s)
  {
    if width == 0 then "" else FixedDigits(n / 10, width - 1) + [Digit(n % 10)]
  }

  lemma {:induction false} FixedDigitsValue(n: nat, width: nat)
    requires n < Pow10(width)
    ensures Value(FixedDigits(n, width)) == n
  {
    if width > 0 {
      FixedDigitsValue(n / 10, width - 1);
      DigitsSnoc(FixedDigits(n / 10, width - 1), 0, Digit(n % 10));
    }
  }

  /** A protobuf duration: 64-bit seconds, less than a second of nanos, same sign. */
  predicate ValidDuration(d: Duration) {
    && FitsLong(d.seconds)
    && -1_000_000_000 < d.nanos < 1_000_000_000
    && !(d.seconds < 0 < d.nanos) && !(d.nanos < 0 < d.seconds)
  }

  /** Canonical fields: [-]d.hh:mm:ss.fffffffff */
  function FieldsOf(d: Duration): Fields
    requires ValidDuration(d)
  {
    var s: nat := if d.seconds < 0 then -d.seconds else d.seconds;
    var n: nat := if d.nanos < 0 then -d.nanos else d.nanos;
    Fields(d.seconds < 0 || d.nanos < 0, Some(FixedDigits(s / 86400, 15)), FixedDigits(s / 3600 % 24, 2),
           FixedDigits(s / 60 % 60, 2), FixedDigits(s % 60, 2), Some(FixedDigits(n, 9)))
  }

  lemma {:induction false} Pow10Values()
    ensures Pow10(2) == 100 && Pow10(7) == 10_000_000 && Pow10(8) == 100_000_000
    ensures Pow10(9) == 1_000_000_000 && Pow10(15) == 1_000_000_000_000_000
  {
  }

  lemma FieldsOfMeaning(d: Duration)
    requires ValidDuration(d)
    ensures Meaning(FieldsOf(d)) == d && Value(FieldsOf(d).seconds) < 60
  {
    var f := FieldsOf(d);
    var s: nat := if d.seconds < 0 then -d.seconds else d.seconds;
    var n: nat := if d.nanos < 0 then -d.nanos else d.nanos;
    Pow10Values();
    SecondsInFields(s);
    NanosInFields(n);
    assert f.fraction.value == FixedDigits(n, 9);
  }

  lemma NanosInFields(n: nat)
    requires n < 1_000_000_000
    ensures Billionths(FixedDigits(n, 9)) == n
  {
    Pow10Values();
    FixedDigitsValue(n, 9);
    assert Pow10(0) == 1;
  }

  lemma SecondsInFields(s: nat)
    requires s <= 0x8000_0000_0000_0000
    ensures 86400 * Value(FixedDigits(s / 86400, 15)) + 3600 * Value(FixedDigits(s / 3600 % 24, 2))
            + 60 * Value(FixedDigits(s / 60 % 60, 2)) + Value(FixedDigits(s % 60, 2)) == s
    ensures Value(FixedDigits(s % 60, 2)) < 60
  {
    Pow10Values();
    DaysHoursMinutes(s);
    FixedDigitsValue(s / 86400, 15);
    FixedDigitsValue(s / 3600 % 24, 2);
    FixedDigitsValue(s / 60 % 60, 2);
    FixedDigitsValue(s % 60, 2);
  }

  /** Every valid duration, down to the most negative 64-bit one, survives rendering and parsing. */
  lemma RenderThenParse(d: Duration)
    requires ValidDuration(d)
    ensures Parse(Render(FieldsOf(d))) == Parsed(d)
  {
    FieldsOfMeaning(d);
    ParseIsMeaning(FieldsOf(d));
  }

  lemma DaysHoursMinutes(s: nat)
    ensures 86400 * (s / 86400) + 3600 * (s / 3600 % 24) + 60 * (s / 60 % 60) + s % 60 == s
  {
    var m := s / 60;
    var h := m / 60;
    assert s / 3600 == h;
    assert s / 86400 == h / 24;
  }
}
