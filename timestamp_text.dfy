/**
 * The timestamp formats the normalizer reads and writes: parsing with
 * "%b %d, %Y", "%I:%M %p" and the two joined by a space, as Python's
 * strptime does (case-insensitive names, format spaces matching one or
 * more whitespace characters, the whole text consumed), and rendering
 * with "%Y-%m-%d" and "%I:%M %p".
 */
module TimestampText {
  import opened Wrappers
  import opened Calendar

  predicate IsDigit(c: char) {
    '0' <= c <= '9'
  }

  /**
   * The ASCII characters Python's `str.isspace` accepts, which is what `\s`
   * means in strptime's pattern: space, tab, line feed, vertical tab, form
   * feed, carriage return, and the file, group, record and unit separators.
   */
  predicate IsSpace(c: char) {
    c == ' ' || 9 <= c as int <= 13 || 28 <= c as int <= 31
  }

  function Lower(c: char): char {
    if 'A' <= c <= 'Z' then (c as int + 32) as char else c
  }

  function LowerText(s: string): (r: string)
    ensures |r| == |s|
  {
    seq(|s|, i requires 0 <= i < |s| => Lower(s[i]))
  }

  /** The length of the longest prefix of `s` whose characters satisfy `p`. */
  function Span(s: string, p: char -> bool): (n: nat)
    ensures n <= |s|
    ensures forall i :: 0 <= i < n ==> p(s[i])
    ensures n < |s| ==> !p(s[n])
  {
    if s == [] || !p(s[0]) then 0 else 1 + Span(s[1..], p)
  }

  function DigitValue(c: char): (v: nat)
    requires IsDigit(c)
    ensures v <= 9
  {
    c as int - '0' as int
  }

  /** The number a string of decimal digits denotes. */
  function Value(digits: string): (v: nat)
    requires forall i :: 0 <= i < |digits| ==> IsDigit(digits[i])
  {
    if digits == [] then 0
    else Value(digits[..|digits| - 1]) * 10 + DigitValue(digits[|digits| - 1])
  }

  /** The English month abbreviations in lower case, January first. */
  const MonthNames: seq<string> :=
    ["jan", "feb", "mar", "apr", "may", "jun", "jul", "aug", "sep", "oct", "nov", "dec"]

  /** The number of the month whose English abbreviation is `s`, ignoring case; 0 if none. */
  function MonthNumber(s: string): (m: int)
    ensures 0 <= m <= 12
    ensures m == 0 <==> LowerText(s) !in MonthNames
    ensures 1 <= m ==> MonthNames[m - 1] == LowerText(s)
  {
    var low := LowerText(s);
    if exists k :: 0 <= k < 12 && MonthNames[k] == low then
      var k :| 0 <= k < 12 && MonthNames[k] == low; k + 1
    else 0
  }

  /**
   * Reads "%b %d, %Y" from the front of `s`: a month name, whitespace, a
   * day of one or two digits, a comma, whitespace and four digits of year;
   * the date must exist. Gives the date and the text after the year.
   */
  function DatePrefix(s: string): (r: Option<(Date, string)>)
    ensures r.Some? ==> ValidDate(r.value.0)
  {
    if |s| < 3 || MonthNumber(s[..3]) == 0 then None
    else DayPrefix(MonthNumber(s[..3]), s[3..])
  }

  /** Whitespace, then the day of `month` and the rest of the date. */
  function DayPrefix(month: int, s: string): (r: Option<(Date, string)>)
    ensures r.Some? ==> ValidDate(r.value.0)
  {
    var gap := Span(s, IsSpace);
    if gap == 0 then None else DigitsOfDay(month, s[gap..])
  }

  /** The day of `month` in one or two digits, then the rest of the date. */
  function DigitsOfDay(month: int, s: string): (r: Option<(Date, string)>)
    ensures r.Some? ==> ValidDate(r.value.0)
  {
    var dayLen := Span(s, IsDigit);
    if dayLen < 1 || dayLen > 2 then None
    else
      var day := Value(s[..dayLen]);
      if day < 1 || day > 31 then None
      else YearPrefix(month, day, s[dayLen..])
  }

  /** A comma, whitespace and four digits of year; the date must exist. */
  function YearPrefix(month: int, day: int, s: string): (r: Option<(Date, string)>)
    ensures r.Some? ==> ValidDate(r.value.0)
  {
    if s == [] || s[0] != ',' then None
    else
      var gap := Span(s[1..], IsSpace);
      var yearText := s[1..][gap..];
      if gap == 0 || |yearText| < 4 || Span(yearText, IsDigit) < 4 then None
      else
        var date := Date(Value(yearText[..4]), month, day);
        if !ValidDate(date) then None
        else Some((date, yearText[4..]))
  }

  /**
   * Reads "%I:%M %p" from the front of `s`: an hour from 1 to 12 in one or
   * two digits, a colon, a minute from 0 to 59 in one or two digits,
   * whitespace and AM or PM in either case. Gives the 24-hour time and the rest.
   */
  function TimePrefix(s: string): (r: Option<(Time, string)>)
    ensures r.Some? ==> ValidTime(r.value.0)
  {
    var hourLen := Span(s, IsDigit);
    if hourLen < 1 || hourLen > 2 then None
    else
      var hour := Value(s[..hourLen]);
      var afterHour := s[hourLen..];
      if hour < 1 || hour > 12 || afterHour == [] || afterHour[0] != ':' then None
      else MinutePrefix(hour, afterHour[1..])
  }

  /** The minute in one or two digits, then the half of the day. */
  function MinutePrefix(hour: int, s: string): (r: Option<(Time, string)>)
    requires 1 <= hour <= 12
    ensures r.Some? ==> ValidTime(r.value.0)
  {
    var minuteLen := Span(s, IsDigit);
    if minuteLen < 1 || minuteLen > 2 then None
    else
      var minute := Value(s[..minuteLen]);
      if minute > 59 then None
      else HalfPrefix(hour, minute, s[minuteLen..])
  }

  /** Whitespace, then AM or PM in either case, which places `hour` on the 24-hour clock. */
  function HalfPrefix(hour: int, minute: int, s: string): (r: Option<(Time, string)>)
    requires 1 <= hour <= 12 && 0 <= minute <= 59
    ensures r.Some? ==> ValidTime(r.value.0)
  {
    var gap := Span(s, IsSpace);
    var marker := s[gap..];
    if gap == 0 || |marker| < 2 then None
    else
      var half := LowerText(marker[..2]);
      if half == "am" then Some((Time(hour % 12, minute), marker[2..]))
      else if half == "pm" then Some((Time(hour % 12 + 12, minute), marker[2..]))
      else None
  }

  /** `s` parsed with "%b %d, %Y". */
  function ParseDate(s: string): (r: Option<Date>)
    ensures r.Some? ==> ValidDate(r.value)
  {
    match DatePrefix(s)
    case Some((d, rest)) => if rest == [] then Some(d) else None
    case None => None
  }

  /** `s` parsed with "%I:%M %p". */
  function ParseTime(s: string): (r: Option<Time>)
    ensures r.Some? ==> ValidTime(r.value)
  {
    match TimePrefix(s)
    case Some((t, rest)) => if rest == [] then Some(t) else None
    case None => None
  }

  /** `s` parsed with "%b %d, %Y %I:%M %p". */
  function ParseDateTime(s: string): (r: Option<DateTime>)
    ensures r.Some? ==> ValidDateTime(r.value)
  {
    match DatePrefix(s)
    case None => None
    case Some((d, rest)) =>
      var gap := Span(rest, IsSpace);
      if gap == 0 then None
      else
        match TimePrefix(rest[gap..])
        case Some((t, tail)) => if tail == [] then Some(DateTime(d, t)) else None
        case None => None
  }

  function DigitChar(n: int): char
    requires 0 <= n <= 9
  {
    ('0' as int + n) as char
  }

  /** `n` in two digits with a leading zero. */
  function Pad2(n: int): string
    requires 0 <= n < 100
  {
    [DigitChar(n / 10), DigitChar(n % 10)]
  }

  /** `n` in four digits with leading zeros. */
  function Pad4(n: int): string
    requires 0 <= n < 10000
  {
    Pad2(n / 100) + Pad2(n % 100)
  }

  /** strftime("%Y-%m-%d"). */
  function IsoDate(d: Date): (s: string)
    requires ValidDate(d)
    ensures |s| == 10
  {
    Pad4(d.year) + "-" + Pad2(d.month) + "-" + Pad2(d.day)
  }

  /** strftime("%I:%M %p"): the hour on the 12-hour clock, then AM or PM. */
  function Clock12(t: Time): (s: string)
    requires ValidTime(t)
    ensures |s| == 8
  {
    var hour := if t.hour % 12 == 0 then 12 else t.hour % 12;
    Pad2(hour) + ":" + Pad2(t.minute) + " " + (if t.hour < 12 then "AM" else "PM")
  }

  /** strftime("%b"): the month's English abbreviation, capitalised. */
  function MonthAbbrev(m: int): (s: string)
    requires 1 <= m <= 12
    ensures |s| == 3 && LowerText(s) == MonthNames[m - 1]
  {
    ["Jan", "Feb", "Mar", "Apr", "May", "Jun", "Jul", "Aug", "Sep", "Oct", "Nov", "Dec"][m - 1]
  }

  /** strftime("%b %d, %Y"): a date in the form the time clock writes it. */
  function DateText(d: Date): (s: string)
    requires ValidDate(d)
    ensures |s| == 12
  {
    MonthAbbrev(d.month) + " " + Pad2(d.day) + ", " + Pad4(d.year)
  }
  lemma {:induction false} SpanAppend(t: string, u: string, p: char -> bool)
    ensures Span(t + u, p) == if Span(t, p) < |t| then Span(t, p) else |t| + Span(u, p)
  {
    if t != [] {
      assert (t + u)[0] == t[0] && (t + u)[1..] == t[1..] + u;
      if p(t[0]) {
        SpanAppend(t[1..], u, p);
      }
    } else {
      assert t + u == u;
    }
  }

  lemma DropAppend(t: string, u: string, k: nat)
    requires k <= |t|
    ensures (t + u)[k..] == t[k..] + u
    ensures k <= |t| ==> (t + u)[..k] == t[..k]
  {
  }

  /** Text after a date does not change how the date is read. */
  lemma DatePrefixAppend(s: string, u: string)
    requires DatePrefix(s).Some?
    ensures DatePrefix(s + u) == Some((DatePrefix(s).value.0, DatePrefix(s).value.1 + u))
  {
    DropAppend(s, u, 3);
    DayPrefixAppend(MonthNumber(s[..3]), s[3..], u);
  }

  lemma DayPrefixAppend(month: int, s: string, u: string)
    requires DayPrefix(month, s).Some?
    ensures DayPrefix(month, s + u) == Some((DayPrefix(month, s).value.0, DayPrefix(month, s).value.1 + u))
  {
    var gap := Span(s, IsSpace);
    SpanAppend(s, u, IsSpace);
    DropAppend(s, u, gap);
    DigitsOfDayAppend(month, s[gap..], u);
  }

  lemma DigitsOfDayAppend(month: int, s: string, u: string)
    requires DigitsOfDay(month, s).Some?
    ensures DigitsOfDay(month, s + u) == Some((DigitsOfDay(month, s).value.0, DigitsOfDay(month, s).value.1 + u))
  {
    var dayLen := Span(s, IsDigit);
    SpanAppend(s, u, IsDigit);
    DropAppend(s, u, dayLen);
    YearPrefixAppend(month, Value(s[..dayLen]), s[dayLen..], u);
  }

  lemma YearPrefixAppend(month: int, day: int, s: string, u: string)
    requires YearPrefix(month, day, s).Some?
    ensures YearPrefix(month, day, s + u)
         == Some((YearPrefix(month, day, s).value.0, YearPrefix(month, day, s).value.1 + u))
  {
    DropAppend(s, u, 1);
    var gap := Span(s[1..], IsSpace);
    SpanAppend(s[1..], u, IsSpace);
    DropAppend(s[1..], u, gap);
    var yearText := s[1..][gap..];
    SpanAppend(yearText, u, IsDigit);
    DropAppend(yearText, u, 4);
  }

  /** A date and a time that parse alone parse once joined by a space, as pandas joins them. */
  lemma ParseDateTimeOfParts(d: string, t: string)
    requires ParseDate(d).Some? && ParseTime(t).Some?
    ensures ParseDateTime(d + " " + t) == Some(DateTime(ParseDate(d).value, ParseTime(t).value))
  {
    DateBeforeSpace(d, t);
    TimeAfterSpace(t);
    DateTimeOfPieces(d + " " + t, ParseDate(d).value, " " + t, ParseTime(t).value);
  }

  lemma DateBeforeSpace(d: string, t: string)
    requires ParseDate(d).Some?
    ensures DatePrefix(d + " " + t) == Some((ParseDate(d).value, " " + t))
  {
    var rest := " " + t;
    assert d + " " + t == d + rest;
    assert [] + rest == rest;
    DatePrefixAppend(d, rest);
  }

  lemma TimeAfterSpace(t: string)
    requires ParseTime(t).Some?
    ensures Span(" " + t, IsSpace) == 1 && (" " + t)[1..] == t
    ensures TimePrefix(t) == Some((ParseTime(t).value, []))
  {
    TimeStartsWithDigit(t);
    SpanAfterSpace(t);
  }

  lemma TimeStartsWithDigit(t: string)
    requires TimePrefix(t).Some?
    ensures t != [] && IsDigit(t[0])
  {
  }

  lemma DateTimeOfPieces(s: string, date: Date, rest: string, time: Time)
    requires DatePrefix(s) == Some((date, rest)) && Span(rest, IsSpace) == 1
    requires TimePrefix(rest[1..]) == Some((time, []))
    ensures ParseDateTime(s) == Some(DateTime(date, time))
  {
  }

  lemma SpanAfterSpace(t: string)
    requires t != [] && !IsSpace(t[0])
    ensures Span(" " + t, IsSpace) == 1
  {
    assert (" " + t)[1..] == t;
  }

  lemma ValueSnoc(s: string, c: char)
    requires forall i :: 0 <= i < |s| ==> IsDigit(s[i])
    requires IsDigit(c)
    ensures Value(s + [c]) == Value(s) * 10 + DigitValue(c)
  {
    assert (s + [c])[..|s|] == s;
  }

  lemma DigitOfDigitChar(n: int)
    requires 0 <= n <= 9
    ensures IsDigit(DigitChar(n)) && DigitValue(DigitChar(n)) == n
  {
  }

  lemma ValuePad2(n: int)
    requires 0 <= n < 100
    ensures forall i :: 0 <= i < 2 ==> IsDigit(Pad2(n)[i])
    ensures Value(Pad2(n)) == n
  {
    DigitOfDigitChar(n / 10);
    DigitOfDigitChar(n % 10);
    var s := Pad2(n);
    ValueSnoc([], s[0]);
    assert [] + [s[0]] == [s[0]];
    ValueSnoc([s[0]], s[1]);
    assert [s[0]] + [s[1]] == s;
  }

  lemma ValuePad4(n: int)
    requires 0 <= n < 10000
    ensures forall i :: 0 <= i < 4 ==> IsDigit(Pad4(n)[i])
    ensures Value(Pad4(n)) == n
  {
    var high, low := Pad2(n / 100), Pad2(n % 100);
    ValuePad2(n / 100);
    ValuePad2(n % 100);
    ValueSnoc(high, low[0]);
    ValueSnoc(high + [low[0]], low[1]);
    assert high + [low[0]] + [low[1]] == Pad4(n);
  }

  /** Distinct dates render as distinct "%Y-%m-%d" strings. */
  lemma IsoDateInjective(a: Date, b: Date)
    requires ValidDate(a) && ValidDate(b)
    ensures IsoDate(a) == IsoDate(b) <==> a == b
  {
    if IsoDate(a) == IsoDate(b) {
      var s, t := IsoDate(a), IsoDate(b);
      assert s[..4] == Pad4(a.year) && t[..4] == Pad4(b.year);
      assert s[5..7] == Pad2(a.month) && t[5..7] == Pad2(b.month);
      assert s[8..] == Pad2(a.day) && t[8..] == Pad2(b.day);
      ValuePad4(a.year); ValuePad4(b.year);
      ValuePad2(a.month); ValuePad2(b.month);
      ValuePad2(a.day); ValuePad2(b.day);
    }
  }

  lemma SpanIsTwo(s: string, p: char -> bool)
    requires |s| >= 3 && p(s[0]) && p(s[1]) && !p(s[2])
    ensures Span(s, p) == 2
  {
    assert Span(s[1..][1..], p) == 0;
    assert Span(s[1..], p) == 1;
  }

  /** Reading back a rendered time gives the time: "%I:%M %p" round-trips. */
  lemma ParseTimeOfClock12(t: Time)
    requires ValidTime(t)
    ensures ParseTime(Clock12(t)) == Some(t)
  {
    var hour := if t.hour % 12 == 0 then 12 else t.hour % 12;
    var half := if t.hour < 12 then "AM" else "PM";
    var s := Clock12(t);
    assert Span(s, IsDigit) == 2 && Value(s[..2]) == hour by {
      ValuePad2(hour);
      assert s[..2] == Pad2(hour);
      SpanIsTwo(s, IsDigit);
    }
    assert s[2] == ':' && s[2..][1..] == s[3..];
    assert MinutePrefix(hour, s[3..]) == Some((t, [])) by {
      assert s[2..][1..] == Pad2(t.minute) + " " + half;
      MinuteOfClock12(t, hour, half);
    }
    TimeOfPieces(s, hour, t);
  }

  lemma TimeOfPieces(s: string, hour: int, time: Time)
    requires 1 <= hour <= 12 && Span(s, IsDigit) == 2 && Value(s[..2]) == hour
    requires |s| > 2 && s[2] == ':' && MinutePrefix(hour, s[3..]) == Some((time, []))
    ensures ParseTime(s) == Some(time)
  {
    TimePrefixOfPieces(s, hour);
  }

  lemma TimePrefixOfPieces(s: string, hour: int)
    requires 1 <= hour <= 12 && Span(s, IsDigit) == 2 && Value(s[..2]) == hour
    requires |s| > 2 && s[2] == ':'
    ensures TimePrefix(s) == MinutePrefix(hour, s[3..])
  {
    assert s[2..][1..] == s[3..];
  }

  lemma MinuteOfClock12(t: Time, hour: int, half: string)
    requires ValidTime(t) && hour == (if t.hour % 12 == 0 then 12 else t.hour % 12)
    requires half == if t.hour < 12 then "AM" else "PM"
    ensures MinutePrefix(hour, Pad2(t.minute) + " " + half) == Some((t, []))
  {
    var s := Pad2(t.minute) + " " + half;
    ValuePad2(t.minute);
    assert s[..2] == Pad2(t.minute);
    assert Span(s, IsDigit) == 2 by {
      SpanIsTwo(s, IsDigit);
    }
    var rest := s[2..];
    assert rest == " " + half;
    assert Span(rest, IsSpace) == 1;
    assert rest[1..] == half;
    assert LowerText(half[..2]) == (if t.hour < 12 then "am" else "pm");
    assert half[2..] == [];
  }

  lemma MonthNamesDistinct(i: int, j: int)
    requires 0 <= i < 12 && 0 <= j < 12 && MonthNames[i] == MonthNames[j]
    ensures i == j
  {
  }

  /** Every month's abbreviation reads back as that month. */
  lemma MonthNumberOfAbbrev(m: int)
    requires 1 <= m <= 12
    ensures MonthNumber(MonthAbbrev(m)) == m
  {
    var n := MonthNumber(MonthAbbrev(m));
    assert MonthNames[m - 1] in MonthNames;
    MonthNamesDistinct(n - 1, m - 1);
  }

  lemma {:induction false} SpanAll(s: string, p: char -> bool)
    requires forall i :: 0 <= i < |s| ==> p(s[i])
    ensures Span(s, p) == |s|
    decreases |s|
  {
    if s != [] {
      SpanAll(s[1..], p);
    }
  }

  lemma YearPrefixOfText(month: int, day: int, year: int)
    requires ValidDate(Date(year, month, day))
    ensures YearPrefix(month, day, ", " + Pad4(year)) == Some((Date(year, month, day), []))
  {
    var y := Pad4(year);
    var s := ", " + y;
    ValuePad4(year);
    assert |y| == 4 && y[..4] == y;
    assert s[0] == ',' && s[1..] == " " + y;
    SpanAfterSpace(y);
    assert s[1..][1..] == y;
    SpanAll(y, IsDigit);
    assert y[4..] == [];
  }

  lemma DigitsOfDayOfText(month: int, day: int, year: int)
    requires ValidDate(Date(year, month, day))
    ensures DigitsOfDay(month, Pad2(day) + ", " + Pad4(year)) == Some((Date(year, month, day), []))
  {
    var s := Pad2(day) + ", " + Pad4(year);
    ValuePad2(day);
    assert s[..2] == Pad2(day);
    SpanIsTwo(s, IsDigit);
    assert s[2..] == ", " + Pad4(year);
    YearPrefixOfText(month, day, year);
  }

  lemma DayPrefixOfText(d: Date)
    requires ValidDate(d)
    ensures DayPrefix(d.month, " " + Pad2(d.day) + ", " + Pad4(d.year)) == Some((d, []))
  {
    var rest := Pad2(d.day) + ", " + Pad4(d.year);
    assert " " + Pad2(d.day) + ", " + Pad4(d.year) == " " + rest;
    ValuePad2(d.day);
    SpanAfterSpace(rest);
    assert (" " + rest)[1..] == rest;
    DigitsOfDayOfText(d.month, d.day, d.year);
  }

  /** Reading back a rendered date gives the date: "%b %d, %Y" round-trips. */
  lemma ParseDateOfDateText(d: Date)
    requires ValidDate(d)
    ensures ParseDate(DateText(d)) == Some(d)
  {
    var s := DateText(d);
    assert s[..3] == MonthAbbrev(d.month);
    assert s[3..] == " " + Pad2(d.day) + ", " + Pad4(d.year);
    MonthNumberOfAbbrev(d.month);
    DayPrefixOfText(d);
  }

  /** A timestamp written as the time clock writes it reads back as that timestamp. */
  lemma ParseDateTimeOfText(d: Date, t: Time)
    requires ValidDate(d) && ValidTime(t)
    ensures ParseDateTime(DateText(d) + " " + Clock12(t)) == Some(DateTime(d, t))
  {
    ParseDateOfDateText(d);
    ParseTimeOfClock12(t);
    ParseDateTimeOfParts(DateText(d), Clock12(t));
  }
}
