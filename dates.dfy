/**
 * Calendar dates as Python's `datetime.date`, the parser behind
 * `datetime.strptime(text, '%Y-%m-%d')`, and the `strftime` formats the
 * scripts print (`%Y-%m-%d` and `%Y-%m-%d-%H-%M-%S`).
 */
module Dates {
  import opened Wrappers

  datatype Date = Date(year: int, month: int, day: int)

  predicate IsLeapYear(y: int) {
    y % 4 == 0 && (y % 100 != 0 || y % 400 == 0)
  }

  function DaysInMonth(y: int, m: int): (n: int)
    requires 1 <= m <= 12
    ensures 28 <= n <= 31
    ensures n == 29 <==> m == 2 && IsLeapYear(y)
  {
    if m == 2 then (if IsLeapYear(y) then 29 else 28)
    else if m == 4 || m == 6 || m == 9 || m == 11 then 30
    else 31
  }

  /** What `datetime.date(year, month, day)` accepts (MINYEAR 1, MAXYEAR 9999). */
  predicate ValidDate(d: Date) {
    && 1 <= d.year <= 9999
    && 1 <= d.month <= 12
    && 1 <= d.day <= DaysInMonth(d.year, d.month)
  }

  predicate IsDigit(c: char) {
    '0' <= c <= '9'
  }

  function DigitValue(c: char): (v: int)
    requires IsDigit(c)
    ensures 0 <= v <= 9
  {
    c as int - '0' as int
  }

  function DigitChar(v: int): (c: char)
    requires 0 <= v <= 9
    ensures IsDigit(c) && DigitValue(c) == v
  {
    ('0' as int + v) as char
  }

  /**
   * `%m` as `strptime` matches it ahead of the `-` that follows: the
   * alternatives `1[0-2]`, `0[1-9]` and `[1-9]`, so the month text is
   * one character or two.
   */
  function ParseMonth(t: string): (r: Option<int>)
    ensures r.Some? ==> 1 <= r.value <= 12 && 1 <= |t| <= 2
  {
    if |t| == 2 && t[0] == '1' && '0' <= t[1] <= '2' then Some(10 + DigitValue(t[1]))
    else if |t| == 2 && t[0] == '0' && '1' <= t[1] <= '9' then Some(DigitValue(t[1]))
    else if |t| == 1 && '1' <= t[0] <= '9' then Some(DigitValue(t[0]))
    else None
  }

  /**
   * `%d` as the last field: the regular expression takes the first of
   * `3[01]`, `[12]\d`, `0[1-9]`, `[1-9]` and `' '[1-9]` that matches, and
   * the text it leaves must be empty. So `32` is refused (`[1-9]` takes
   * the `3` and leaves the `2`), and the day text is one character or two.
   */
  function ParseDay(t: string): (r: Option<int>)
    ensures r.Some? ==> 1 <= r.value <= 31 && 1 <= |t| <= 2
  {
    if |t| == 2 && t[0] == '3' && (t[1] == '0' || t[1] == '1') then Some(30 + DigitValue(t[1]))
    else if |t| == 2 && (t[0] == '1' || t[0] == '2') && IsDigit(t[1]) then Some(10 * DigitValue(t[0]) + DigitValue(t[1]))
    else if |t| == 2 && (t[0] == '0' || t[0] == ' ') && '1' <= t[1] <= '9' then Some(DigitValue(t[1]))
    else if |t| == 1 && '1' <= t[0] <= '9' then Some(DigitValue(t[0]))
    else None
  }

  /**
   * `datetime.strptime(s, '%Y-%m-%d').date()`: four digits, `-`, the
   * month, `-`, the day, using up the whole text. The month ends where the
   * second `-` stands, at index 6 or 7. `None` stands for the `ValueError`
   * raised when the text does not match the format in full or names a day
   * that does not exist.
   */
  function ParseDate(s: string): (r: Option<Date>)
    ensures r.Some? ==> 8 <= |s| <= 10 && ValidDate(r.value)
  {
    if |s| < 8 || !(IsDigit(s[0]) && IsDigit(s[1]) && IsDigit(s[2]) && IsDigit(s[3])) || s[4] != '-' then None
    else
      var k := if s[6] == '-' then 6 else 7;
      if s[k] != '-' then None
      else
        var y := 1000 * DigitValue(s[0]) + 100 * DigitValue(s[1]) + 10 * DigitValue(s[2]) + DigitValue(s[3]);
        match (ParseMonth(s[5..k]), ParseDay(s[k + 1..]))
        case (Some(m), Some(d)) => if ValidDate(Date(y, m, d)) then Some(Date(y, m, d)) else None
        case _ => None
  }

  function Pad2(n: int): (s: string)
    requires 0 <= n <= 99
    ensures |s| == 2 && IsDigit(s[0]) && IsDigit(s[1])
    ensures 10 * DigitValue(s[0]) + DigitValue(s[1]) == n
  {
    [DigitChar(n / 10), DigitChar(n % 10)]
  }

  function Pad4(n: int): (s: string)
    requires 0 <= n <= 9999
    ensures |s| == 4 && IsDigit(s[0]) && IsDigit(s[1]) && IsDigit(s[2]) && IsDigit(s[3])
    ensures 1000 * DigitValue(s[0]) + 100 * DigitValue(s[1]) + 10 * DigitValue(s[2]) + DigitValue(s[3]) == n
  {
    var hi := n / 100;
    var lo := n % 100;
    Pad2(hi) + Pad2(lo)
  }

  /** `date.strftime('%Y-%m-%d')`, with the year zero-padded to four digits. */
  function FormatDate(d: Date): (s: string)
    requires ValidDate(d)
    ensures |s| == 10 && s[4] == '-' && s[7] == '-'
  {
    Pad4(d.year) + "-" + Pad2(d.month) + "-" + Pad2(d.day)
  }

  /** The ways `%m` may write month `m`: two digits, or one when below ten. */
  function MonthSpellings(m: int): set<string>
    requires 1 <= m <= 12
  {
    {Pad2(m)} + (if m <= 9 then {[DigitChar(m)]} else {})
  }

  /** The ways `%d` may write day `d`: two digits, or one digit or a blank and a digit when below ten. */
  function DaySpellings(d: int): set<string>
    requires 1 <= d <= 31
  {
    {Pad2(d)} + (if d <= 9 then {[DigitChar(d)], [' ', DigitChar(d)]} else {})
  }

  /** The texts `strptime(.., '%Y-%m-%d')` reads as date `d`. */
  function Spellings(d: Date): set<string>
    requires ValidDate(d)
  {
    set mt, dt | mt in MonthSpellings(d.month) && dt in DaySpellings(d.day) :: Pad4(d.year) + "-" + mt + "-" + dt
  }

  lemma DigitCharOfValue(c: char)
    requires IsDigit(c)
    ensures DigitChar(DigitValue(c)) == c
  {
  }

  lemma MonthSpelled(t: string, m: int)
    requires 1 <= m <= 12
    ensures ParseMonth(t) == Some(m) <==> t in MonthSpellings(m)
  {
    var p := Pad2(m);
    assert p[0] == (if m <= 9 then '0' else '1') && DigitValue(p[1]) == m % 10;
    if t == p {
      assert ParseMonth(t) == Some(m);
    } else if m <= 9 && t == [DigitChar(m)] {
      assert ParseMonth(t) == Some(m);
    }
    if ParseMonth(t) == Some(m) {
      if |t| == 2 {
        DigitsDetermine2(p, t);
      } else {
        DigitCharOfValue(t[0]);
        assert t == [DigitChar(m)];
      }
    }
  }

  lemma DaySpelled(t: string, d: int)
    requires 1 <= d <= 31
    ensures ParseDay(t) == Some(d) <==> t in DaySpellings(d)
  {
    var p := Pad2(d);
    assert DigitValue(p[0]) == d / 10 && DigitValue(p[1]) == d % 10;
    if t == p {
      assert ParseDay(t) == Some(d);
    } else if d <= 9 && t == [DigitChar(d)] {
      assert ParseDay(t) == Some(d);
    } else if d <= 9 && t == [' ', DigitChar(d)] {
      assert ParseDay(t) == Some(d);
    }
    if ParseDay(t) == Some(d) {
      if |t| == 2 && t[0] != ' ' {
        DigitsDetermine2(p, t);
      } else if |t| == 2 {
        DigitCharOfValue(t[1]);
        assert t == [' ', DigitChar(d)];
      } else {
        DigitCharOfValue(t[0]);
        assert t == [DigitChar(d)];
      }
    }
  }

  /** Every spelling of a valid date reads back as that date. */
  lemma SpellingIsParsed(d: Date, s: string)
    requires ValidDate(d) && s in Spellings(d)
    ensures ParseDate(s) == Some(d)
  {
    var mt, dt :| mt in MonthSpellings(d.month) && dt in DaySpellings(d.day) && s == Pad4(d.year) + "-" + mt + "-" + dt;
    MonthSpelled(mt, d.month);
    DaySpelled(dt, d.day);
    var y := Pad4(d.year);
    var k := 5 + |mt|;
    assert s[..4] == y && s[4] == '-';
    assert s[5..k] == mt && s[k] == '-' && s[k + 1..] == dt;
    if |mt| == 2 {
      assert s[6] == mt[1] && IsDigit(mt[1]);
    }
  }

  /** Every valid date survives formatting and parsing again. */
  lemma ParseFormatDate(d: Date)
    requires ValidDate(d)
    ensures ParseDate(FormatDate(d)) == Some(d)
  {
    var s := FormatDate(d);
    assert s == Pad4(d.year) + "-" + Pad2(d.month) + "-" + Pad2(d.day);
    assert Pad2(d.month) in MonthSpellings(d.month) && Pad2(d.day) in DaySpellings(d.day);
    SpellingIsParsed(d, s);
  }

  /**
   * Conversely, a text that parses is the date it gives written as
   * `%Y-%m-%d` allows: with the month and the day zero-padded, unpadded
   * or (the day) blank-padded, so its formatted form differs at most in
   * that padding.
   */
  lemma FormatParseDate(s: string)
    requires ParseDate(s).Some?
    ensures s in Spellings(ParseDate(s).value)
    ensures FormatDate(ParseDate(s).value) in Spellings(ParseDate(s).value)
  {
    var d := ParseDate(s).value;
    var k := if s[6] == '-' then 6 else 7;
    var mt, dt := s[5..k], s[k + 1..];
    MonthSpelled(mt, d.month);
    DaySpelled(dt, d.day);
    DigitsDetermine4(Pad4(d.year), s[..4]);
    assert s == s[..4] + "-" + mt + "-" + dt;
    assert FormatDate(d) == Pad4(d.year) + "-" + Pad2(d.month) + "-" + Pad2(d.day);
    assert Pad2(d.month) in MonthSpellings(d.month) && Pad2(d.day) in DaySpellings(d.day);
  }

  /** Two digit pairs with the same value are equal. */
  lemma DigitsDetermine2(a: string, b: string)
    requires |a| == 2 && |b| == 2
    requires IsDigit(a[0]) && IsDigit(a[1]) && IsDigit(b[0]) && IsDigit(b[1])
    requires 10 * DigitValue(a[0]) + DigitValue(a[1]) == 10 * DigitValue(b[0]) + DigitValue(b[1])
    ensures a == b
  {
    assert DigitValue(a[0]) == DigitValue(b[0]);
  }

  lemma DigitsDetermine4(a: string, b: string)
    requires |a| == 4 && |b| == 4
    requires forall k :: 0 <= k < 4 ==> IsDigit(a[k]) && IsDigit(b[k])
    requires 1000 * DigitValue(a[0]) + 100 * DigitValue(a[1]) + 10 * DigitValue(a[2]) + DigitValue(a[3])
          == 1000 * DigitValue(b[0]) + 100 * DigitValue(b[1]) + 10 * DigitValue(b[2]) + DigitValue(b[3])
    ensures a == b
  {
    assert DigitValue(a[0]) == DigitValue(b[0]);
    assert DigitValue(a[1]) == DigitValue(b[1]);
    assert DigitValue(a[2]) == DigitValue(b[2]);
  }

  /** A moment as `datetime` holds it, to the second. */
  datatype Stamp = Stamp(date: Date, hour: int, minute: int, second: int)

  predicate ValidStamp(t: Stamp) {
    ValidDate(t.date) && 0 <= t.hour < 24 && 0 <= t.minute < 60 && 0 <= t.second < 60
  }

  /** `datetime.strftime('%Y-%m-%d-%H-%M-%S')`, with the year zero-padded to four digits. */
  function FormatStamp(t: Stamp): (s: string)
    requires ValidStamp(t)
    ensures IsStampText(s)
    ensures s[..10] == FormatDate(t.date)
  {
    var s := FormatDate(t.date) + "-" + Pad2(t.hour) + "-" + Pad2(t.minute) + "-" + Pad2(t.second);
    assert s[..10] == FormatDate(t.date);
    s
  }

  /** The shape of every `%Y-%m-%d-%H-%M-%S` text: digits with dashes at 4, 7, 10, 13 and 16. */
  predicate IsStampText(s: string) {
    && |s| == 19
    && (forall k :: 0 <= k < 19 && k != 4 && k != 7 && k != 10 && k != 13 && k != 16 ==> IsDigit(s[k]))
    && s[4] == '-' && s[7] == '-' && s[10] == '-' && s[13] == '-' && s[16] == '-'
  }
}
