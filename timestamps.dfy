/**
 * Timestamps in the fixed format `%Y-%m-%d %H:%M:%S` (for example
 * `2021-01-10 00:00:00`), Python's `datetime` validity rules, and the
 * `relativedelta(years=2)` shift that derives a renewal date.
 */
module Timestamps {
  import opened Wrappers
  import opened PyStr

  datatype DateTime = DateTime(year: int, month: int, day: int, hour: int, minute: int, second: int)

  /** `datetime.MAXYEAR`; `datetime.MINYEAR` is 1. */
  const MaxYear := 9999

  predicate IsLeap(y: int) {
    y % 4 == 0 && (y % 100 != 0 || y % 400 == 0)
  }

  /** `calendar.monthrange(y, m)[1]`. */
  function DaysInMonth(y: int, m: int): (n: int)
    requires 1 <= m <= 12
    ensures 28 <= n <= 31
    ensures n == 29 <==> m == 2 && IsLeap(y)
  {
    if m == 2 then (if IsLeap(y) then 29 else 28)
    else if m == 4 || m == 6 || m == 9 || m == 11 then 30
    else 31
  }

  /** The instants a Python `datetime` can hold (without microseconds). */
  predicate Valid(dt: DateTime) {
    1 <= dt.year <= MaxYear && 1 <= dt.month <= 12 && 1 <= dt.day <= DaysInMonth(dt.year, dt.month) &&
    0 <= dt.hour < 24 && 0 <= dt.minute < 60 && 0 <= dt.second < 60
  }

  /** The positions of the separators in `YYYY-MM-DD HH:MM:SS`. */
  predicate IsSeparatorAt(i: int) {
    i == 4 || i == 7 || i == 10 || i == 13 || i == 16
  }

  /** `s` has the shape `DDDD-DD-DD DD:DD:DD`. */
  predicate HasTimestampShape(s: string) {
    |s| == 19 && s[4] == '-' && s[7] == '-' && s[10] == ' ' && s[13] == ':' && s[16] == ':' &&
    forall i :: 0 <= i < 19 && !IsSeparatorAt(i) ==> IsDigit(s[i])
  }

  /** The fields of a string of timestamp shape, read as decimal numbers. */
  function Fields(s: string): DateTime
    requires HasTimestampShape(s)
  {
    assert AllDigits(s[0..4]) && AllDigits(s[5..7]) && AllDigits(s[8..10]);
    assert AllDigits(s[11..13]) && AllDigits(s[14..16]) && AllDigits(s[17..19]);
    DateTime(DigitsValue(s[0..4]), DigitsValue(s[5..7]), DigitsValue(s[8..10]),
             DigitsValue(s[11..13]), DigitsValue(s[14..16]), DigitsValue(s[17..19]))
  }

  /** `datetime.strptime(s, '%Y-%m-%d %H:%M:%S')` on two-digit fields; `None` where it raises. */
  function ParseTimestamp(s: string): (r: Option<DateTime>)
    ensures r.Some? ==> Valid(r.value)
  {
    if HasTimestampShape(s) && Valid(Fields(s)) then Some(Fields(s)) else None
  }

  /** `n` in exactly `w` decimal digits, with leading zeros. */
  function Pad(n: nat, w: nat): (d: string)
    requires n < Pow10(w)
    ensures |d| == w && AllDigits(d) && DigitsValue(d) == n
  {
    if w == 0 then []
    else
      var d := Pad(n / 10, w - 1) + [Digit(n % 10)];
      DigitsValueAppend(Pad(n / 10, w - 1), Digit(n % 10));
      d
  }

  /** Writing back the value of a digit run gives the run. */
  lemma {:induction false} PadDigitsValue(d: string)
    requires AllDigits(d)
    ensures Pad(DigitsValue(d), |d|) == d
  {
    if d != [] {
      var init, c := d[..|d| - 1], d[|d| - 1];
      PadDigitsValue(init);
      var v, n := DigitsValue(init), DigitsValue(d);
      assert n == v * 10 + (c - '0') as int;
      assert n / 10 == v && n % 10 == (c - '0') as int;
      assert Digit(n % 10) == c;
      assert Pad(n, |d|) == Pad(v, |init|) + [c];
      assert d == init + [c];
    }
  }

  /** `datetime.strftime(dt, '%Y-%m-%d %H:%M:%S')`. */
  function FormatTimestamp(dt: DateTime): (s: string)
    requires Valid(dt)
    ensures HasTimestampShape(s)
  {
    Pad(dt.year, 4) + "-" + Pad(dt.month, 2) + "-" + Pad(dt.day, 2) + " " +
    Pad(dt.hour, 2) + ":" + Pad(dt.minute, 2) + ":" + Pad(dt.second, 2)
  }

  /** Parsing a formatted timestamp gives back the instant. */
  lemma ParseFormat(dt: DateTime)
    requires Valid(dt)
    ensures ParseTimestamp(FormatTimestamp(dt)) == Some(dt)
  {
    var s := FormatTimestamp(dt);
    assert s[0..4] == Pad(dt.year, 4);
    assert s[5..7] == Pad(dt.month, 2);
    assert s[8..10] == Pad(dt.day, 2);
    assert s[11..13] == Pad(dt.hour, 2);
    assert s[14..16] == Pad(dt.minute, 2);
    assert s[17..19] == Pad(dt.second, 2);
    assert Fields(s) == dt;
  }

  /** A string of length 19 is the concatenation of its timestamp fields and separators. */
  lemma {:induction false} TimestampPieces(s: string)
    requires |s| == 19
    ensures s == s[0..4] + [s[4]] + s[5..7] + [s[7]] + s[8..10] + [s[10]] +
                 s[11..13] + [s[13]] + s[14..16] + [s[16]] + s[17..19]
  {
  }

  /** Formatting a parsed timestamp gives back the string. */
  lemma FormatParse(s: string)
    requires ParseTimestamp(s).Some?
    ensures FormatTimestamp(ParseTimestamp(s).value) == s
  {
    var dt := Fields(s);
    assert AllDigits(s[0..4]) && AllDigits(s[5..7]) && AllDigits(s[8..10]);
    assert AllDigits(s[11..13]) && AllDigits(s[14..16]) && AllDigits(s[17..19]);
    PadDigitsValue(s[0..4]);
    PadDigitsValue(s[5..7]);
    PadDigitsValue(s[8..10]);
    PadDigitsValue(s[11..13]);
    PadDigitsValue(s[14..16]);
    PadDigitsValue(s[17..19]);
    assert FormatTimestamp(dt) == s[0..4] + "-" + s[5..7] + "-" + s[8..10] + " " +
      s[11..13] + ":" + s[14..16] + ":" + s[17..19];
    TimestampPieces(s);
  }

  /** Two years after a leap year is never a leap year. */
  lemma LeapPlusTwo(y: int)
    ensures IsLeap(y) ==> !IsLeap(y + 2)
  {
  }

  /**
   * `dt + relativedelta(years=2)`: the year moves by two and the day is
   * clamped to the length of the month; `None` where `datetime.replace`
   * raises because the year passes `MaxYear`.
   */
  function AddTwoYears(dt: DateTime): (r: Option<DateTime>)
    requires Valid(dt)
    ensures r.Some? <==> dt.year + 2 <= MaxYear
    ensures r.Some? ==> Valid(r.value) && r.value.year == dt.year + 2 && r.value.month == dt.month
    ensures r.Some? ==> r.value.hour == dt.hour && r.value.minute == dt.minute && r.value.second == dt.second
    ensures r.Some? ==> r.value.day == if dt.month == 2 && dt.day == 29 then 28 else dt.day
  {
    var y := dt.year + 2;
    if y > MaxYear then None
    else
      var last := DaysInMonth(y, dt.month);
      LeapPlusTwo(dt.year);
      Some(dt.(year := y, day := if dt.day <= last then dt.day else last))
  }
}
