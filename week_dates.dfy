/** The day arithmetic of `get_week_dates` (app.py, lines 306-311). A date is its proleptic
    Gregorian ordinal, as Python's `date.toordinal` numbers it: 1 January of year 1 is day 1, a
    Monday. */
module WeekDates {
  const Sunday: int := 6

  /** The remainder of `x` by 7 is the `r` of any decomposition `x == 7 * q + r` with `0 <= r < 7`. */
  lemma ModSeven(x: int, q: int, r: int)
    requires x == 7 * q + r && 0 <= r < 7
    ensures x % 7 == r
  {
    var q', r' := x / 7, x % 7;
    assert 7 * (q - q') == r' - r;
  }

  /** Python's `date.weekday()`: Monday is 0 and Sunday is 6. */
  function Weekday(date: int): (w: int)
    ensures 0 <= w < 7
  {
    (date + 6) % 7
  }

  /** Going `k` days on moves the weekday `k` places round the week. */
  lemma WeekdayAfter(date: int, k: int)
    ensures Weekday(date + k) == (Weekday(date) + k) % 7
  {
    var q := (date + 6) / 7;
    var q' := (Weekday(date) + k) / 7;
    var r := (Weekday(date) + k) % 7;
    assert date + 6 == 7 * q + Weekday(date);
    assert Weekday(date) + k == 7 * q' + r;
    ModSeven(date + k + 6, q + q', r);
  }

  /** Line 308: how many days back the last Sunday is, `(today.weekday() + 1) % 7`. */
  function SundayOffset(today: int): (k: int)
    ensures 0 <= k <= 6
    ensures k == 0 <==> Weekday(today) == Sunday
    ensures Weekday(today - k) == Sunday
  {
    var w := Weekday(today);
    ModSeven(w + 1, if w == Sunday then 1 else 0, if w == Sunday then 0 else w + 1);
    WeekdayAfter(today, -((w + 1) % 7));
    ModSeven(w - (w + 1) % 7, if w == Sunday then 0 else -1, Sunday);
    (w + 1) % 7
  }

  /** Lines 308-310: the current week starts on the last Sunday on or before `today`; any `week`
      other than "next" is the current week. */
  function WeekStart(today: int, week: string): (start: int)
    ensures Weekday(start) == Sunday
    ensures week != "next" ==> start <= today < start + 7
    ensures week == "next" ==> today < start <= today + 7
  {
    var current := today - SundayOffset(today);
    if week == "next" then current + 7 else current
  }

  /** The current week's start is the only Sunday in the seven days up to `today`. */
  lemma CurrentWeekStartUnique(today: int, sunday: int)
    requires Weekday(sunday) == Sunday && sunday <= today < sunday + 7
    ensures WeekStart(today, "current") == sunday
  {
    var start := WeekStart(today, "current");
    var gap := start - sunday;
    assert -6 <= gap <= 6;
    WeekdayAfter(sunday, gap);
    if gap > 0 {
      ModSeven(Sunday + gap, 1, gap - 1);
    } else if gap < 0 {
      ModSeven(Sunday + gap, 0, Sunday + gap);
    }
  }

  /** "next" is exactly seven days after the current week. */
  lemma NextWeekFollows(today: int)
    ensures WeekStart(today, "next") == WeekStart(today, "current") + 7
  {
  }

  /** Line 311: the seven dates from the week's start. */
  function WeekDays(today: int, week: string): (dates: seq<int>)
    ensures |dates| == 7
    ensures dates[0] == WeekStart(today, week)
    ensures forall i :: 0 <= i < 7 ==> dates[i] == dates[0] + i
  {
    var start := WeekStart(today, week);
    seq(7, i => start + i)
  }

  /** The dates run from Sunday to Saturday, and the current week's dates contain `today`. */
  lemma WeekRunsSundayToSaturday(today: int, week: string)
    ensures var dates := WeekDays(today, week);
      && (forall i :: 0 <= i < 7 ==> Weekday(dates[i]) == (Sunday + i) % 7)
      && (week != "next" ==> today in dates)
  {
    var dates := WeekDays(today, week);
    forall i | 0 <= i < 7 ensures Weekday(dates[i]) == (Sunday + i) % 7 {
      WeekdayAfter(dates[0], i);
    }
    if week != "next" {
      assert dates[today - dates[0]] == today;
    }
  }
}
