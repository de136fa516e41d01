/**
 * The month window of the monthly report: observations of a month are
 * those whose date text lies in [first of the month, first of the next
 * month), compared as text, as the store compares `date` values.
 */
module MonthRange {
  import opened Text

  /** `f"{n:02d}"`: at least two digits, a minus sign counting towards the width. */
  function Format02(n: int): string
  {
    if n >= 0 then Pad2(n) else "-" + NatToString(-n)
  }

  /** The first day of the month, as `YYYY-MM-01`. */
  function MonthStart(year: int, month: int): string
  {
    IntToString(year) + "-" + Format02(month) + "-01"
  }

  /** The first day of the following month; December rolls over to January of the next year. */
  function MonthEnd(year: int, month: int): string
  {
    if month == 12 then IntToString(year + 1) + "-01-01"
    else IntToString(year) + "-" + Format02(month + 1) + "-01"
  }

  /** The calendar month after the given one. */
  function NextMonth(year: int, month: int): (r: (int, int))
    ensures 1 <= month <= 12 ==> 1 <= r.1 <= 12
    ensures month == 12 ==> r == (year + 1, 1)
    ensures month != 12 ==> r == (year, month + 1)
  {
    if month == 12 then (year + 1, 1) else (year, month + 1)
  }

  /** The date text lies in the month's half-open window. */
  predicate InMonth(date: string, year: int, month: int)
  {
    LexLe(MonthStart(year, month), date) && LexLess(date, MonthEnd(year, month))
  }

  /** A date written `YYYY-MM-DD`. */
  function DateText(year: int, month: int, day: int): string
  {
    IntToString(year) + "-" + Format02(month) + "-" + Format02(day)
  }

  lemma FirstIsPadded()
    ensures Format02(1) == "01"
  {
    assert NatToString(1) == [DigitChar(1)];
  }

  /**
   * The window's end is the next month's start, so consecutive windows
   * meet without overlapping, and the end itself is outside.
   */
  lemma MonthEndIsNextStart(year: int, month: int)
    ensures MonthEnd(year, month) == MonthStart(NextMonth(year, month).0, NextMonth(year, month).1)
    ensures !InMonth(MonthEnd(year, month), year, month)
  {
    FirstIsPadded();
    LexLessIrreflexive(MonthEnd(year, month));
  }

  /** Every day of a month, written as the store writes dates, lies in that month's window (four-digit years). */
  lemma DateInMonth(year: int, month: int, day: int)
    requires 1000 <= year <= 9998 && 1 <= month <= 12 && 1 <= day <= 31
    ensures InMonth(DateText(year, month, day), year, month)
  {
    StartNotAfterDate(year, month, day);
    if month < 12 {
      DateBeforeNextMonth(year, month, day);
    } else {
      DateBeforeNextYear(year, day);
    }
  }

  lemma StartNotAfterDate(year: int, month: int, day: int)
    requires 0 <= year && 1 <= month <= 12 && 1 <= day <= 31
    ensures LexLe(MonthStart(year, month), DateText(year, month, day))
  {
    var prefix := IntToString(year) + "-" + Format02(month) + "-";
    FirstIsPadded();
    assert DateText(year, month, day) == prefix + Pad2(day);
    assert MonthStart(year, month) == prefix + Pad2(1);
    if day > 1 {
      Pad2Less(1, day);
      LexLessPrefix(prefix, Pad2(1), Pad2(day));
    }
  }

  lemma DateBeforeNextMonth(year: int, month: int, day: int)
    requires 0 <= year && 1 <= month < 12 && 1 <= day <= 31
    ensures LexLess(DateText(year, month, day), MonthEnd(year, month))
  {
    var p := IntToString(year) + "-";
    var m, m2, d := Format02(month), Format02(month + 1), Format02(day);
    MonthsInOrder(month);
    LexLessInside(p, m, m2, "-" + d, "-01");
    assert DateText(year, month, day) == p + m + ("-" + d);
    assert MonthEnd(year, month) == p + m2 + "-01";
  }

  lemma MonthsInOrder(month: int)
    requires 1 <= month < 12
    ensures |Format02(month)| == |Format02(month + 1)| && LexLess(Format02(month), Format02(month + 1))
  {
    Pad2Value(month);
    Pad2Value(month + 1);
    Pad2Less(month, month + 1);
  }

  /** Comparing the differing middle part of two texts that share a prefix. */
  lemma LexLessInside(p: string, a: string, b: string, x: string, y: string)
    requires |a| == |b| && LexLess(a, b)
    ensures LexLess(p + a + x, p + b + y)
  {
    LexLessExtend(a, b, x, y);
    LexLessPrefix(p, a + x, b + y);
    assert p + a + x == p + (a + x);
    assert p + b + y == p + (b + y);
  }

  lemma DateBeforeNextYear(year: int, day: int)
    requires 1000 <= year <= 9998 && 1 <= day <= 31
    ensures LexLess(DateText(year, 12, day), MonthEnd(year, 12))
  {
    var y, y2 := NatToString(year), NatToString(year + 1);
    var m, d := Format02(12), Format02(day);
    var rest := "-" + m + "-" + d;
    NatLength4(year);
    NatLength4(year + 1);
    NatLexLess(year, year + 1);
    LexLessExtend(y, y2, rest, "-01-01");
    Regroup(y, "-", m, "-", d);
    assert DateText(year, 12, day) == y + "-" + m + "-" + d;
    assert MonthEnd(year, 12) == y2 + "-01-01";
  }

  lemma Regroup(a: string, b: string, c: string, d: string, e: string)
    ensures a + b + c + d + e == a + (b + c + d + e)
  {
  }

  /** The month named in recommendations: the next one, wrapping December to January. */
  function NextMonthIndex(month: int): (r: int)
    ensures 1 <= month <= 12 ==> 1 <= r <= 12 && r == NextMonth(0, month).1
    ensures month == 12 ==> r == 1
  {
    if month < 12 then month + 1 else 1
  }
}
