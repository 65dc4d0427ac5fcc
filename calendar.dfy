/**
 * Dates as whole day numbers (days since 1970-01-01) and reporting months as
 * month keys (year * 12 + month - 1), so that "report_month + k months" is
 * key + k and "the first day of that month" is FirstDay(key).
 */
module Calendar {

  /** Days since 1970-01-01 of a proleptic Gregorian civil date. */
  function DaysFromCivil(year: int, month: int, day: int): int
    requires 1 <= month <= 12
  {
    var y := if month <= 2 then year - 1 else year;
    var era := y / 400;
    var yoe := y % 400;
    var mp := if month > 2 then month - 3 else month + 9;
    var doy := (153 * mp + 2) / 5 + day - 1;
    var doe := yoe * 365 + yoe / 4 - yoe / 100 + doy;
    era * 146097 + doe - 719468
  }

  /** The month key of a year and a 1-based month. */
  function MonthKey(year: int, month: int): int
    requires 1 <= month <= 12
  {
    year * 12 + month - 1
  }

  /** Day number of the first day of the month with the given key. */
  function FirstDay(key: int): int {
    DaysFromCivil(key / 12, key % 12 + 1, 1)
  }

  /** The data's effective as-of date, 2023-03-01, as a month key and a day number. */
  const AsOfMonth: int := MonthKey(2023, 3)
  const AsOfDate: int := FirstDay(AsOfMonth)

  /** The month before the as-of month: the last complete reporting month. */
  const LastMonth: int := AsOfMonth - 1

  /** Day count at the start of each month of a March-based year. */
  const MarchOffsets: seq<int> := [0, 31, 61, 92, 122, 153, 184, 214, 245, 275, 306, 337]

  /** The March-based year and month (March = 0) that DaysFromCivil works in. */
  function MarchYear(key: int): int {
    if key % 12 <= 1 then key / 12 - 1 else key / 12
  }

  function MarchMonth(key: int): (mp: int)
    ensures 0 <= mp < 12
  {
    if key % 12 >= 2 then key % 12 - 2 else key % 12 + 10
  }

  /** Days from the epoch of the era to the March that starts March-based year yy. */
  function YearStart(yy: int): int {
    (yy / 400) * 146097 + (yy % 400) * 365 + (yy % 400) / 4 - (yy % 400) / 100
  }

  lemma MarchOffset(mp: int)
    requires 0 <= mp < 12
    ensures (153 * mp + 2) / 5 == MarchOffsets[mp]
  {
    if mp == 0 {} else if mp == 1 {} else if mp == 2 {} else if mp == 3 {}
    else if mp == 4 {} else if mp == 5 {} else if mp == 6 {} else if mp == 7 {}
    else if mp == 8 {} else if mp == 9 {} else if mp == 10 {} else {}
  }

  lemma FirstDaySplit(key: int)
    ensures FirstDay(key) == YearStart(MarchYear(key)) + MarchOffsets[MarchMonth(key)] - 719468
  {
    MarchOffset(MarchMonth(key));
  }

  /** A March-based year has 365 or 366 days. */
  lemma YearLength(yy: int)
    ensures 365 <= YearStart(yy + 1) - YearStart(yy) <= 366
  {
    var yoe := yy % 400;
    if yoe == 399 {
      assert (yy + 1) / 400 == yy / 400 + 1 && (yy + 1) % 400 == 0;
    } else {
      assert (yy + 1) / 400 == yy / 400 && (yy + 1) % 400 == yoe + 1;
      assert 0 <= (yoe + 1) / 4 - yoe / 4 <= 1;
      assert 0 <= (yoe + 1) / 100 - yoe / 100 <= 1;
    }
  }

  /** The March-based month after key's: the next month of the year, or March of the next. */
  lemma MarchNext(key: int)
    ensures MarchMonth(key) == 11 ==> MarchYear(key + 1) == MarchYear(key) + 1 && MarchMonth(key + 1) == 0
    ensures MarchMonth(key) != 11 ==> MarchYear(key + 1) == MarchYear(key) && MarchMonth(key + 1) == MarchMonth(key) + 1
  {
    var y, m := key / 12, key % 12;
    assert (key + 1) / 12 == (if m == 11 then y + 1 else y);
    assert (key + 1) % 12 == (if m == 11 then 0 else m + 1);
  }

  /** Consecutive months start 28 to 31 days apart, counted in March-based years. */
  lemma MarchMonthLength(key: int)
    ensures 28 <= (YearStart(MarchYear(key + 1)) + MarchOffsets[MarchMonth(key + 1)])
      - (YearStart(MarchYear(key)) + MarchOffsets[MarchMonth(key)]) <= 31
  {
    MarchNext(key);
    if MarchMonth(key) == 11 {
      YearLength(MarchYear(key));
    }
  }

  /** Every calendar month is 28 to 31 days long. */
  lemma MonthLength(key: int)
    ensures 28 <= FirstDay(key + 1) - FirstDay(key) <= 31
  {
    FirstDaySplit(key);
    FirstDaySplit(key + 1);
    MarchMonthLength(key);
  }

  lemma AsOfDateValue()
    ensures AsOfDate == 19417
  {
    assert AsOfMonth == 24278;
    assert 24278 / 12 == 2023 && 24278 % 12 == 2;
    assert 2023 / 400 == 5 && 2023 % 400 == 23;
    assert (153 * 0 + 2) / 5 == 0;
    assert 23 / 4 == 5 && 23 / 100 == 0;
    assert DaysFromCivil(2023, 3, 1) == 5 * 146097 + (23 * 365 + 5 - 0 + 0) - 719468;
  }
}
