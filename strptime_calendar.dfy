/**
 * Calendar arithmetic of strptime.c: the leap-year test, Gauss's first
 * weekday of a year, the cumulative month table and the search that maps a
 * day of the year back to its month.
 */
module StrptimeCalendar {

  /** C's `%` on int for a positive divisor: it truncates toward zero, so
      the remainder takes the sign of the dividend. */
  function CRem(a: int, b: int): (r: int)
    requires b > 0
    ensures -b < r < b
    ensures a >= 0 ==> r == a % b
    ensures a <= 0 ==> r <= 0
  {
    if a >= 0 then a % b else -((-a) % b)
  }
  /** C's division identity `(a/b)*b + a%b == a`, with `/` truncating
      toward zero as `%` does. */
  lemma CRemQuotient(a: int, b: int)
    requires b > 0
    ensures var q := if a >= 0 then a / b else -((-a) / b);
      q * b + CRem(a, b) == a
  {
    if a < 0 {
      var q := (-a) / b;
      assert q * b + (-a) % b == -a;
      assert (-q) * b == -(q * b);
    }
  }
  /** The `isleap` macro, with C's remainder. */
  predicate IsLeap(y: int)
  {
    CRem(y, 4) == 0 && (CRem(y, 100) != 0 || CRem(y, 400) == 0)
  }
  function YearLength(y: int): (n: int)
    ensures n == 365 || n == 366
    ensures n == 366 <==> IsLeap(y)
  {
    if IsLeap(y) then 366 else 365
  }
  /** first_wday_of: Gauss's weekday (0 = Sunday) of 1 January of `year`. */
  function FirstWday(year: int): int
  {
    CRem(1 + 5 * CRem(year - 1, 4) + 4 * CRem(year - 1, 100) + 6 * CRem(year - 1, 400), 7)
  }
  lemma Zero4(y: int) ensures CRem(y, 4) == 0 <==> y % 4 == 0 {}
  lemma Zero100(y: int) ensures CRem(y, 100) == 0 <==> y % 100 == 0 {}
  lemma Zero400(y: int) ensures CRem(y, 400) == 0 <==> y % 400 == 0 {}

  /** The Gregorian rule, with mathematical remainders: the macro agrees
      with it for every year, negative ones included. */
  lemma IsLeapIff(y: int)
    ensures IsLeap(y) <==> y % 4 == 0 && (y % 100 != 0 || y % 400 == 0)
  {
    Zero4(y);
    Zero100(y);
    Zero400(y);
  }

  lemma FirstWdayRange(year: int)
    requires year >= 1
    ensures 0 <= FirstWday(year) <= 6
  {
  }

  lemma Succ4(y: int) requires y >= 0 ensures (y + 1) % 4 == if y % 4 == 3 then 0 else y % 4 + 1 {}
  lemma Succ100(y: int) requires y >= 0 ensures (y + 1) % 100 == if y % 100 == 99 then 0 else y % 100 + 1 {}
  lemma Succ400(y: int) requires y >= 0 ensures (y + 1) % 400 == if y % 400 == 399 then 0 else y % 400 + 1 {}
  lemma Nest400(y: int) requires y >= 0 ensures y % 400 == 399 ==> y % 100 == 99 {}
  lemma Nest100(y: int) requires y >= 0 ensures y % 100 == 99 ==> y % 4 == 3 {}

  lemma Shift7(s: int, d: int, l: int, t: int)
    requires d == l + 7 * t
    ensures (s + d) % 7 == (s % 7 + l) % 7
  {
  }

  /** The weekday step of Gauss's formula on the three remainders. */
  lemma WdayStep(a: int, b: int, c: int, a1: int, b1: int, c1: int, leap: bool)
    requires 0 <= a < 4 && 0 <= b < 100 && 0 <= c < 400
    requires a1 == (if a == 3 then 0 else a + 1)
    requires b1 == (if b == 99 then 0 else b + 1)
    requires c1 == (if c == 399 then 0 else c + 1)
    requires (c == 399 ==> b == 99) && (b == 99 ==> a == 3)
    requires leap <==> a1 == 0 && (b1 != 0 || c1 == 0)
    ensures (1 + 5 * a1 + 4 * b1 + 6 * c1) % 7 == ((1 + 5 * a + 4 * b + 6 * c) % 7 + (if leap then 366 else 365)) % 7
  {
    var s := 1 + 5 * a + 4 * b + 6 * c;
    if c == 399 {
      assert s == 2806;
    } else if b == 99 {
      Shift7(s, -405, 365, -110);
    } else if a == 3 {
      Shift7(s, -5, 366, -53);
    } else {
      Shift7(s, 15, 365, -50);
    }
  }

  /** Gauss's formula steps from one year to the next by the length of the
      year: 1 January moves on by 365 days, or by 366 after a leap year. */
  lemma FirstWdayNext(year: int)
    requires year >= 1
    ensures FirstWday(year + 1) == (FirstWday(year) + YearLength(year)) % 7
  {
    var y := year - 1;
    Succ4(y); Succ100(y); Succ400(y); Nest400(y); Nest100(y);
    WdayStep(y % 4, y % 100, y % 400, year % 4, year % 100, year % 400, IsLeap(year));
  }

  /** start_of_month: days of the year before each month, two rows (common
      and leap year) of thirteen entries. */
  const CommonStarts: seq<int> := [0, 31, 59, 90, 120, 151, 181, 212, 243, 273, 304, 334, 365]
  const LeapStarts: seq<int> := [0, 31, 60, 91, 121, 152, 182, 213, 244, 274, 305, 335, 366]

  function StartOfMonth(leap: bool, m: int): int
    requires 0 <= m <= 12
  {
    if leap then LeapStarts[m] else CommonStarts[m]
  }

  /** The Gregorian month lengths, an independent account of the table. */
  function MonthLength(leap: bool, m: int): (n: int)
    requires 0 <= m <= 11
    ensures 28 <= n <= 31
  {
    if m == 1 then (if leap then 29 else 28)
    else if m == 3 || m == 5 || m == 8 || m == 10 then 30
    else 31
  }

  /** Each row of the table accumulates the month lengths and ends at the
      length of the year. */
  lemma StartOfMonthSums(leap: bool, m: int)
    requires 0 <= m <= 11
    ensures StartOfMonth(leap, 0) == 0
    ensures StartOfMonth(leap, m + 1) == StartOfMonth(leap, m) + MonthLength(leap, m)
    ensures StartOfMonth(leap, 12) == if leap then 366 else 365
  {
  }

  /** The row is strictly increasing. */
  lemma StartOfMonthMonotone(leap: bool, i: int, j: int)
    requires 0 <= i < j <= 12
    ensures StartOfMonth(leap, i) < StartOfMonth(leap, j)
    decreases j - i
  {
    StartOfMonthSums(leap, j - 1);
    if i < j - 1 {
      StartOfMonthMonotone(leap, i, j - 1);
    }
  }

  /** One row of start_of_month. */
  function Row(leap: bool): (row: seq<int>)
    ensures |row| == 13
  {
    if leap then LeapStarts else CommonStarts
  }

  /** The month search, bounded at the end of the row: the first index from
      `i` whose entry exceeds `yday`, or 13 when there is none. */
  function SearchFrom(yday: int, row: seq<int>, i: nat): (r: nat)
    requires |row| == 13 && i <= 13
    ensures i <= r <= 13
    decreases 13 - i
  {
    if i <= 12 && yday >= row[i] then SearchFrom(yday, row, i + 1) else i
  }

  /** The index found brackets `yday`: the entry before it is at most
      `yday`, and the entry at it, when there is one, exceeds it. */
  lemma {:induction false} SearchFromBrackets(yday: int, row: seq<int>, i: nat)
    requires |row| == 13 && i <= 13 && (i >= 1 ==> row[i - 1] <= yday)
    ensures var r := SearchFrom(yday, row, i);
      && (r >= 1 ==> row[r - 1] <= yday)
      && (r <= 12 ==> yday < row[r])
    decreases 13 - i
  {
    if i <= 12 && yday >= row[i] {
      SearchFromBrackets(yday, row, i + 1);
    }
  }

  /** Outcome of the month search as written: the index found, or a read of
      the entry past the end of the row. */
  datatype Search = Found(i: nat) | ReadsPastRow

  /** The month search as strptime.c:669-672 writes it: it reads
      start_of_month[leap][i] for ever larger i with no bound on i. */
  function SearchAsWritten(yday: int, leap: bool, i: nat): (r: Search)
    requires i <= 13
    ensures r.Found? ==> i <= r.i <= 12
    decreases 13 - i
  {
    if i == 13 then ReadsPastRow
    else if yday >= StartOfMonth(leap, i) then SearchAsWritten(yday, leap, i + 1)
    else Found(i)
  }

  /** The unbounded search reads past the row exactly when `yday` reaches
      the length of the year; below that it agrees with the bounded one. */
  lemma {:induction false} SearchAsWrittenAgrees(yday: int, leap: bool, i: nat)
    requires i <= 13 && (i >= 1 ==> StartOfMonth(leap, i - 1) <= yday)
    ensures SearchAsWritten(yday, leap, i) == ReadsPastRow <==> yday >= StartOfMonth(leap, 12)
    ensures yday < StartOfMonth(leap, 12) ==> SearchAsWritten(yday, leap, i) == Found(SearchFrom(yday, Row(leap), i))
    decreases 13 - i
  {
    if i == 13 {
    } else if yday >= StartOfMonth(leap, i) {
      SearchAsWrittenAgrees(yday, leap, i + 1);
    } else {
      if i < 12 {
        StartOfMonthMonotone(leap, i, 12);
      }
    }
  }
}
