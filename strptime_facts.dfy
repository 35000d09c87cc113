/**
 * What _strptime promises, proved about the functions of the Strptime
 * module: how the format is walked, what each conversion accepts and what it
 * stores, and how the missing calendar fields are derived.
 */
module StrptimeFacts {
  import opened Wrappers
  import opened StrptimeCalendar
  import opened Strptime

  // ----- the walk over the format -----

  /** One turn of the loop reads the format only from q onwards. */
  lemma StepShift(buf: string, p: nat, fmt: string, q: nat, st: State, loc: Locale)
    requires p <= |buf| && 1 <= q < |fmt| && fmt[q] != '\0' && loc.Valid()
    ensures var r := StepSpec(buf, p, fmt, q, st, loc);
            StepSpec(buf, p, fmt[1..], q - 1, st, loc) == if r.Go? then Go(r.p, r.q - 1, r.st) else r
  {
    var f := fmt[1..];
    assert At(f, q - 1) == At(fmt, q) && At(f, q) == At(fmt, q + 1) && At(f, q + 1) == At(fmt, q + 2);
  }

  /** Dropping the part of the format already walked changes nothing. */
  lemma {:induction false} ScanShift(buf: string, p: nat, fmt: string, q: nat, st: State, loc: Locale)
    requires p <= |buf| && 1 <= q <= |fmt| && loc.Valid()
    ensures ScanSpec(buf, p, fmt, q, st, loc) == ScanSpec(buf, p, fmt[1..], q - 1, st, loc)
    decreases |fmt| - q
  {
    assert At(fmt[1..], q - 1) == At(fmt, q);
    if At(fmt, q) != '\0' {
      StepShift(buf, p, fmt, q, st, loc);
      var r := StepSpec(buf, p, fmt, q, st, loc);
      if r.Go? {
        ScanShift(buf, r.p, fmt, r.q, r.st, loc);
      }
    }
  }

  /** An ordinary character of the format must be the next input character;
      otherwise the answer is NULL. */
  lemma ParseLiteral(buf: string, p: nat, c: char, f: string, tm: Tm, gmt: bool, loc: Locale)
    requires p <= |buf| && loc.Valid() && c != '%' && c != '\0' && !IsSpace(c)
    ensures ParseSpec(buf, p, [c] + f, tm, gmt, loc)
            == if At(buf, p) == c then ParseSpec(buf, p + 1, f, tm, gmt, loc) else Null
  {
    var fmt := [c] + f;
    var st := Init(tm, gmt);
    assert fmt[1..] == f;
    if At(buf, p) == c {
      assert StepSpec(buf, p, fmt, 0, st, loc) == Go(p + 1, 1, st);
      assert ScanSpec(buf, p, fmt, 0, st, loc) == ScanSpec(buf, p + 1, fmt, 1, st, loc);
      ScanShift(buf, p + 1, fmt, 1, st, loc);
    } else {
      assert StepSpec(buf, p, fmt, 0, st, loc) == Halt(Null);
    }
  }

  /** A whitespace character of the format skips any amount of whitespace in
      the input, none included. */
  lemma ParseSpace(buf: string, p: nat, c: char, f: string, tm: Tm, gmt: bool, loc: Locale)
    requires p <= |buf| && loc.Valid() && IsSpace(c)
    ensures ParseSpec(buf, p, [c] + f, tm, gmt, loc) == ParseSpec(buf, SkipSpace(buf, p), f, tm, gmt, loc)
  {
    var fmt := [c] + f;
    var st := Init(tm, gmt);
    var p1 := SkipSpace(buf, p);
    assert fmt[1..] == f;
    assert StepSpec(buf, p, fmt, 0, st, loc) == Go(p1, 1, st);
    assert ScanSpec(buf, p, fmt, 0, st, loc) == ScanSpec(buf, p1, fmt, 1, st, loc);
    ScanShift(buf, p1, fmt, 1, st, loc);
  }

  /** A conversion character the switch does not name gives NULL. */
  lemma ParseUnknown(buf: string, p: nat, c: char, f: string, tm: Tm, gmt: bool, loc: Locale)
    requires p <= |buf| && loc.Valid() && !IsKnown(c) && c != 'E' && c != 'O'
    ensures ParseSpec(buf, p, ['%', c] + f, tm, gmt, loc) == Null
  {
    var fmt := ['%', c] + f;
    var st := Init(tm, gmt);
    assert Modifiers(fmt, 0) == Conversion(c, false, 2);
    assert StepSpec(buf, p, fmt, 0, st, loc) == Halt(Null);
  }

  /** An empty format consumes nothing and leaves tm and the GMT flag as
      they were. */
  lemma ParseEmpty(buf: string, p: nat, tm: Tm, gmt: bool, loc: Locale)
    requires p <= |buf| && loc.Valid()
    ensures ParseSpec(buf, p, "", tm, gmt, loc) == Parsed(p, tm, gmt)
  {
    assert ScanSpec(buf, p, "", 0, Init(tm, gmt), loc) == Finished(p, Init(tm, gmt));
  }

  // ----- numeric conversions -----

  /** The digits Number reads: at least one when there is a digit to read,
      no more than the width, all of them digits, and as many as there are
      up to the width. */
  lemma NumberDigits(buf: string, p: nat, width: nat)
    requires p <= |buf|
    ensures var n := Number(buf, p, width).0;
      && p + n <= |buf| && n <= width && AllDigits(buf[p..p + n])
      && (n < width ==> !IsDigit(At(buf, p + n)))
      && (width > 0 && IsDigit(At(buf, p)) ==> n >= 1)
  {
  }

  /** %C reads up to two digits of century and marks the year as given. */
  lemma CenturyDigits(buf: string, p: nat, st: State)
    requires p <= |buf|
    ensures var r := CenturyConv(buf, p, st); var (n, v) := Number(buf, p, 2);
      && (r.Next? <==> IsDigit(At(buf, p)))
      && (r.Next? ==> r.p == p + n && r.st == st.(century := v, flags := st.flags + {YearF}))
      && (r.Stop? ==> r.o == Null)
  {
  }

  /** %m accepts 1..12 and stores the month counted from 0. */
  lemma MonthRange(buf: string, p: nat, st: State)
    requires p <= |buf|
    ensures var r := MonthConv(buf, p, st); var (n, v) := Number(buf, p, 2);
      && (r.Next? <==> IsDigit(At(buf, p)) && 1 <= v <= 12)
      && (r.Next? ==>
            && r.p == p + n && 0 <= r.st.tm.mon <= 11 && r.st.tm.mon + 1 == v
            && r.st == st.(tm := st.tm.(mon := r.st.tm.mon), flags := st.flags + {MonthF}))
      && (r.Stop? ==> r.o == Null)
  {
  }

  /** %d and %e accept 1..31. */
  lemma MdayRange(buf: string, p: nat, c: char, st: State)
    requires p <= |buf| && (c == 'd' || c == 'e')
    ensures var r := MdayConv(buf, p, c, st);
      var p1 := if c == 'e' && At(buf, p) != '\0' && IsSpace(At(buf, p)) then p + 1 else p;
      var (n, v) := Number(buf, p1, 2);
      && (r.Next? <==> IsDigit(At(buf, p1)) && 1 <= v <= 31)
      && (r.Next? ==>
            && r.p == p1 + n && 1 <= r.st.tm.mday <= 31 && r.st.tm.mday == v
            && r.st == st.(tm := st.tm.(mday := v), flags := st.flags + {MdayF}))
      && (r.Stop? ==> r.o == Null)
  {
  }

  /** %j accepts 1..366 and stores the day of the year counted from 0. */
  lemma YdayRange(buf: string, p: nat, st: State)
    requires p <= |buf|
    ensures var r := YdayConv(buf, p, st); var (n, v) := Number(buf, p, 3);
      && (r.Next? <==> IsDigit(At(buf, p)) && 1 <= v <= 366)
      && (r.Next? ==>
            && r.p == p + n && 0 <= r.st.tm.yday <= 365 && r.st.tm.yday + 1 == v
            && r.st == st.(tm := st.tm.(yday := r.st.tm.yday), flags := st.flags + {YdayF}))
      && (r.Stop? ==> r.o == Null)
  {
  }

  /** %H and %k accept 0..23, %I and %l accept 1..12. */
  lemma HourRange(buf: string, p: nat, c: char, st: State)
    requires p <= |buf| && (c == 'H' || c == 'I' || c == 'k' || c == 'l')
    ensures var r := HourConv(buf, p, c, st);
      var blank := (c == 'k' || c == 'l') && IsBlank(At(buf, p));
      var p1 := if blank then p + 1 else p;
      var (n, v) := Number(buf, p1, if blank then 1 else 2);
      var ok := if c == 'H' || c == 'k' then v <= 23 else 1 <= v <= 12;
      && (r.Next? <==> IsDigit(At(buf, p1)) && ok)
      && (r.Next? ==> r.p == p1 + n && r.st == st.(tm := st.tm.(hour := v)))
      && (r.Stop? ==> r.o == Null)
  {
  }

  /** %M accepts 0..59 and %S accepts 0..60, a leap second included. */
  lemma MinSecRange(buf: string, p: nat, c: char, st: State)
    requires p <= |buf| && (c == 'M' || c == 'S')
    ensures var r := MinSecConv(buf, p, c, st); var (n, v) := Number(buf, p, 2);
      var skip := At(buf, p) == '\0' || IsSpace(At(buf, p));
      && (skip ==> r == Next(p, st))
      && (!skip ==> (r.Next? <==> IsDigit(At(buf, p)) && v <= (if c == 'M' then 59 else 60)))
      && (!skip && r.Next? ==>
            r.p == p + n && r.st == (if c == 'M' then st.(tm := st.tm.(min := v)) else st.(tm := st.tm.(sec := v))))
      && (r.Stop? ==> r.o == Null)
  {
  }

  /** %U and %W accept week numbers 0..53, and record whether weeks start on
      Sunday (%U) or Monday (%W). */
  lemma WeekRange(buf: string, p: nat, c: char, st: State)
    requires p <= |buf| && (c == 'U' || c == 'W')
    ensures var r := WeekConv(buf, p, c, st); var (n, v) := Number(buf, p, 2);
      && (r.Next? <==> IsDigit(At(buf, p)) && v <= 53)
      && (r.Next? ==>
            && r.p == p + n && 0 <= r.st.weekOffset <= 53
            && r.st == st.(dayOffset := if c == 'U' then 0 else 1, weekOffset := v))
      && (r.Stop? ==> r.o == Null)
  {
  }

  /** %u accepts 1..7 and %w accepts 0..6; both store the weekday counted
      from Sunday as 0, so %u's 7 is Sunday. */
  lemma WdayRange(buf: string, p: nat, c: char, st: State)
    requires p <= |buf| && (c == 'u' || c == 'w')
    ensures var r := WdayConv(buf, p, c, st); var ch := At(buf, p);
      && (r.Next? <==> IsDigit(ch) && (if c == 'u' then 1 <= DigitOf(ch) <= 7 else DigitOf(ch) <= 6))
      && (r.Next? ==>
            && r.p == p + 1 && 0 <= r.st.tm.wday <= 6
            && (r.st.tm.wday == 0 <==> DigitOf(ch) == 0 || DigitOf(ch) == 7)
            && (1 <= DigitOf(ch) <= 6 ==> r.st.tm.wday == DigitOf(ch))
            && r.st == st.(tm := st.tm.(wday := r.st.tm.wday), flags := st.flags + {WdayF}))
      && (r.Stop? ==> r.o == Null)
  {
  }

  /** %Y splits its value into the century and the year within it; %y keeps
      only the year within the century. */
  lemma YearDigits(buf: string, p: nat, c: char, st: State)
    requires p <= |buf| && (c == 'Y' || c == 'y')
    ensures var r := YearConv(buf, p, c, st); var (n, v) := Number(buf, p, if c == 'Y' then 4 else 2);
      && (r.Next? ==> YearF in r.st.flags || r == Next(p, st))
      && (At(buf, p) == '\0' || IsSpace(At(buf, p)) ==> r == Next(p, st))
      && (At(buf, p) != '\0' && !IsSpace(At(buf, p)) && !IsDigit(At(buf, p)) ==> r == Stop(Null))
      && (IsDigit(At(buf, p)) ==>
            && r.Next? && r.p == p + n && 0 <= r.st.year <= 99
            && r.st == st.(century := r.st.century, year := r.st.year, flags := st.flags + {YearF})
            && r.st.year == v % 100
            && (c == 'Y' ==> r.st.century * 100 + r.st.year == v)
            && (c == 'y' ==> r.st.century == st.century))
      && (r.Stop? ==> r.o == Null)
  {
  }

  // ----- %A %a %B %b %h -----

  /** Day i's full or abbreviated name starts the input at p. */
  predicate DayMatches(buf: string, p: nat, loc: Locale, i: nat)
    requires loc.Valid() && i < 7
  {
    PrefixCI(buf, p, loc.days[i]) || PrefixCI(buf, p, loc.abdays[i])
  }

  /** The day search finds the first day from i whose full or abbreviated
      name matches, with the full name tried first, and only fails when no
      day matches. */
  lemma {:induction false} DaySearchFirst(buf: string, p: nat, loc: Locale, i: nat)
    requires p <= |buf| && loc.Valid() && i <= 7
    ensures var r := DaySearch(buf, p, loc, i);
      && (r.None? <==> forall j :: i <= j < 7 ==> !DayMatches(buf, p, loc, j))
      && (r.Some? ==>
            && DayMatches(buf, p, loc, r.value.0)
            && (forall j :: i <= j < r.value.0 ==> !DayMatches(buf, p, loc, j))
            && r.value.1 == (if PrefixCI(buf, p, loc.days[r.value.0]) then |loc.days[r.value.0]|
                             else |loc.abdays[r.value.0]|))
    decreases 7 - i
  {
    if i < 7 && !DayMatches(buf, p, loc, i) {
      DaySearchFirst(buf, p, loc, i + 1);
    }
  }

  /** %A and %a: the weekday is the first day whose name starts the input,
      and the name is consumed; NULL when no day's name does. */
  lemma DayName(buf: string, p: nat, c: char, oalt: bool, st: State, loc: Locale)
    requires p <= |buf| && loc.Valid() && (c == 'A' || c == 'a')
    ensures var r := NameConv(buf, p, c, oalt, st, loc);
      && (r.Stop? <==> forall j :: 0 <= j < 7 ==> !DayMatches(buf, p, loc, j))
      && (r.Stop? ==> r.o == Null)
      && (r.Next? ==>
            var w := r.st.tm.wday;
            && 0 <= w < 7 && DayMatches(buf, p, loc, w)
            && (forall j :: 0 <= j < w ==> !DayMatches(buf, p, loc, j))
            && r.st == st.(tm := st.tm.(wday := w), flags := st.flags + {WdayF})
            && r.p == p + (if PrefixCI(buf, p, loc.days[w]) then |loc.days[w]| else |loc.abdays[w]|))
  {
    DaySearchFirst(buf, p, loc, 0);
  }

  /** Month i's full name starts the input at p and this conversion looks
      at full names (with the O modifier only %B does). */
  predicate FullMatches(buf: string, p: nat, loc: Locale, c: char, oalt: bool, i: nat)
    requires loc.Valid() && i < 12
  {
    (!oalt || c == 'B') && PrefixCI(buf, p, loc.months[i])
  }

  lemma {:induction false} FullMonthFirst(buf: string, p: nat, loc: Locale, c: char, oalt: bool, i: nat)
    requires p <= |buf| && loc.Valid() && i <= 12
    ensures var r := FullMonthSearch(buf, p, loc, c, oalt, i);
      && (r.None? <==> forall j :: i <= j < 12 ==> !FullMatches(buf, p, loc, c, oalt, j))
      && (r.Some? ==>
            && FullMatches(buf, p, loc, c, oalt, r.value.0)
            && (forall j :: i <= j < r.value.0 ==> !FullMatches(buf, p, loc, c, oalt, j))
            && r.value.1 == |loc.months[r.value.0]|)
    decreases 12 - i
  {
    if i < 12 && !FullMatches(buf, p, loc, c, oalt, i) {
      FullMonthFirst(buf, p, loc, c, oalt, i + 1);
    }
  }

  lemma {:induction false} AbMonthFirst(buf: string, p: nat, loc: Locale, i: nat)
    requires p <= |buf| && loc.Valid() && i <= 12
    ensures var r := AbMonthSearch(buf, p, loc, i);
      && (r.None? <==> forall j :: i <= j < 12 ==> !PrefixCI(buf, p, loc.abmonths[j]))
      && (r.Some? ==>
            && PrefixCI(buf, p, loc.abmonths[r.value.0])
            && (forall j :: i <= j < r.value.0 ==> !PrefixCI(buf, p, loc.abmonths[j]))
            && r.value.1 == |loc.abmonths[r.value.0]|)
    decreases 12 - i
  {
    if i < 12 && !PrefixCI(buf, p, loc.abmonths[i]) {
      AbMonthFirst(buf, p, loc, i + 1);
    }
  }

  /** %B %b %h: the first month whose full name starts the input; failing
      that, and without the O modifier, the first whose abbreviated name
      does; NULL when neither is found. */
  lemma MonthName(buf: string, p: nat, c: char, oalt: bool, st: State, loc: Locale)
    requires p <= |buf| && loc.Valid() && (c == 'B' || c == 'b' || c == 'h')
    ensures var r := NameConv(buf, p, c, oalt, st, loc);
      var noFull := forall j :: 0 <= j < 12 ==> !FullMatches(buf, p, loc, c, oalt, j);
      var noAb := forall j :: 0 <= j < 12 ==> !PrefixCI(buf, p, loc.abmonths[j]);
      && (r.Stop? <==> noFull && (oalt || noAb))
      && (r.Stop? ==> r.o == Null)
      && (r.Next? ==>
            var m := r.st.tm.mon;
            && 0 <= m < 12
            && r.st == st.(tm := st.tm.(mon := m), flags := st.flags + {MonthF})
            && (FullMatches(buf, p, loc, c, oalt, m) ==>
                  && (forall j :: 0 <= j < m ==> !FullMatches(buf, p, loc, c, oalt, j))
                  && r.p == p + |loc.months[m]|)
            && (!FullMatches(buf, p, loc, c, oalt, m) ==>
                  && noFull && !oalt && PrefixCI(buf, p, loc.abmonths[m])
                  && (forall j :: 0 <= j < m ==> !PrefixCI(buf, p, loc.abmonths[j]))
                  && r.p == p + |loc.abmonths[m]|))
  {
    FullMonthFirst(buf, p, loc, c, oalt, 0);
    AbMonthFirst(buf, p, loc, 0);
  }

  // ----- %p and %z -----

  /** %p turns a 12-hour clock hour into a 24-hour one: the AM string maps
      1..12 onto 1..11 with 12 as 0, the PM string onto 12..23. An hour
      over 12 is refused before any string is compared; an hour below 1
      is kept by AM and moved on by 12 by PM. */
  lemma AmPmClock(buf: string, p: nat, st: State, loc: Locale)
    requires p <= |buf| && loc.Valid()
    ensures var r := AmPm(buf, p, st, loc); var h := st.tm.hour;
      var am := PrefixCI(buf, p, loc.am);
      && (r.Next? <==> h <= 12 && (am || PrefixCI(buf, p, loc.pm)))
      && (r.Next? ==>
            && r.st == st.(tm := st.tm.(hour := r.st.tm.hour))
            && r.p == p + (if am then |loc.am| else |loc.pm|))
      && (r.Next? && 1 <= h <= 12 ==>
            && (am ==> 0 <= r.st.tm.hour <= 11)
            && (!am ==> 12 <= r.st.tm.hour <= 23)
            && r.st.tm.hour % 12 == h % 12)
      && (r.Next? && h < 1 ==> r.st.tm.hour == (if am then h else h + 12))
      && (r.Stop? ==> r.o == Null)
  {
  }

  /** The digits of four decimal digits split into the first two and the last
      two. */
  lemma DecSplit(s: string)
    requires |s| == 4 && AllDigits(s)
    ensures AllDigits(s[..2]) && AllDigits(s[2..])
    ensures DecValue(s) == 100 * DecValue(s[..2]) + DecValue(s[2..])
    ensures DecValue(s[2..]) < 100
  {
    assert s[..3][..2] == s[..2];
    assert s[2..][..1] == s[2..3];
    assert s[2..3][..0] == [];
    assert Pow10(2) == 100;
  }

  /** The two forms %z accepts after the sign: HHMM, or HH that is not
      followed by a third digit. */
  lemma ZoneDigitsForm(buf: string, p: nat)
    requires p <= |buf|
    ensures match ZoneDigits(buf, p)
      case Some((q, v)) =>
        || (q == p + 4 && AllDigits(buf[p..p + 4]) && v / 100 == DecValue(buf[p..p + 2])
            && v % 100 == DecValue(buf[p + 2..p + 4]))
        || (q == p + 2 && AllDigits(buf[p..p + 2]) && !IsDigit(At(buf, p + 2))
            && v / 100 == DecValue(buf[p..p + 2]) && v % 100 == 0)
      case None =>
        !IsDigit(At(buf, p)) || !IsDigit(At(buf, p + 1))
        || (IsDigit(At(buf, p + 2)) && !IsDigit(At(buf, p + 3)))
  {
    if IsDigit(At(buf, p)) && IsDigit(At(buf, p + 1)) && IsDigit(At(buf, p + 2)) && IsDigit(At(buf, p + 3)) {
      var s := buf[p..p + 4];
      DecSplit(s);
      assert s[..2] == buf[p..p + 2] && s[2..] == buf[p + 2..p + 4];
    }
  }

  /** %z moves the clock back by the offset it reads, in hours and minutes,
      marks the result as GMT and changes nothing else; it accepts offsets
      from -12:00 to +14:00 with fewer than 60 minutes. */
  lemma ZoneOffset(buf: string, p: nat, st: State)
    requires p <= |buf|
    ensures var r := Zone(buf, p, st);
      && (r.Stop? ==> r.o == Null)
      && (r.Next? ==>
            var sign := if At(buf, p) == '-' then -1 else 1;
            var hours := st.tm.hour - r.st.tm.hour;
            var mins := st.tm.min - r.st.tm.min;
            && (At(buf, p) == '+' || At(buf, p) == '-')
            && (r.p == p + 5 || r.p == p + 3)
            && r.st == st.(tm := st.tm.(hour := r.st.tm.hour, min := r.st.tm.min), gmt := true)
            && 0 <= sign * mins < 60
            && -12 * 60 <= hours * 60 + mins <= 14 * 60
            && sign * hours == DecValue(buf[p + 1..p + 3])
            && sign * mins == (if r.p == p + 5 then DecValue(buf[p + 3..p + 5]) else 0))
  {
    if At(buf, p) == '+' || At(buf, p) == '-' {
      ZoneDigitsForm(buf, p + 1);
    }
  }

  /** %z accepts exactly a sign and digits giving an offset in range, and
      then subtracts the signed hours and minutes and marks the result GMT;
      everything else gives NULL. */
  lemma ZoneAccepts(buf: string, p: nat, st: State)
    requires p <= |buf|
    ensures var r := Zone(buf, p, st);
      && (At(buf, p) != '+' && At(buf, p) != '-' ==> r == Stop(Null))
      && ((At(buf, p) == '+' || At(buf, p) == '-') ==>
            var sign := if At(buf, p) == '-' then -1 else 1;
            match ZoneDigits(buf, p + 1)
            case None => r == Stop(Null)
            case Some((q, v)) =>
              if v <= 1400 && (sign == -1 ==> v <= 1200) && v % 100 < 60 then
                r == Next(q, st.(tm := st.tm.(hour := st.tm.hour - sign * (v / 100),
                                              min := st.tm.min - sign * (v % 100)), gmt := true))
              else r == Stop(Null))
  {
  }

  // ----- the year -----

  /** With no century, a two-digit year below 69 is in the 2000s and any
      other in the 1900s. */
  lemma YearPivot(yy: int)
    requires 0 <= yy <= 99
    ensures AssembleYear(-1, yy) + 1900 == if yy < 69 then 2000 + yy else 1900 + yy
    ensures 1969 <= AssembleYear(-1, yy) + 1900 <= 2068
  {
  }

  /** With a century, the year is the century's hundreds plus the year
      within it (none given counts as 0). */
  lemma YearWithCentury(century: int, yy: int)
    requires century != -1
    ensures AssembleYear(century, yy) + 1900 == century * 100 + (if yy == -1 then 0 else yy)
  {
  }

  /** %Y round trip: splitting a year into century and year within it and
      assembling them again gives the year back. */
  lemma YearRoundTrip(v: nat)
    ensures AssembleYear(v / 100, v % 100) + 1900 == v
  {
  }

  // ----- the derived fields -----

  /** A search from the start of a row that begins at 0 stops inside the
      row for a day below its last entry, at the first entry above it. */
  lemma SearchInside(yday: int, row: seq<int>)
    requires |row| == 13 && row[0] == 0 <= yday < row[12]
    ensures var i := SearchFrom(yday, row, 0);
      1 <= i <= 12 && row[i - 1] <= yday < row[i]
  {
    SearchFromBrackets(yday, row, 0);
  }

  /** The month search finds the month a day of the year falls in: for a
      day inside the year the index it stops at is one past that month. */
  lemma MonthOfYday(leap: bool, yday: int)
    requires 0 <= yday < StartOfMonth(leap, 12)
    ensures var i := SearchFrom(yday, Row(leap), 0);
      && 1 <= i <= 12
      && StartOfMonth(leap, i - 1) <= yday < StartOfMonth(leap, i)
      && 1 <= yday - StartOfMonth(leap, i - 1) + 1 <= MonthLength(leap, i - 1)
  {
    var row := Row(leap);
    SearchInside(yday, row);
    var i := SearchFrom(yday, row, 0);
    assert row[i - 1] == StartOfMonth(leap, i - 1) && row[i] == StartOfMonth(leap, i);
    StartOfMonthSums(leap, i - 1);
  }

  /** From any index up to the month containing `yday`, the month search
      arrives one past that month. */
  lemma {:induction false} SearchPast(leap: bool, yday: int, i: nat, m: int)
    requires 0 <= m <= 11 && i <= m + 1
    requires StartOfMonth(leap, m) <= yday < StartOfMonth(leap, m + 1)
    ensures SearchFrom(yday, Row(leap), i) == m + 1
    decreases m + 1 - i
  {
    if i <= m {
      if i < m {
        StartOfMonthMonotone(leap, i, m);
      }
      SearchPast(leap, yday, i + 1, m);
    }
  }

  /** Round trip: the day of the year a date gives leads the month search
      back to that month and day. */
  lemma MonthRoundTrip(leap: bool, m: int, d: int)
    requires 0 <= m <= 11 && 1 <= d <= MonthLength(leap, m)
    ensures var i := SearchFrom(StartOfMonth(leap, m) + d - 1, Row(leap), 0);
      i == m + 1 && StartOfMonth(leap, m) + d - 1 - StartOfMonth(leap, i - 1) + 1 == d
  {
    StartOfMonthSums(leap, m);
    SearchPast(leap, StartOfMonth(leap, m) + d - 1, 0, m);
  }

  lemma ModAdd7(a: int, b: int)
    ensures (a + b) % 7 == (a % 7 + b) % 7
  {
    var k := a / 7;
    assert a == 7 * k + a % 7;
  }

  /** The weekday formula agrees across the turn of a year: counting on past
      the end of year y gives the same weekday as counting from 1 January of
      the year after. */
  lemma WeekdayContinues(y: int, d: int)
    requires y >= 1 && d >= 0
    ensures CRem(FirstWday(y) + YearLength(y) + d, 7) == CRem(FirstWday(y + 1) + d, 7)
  {
    FirstWdayRange(y);
    FirstWdayRange(y + 1);
    FirstWdayNext(y);
    ModAdd7(FirstWday(y) + YearLength(y), d);
  }

  /** 1 January of a few years whose weekday is well known: 1970 was a
      Thursday, 2000 a Saturday, 2020 a Wednesday and 2021 a Friday. */
  lemma KnownNewYears()
    ensures FirstWday(1970) == 4 && FirstWday(2000) == 6 && FirstWday(2020) == 3 && FirstWday(2021) == 5
  {
  }

  /** Year, month and day of the month given: the day of the year is the
      days before the month plus the day of the month, counted from 0, and
      the weekday follows from it unless one was given. */
  lemma DeriveFromDate(p: nat, st: State)
    requires YearF in st.flags && MonthF in st.flags && MdayF in st.flags && YdayF !in st.flags
    requires 0 <= st.tm.mon <= 11
    ensures var tm := WithYear(st); var y := tm.year + 1900;
      var yday := StartOfMonth(IsLeap(y), tm.mon) + tm.mday - 1;
      DeriveSpec(p, st) == Parsed(p, tm.(yday := yday,
        wday := if WdayF in st.flags then tm.wday else CRem(FirstWday(y) + yday, 7)), st.gmt)
  {
  }

  lemma Mod7Shift(x: int, k: int)
    ensures (x + 7 * k) % 7 == x % 7
  {
  }

  /** The arithmetic of the week derivation for a week number from 1. */
  lemma WeekArith(fwo: int, d: int, t: int, w: int)
    requires 0 <= fwo <= 6 && 0 <= d <= 1 && 0 <= t <= 6 && w >= 1
    ensures var a := (7 - fwo + d) % 7;
      var y := a + (w - 1) * 7 + (t - d + 7) % 7;
      && y >= 0 && (fwo + y) % 7 == t && (y - a) / 7 == w - 1
  {
    var a := if fwo <= d then d - fwo else 7 - fwo + d;
    var b := if t >= d then t - d else t - d + 7;
    assert a == (7 - fwo + d) % 7;
    assert b == (t - d + 7) % 7;
    assert fwo + a + b == t + 7 * (if fwo <= d then 0 else 1) + 7 * (if t >= d then 0 else 1);
    Mod7Shift(t, (w - 1) + (if fwo <= d then 0 else 1) + (if t >= d then 0 else 1));
  }

  /** %U / %W: week 0 with the year starting on the first day of the week
      is rejected; so is a weekday given in week 0 that falls before
      1 January, while without a weekday such a day is moved to 1 January.
      On success only the day of the year changes, and it is never
      negative. With a week number from 1 the day derived lies in
      that week, counted from the first Sunday (%U) or Monday (%W) of the
      year, and falls on the weekday given, or on the first day of the
      week when none was. */
  lemma WeekDay(st: State, tm: Tm)
    requires st.dayOffset == 0 || st.dayOffset == 1
    requires tm.year + 1900 >= 1
    requires WdayF in st.flags ==> 0 <= tm.wday <= 6
    ensures var fwo := FirstWday(tm.year + 1900);
      var r := WeekYday(st, tm);
      var t := if WdayF in st.flags then tm.wday else st.dayOffset;
      var first := CRem(7 - fwo + st.dayOffset, 7);
      && (st.weekOffset == 0 && fwo == st.dayOffset ==> r == Fail(Null))
      && (r.Fields? ==> r.tm == tm.(yday := r.tm.yday) && r.flags == st.flags + {YdayF} && r.tm.yday >= 0)
      && (st.weekOffset >= 1 ==>
            && r.Fields? && CRem(fwo + r.tm.yday, 7) == t
            && (r.tm.yday - first) / 7 == st.weekOffset - 1)
      && (st.weekOffset == 0 && fwo != st.dayOffset ==>
            var b := CRem(t - st.dayOffset + 7, 7);
            && (r.Fail? <==> WdayF in st.flags && first + b < 7)
            && (r.Fields? ==> r.tm.yday == (if first + b < 7 then 0 else first + b - 7)))
  {
    var fwo := FirstWday(tm.year + 1900);
    FirstWdayRange(tm.year + 1900);
    if st.weekOffset >= 1 {
      WeekArith(fwo, st.dayOffset, if WdayF in st.flags then tm.wday else st.dayOffset, st.weekOffset);
    }
  }

  /** Without a day of the year to compute, the derivation goes straight to
      the calendar phase. */
  lemma DeriveShape(p: nat, st: State)
    requires YearF in st.flags && YdayF in st.flags && MonthF !in st.flags
    ensures DeriveSpec(p, st) == match CalendarPhase(WithYear(st), st.flags)
                                 case Fail(o) => o
                                 case Fields(t, _) => Parsed(p, t, st.gmt)
  {
    assert YdayPhase(st, WithYear(st)) == Fields(WithYear(st), st.flags);
  }

  /** The calendar phase, when only the month is missing and the day lies
      inside the year. */
  lemma MonthStep(tm: Tm, flags: set<Flag>)
    requires YearF in flags && YdayF in flags && MonthF !in flags
    requires 0 <= tm.yday < YearLength(tm.year + 1900)
    ensures var i := SearchFrom(tm.yday, Row(IsLeap(tm.year + 1900)), 0);
      CalendarPhase(tm, flags) == DayPhase(tm.(mon := i - 1), flags + {MonthF})
  {
    MonthOfYday(IsLeap(tm.year + 1900), tm.yday);
  }

  /** The calendar phase, when the day lies past the end of the year: the
      month search runs off the row and the date moves into January of the
      next year. */
  lemma WrapStep(tm: Tm, flags: set<Flag>)
    requires YearF in flags && YdayF in flags && MonthF !in flags
    requires YearLength(tm.year + 1900) <= tm.yday
    ensures CalendarPhase(tm, flags)
         == DayPhase(tm.(mon := 0, yday := tm.yday - YearLength(tm.year + 1900), year := tm.year + 1), flags + {MonthF})
  {
    var leap := IsLeap(tm.year + 1900);
    SearchFromBrackets(tm.yday, Row(leap), 0);
    assert SearchFrom(tm.yday, Row(leap), 0) == 13;
  }

  /** Day of the month and weekday, once the month is known. */
  lemma DayPhaseFacts(tm: Tm, flags: set<Flag>)
    requires MonthF in flags && 0 <= tm.mon <= 11
    ensures var r := DayPhase(tm, flags);
      && r.Fields?
      && r.tm == tm.(mday := if MdayF in flags then tm.mday else tm.yday - StartOfMonth(IsLeap(tm.year + 1900), tm.mon) + 1,
                     wday := if WdayF in flags then tm.wday else CRem(FirstWday(tm.year + 1900) + tm.yday, 7))
  {
  }

  lemma MonthInside(tm: Tm)
    requires 0 <= tm.yday < YearLength(tm.year + 1900)
    ensures 1 <= SearchFrom(tm.yday, Row(IsLeap(tm.year + 1900)), 0) <= 12
  {
    MonthOfYday(IsLeap(tm.year + 1900), tm.yday);
  }

  /** The day phase after the month search stopped at index `i`: the day
      of the month is counted from the start of month `i - 1`. */
  lemma DayAfterSearch(tm: Tm, flags: set<Flag>, i: nat)
    requires MonthF !in flags && MdayF !in flags
    requires 1 <= i <= 12
    ensures var leap := IsLeap(tm.year + 1900);
      var r := DayPhase(tm.(mon := i - 1), flags + {MonthF});
      r.Fields? && r.tm == tm.(mon := i - 1, mday := tm.yday - StartOfMonth(leap, i - 1) + 1,
        wday := if WdayF in flags then tm.wday else CRem(FirstWday(tm.year + 1900) + tm.yday, 7))
  {
    DayPhaseFacts(tm.(mon := i - 1), flags + {MonthF});
  }

  /** The calendar phase from a day inside the year: the month the search
      finds, the day counted from its start, and the weekday from Gauss's
      formula unless one was given. */
  lemma CalendarFromYday(tm: Tm, flags: set<Flag>)
    requires YearF in flags && YdayF in flags && MonthF !in flags && MdayF !in flags
    requires 0 <= tm.yday < YearLength(tm.year + 1900)
    ensures var leap := IsLeap(tm.year + 1900);
      var m := SearchFrom(tm.yday, Row(leap), 0) - 1;
      var r := CalendarPhase(tm, flags);
      r.Fields? && r.tm == tm.(mon := m, mday := tm.yday - StartOfMonth(leap, m) + 1,
        wday := if WdayF in flags then tm.wday else CRem(FirstWday(tm.year + 1900) + tm.yday, 7))
  {
    MonthStep(tm, flags);
    MonthInside(tm);
    DayAfterSearch(tm, flags, SearchFrom(tm.yday, Row(IsLeap(tm.year + 1900)), 0));
  }

  /** The same, in calendar terms: the date found lies in the year, names
      the day of the year given, and its day lies inside its month. */
  lemma CalendarDate(tm: Tm, flags: set<Flag>)
    requires YearF in flags && YdayF in flags && MonthF !in flags && MdayF !in flags
    requires 0 <= tm.yday < YearLength(tm.year + 1900)
    ensures var leap := IsLeap(tm.year + 1900);
      var r := CalendarPhase(tm, flags);
      && r.Fields? && r.tm.year == tm.year && r.tm.yday == tm.yday
      && 0 <= r.tm.mon <= 11
      && StartOfMonth(leap, r.tm.mon) <= tm.yday < StartOfMonth(leap, r.tm.mon + 1)
      && 1 <= r.tm.mday <= MonthLength(leap, r.tm.mon)
      && StartOfMonth(leap, r.tm.mon) + r.tm.mday - 1 == tm.yday
      && r.tm.wday == (if WdayF in flags then tm.wday else CRem(FirstWday(tm.year + 1900) + tm.yday, 7))
  {
    CalendarFromYday(tm, flags);
    var leap := IsLeap(tm.year + 1900);
    var m := SearchFrom(tm.yday, Row(leap), 0) - 1;
    MonthOfYday(leap, tm.yday);
    var t := CalendarPhase(tm, flags).tm;
    assert t.mon == m && t.mday == tm.yday - StartOfMonth(leap, m) + 1;
  }

  /** Year and day of the year given, inside that year: the month is the
      one the day falls in and the day of the month is counted from its
      start, so that the date gives the day of the year back. */
  lemma DeriveFromYday(p: nat, st: State)
    requires YearF in st.flags && YdayF in st.flags && MonthF !in st.flags && MdayF !in st.flags
    requires 0 <= st.tm.yday < YearLength(WithYear(st).year + 1900)
    ensures var tm := WithYear(st); var leap := IsLeap(tm.year + 1900);
      var o := DeriveSpec(p, st);
      && o.Parsed? && o.pos == p && o.tm.year == tm.year && o.tm.yday == tm.yday
      && 0 <= o.tm.mon <= 11
      && StartOfMonth(leap, o.tm.mon) <= tm.yday < StartOfMonth(leap, o.tm.mon + 1)
      && 1 <= o.tm.mday <= MonthLength(leap, o.tm.mon)
      && StartOfMonth(leap, o.tm.mon) + o.tm.mday - 1 == tm.yday
      && o.tm.wday == (if WdayF in st.flags then tm.wday else CRem(FirstWday(tm.year + 1900) + tm.yday, 7))
  {
    DeriveShape(p, st);
    CalendarDate(WithYear(st), st.flags);
  }

  /** The calendar phase from a day past the end of the year. */
  lemma CalendarWrap(tm: Tm, flags: set<Flag>)
    requires YearF in flags && YdayF in flags && MonthF !in flags && MdayF !in flags
    requires YearLength(tm.year + 1900) <= tm.yday
    ensures var d := tm.yday - YearLength(tm.year + 1900);
      var r := CalendarPhase(tm, flags);
      r.Fields? && r.tm == tm.(year := tm.year + 1, yday := d, mon := 0, mday := d + 1,
        wday := if WdayF in flags then tm.wday else CRem(FirstWday(tm.year + 1901) + d, 7))
  {
    WrapStep(tm, flags);
    DayPhaseFacts(tm.(mon := 0, yday := tm.yday - YearLength(tm.year + 1900), year := tm.year + 1), flags + {MonthF});
  }

  /** Year and day of the year given, past the end of that year: the date
      moves into January of the next year, with the weekday still counted on
      from the year given. */
  lemma DeriveWrap(p: nat, st: State)
    requires YearF in st.flags && YdayF in st.flags && MonthF !in st.flags && MdayF !in st.flags
    requires YearLength(WithYear(st).year + 1900) <= st.tm.yday
    ensures var tm := WithYear(st); var y := tm.year + 1900;
      var o := DeriveSpec(p, st);
      && o.Parsed? && o.tm.year == tm.year + 1 && o.tm.yday == tm.yday - YearLength(y)
      && o.tm.mon == 0 && o.tm.mday == o.tm.yday + 1
      && (WdayF !in st.flags && y >= 1 ==> o.tm.wday == CRem(FirstWday(y) + tm.yday, 7))
  {
    var tm := WithYear(st);
    var y := tm.year + 1900;
    DeriveShape(p, st);
    CalendarWrap(tm, st.flags);
    if y >= 1 {
      WeekdayContinues(y, tm.yday - YearLength(y));
    }
  }
}
