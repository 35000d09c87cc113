/**
 * A worked input for the month search of strptime.c:669-672: "%Y %j" on
 * "2021 366" asks for day 366 of a common year, the search runs off the
 * row, and the bounded search of the model carries the date into
 * 1 January 2022.
 */
module StrptimeExamples {
  import opened StrptimeCalendar
  import opened Strptime
  import opened StrptimeFacts

  /** Day 366 of 2021 (yday 365) lies past its last table entry, so the
      unbounded search of the C reads the entry after the row. */
  lemma CommonYearOverrun()
    ensures !IsLeap(2021) && YearLength(2021) == 365
    ensures SearchAsWritten(365, IsLeap(2021), 0) == ReadsPastRow
  {
    SearchAsWrittenAgrees(365, false, 0);
  }

  /** The derivation after "%Y %j" has read 2021 and 366: 1 January 2022,
      a Saturday. */
  lemma DayPastCommonYear(p: nat, st: State)
    requires st.flags == {YearF, YdayF} && st.century == 20 && st.year == 21 && st.tm.yday == 365
    ensures WithYear(st) == st.tm.(year := 121)
    ensures DeriveSpec(p, st) == Parsed(p, st.tm.(year := 122, yday := 0, mon := 0, mday := 1, wday := 6), st.gmt)
  {
    var tm := WithYear(st);
    assert tm == st.tm.(year := 121);
    CommonYearOverrun();
    DeriveShape(p, st);
    CalendarWrap(tm, st.flags);
    assert FirstWday(2022) == 6;
  }

  lemma Digits2021()
    ensures Number("2021 366", 0, 4) == (4, 2021)
  {
    var buf := "2021 366";
    assert DigitRun(buf, 4, 0) == 0;
    assert DigitRun(buf, 3, 1) == 1;
    assert DigitRun(buf, 2, 2) == 2;
    assert DigitRun(buf, 1, 3) == 3;
    assert buf[0..4] == "2021";
    assert "2021"[..3] == "202" && "202"[..2] == "20" && "20"[..1] == "2" && "2"[..0] == "";
  }

  lemma Digits366()
    ensures Number("2021 366", 5, 3) == (3, 366)
  {
    var buf := "2021 366";
    assert DigitRun(buf, 8, 0) == 0;
    assert DigitRun(buf, 7, 1) == 1;
    assert DigitRun(buf, 6, 2) == 2;
    assert buf[5..8] == "366";
    assert "366"[..2] == "36" && "36"[..1] == "3" && "3"[..0] == "";
  }

  /** %Y reads four digits and splits them into century and year. */
  lemma YearStep(s0: State, loc: Locale)
    requires loc.Valid()
    ensures StepSpec("2021 366", 0, "%Y %j", 0, s0, loc)
         == Go(4, 2, s0.(century := 20, year := 21, flags := s0.flags + {YearF}))
  {
    Digits2021();
    assert Modifiers("%Y %j", 0) == Conversion('Y', false, 2);
    assert ConvSpec("2021 366", 0, 'Y', false, s0, loc) == YearConv("2021 366", 0, 'Y', s0);
  }

  /** %j reads 366 and stores day of the year 365. */
  lemma YdayStep(s1: State, loc: Locale)
    requires loc.Valid()
    ensures StepSpec("2021 366", 5, "%Y %j", 3, s1, loc)
         == Go(8, 5, s1.(tm := s1.tm.(yday := 365), flags := s1.flags + {YdayF}))
  {
    Digits366();
    assert Modifiers("%Y %j", 3) == Conversion('j', false, 5);
    assert ConvSpec("2021 366", 5, 'j', false, s1, loc) == YdayConv("2021 366", 5, s1);
  }

  /** The whole call: the input is consumed and the date is 1 January 2022,
      a Saturday, with the other fields of tm untouched. */
  lemma ParseDay366(tm: Tm, gmt: bool, loc: Locale)
    requires loc.Valid()
    ensures ParseSpec("2021 366", 0, "%Y %j", tm, gmt, loc)
         == Parsed(8, tm.(year := 122, yday := 0, mon := 0, mday := 1, wday := 6), gmt)
  {
    var buf, fmt := "2021 366", "%Y %j";
    var s0 := Init(tm, gmt);
    var s1 := s0.(century := 20, year := 21, flags := s0.flags + {YearF});
    var s2 := s1.(tm := s1.tm.(yday := 365), flags := s1.flags + {YdayF});
    YearStep(s0, loc);
    YdayStep(s1, loc);
    assert StepSpec(buf, 4, fmt, 2, s1, loc) == Go(5, 3, s1);
    assert ScanSpec(buf, 8, fmt, 5, s2, loc) == Finished(8, s2);
    assert ScanSpec(buf, 5, fmt, 3, s1, loc) == Finished(8, s2);
    assert ScanSpec(buf, 4, fmt, 2, s1, loc) == Finished(8, s2);
    assert ScanSpec(buf, 0, fmt, 0, s0, loc) == Finished(8, s2);
    assert s2.flags == {YearF, YdayF};
    DayPastCommonYear(8, s2);
  }
}
