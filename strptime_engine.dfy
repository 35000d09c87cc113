/**
 * _strptime as the C code runs it: a cursor into the input and one into the
 * format advanced by while loops, digits accumulated by counted for loops,
 * the flag set grown conversion by conversion and the fields of tm written
 * one at a time. Each method is proved to compute the function of the
 * Strptime module that specifies it.
 */
module StrptimeEngine {
  import opened Wrappers
  import opened StrptimeCalendar
  import opened Strptime

  /** `while (*buf != 0 && isspace(*buf)) buf++`. */
  method SkipSpaces(buf: string, p: nat) returns (b: nat)
    requires p <= |buf|
    ensures b == SkipSpace(buf, p)
  {
    b := p;
    while At(buf, b) != '\0' && IsSpace(At(buf, b))
      invariant p <= b <= |buf|
      invariant SkipSpace(buf, b) == SkipSpace(buf, p)
      decreases |buf| - b
    {
      b := b + 1;
    }
  }

  /** The digit loop of the numeric conversions: at most `width` digits,
      each one multiplied in. Answers the new cursor and the value. */
  method ReadNumber(buf: string, p: nat, width: nat) returns (b: nat, i: nat)
    requires p <= |buf|
    ensures b == p + Number(buf, p, width).0 && i == Number(buf, p, width).1
  {
    var len := width;
    b, i := p, 0;
    while len > 0 && At(buf, b) != '\0' && IsDigit(At(buf, b))
      invariant p <= b <= |buf| && (b - p) + len == width
      invariant AllDigits(buf[p..b]) && i == DecValue(buf[p..b])
      invariant DigitRun(buf, p, width) == (b - p) + DigitRun(buf, b, len)
      decreases len
    {
      DigitStep(buf, p, b);
      i := i * 10 + DigitOf(buf[b]);
      b := b + 1;
      len := len - 1;
    }
  }

  /** One more digit: the value so far is shifted by one decimal place. */
  lemma DigitStep(buf: string, p: nat, b: nat)
    requires p <= b < |buf| && AllDigits(buf[p..b]) && IsDigit(buf[b])
    ensures AllDigits(buf[p..b + 1])
    ensures DecValue(buf[p..b + 1]) == 10 * DecValue(buf[p..b]) + DigitOf(buf[b])
  {
    assert buf[p..b + 1][..b - p] == buf[p..b];
  }

  /** The %z digit loop: four digits, or two followed by a non-digit, which
      count as hours with no minutes. */
  method ReadZoneDigits(buf: string, p: nat) returns (ok: bool, b: nat, i: nat)
    requires p <= |buf|
    ensures ZoneDigits(buf, p) == if ok then Some((b, i)) else None
  {
    b, i := p, 0;
    var len := 4;
    while len > 0
      invariant 0 <= len <= 4 && b == p + (4 - len) && b <= |buf|
      invariant AllDigits(buf[p..b]) && i == DecValue(buf[p..b])
      decreases len
    {
      if IsDigit(At(buf, b)) {
        DigitStep(buf, p, b);
        i := i * 10 + DigitOf(buf[b]);
        b := b + 1;
      } else if len == 2 {
        i := i * 100;
        assert IsDigit(buf[p..b][0]) && IsDigit(buf[p..b][1]);
        return true, b, i;
      } else {
        assert b > p ==> IsDigit(buf[p..b][0]);
        assert b > p + 2 ==> IsDigit(buf[p..b][1]) && IsDigit(buf[p..b][2]);
        return false, b, i;
      }
      len := len - 1;
    }
    assert IsDigit(buf[p..b][0]) && IsDigit(buf[p..b][1]) && IsDigit(buf[p..b][2]);
    ok := true;
  }

  /** The day-name loop of %A / %a. */
  method FindDay(buf: string, p: nat, loc: Locale) returns (i: nat, len: nat)
    requires p <= |buf| && loc.Valid()
    ensures i <= 7
    ensures DaySearch(buf, p, loc, 0) == if i < 7 then Some((i, len)) else None
  {
    i, len := 0, 0;
    while i < 7
      invariant i <= 7
      invariant DaySearch(buf, p, loc, i) == DaySearch(buf, p, loc, 0)
    {
      var ex := loc.days[i];
      len := |ex|;
      if PrefixCI(buf, p, ex) {
        break;
      }
      ex := loc.abdays[i];
      len := |ex|;
      if PrefixCI(buf, p, ex) {
        break;
      }
      i := i + 1;
    }
  }

  /** The two month-name loops of %B / %b / %h. */
  method FindMonthName(buf: string, p: nat, loc: Locale, c: char, oalt: bool) returns (i: nat, len: nat)
    requires p <= |buf| && loc.Valid()
    ensures i <= 12
    ensures MonthSearch(buf, p, loc, c, oalt) == if i < 12 then Some((i, len)) else None
  {
    i, len := 0, 0;
    while i < 12
      invariant i <= 12
      invariant FullMonthSearch(buf, p, loc, c, oalt, i) == FullMonthSearch(buf, p, loc, c, oalt, 0)
    {
      if !oalt || c == 'B' {
        var ex := loc.months[i];
        len := |ex|;
        if PrefixCI(buf, p, ex) {
          break;
        }
      }
      i := i + 1;
    }
    if i == 12 && !oalt {
      i := 0;
      while i < 12
        invariant i <= 12
        invariant AbMonthSearch(buf, p, loc, i) == AbMonthSearch(buf, p, loc, 0)
      {
        var ex := loc.abmonths[i];
        len := |ex|;
        if PrefixCI(buf, p, ex) {
          break;
        }
        i := i + 1;
      }
    }
  }

  /** The cases of the switch that read digits. */
  method NumConvert(buf: string, p: nat, c: char, st: State) returns (r: Conv)
    requires p <= |buf| && IsNumeric(c)
    ensures r == NumConv(buf, p, c, st)
  {
    if c == 'C' {
      r := ConvertCentury(buf, p, st);
    } else if c == 'j' {
      r := ConvertYday(buf, p, st);
    } else if c == 'M' || c == 'S' {
      r := ConvertMinSec(buf, p, c, st);
    } else if c == 'H' || c == 'I' || c == 'k' || c == 'l' {
      r := ConvertHour(buf, p, c, st);
    } else if c == 'U' || c == 'W' {
      r := ConvertWeek(buf, p, c, st);
    } else if c == 'u' || c == 'w' {
      r := ConvertWday(buf, p, c, st);
    } else if c == 'e' || c == 'd' {
      r := ConvertMday(buf, p, c, st);
    } else if c == 'm' {
      r := ConvertMonth(buf, p, st);
    } else {
      r := ConvertYear(buf, p, c, st);
    }
  }

  method ConvertCentury(buf: string, p: nat, st: State) returns (r: Conv)
    requires p <= |buf|
    ensures r == CenturyConv(buf, p, st)
  {
    if !IsDigit(At(buf, p)) {
      return Stop(Null);
    }
    var b, i := ReadNumber(buf, p, 2);
    return Next(b, st.(century := i, flags := st.flags + {YearF}));
  }

  method ConvertYday(buf: string, p: nat, st: State) returns (r: Conv)
    requires p <= |buf|
    ensures r == YdayConv(buf, p, st)
  {
    if !IsDigit(At(buf, p)) {
      return Stop(Null);
    }
    var b, i := ReadNumber(buf, p, 3);
    if i < 1 || i > 366 {
      return Stop(Null);
    }
    return Next(b, st.(tm := st.tm.(yday := i - 1), flags := st.flags + {YdayF}));
  }

  method ConvertMinSec(buf: string, p: nat, c: char, st: State) returns (r: Conv)
    requires p <= |buf|
    ensures r == MinSecConv(buf, p, c, st)
  {
    if At(buf, p) == '\0' || IsSpace(At(buf, p)) {
      return Next(p, st);
    }
    if !IsDigit(At(buf, p)) {
      return Stop(Null);
    }
    var b, i := ReadNumber(buf, p, 2);
    if c == 'M' {
      if i > 59 {
        return Stop(Null);
      }
      return Next(b, st.(tm := st.tm.(min := i)));
    }
    if i > 60 {
      return Stop(Null);
    }
    return Next(b, st.(tm := st.tm.(sec := i)));
  }

  method ConvertHour(buf: string, p: nat, c: char, st: State) returns (r: Conv)
    requires p <= |buf|
    ensures r == HourConv(buf, p, c, st)
  {
    var b := p;
    var len := 2;
    if (c == 'k' || c == 'l') && IsBlank(At(buf, b)) {
      b := b + 1;
      len := 1;
    }
    if !IsDigit(At(buf, b)) {
      return Stop(Null);
    }
    var i;
    b, i := ReadNumber(buf, b, len);
    if c == 'H' || c == 'k' {
      if i > 23 {
        return Stop(Null);
      }
    } else if i == 0 || i > 12 {
      return Stop(Null);
    }
    return Next(b, st.(tm := st.tm.(hour := i)));
  }

  method ConvertWeek(buf: string, p: nat, c: char, st: State) returns (r: Conv)
    requires p <= |buf|
    ensures r == WeekConv(buf, p, c, st)
  {
    if !IsDigit(At(buf, p)) {
      return Stop(Null);
    }
    var b, i := ReadNumber(buf, p, 2);
    if i > 53 {
      return Stop(Null);
    }
    var dayOffset := if c == 'U' then 0 else 1;
    return Next(b, st.(dayOffset := dayOffset, weekOffset := i));
  }

  method ConvertWday(buf: string, p: nat, c: char, st: State) returns (r: Conv)
    requires p <= |buf|
    ensures r == WdayConv(buf, p, c, st)
  {
    if !IsDigit(At(buf, p)) {
      return Stop(Null);
    }
    var i := DigitOf(buf[p]);
    var b := p + 1;
    if i > 7 || (c == 'u' && i < 1) || (c == 'w' && i > 6) {
      return Stop(Null);
    }
    return Next(b, st.(tm := st.tm.(wday := i % 7), flags := st.flags + {WdayF}));
  }

  method ConvertMday(buf: string, p: nat, c: char, st: State) returns (r: Conv)
    requires p <= |buf|
    ensures r == MdayConv(buf, p, c, st)
  {
    var b := p;
    if c == 'e' && At(buf, b) != '\0' && IsSpace(At(buf, b)) {
      b := b + 1;
    }
    if !IsDigit(At(buf, b)) {
      return Stop(Null);
    }
    var i;
    b, i := ReadNumber(buf, b, 2);
    if i == 0 || i > 31 {
      return Stop(Null);
    }
    return Next(b, st.(tm := st.tm.(mday := i), flags := st.flags + {MdayF}));
  }

  method ConvertMonth(buf: string, p: nat, st: State) returns (r: Conv)
    requires p <= |buf|
    ensures r == MonthConv(buf, p, st)
  {
    if !IsDigit(At(buf, p)) {
      return Stop(Null);
    }
    var b, i := ReadNumber(buf, p, 2);
    if i < 1 || i > 12 {
      return Stop(Null);
    }
    return Next(b, st.(tm := st.tm.(mon := i - 1), flags := st.flags + {MonthF}));
  }

  method ConvertYear(buf: string, p: nat, c: char, st: State) returns (r: Conv)
    requires p <= |buf|
    ensures r == YearConv(buf, p, c, st)
  {
    if At(buf, p) == '\0' || IsSpace(At(buf, p)) {
      return Next(p, st);
    }
    if !IsDigit(At(buf, p)) {
      return Stop(Null);
    }
    var b, i := ReadNumber(buf, p, if c == 'Y' then 4 else 2);
    var century := if c == 'Y' then i / 100 else st.century;
    return Next(b, st.(century := century, year := i % 100, flags := st.flags + {YearF}));
  }

  /** %A %a %B %b %h. */
  method NameConvert(buf: string, p: nat, c: char, oalt: bool, st: State, loc: Locale) returns (r: Conv)
    requires p <= |buf| && loc.Valid()
    ensures r == NameConv(buf, p, c, oalt, st, loc)
  {
    if c == 'A' || c == 'a' {
      var i, len := FindDay(buf, p, loc);
      if i == 7 {
        return Stop(Null);
      }
      return Next(p + len, st.(tm := st.tm.(wday := i), flags := st.flags + {WdayF}));
    }
    var i, len := FindMonthName(buf, p, loc, c, oalt);
    if i == 12 {
      return Stop(Null);
    }
    return Next(p + len, st.(tm := st.tm.(mon := i), flags := st.flags + {MonthF}));
  }

  /** %z. */
  method ZoneConvert(buf: string, p: nat, st: State) returns (r: Conv)
    requires p <= |buf|
    ensures r == Zone(buf, p, st)
  {
    var sign := 1;
    if At(buf, p) != '+' {
      if At(buf, p) == '-' {
        sign := -1;
      } else {
        return Stop(Null);
      }
    }
    var ok, b, i := ReadZoneDigits(buf, p + 1);
    if !ok {
      return Stop(Null);
    }
    if i > 1400 || (sign == -1 && i > 1200) || i % 100 >= 60 {
      return Stop(Null);
    }
    var tm := st.tm.(hour := st.tm.hour - sign * (i / 100), min := st.tm.min - sign * (i % 100));
    return Next(b, st.(tm := tm, gmt := true));
  }

  /** The switch of _strptime for every conversion but the composite ones. */
  method Convert(buf: string, p: nat, c: char, oalt: bool, st: State, loc: Locale) returns (r: Conv)
    requires p <= |buf| && loc.Valid() && !IsComposite(c)
    ensures r == ConvSpec(buf, p, c, oalt, st, loc)
  {
    if c == '%' {
      if At(buf, p) != '%' {
        return Stop(Null);
      }
      return Next(p + 1, st);
    } else if c == 'n' || c == 't' {
      var b := SkipSpaces(buf, p);
      return Next(b, st);
    } else if IsUnmodelled(c) {
      return Stop(Unmodelled(c));
    } else if IsNumeric(c) {
      r := NumConvert(buf, p, c, st);
    } else if c == 'A' || c == 'a' || c == 'B' || c == 'b' || c == 'h' {
      r := NameConvert(buf, p, c, oalt, st, loc);
    } else if c == 'p' {
      r := AmPm(buf, p, st, loc);
    } else if c == 'z' {
      r := ZoneConvert(buf, p, st);
    } else {
      return Stop(Null);
    }
  }

  /** One turn of the while loop over the format. */
  method Step(buf: string, p: nat, fmt: string, q: nat, st: State, loc: Locale) returns (r: Step)
    requires p <= |buf| && q < |fmt| && fmt[q] != '\0' && loc.Valid()
    ensures r == StepSpec(buf, p, fmt, q, st, loc)
    decreases Rank(fmt), 1
  {
    var c := fmt[q];
    var ptr := q + 1;
    if c != '%' {
      if IsSpace(c) {
        var b := SkipSpaces(buf, p);
        return Go(b, ptr, st);
      }
      if At(buf, p) != c {
        return Halt(Null);
      }
      return Go(p + 1, ptr, st);
    }
    var oalt := false;
    c := At(fmt, ptr);
    ptr := ptr + 1;
    if c == 'E' || c == 'O' {
      oalt := c == 'O';
      c := At(fmt, ptr);
      ptr := ptr + 1;
      if c == 'E' || c == 'O' {
        return Go(p, ptr, st);
      }
    }
    if IsComposite(c) {
      assert !Simple(fmt) by {
        assert IsComposite(fmt[ptr - 1]);
      }
      InnerSimple(c);
      var o := Parse(buf, p, Inner(c), st.tm, st.gmt, loc);
      if !o.Parsed? {
        return Halt(o);
      }
      return Go(o.pos, ptr, st.(tm := o.tm, gmt := o.gmt, flags := st.flags + InnerFlags(c)));
    }
    var cv := Convert(buf, p, c, oalt, st, loc);
    match cv
    case Next(b, st1) => r := Go(b, ptr, st1);
    case Stop(o) => r := Halt(o);
  }

  /** _strptime(buf + p, fmt, tm, GMTp). */
  method Parse(buf: string, p: nat, fmt: string, tm: Tm, gmt: bool, loc: Locale) returns (o: Outcome)
    requires p <= |buf| && loc.Valid()
    ensures o == ParseSpec(buf, p, fmt, tm, gmt, loc)
    decreases Rank(fmt), |fmt| + 2
  {
    var b: nat, ptr: nat, st := p, 0, Init(tm, gmt);
    while At(fmt, ptr) != '\0'
      invariant b <= |buf| && ptr <= |fmt|
      invariant ScanSpec(buf, b, fmt, ptr, st, loc) == ScanSpec(buf, p, fmt, 0, Init(tm, gmt), loc)
      decreases |fmt| - ptr
    {
      var s := Step(buf, b, fmt, ptr, st, loc);
      match s
      case Halt(h) => return h;
      case Go(b1, ptr1, st1) => b, ptr, st := b1, ptr1, st1;
    }
    o := Derive(b, st);
  }

  /** The bounded month search: the first i whose table entry exceeds yday,
      or 13. */
  method FindMonth(yday: int, leap: bool) returns (i: nat)
    ensures i == SearchFrom(yday, Row(leap), 0)
  {
    i := 0;
    while i <= 12 && yday >= StartOfMonth(leap, i)
      invariant i <= 13
      invariant SearchFrom(yday, Row(leap), i) == SearchFrom(yday, Row(leap), 0)
      decreases 13 - i
    {
      i := i + 1;
    }
  }

  /** The code after the while loop: the year, then the day of the year,
      then month, day of the month and weekday. */
  method Derive(p: nat, st: State) returns (o: Outcome)
    ensures o == DeriveSpec(p, st)
  {
    var tm := st.tm;
    if st.century != -1 || st.year != -1 {
      var year := if st.year == -1 then 0 else st.year;
      if st.century == -1 {
        if year < 69 {
          year := year + 100;
        }
      } else {
        year := year + st.century * 100 - 1900;
      }
      tm := tm.(year := year);
    }
    var f := DeriveYday(st, tm);
    if f.Fail? {
      return f.o;
    }
    f := DeriveCalendar(f.tm, f.flags);
    if f.Fail? {
      return f.o;
    }
    o := Parsed(p, f.tm, st.gmt);
  }

  /** Month, day of the month and weekday from the year and the day of the
      year. */
  method DeriveCalendar(tm0: Tm, flags0: set<Flag>) returns (f: Fields)
    ensures f == CalendarPhase(tm0, flags0)
  {
    var tm, flags := tm0, flags0;
    if YearF in flags && YdayF in flags {
      if MonthF !in flags {
        tm := DeriveMonth(tm);
        flags := flags + {MonthF};
      }
      f := DeriveDays(tm, flags);
    } else {
      f := Fields(tm, flags);
    }
  }

  /** The month from the day of the year, moving on to the next year past
      the last entry of the table. */
  method DeriveMonth(tm0: Tm) returns (tm: Tm)
    ensures tm == MonthFrom(tm0, SearchFrom(tm0.yday, Row(IsLeap(tm0.year + 1900)), 0))
  {
    tm := tm0;
    var i: int := FindMonth(tm.yday, IsLeap(tm.year + 1900));
    if i > 12 {
      i := 1;
      tm := tm.(yday := tm.yday - StartOfMonth(IsLeap(tm.year + 1900), 12), year := tm.year + 1);
    }
    tm := tm.(mon := i - 1);
  }

  /** The day of the year from month and day, or from the week number. */
  method DeriveYday(st: State, tm0: Tm) returns (f: Fields)
    ensures f == YdayPhase(st, tm0)
  {
    var tm, flags := tm0, st.flags;
    if YdayF !in flags && YearF in flags {
      if MonthF in flags && MdayF in flags {
        if !(0 <= tm.mon <= 12) {
          return Fail(Undefined);
        }
        tm := tm.(yday := StartOfMonth(IsLeap(tm.year + 1900), tm.mon) + (tm.mday - 1));
        flags := flags + {YdayF};
      } else if st.dayOffset != -1 {
        var fwo := FirstWday(tm.year + 1900);
        if st.weekOffset == 0 && fwo == st.dayOffset {
          return Fail(Null);
        }
        var tmpwday := if WdayF in flags then tm.wday else st.dayOffset;
        var tmpyday := CRem(7 - fwo + st.dayOffset, 7) + (st.weekOffset - 1) * 7
                       + CRem(tmpwday - st.dayOffset + 7, 7);
        if tmpyday < 0 {
          if WdayF in flags {
            return Fail(Null);
          }
          tmpyday := 0;
        }
        tm := tm.(yday := tmpyday);
        flags := flags + {YdayF};
      }
    }
    f := Fields(tm, flags);
  }

  /** The day of the month and the weekday, where the input gave neither. */
  method DeriveDays(tm0: Tm, flags0: set<Flag>) returns (f: Fields)
    ensures f == DayPhase(tm0, flags0)
  {
    var tm, flags := tm0, flags0;
    if MdayF !in flags {
      if !(0 <= tm.mon <= 12) {
        return Fail(Undefined);
      }
      tm := tm.(mday := tm.yday - StartOfMonth(IsLeap(tm.year + 1900), tm.mon) + 1);
      flags := flags + {MdayF};
    }
    if WdayF !in flags {
      var wdayOffset := FirstWday(tm.year + 1900);
      tm := tm.(wday := CRem(wdayOffset + tm.yday, 7));
      flags := flags + {WdayF};
    }
    f := Fields(tm, flags);
  }
}
