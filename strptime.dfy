/**
 * _strptime as functions: the walk over the format, each conversion, and
 * the derivation of the fields the input did not give. The C strings are
 * `seq<char>` read through `At`, which answers NUL past the end, so an
 * embedded NUL ends a string as it does in C. The locale's name tables and
 * AM/PM strings are a parameter.
 */
module Strptime {
  import opened Wrappers
  import opened StrptimeCalendar

  // ----- characters (ASCII, as in the C locale) -----

  function At(s: string, i: nat): char
  {
    if i < |s| then s[i] else '\0'
  }

  predicate IsSpace(c: char) { c == ' ' || '\t' <= c <= '\r' }
  predicate IsBlank(c: char) { c == ' ' || c == '\t' }
  predicate IsDigit(c: char) { '0' <= c <= '9' }

  function DigitOf(c: char): (d: int)
    requires IsDigit(c)
    ensures 0 <= d <= 9
  {
    c as int - '0' as int
  }

  function ToLower(c: char): (l: char)
    ensures l == '\0' <==> c == '\0'
  {
    if 'A' <= c <= 'Z' then (c as int + 32) as char else c
  }

  predicate NoNul(s: string)
  {
    forall k :: 0 <= k < |s| ==> s[k] != '\0'
  }

  /** strncasecmp(buf + p, ex, strlen(ex)) == 0. */
  predicate PrefixCI(buf: string, p: nat, ex: string)
  {
    forall k :: 0 <= k < |ex| ==> ToLower(At(buf, p + k)) == ToLower(ex[k])
  }

  /** A matched name lies inside the input. */
  lemma PrefixInside(buf: string, p: nat, ex: string)
    requires p <= |buf| && NoNul(ex) && PrefixCI(buf, p, ex)
    ensures p + |ex| <= |buf|
  {
    if |ex| > 0 {
      assert ToLower(At(buf, p + |ex| - 1)) == ToLower(ex[|ex| - 1]);
    }
  }

  /** The names nl_langinfo answers: DAY_1.., ABDAY_1.., MON_1..,
      ABMON_1.., AM_STR and PM_STR. */
  datatype Locale = Locale(days: seq<string>, abdays: seq<string>, months: seq<string>,
                           abmonths: seq<string>, am: string, pm: string)
  {
    predicate Valid()
    {
      && |days| == 7 && |abdays| == 7 && |months| == 12 && |abmonths| == 12
      && NoNul(am) && NoNul(pm)
      && (forall i :: 0 <= i < 7 ==> NoNul(days[i]) && NoNul(abdays[i]))
      && (forall i :: 0 <= i < 12 ==> NoNul(months[i]) && NoNul(abmonths[i]))
    }
  }

  // ----- the parser's state -----

  /** The fields of struct tm that _strptime reads or writes. */
  datatype Tm = Tm(sec: int, min: int, hour: int, mday: int, mon: int, year: int, wday: int, yday: int)

  /** The FLAG_* bits (FLAG_NONE carries nothing). */
  datatype Flag = YearF | MonthF | YdayF | MdayF | WdayF

  /** The locals of one _strptime call, with the tm it fills and *GMTp. */
  datatype State = State(tm: Tm, flags: set<Flag>, century: int, year: int,
                         dayOffset: int, weekOffset: int, gmt: bool)

  function Init(tm: Tm, gmt: bool): State
  {
    State(tm, {}, -1, -1, -1, 0, gmt)
  }

  /** What _strptime answers: the position after the input it consumed with
      the tm and GMT flag it leaves; NULL; a conversion this model leaves
      out; or a read outside the month table, which C leaves undefined. */
  datatype Outcome = Parsed(pos: nat, tm: Tm, gmt: bool) | Null | Unmodelled(conv: char) | Undefined

  /** Result of one conversion: go on at position p, or stop. */
  datatype Conv = Next(p: nat, st: State) | Stop(o: Outcome)

  // ----- whitespace and digits -----

  /** The position after the run of whitespace starting at p. */
  function SkipSpace(buf: string, p: nat): (r: nat)
    requires p <= |buf|
    ensures p <= r <= |buf| && !IsSpace(At(buf, r))
    ensures forall k :: p <= k < r ==> IsSpace(buf[k])
    decreases |buf| - p
  {
    if IsSpace(At(buf, p)) then SkipSpace(buf, p + 1) else p
  }

  /** How many digits a conversion of the given width takes at p: the
      longest run of digits there, cut at the width. */
  function DigitRun(buf: string, p: nat, width: nat): (n: nat)
    requires p <= |buf|
    ensures n <= width && p + n <= |buf|
    ensures forall k :: p <= k < p + n ==> IsDigit(buf[k])
    ensures n < width ==> !IsDigit(At(buf, p + n))
    decreases width
  {
    if width == 0 || !IsDigit(At(buf, p)) then 0 else 1 + DigitRun(buf, p + 1, width - 1)
  }

  predicate AllDigits(s: string)
  {
    forall k :: 0 <= k < |s| ==> IsDigit(s[k])
  }

  function Pow10(n: nat): (r: nat)
    ensures r >= 1
  {
    if n == 0 then 1 else 10 * Pow10(n - 1)
  }

  /** The decimal value of a digit string, most significant digit first. */
  function DecValue(s: string): (v: nat)
    requires AllDigits(s)
    ensures v < Pow10(|s|)
  {
    if s == [] then 0 else 10 * DecValue(s[..|s| - 1]) + DigitOf(s[|s| - 1])
  }

  /** The digits a conversion of the given width reads at p, and their
      value. */
  function Number(buf: string, p: nat, width: nat): (r: (nat, nat))
    requires p <= |buf|
    ensures r.0 == DigitRun(buf, p, width)
    ensures r.1 < Pow10(r.0)
  {
    var n := DigitRun(buf, p, width);
    (n, DecValue(buf[p..p + n]))
  }

  // ----- the conversions -----

  /** The numeric conversions: %C %j %M %S %H %I %k %l %U %W %u %w %e %d %m
      %Y %y. */
  predicate IsNumeric(c: char)
  {
    || c == 'C' || c == 'j' || c == 'M' || c == 'S' || c == 'H' || c == 'I' || c == 'k' || c == 'l'
    || c == 'U' || c == 'W' || c == 'u' || c == 'w' || c == 'e' || c == 'd' || c == 'm' || c == 'Y' || c == 'y'
  }

  function NumConv(buf: string, p: nat, c: char, st: State): (r: Conv)
    requires p <= |buf| && IsNumeric(c)
    ensures r.Next? ==> p <= r.p <= |buf|
  {
    if c == 'C' then CenturyConv(buf, p, st)
    else if c == 'j' then YdayConv(buf, p, st)
    else if c == 'M' || c == 'S' then MinSecConv(buf, p, c, st)
    else if c == 'H' || c == 'I' || c == 'k' || c == 'l' then HourConv(buf, p, c, st)
    else if c == 'U' || c == 'W' then WeekConv(buf, p, c, st)
    else if c == 'u' || c == 'w' then WdayConv(buf, p, c, st)
    else if c == 'e' || c == 'd' then MdayConv(buf, p, c, st)
    else if c == 'm' then MonthConv(buf, p, st)
    else YearConv(buf, p, c, st)
  }

  /** %C: up to two digits of century. */
  function CenturyConv(buf: string, p: nat, st: State): (r: Conv)
    requires p <= |buf|
    ensures r.Next? ==> p <= r.p <= |buf|
  {
    if !IsDigit(At(buf, p)) then Stop(Null)
    else
      var (n, v) := Number(buf, p, 2);
      Next(p + n, st.(century := v, flags := st.flags + {YearF}))
  }

  /** %j: day of the year 1..366, stored from 0. */
  function YdayConv(buf: string, p: nat, st: State): (r: Conv)
    requires p <= |buf|
    ensures r.Next? ==> p <= r.p <= |buf|
  {
    if !IsDigit(At(buf, p)) then Stop(Null)
    else
      var (n, v) := Number(buf, p, 3);
      if v < 1 || v > 366 then Stop(Null)
      else Next(p + n, st.(tm := st.tm.(yday := v - 1), flags := st.flags + {YdayF}))
  }

  /** %M and %S, which an empty rest of input or whitespace lets pass. */
  function MinSecConv(buf: string, p: nat, c: char, st: State): (r: Conv)
    requires p <= |buf|
    ensures r.Next? ==> p <= r.p <= |buf|
  {
    var ch := At(buf, p);
    if ch == '\0' || IsSpace(ch) then Next(p, st)
    else if !IsDigit(ch) then Stop(Null)
    else
      var (n, v) := Number(buf, p, 2);
      if c == 'M' then
        if v > 59 then Stop(Null) else Next(p + n, st.(tm := st.tm.(min := v)))
      else
        if v > 60 then Stop(Null) else Next(p + n, st.(tm := st.tm.(sec := v)))
  }

  /** %H %k (0..23) and %I %l (1..12); %k and %l may start with one blank,
      which leaves room for one digit only. */
  function HourConv(buf: string, p: nat, c: char, st: State): (r: Conv)
    requires p <= |buf|
    ensures r.Next? ==> p <= r.p <= |buf|
  {
    var blank := (c == 'k' || c == 'l') && IsBlank(At(buf, p));
    var p1 := if blank then p + 1 else p;
    if !IsDigit(At(buf, p1)) then Stop(Null)
    else
      var (n, v) := Number(buf, p1, if blank then 1 else 2);
      if c == 'H' || c == 'k' then
        if v > 23 then Stop(Null) else Next(p1 + n, st.(tm := st.tm.(hour := v)))
      else
        if v == 0 || v > 12 then Stop(Null) else Next(p1 + n, st.(tm := st.tm.(hour := v)))
  }

  /** %U and %W: a week number 0..53, kept with the first day of the week
      (Sunday for %U, Monday for %W) for the derivation. */
  function WeekConv(buf: string, p: nat, c: char, st: State): (r: Conv)
    requires p <= |buf|
    ensures r.Next? ==> p <= r.p <= |buf|
  {
    if !IsDigit(At(buf, p)) then Stop(Null)
    else
      var (n, v) := Number(buf, p, 2);
      if v > 53 then Stop(Null)
      else Next(p + n, st.(dayOffset := if c == 'U' then 0 else 1, weekOffset := v))
  }

  /** %u (1..7, Monday first) and %w (0..6, Sunday first): one digit. */
  function WdayConv(buf: string, p: nat, c: char, st: State): (r: Conv)
    requires p <= |buf|
    ensures r.Next? ==> p <= r.p <= |buf|
  {
    var ch := At(buf, p);
    if !IsDigit(ch) then Stop(Null)
    else
      var i := DigitOf(ch);
      if i > 7 || (c == 'u' && i < 1) || (c == 'w' && i > 6) then Stop(Null)
      else Next(p + 1, st.(tm := st.tm.(wday := i % 7), flags := st.flags + {WdayF}))
  }

  /** %d and %e (1..31); %e may start with one whitespace character. */
  function MdayConv(buf: string, p: nat, c: char, st: State): (r: Conv)
    requires p <= |buf|
    ensures r.Next? ==> p <= r.p <= |buf|
  {
    var ch := At(buf, p);
    var p1 := if c == 'e' && ch != '\0' && IsSpace(ch) then p + 1 else p;
    if !IsDigit(At(buf, p1)) then Stop(Null)
    else
      var (n, v) := Number(buf, p1, 2);
      if v == 0 || v > 31 then Stop(Null)
      else Next(p1 + n, st.(tm := st.tm.(mday := v), flags := st.flags + {MdayF}))
  }

  /** %m: month 1..12, stored from 0. */
  function MonthConv(buf: string, p: nat, st: State): (r: Conv)
    requires p <= |buf|
    ensures r.Next? ==> p <= r.p <= |buf|
  {
    if !IsDigit(At(buf, p)) then Stop(Null)
    else
      var (n, v) := Number(buf, p, 2);
      if v < 1 || v > 12 then Stop(Null)
      else Next(p + n, st.(tm := st.tm.(mon := v - 1), flags := st.flags + {MonthF}))
  }

  /** %Y (four digits, split into century and year) and %y (two digits);
      an empty rest of input or whitespace lets them pass. */
  function YearConv(buf: string, p: nat, c: char, st: State): (r: Conv)
    requires p <= |buf|
    ensures r.Next? ==> p <= r.p <= |buf|
  {
    var ch := At(buf, p);
    if ch == '\0' || IsSpace(ch) then Next(p, st)
    else if !IsDigit(ch) then Stop(Null)
    else
      var (n, v) := Number(buf, p, if c == 'Y' then 4 else 2);
      Next(p + n, st.(century := if c == 'Y' then v / 100 else st.century,
                      year := v % 100, flags := st.flags + {YearF}))
  }

  /** The %A / %a search from day i: DAY_(i+1), then ABDAY_(i+1), then the
      next day; the index found and the length of the name that matched. */
  function DaySearch(buf: string, p: nat, loc: Locale, i: nat): (r: Option<(nat, nat)>)
    requires p <= |buf| && loc.Valid() && i <= 7
    ensures r.Some? ==> i <= r.value.0 < 7 && p + r.value.1 <= |buf|
    decreases 7 - i
  {
    if i == 7 then None
    else if PrefixCI(buf, p, loc.days[i]) then
      PrefixInside(buf, p, loc.days[i]);
      Some((i, |loc.days[i]|))
    else if PrefixCI(buf, p, loc.abdays[i]) then
      PrefixInside(buf, p, loc.abdays[i]);
      Some((i, |loc.abdays[i]|))
    else DaySearch(buf, p, loc, i + 1)
  }

  /** The first month loop of %B / %b / %h: full names, which with the O
      modifier only %B consults. */
  function FullMonthSearch(buf: string, p: nat, loc: Locale, c: char, oalt: bool, i: nat): (r: Option<(nat, nat)>)
    requires p <= |buf| && loc.Valid() && i <= 12
    ensures r.Some? ==> i <= r.value.0 < 12 && p + r.value.1 <= |buf|
    decreases 12 - i
  {
    if i == 12 then None
    else if (!oalt || c == 'B') && PrefixCI(buf, p, loc.months[i]) then
      PrefixInside(buf, p, loc.months[i]);
      Some((i, |loc.months[i]|))
    else FullMonthSearch(buf, p, loc, c, oalt, i + 1)
  }

  /** The second month loop: abbreviated names. */
  function AbMonthSearch(buf: string, p: nat, loc: Locale, i: nat): (r: Option<(nat, nat)>)
    requires p <= |buf| && loc.Valid() && i <= 12
    ensures r.Some? ==> i <= r.value.0 < 12 && p + r.value.1 <= |buf|
    decreases 12 - i
  {
    if i == 12 then None
    else if PrefixCI(buf, p, loc.abmonths[i]) then
      PrefixInside(buf, p, loc.abmonths[i]);
      Some((i, |loc.abmonths[i]|))
    else AbMonthSearch(buf, p, loc, i + 1)
  }

  function MonthSearch(buf: string, p: nat, loc: Locale, c: char, oalt: bool): (r: Option<(nat, nat)>)
    requires p <= |buf| && loc.Valid()
    ensures r.Some? ==> r.value.0 < 12 && p + r.value.1 <= |buf|
  {
    var full := FullMonthSearch(buf, p, loc, c, oalt, 0);
    if full.None? && !oalt then AbMonthSearch(buf, p, loc, 0) else full
  }

  function NameConv(buf: string, p: nat, c: char, oalt: bool, st: State, loc: Locale): (r: Conv)
    requires p <= |buf| && loc.Valid()
    ensures r.Next? ==> p <= r.p <= |buf|
  {
    if c == 'A' || c == 'a' then
      match DaySearch(buf, p, loc, 0)
      case None => Stop(Null)
      case Some((i, len)) => Next(p + len, st.(tm := st.tm.(wday := i), flags := st.flags + {WdayF}))
    else
      match MonthSearch(buf, p, loc, c, oalt)
      case None => Stop(Null)
      case Some((i, len)) => Next(p + len, st.(tm := st.tm.(mon := i), flags := st.flags + {MonthF}))
  }

  /** %p: AM turns 12 into 0, PM adds 12 to any other hour. */
  function AmPm(buf: string, p: nat, st: State, loc: Locale): (r: Conv)
    requires p <= |buf| && loc.Valid()
    ensures r.Next? ==> p <= r.p <= |buf|
  {
    var h := st.tm.hour;
    if h > 12 then Stop(Null)
    else if PrefixCI(buf, p, loc.am) then
      PrefixInside(buf, p, loc.am);
      Next(p + |loc.am|, st.(tm := st.tm.(hour := if h == 12 then 0 else h)))
    else if PrefixCI(buf, p, loc.pm) then
      PrefixInside(buf, p, loc.pm);
      Next(p + |loc.pm|, st.(tm := st.tm.(hour := if h != 12 then h + 12 else h)))
    else Stop(Null)
  }

  /** The digits of %z after the sign: HHMM, or HH followed by a
      non-digit, which counts as HH00; the position after them and the
      value. */
  function ZoneDigits(buf: string, p: nat): (r: Option<(nat, nat)>)
    requires p <= |buf|
    ensures r.Some? ==> p + 2 <= r.value.0 <= |buf| && r.value.1 <= 9999
  {
    assert Pow10(2) == 100 && Pow10(4) == 10000;
    if !IsDigit(At(buf, p)) || !IsDigit(At(buf, p + 1)) then None
    else if !IsDigit(At(buf, p + 2)) then Some((p + 2, 100 * DecValue(buf[p..p + 2])))
    else if !IsDigit(At(buf, p + 3)) then None
    else Some((p + 4, DecValue(buf[p..p + 4])))
  }

  /** %z: a sign, then ZoneDigits; the offset is subtracted from the hour
      and minute fields and the result is marked GMT. */
  function Zone(buf: string, p: nat, st: State): (r: Conv)
    requires p <= |buf|
    ensures r.Next? ==> p <= r.p <= |buf|
  {
    var ch := At(buf, p);
    if ch != '+' && ch != '-' then Stop(Null)
    else
      var sign := if ch == '-' then -1 else 1;
      match ZoneDigits(buf, p + 1)
      case None => Stop(Null)
      case Some((p1, i)) =>
        if i > 1400 || (sign == -1 && i > 1200) || i % 100 >= 60 then Stop(Null)
        else Next(p1, st.(tm := st.tm.(hour := st.tm.hour - sign * (i / 100),
                                       min := st.tm.min - sign * (i % 100)), gmt := true))
  }

  /** The conversions this model leaves out: the nl_langinfo formats, %Z
      and %s. */
  predicate IsUnmodelled(c: char)
  {
    c == '+' || c == 'c' || c == 'x' || c == 'X' || c == 'r' || c == 'Z' || c == 's'
  }

  /** %D %F %R %T: a nested _strptime on a fixed format. */
  predicate IsComposite(c: char)
  {
    c == 'D' || c == 'F' || c == 'R' || c == 'T'
  }

  /** The conversion characters the switch of _strptime names. */
  predicate IsKnown(c: char)
  {
    c == '%' || c == 'n' || c == 't' || IsUnmodelled(c) || IsNumeric(c) || IsComposite(c)
    || c == 'A' || c == 'a' || c == 'B' || c == 'b' || c == 'h' || c == 'p' || c == 'z'
  }

  /** One conversion character other than a composite one. */
  function ConvSpec(buf: string, p: nat, c: char, oalt: bool, st: State, loc: Locale): (r: Conv)
    requires p <= |buf| && loc.Valid() && !IsComposite(c)
    ensures r.Next? ==> p <= r.p <= |buf|
    ensures !IsKnown(c) ==> r == Stop(Null)
    ensures c == '\0' ==> r == Stop(Null)
    ensures r.Stop? ==> !r.o.Parsed?
  {
    if c == '%' then
      if At(buf, p) == '%' then Next(p + 1, st) else Stop(Null)
    else if c == 'n' || c == 't' then Next(SkipSpace(buf, p), st)
    else if IsUnmodelled(c) then Stop(Unmodelled(c))
    else if IsNumeric(c) then NumConv(buf, p, c, st)
    else if c == 'A' || c == 'a' || c == 'B' || c == 'b' || c == 'h' then NameConv(buf, p, c, oalt, st, loc)
    else if c == 'p' then AmPm(buf, p, st, loc)
    else if c == 'z' then Zone(buf, p, st)
    else Stop(Null)
  }

  function Inner(c: char): string
    requires IsComposite(c)
  {
    if c == 'D' then "%m/%d/%y" else if c == 'F' then "%Y-%m-%d" else if c == 'R' then "%H:%M" else "%H:%M:%S"
  }

  /** The flags the caller adds after a composite conversion. */
  function InnerFlags(c: char): set<Flag>
  {
    if c == 'D' || c == 'F' then {MonthF, MdayF, YearF} else {}
  }

  /** No composite conversion letter anywhere in the format. */
  predicate Simple(s: string)
  {
    forall k :: 0 <= k < |s| ==> !IsComposite(s[k])
  }

  function Rank(s: string): nat
  {
    if Simple(s) then 0 else 1
  }

  lemma InnerSimple(c: char)
    requires IsComposite(c)
    ensures Simple(Inner(c))
  {
  }

  // ----- the walk over the format -----

  /** After `%` at q: an E or O modifier, a doubled modifier (which ends the
      conversion with nothing done), the conversion character, and where the
      format goes on. */
  datatype Spec = NoOp(q: nat) | Conversion(c: char, oalt: bool, q: nat)

  function Modifiers(fmt: string, q: nat): (r: Spec)
    requires q < |fmt| && fmt[q] == '%'
    ensures r.NoOp? ==> q < r.q <= |fmt|
    ensures r.Conversion? && r.c != '\0' ==> q < r.q <= |fmt| && r.c == fmt[r.q - 1]
  {
    var c1 := At(fmt, q + 1);
    if c1 == 'E' || c1 == 'O' then
      var c2 := At(fmt, q + 2);
      if c2 == 'E' || c2 == 'O' then NoOp(q + 3) else Conversion(c2, c1 == 'O', q + 3)
    else Conversion(c1, false, q + 2)
  }

  /** One turn of the while loop: go on at (p, q) or answer. */
  datatype Step = Go(p: nat, q: nat, st: State) | Halt(o: Outcome)

  function StepSpec(buf: string, p: nat, fmt: string, q: nat, st: State, loc: Locale): (r: Step)
    requires p <= |buf| && q < |fmt| && fmt[q] != '\0' && loc.Valid()
    ensures r.Go? ==> p <= r.p <= |buf| && q < r.q <= |fmt|
    ensures r.Halt? ==> !r.o.Parsed?
    decreases Rank(fmt), 1
  {
    var c := fmt[q];
    if c != '%' then
      if IsSpace(c) then Go(SkipSpace(buf, p), q + 1, st)
      else if At(buf, p) == c then Go(p + 1, q + 1, st)
      else Halt(Null)
    else
      match Modifiers(fmt, q)
      case NoOp(q1) => Go(p, q1, st)
      case Conversion(c1, oalt, q1) =>
        if IsComposite(c1) then
          assert !Simple(fmt) by {
            assert IsComposite(fmt[q1 - 1]);
          }
          CompositeStep(buf, p, c1, q1, st, loc)
        else SimpleStep(buf, p, c1, oalt, q1, st, loc)
  }

  /** Any other conversion; the format goes on at q1. */
  function SimpleStep(buf: string, p: nat, c: char, oalt: bool, q1: nat, st: State, loc: Locale): (r: Step)
    requires p <= |buf| && !IsComposite(c) && loc.Valid()
    ensures r.Go? ==> p <= r.p <= |buf| && r.q == q1 && c != '\0'
    ensures r.Halt? ==> !r.o.Parsed?
  {
    match ConvSpec(buf, p, c, oalt, st, loc)
    case Next(p1, st1) => Go(p1, q1, st1)
    case Stop(o) => Halt(o)
  }

  /** %D %F %R %T: the nested call, then the flags the caller adds; the
      format goes on at q1. */
  function CompositeStep(buf: string, p: nat, c: char, q1: nat, st: State, loc: Locale): (r: Step)
    requires p <= |buf| && IsComposite(c) && loc.Valid()
    ensures r.Go? ==> p <= r.p <= |buf| && r.q == q1
    ensures r.Halt? ==> !r.o.Parsed?
    decreases 1, 0
  {
    InnerSimple(c);
    match ParseSpec(buf, p, Inner(c), st.tm, st.gmt, loc)
    case Parsed(p1, tm, gmt) => Go(p1, q1, st.(tm := tm, gmt := gmt, flags := st.flags + InnerFlags(c)))
    case o => Halt(o)
  }

  datatype ScanEnd = Finished(p: nat, st: State) | Halted(o: Outcome)

  /** The while loop of _strptime from format position q. */
  function ScanSpec(buf: string, p: nat, fmt: string, q: nat, st: State, loc: Locale): (r: ScanEnd)
    requires p <= |buf| && q <= |fmt| && loc.Valid()
    ensures r.Finished? ==> p <= r.p <= |buf|
    ensures r.Halted? ==> !r.o.Parsed?
    decreases Rank(fmt), |fmt| - q + 1
  {
    if At(fmt, q) == '\0' then Finished(p, st)
    else
      match StepSpec(buf, p, fmt, q, st, loc)
      case Go(p1, q1, st1) => ScanSpec(buf, p1, fmt, q1, st1, loc)
      case Halt(o) => Halted(o)
  }

  /** _strptime(buf + p, fmt, tm, GMTp). */
  function ParseSpec(buf: string, p: nat, fmt: string, tm: Tm, gmt: bool, loc: Locale): (o: Outcome)
    requires p <= |buf| && loc.Valid()
    ensures o.Parsed? ==> p <= o.pos <= |buf|
    decreases Rank(fmt), |fmt| + 2
  {
    match ScanSpec(buf, p, fmt, 0, Init(tm, gmt), loc)
    case Finished(p1, st) => DeriveSpec(p1, st)
    case Halted(o) => o
  }

  // ----- deriving the missing fields -----

  /** tm_year from the century and the two-digit year, when either was
      given. */
  function AssembleYear(century: int, year: int): (y: int)
  {
    var yy := if year == -1 then 0 else year;
    if century == -1 then (if yy < 69 then yy + 100 else yy) else yy + century * 100 - 1900
  }

  /** tm with the year the conversions gave, if any. */
  function WithYear(st: State): (tm: Tm)
    ensures st.century == -1 && st.year == -1 ==> tm == st.tm
  {
    if st.century != -1 || st.year != -1 then st.tm.(year := AssembleYear(st.century, st.year)) else st.tm
  }

  /** Result of the derivation phases. */
  datatype Fields = Fields(tm: Tm, flags: set<Flag>) | Fail(o: Outcome)

  /** The weekday-number derivation of the day of the year (%U / %W). */
  function WeekYday(st: State, tm: Tm): (r: Fields)
    requires st.dayOffset != -1
  {
    var fwo := FirstWday(tm.year + 1900);
    if st.weekOffset == 0 && fwo == st.dayOffset then Fail(Null)
    else
      var tmpwday := if WdayF in st.flags then tm.wday else st.dayOffset;
      var tmpyday := CRem(7 - fwo + st.dayOffset, 7) + (st.weekOffset - 1) * 7
                     + CRem(tmpwday - st.dayOffset + 7, 7);
      if tmpyday < 0 && WdayF in st.flags then Fail(Null)
      else Fields(tm.(yday := if tmpyday < 0 then 0 else tmpyday), st.flags + {YdayF})
  }

  /** The day of the year, when a year is known but the day of the year is
      not. */
  function YdayPhase(st: State, tm: Tm): (r: Fields)
  {
    if YdayF !in st.flags && YearF in st.flags then
      if MonthF in st.flags && MdayF in st.flags then
        if 0 <= tm.mon <= 12 then
          Fields(tm.(yday := StartOfMonth(IsLeap(tm.year + 1900), tm.mon) + tm.mday - 1), st.flags + {YdayF})
        else Fail(Undefined)
      else if st.dayOffset != -1 then WeekYday(st, tm)
      else Fields(tm, st.flags)
    else Fields(tm, st.flags)
  }

  /** The month from the day of the year, given the index the month search
      stopped at: past the last entry, the date moves into the next year. */
  function MonthFrom(tm: Tm, i: nat): (r: Tm)
    requires i <= 13
  {
    var leap := IsLeap(tm.year + 1900);
    if i > 12 then tm.(mon := 0, yday := tm.yday - StartOfMonth(leap, 12), year := tm.year + 1)
    else tm.(mon := i - 1)
  }

  /** The day of the month and the weekday, once year and day of the year
      are known. */
  function DayPhase(tm: Tm, flags: set<Flag>): (r: Fields)
  {
    var leap := IsLeap(tm.year + 1900);
    if MdayF !in flags && !(0 <= tm.mon <= 12) then Fail(Undefined)
    else
      var tm1 := if MdayF in flags then tm else tm.(mday := tm.yday - StartOfMonth(leap, tm.mon) + 1);
      var tm2 := if WdayF in flags then tm1 else tm1.(wday := CRem(FirstWday(tm1.year + 1900) + tm1.yday, 7));
      Fields(tm2, flags + {MdayF, WdayF})
  }

  /** The code after the while loop. */
  function DeriveSpec(p: nat, st: State): (o: Outcome)
    ensures o.Parsed? ==> o.pos == p && o.gmt == st.gmt
  {
    match YdayPhase(st, WithYear(st))
    case Fail(o) => o
    case Fields(tm, flags) =>
      match CalendarPhase(tm, flags)
      case Fail(o) => o
      case Fields(tm1, _) => Parsed(p, tm1, st.gmt)
  }

  /** Month, day of the month and weekday, once the year and the day of the
      year are both known. */
  function CalendarPhase(tm: Tm, flags: set<Flag>): (r: Fields)
  {
    if YearF in flags && YdayF in flags then
      var (tm1, flags1) := if MonthF in flags then (tm, flags)
                           else (MonthFrom(tm, SearchFrom(tm.yday, Row(IsLeap(tm.year + 1900)), 0)), flags + {MonthF});
      DayPhase(tm1, flags1)
    else Fields(tm, flags)
  }
}
