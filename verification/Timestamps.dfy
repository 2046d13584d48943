/** Timestamps as they are written, and the instants they are read as (src/util.cpp:229-283). */
module Timestamps {
  import opened Wrappers
  import opened Text
  import opened Calendar
  import opened DateTime

  // ---------------------------------------------------------------- texts

  function Figure(n: nat): char
    requires n < 10
  {
    ('0' as int + n) as char
  }

  function Two(n: nat): (r: string)
    requires n < 100
    ensures |r| == 2
  {
    [Figure(n / 10), Figure(n % 10)]
  }

  function Four(n: nat): (r: string)
    requires n < 10000
    ensures |r| == 4
  {
    [Figure(n / 1000), Figure(n / 100 % 10), Figure(n / 10 % 10), Figure(n % 10)]
  }

  datatype Day = Day(year: nat, month: nat, day: nat)

  /** A time of day, with seconds and digits of a fraction or without. */
  datatype Clock = Clock(hour: nat, minute: nat, second: Option<nat>, fraction: Option<string>)

  datatype Zone = NoZone | Zulu(upper: bool) | Offset(plus: bool, hours: nat, colon: bool, minutes: nat)
                | HourOffset(plus: bool, hours: nat, colon: bool)

  predicate DayOk(d: Day) {
    d.year <= 9999 && 1 <= d.month <= 12 && 1 <= d.day <= 31
  }

  predicate ClockOk(c: Clock) {
    c.hour <= 23 && c.minute <= 59 && (c.second.Some? ==> c.second.value <= 60) &&
    (c.fraction.Some? ==> forall i :: 0 <= i < |c.fraction.value| ==> '0' <= c.fraction.value[i] <= '9')
  }

  predicate ZoneOk(z: Zone) {
    match z
    case Offset(_, h, _, m) => h <= 99 && m <= 99
    case HourOffset(_, h, _) => h <= 99
    case _ => true
  }

  function DayText(d: Day): string
    requires DayOk(d)
  {
    Four(d.year) + ("-" + (Two(d.month) + ("-" + Two(d.day))))
  }

  function SecondText(c: Clock): string
    requires ClockOk(c)
  {
    if c.second.Some? then ":" + Two(c.second.value) else ""
  }

  function FractionText(c: Clock): string {
    if c.fraction.Some? then "." + c.fraction.value else ""
  }

  function ClockText(c: Clock, rest: string): string
    requires ClockOk(c)
  {
    Two(c.hour) + (":" + (Two(c.minute) + (SecondText(c) + (FractionText(c) + rest))))
  }

  function Sign(plus: bool): char {
    if plus then '+' else '-'
  }

  function ZoneText(z: Zone): string
    requires ZoneOk(z)
  {
    match z
    case NoZone => ""
    case Zulu(upper) => if upper then "Z" else "z"
    case Offset(plus, h, colon, m) => [Sign(plus)] + (Two(h) + ((if colon then ":" else "") + Two(m)))
    case HourOffset(plus, h, colon) => [Sign(plus)] + (Two(h) + (if colon then ":" else ""))
  }

  /** Minutes east of Greenwich. */
  function ZoneMinutes(z: Zone): int {
    match z
    case Offset(plus, h, _, m) => if plus then h * 60 + m else -(h * 60 + m)
    case HourOffset(plus, h, _) => if plus then h * 60 else -(h * 60)
    case _ => 0
  }

  function FigureValue(c: char): int {
    c as int - '0' as int
  }

  /** The first three digits of a fraction, as thousandths. */
  function Thousandths(f: string): int {
    (if |f| > 0 then FigureValue(f[0]) * 100 else 0) +
    (if |f| > 1 then FigureValue(f[1]) * 10 else 0) +
    if |f| > 2 then FigureValue(f[2]) else 0
  }

  function ClockMillis(c: Clock): int {
    if c.fraction.Some? then Thousandths(c.fraction.value) else 0
  }

  function ClockSecond(c: Clock): int {
    if c.second.Some? then c.second.value else 0
  }

  // ---------------------------------------------------------------- where a part stands

  predicate At(s: string, i: nat, t: string) {
    i + |t| <= |s| && s[i..i + |t|] == t
  }

  lemma AtBoth(s: string, i: nat, a: string, b: string)
    requires At(s, i, a + b)
    ensures At(s, i, a) && At(s, i + |a|, b)
  {
    var t := a + b;
    assert s[i..i + |a|] == t[..|a|] == a;
    assert s[i + |a|..i + |a| + |b|] == t[|a|..] == b;
  }

  lemma AtChar(s: string, i: nat, t: string, k: nat)
    requires At(s, i, t) && k < |t|
    ensures s[i + k] == t[k]
  {
    assert s[i..i + |t|][k] == s[i + k];
  }

  lemma AtTwo(s: string, i: nat, n: nat)
    requires n < 100 && At(s, i, Two(n))
    ensures Field(s, i, 2) == Some(n)
  {
    AtChar(s, i, Two(n), 0);
    AtChar(s, i, Two(n), 1);
    TwoDigits(s, i);
  }

  lemma ValueFour(a: char, b: char, c: char, d: char)
    requires IsDigit(a) && IsDigit(b) && IsDigit(c) && IsDigit(d)
    ensures AllDigits([a, b, c, d])
    ensures Value([a, b, c, d]) ==
            DigitValue(a) * 1000 + DigitValue(b) * 100 + DigitValue(c) * 10 + DigitValue(d)
  {
    ValueSnoc([], a);
    ValueSnoc([a], b);
    ValueSnoc([a, b], c);
    ValueSnoc([a, b, c], d);
    assert [] + [a] == [a] && [a] + [b] == [a, b] && [a, b] + [c] == [a, b, c] && [a, b, c] + [d] == [a, b, c, d];
  }

  lemma FourFigures(n: nat)
    requires n < 10000
    ensures n / 1000 * 1000 + n / 100 % 10 * 100 + n / 10 % 10 * 10 + n % 10 == n
  {
    var tens := n / 10;
    var hundreds := tens / 10;
    assert n / 100 == hundreds && n / 1000 == hundreds / 10;
    assert hundreds == hundreds / 10 * 10 + hundreds % 10;
  }

  lemma AtFour(s: string, i: nat, n: nat)
    requires n < 10000 && At(s, i, Four(n))
    ensures Field(s, i, 4) == Some(n)
  {
    ValueFour(Figure(n / 1000), Figure(n / 100 % 10), Figure(n / 10 % 10), Figure(n % 10));
    FourFigures(n);
    hide Value;
  }

  /** A run of digits before something else. */
  lemma {:induction false} RunIs(s: string, i: nat, f: string)
    requires At(s, i, f) && AllDigits(f) && (i + |f| < |s| ==> !IsDigit(s[i + |f|]))
    ensures DigitRun(s, i) == i + |f|
    decreases |f|
  {
    if f != "" {
      AtChar(s, i, f, 0);
      AtBoth(s, i, [f[0]], f[1..]);
      assert [f[0]] + f[1..] == f;
      RunIs(s, i + 1, f[1..]);
    }
  }

  // ---------------------------------------------------------------- what is read

  function Parsed(d: Day): Parts {
    EMPTY.(year := d.year, month := d.month, day := d.day, hasDate := true)
  }

  function WithClock(p: Parts, c: Clock): Parts {
    p.(hour := c.hour, minute := c.minute, second := ClockSecond(c), millis := ClockMillis(c), hasTime := true)
  }

  /** What follows a time of day: nothing, or the start of an offset. */
  predicate AfterClock(s: string, i: nat) {
    i >= |s| || s[i] == 'Z' || s[i] == 'z' || s[i] == '+' || s[i] == '-'
  }

  lemma MillisAre(f: string)
    requires AllDigits(f)
    ensures Millis(f) == Thousandths(f)
  {
    Powers();
    if |f| >= 3 {
      var t := f[..3];
      ValueSnoc([], f[0]);
      ValueSnoc([f[0]], f[1]);
      ValueSnoc([f[0], f[1]], f[2]);
      assert [] + [f[0]] == [f[0]] && [f[0]] + [f[1]] == [f[0], f[1]] && [f[0], f[1]] + [f[2]] == t;
    } else if |f| == 2 {
      ValueSnoc([], f[0]);
      ValueSnoc([f[0]], f[1]);
      assert [] + [f[0]] == [f[0]] && [f[0]] + [f[1]] == f;
    } else if |f| == 1 {
      ValueSnoc([], f[0]);
      assert [] + [f[0]] == f;
    }
  }

  lemma FractionReads(s: string, i: nat, c: Clock)
    requires ClockOk(c) && At(s, i, FractionText(c)) && AfterClock(s, i + |FractionText(c)|)
    ensures FractionPart(s, i) == (ClockMillis(c), i + |FractionText(c)|)
  {
    if c.fraction.Some? {
      var f := c.fraction.value;
      AtChar(s, i, FractionText(c), 0);
      AtBoth(s, i, ".", f);
      RunIs(s, i + 1, f);
      MillisAre(f);
      assert s[i + 1..i + 1 + |f|] == f;
    }
  }

  lemma SecondReads(s: string, i: nat, c: Clock)
    requires ClockOk(c) && At(s, i, SecondText(c))
    requires c.second.None? ==> i < |s| ==> s[i] != ':'
    ensures SecondPart(s, i) == Some((ClockSecond(c), i + |SecondText(c)|))
  {
    if c.second.Some? {
      AtChar(s, i, SecondText(c), 0);
      AtBoth(s, i, ":", Two(c.second.value));
      AtTwo(s, i + 1, c.second.value);
    }
    hide Field;
  }

  lemma FractionStarts(s: string, i: nat, c: Clock)
    requires At(s, i, FractionText(c)) && AfterClock(s, i + |FractionText(c)|)
    ensures i < |s| ==> s[i] != ':'
  {
    if c.fraction.Some? { AtChar(s, i, FractionText(c), 0); }
  }

  /** Where the parts of a time of day stand. */
  lemma ClockPlaces(s: string, i: nat, c: Clock, rest: string)
    requires ClockOk(c) && At(s, i, ClockText(c, rest))
    ensures |ClockText(c, rest)| == 5 + |SecondText(c)| + |FractionText(c)| + |rest|
    ensures At(s, i, Two(c.hour)) && At(s, i + 2, ":") && At(s, i + 3, Two(c.minute)) && At(s, i + 5, SecondText(c))
    ensures var j := i + 5 + |SecondText(c)|; At(s, j, FractionText(c)) && At(s, j + |FractionText(c)|, rest)
  {
    hide At, Two, SecondText, FractionText;
    var t1 := FractionText(c) + rest;
    var t2 := SecondText(c) + t1;
    AtBoth(s, i, Two(c.hour), ":" + (Two(c.minute) + t2));
    AtBoth(s, i + 2, ":", Two(c.minute) + t2);
    AtBoth(s, i + 3, Two(c.minute), t2);
    AtBoth(s, i + 5, SecondText(c), t1);
    AtBoth(s, i + 5 + |SecondText(c)|, FractionText(c), rest);
  }

  lemma AfterHere(s: string, k: nat, rest: string)
    requires At(s, k, rest) && k + |rest| == |s| && AfterClock(rest, 0)
    ensures AfterClock(s, k)
  {
    if rest != "" { AtChar(s, k, rest, 0); }
  }

  lemma AtMark(s: string, i: nat, c: char)
    requires At(s, i, [c])
    ensures i < |s| && s[i] == c
  {
    AtChar(s, i, [c], 0);
  }

  lemma ClockReads(s: string, i: nat, c: Clock, rest: string, p: Parts)
    requires ClockOk(c) && At(s, i, ClockText(c, rest)) && i + |ClockText(c, rest)| == |s|
    requires AfterClock(rest, 0)
    ensures ClockPart(s, i, p) == Some((WithClock(p, c), |s| - |rest|)) && At(s, |s| - |rest|, rest)
  {
    hide Field, SecondPart, FractionPart, At, Two, SecondText, FractionText, ClockText, AfterClock, ClockMillis,
      ClockSecond;
    ClockPlaces(s, i, c, rest);
    var j := i + 5 + |SecondText(c)|;
    AfterHere(s, j + |FractionText(c)|, rest);
    AtTwo(s, i, c.hour);
    AtTwo(s, i + 3, c.minute);
    AtMark(s, i + 2, ':');
    FractionStarts(s, j, c);
    SecondStarts(s, i + 5, c);
    SecondReads(s, i + 5, c);
    FractionReads(s, j, c);
    SecondInRange(c);
  }

  lemma SecondStarts(s: string, i: nat, c: Clock)
    requires ClockOk(c)
    ensures c.second.None? ==> |SecondText(c)| == 0
  {
  }

  lemma SecondInRange(c: Clock)
    requires ClockOk(c)
    ensures 0 <= ClockSecond(c) <= 60
  {
  }

  lemma HoursRead(s: string, i: nat, plus: bool, h: nat, colon: bool)
    requires h <= 99 && i + (if colon then 4 else 3) == |s| && s[i] == Sign(plus) && Field(s, i + 1, 2) == Some(h)
    requires colon ==> s[i + 3] == ':'
    ensures ZonePart(s, i) == Some((ZoneMinutes(HourOffset(plus, h, colon)), |s|))
  {
    hide Field;
  }

  lemma OffsetReads(s: string, i: nat, plus: bool, h: nat, colon: bool, m: nat)
    requires h <= 99 && m <= 99 && i + 3 < |s| && s[i] == Sign(plus) && Field(s, i + 1, 2) == Some(h)
    requires s[i + 3] == ':' <==> colon
    requires var j := if colon then i + 4 else i + 3; j + 2 == |s| && Field(s, j, 2) == Some(m)
    ensures ZonePart(s, i) == Some((ZoneMinutes(Offset(plus, h, colon, m)), |s|))
  {
    hide Field;
  }

  lemma OffsetPlaces(s: string, i: nat, plus: bool, h: nat, colon: bool, m: nat)
    requires h <= 99 && m <= 99 && At(s, i, ZoneText(Offset(plus, h, colon, m)))
    ensures |ZoneText(Offset(plus, h, colon, m))| == if colon then 6 else 5
    ensures At(s, i, [Sign(plus)]) && At(s, i + 1, Two(h)) && At(s, if colon then i + 4 else i + 3, Two(m))
    ensures i + 3 < |s| && (s[i + 3] == ':' <==> colon)
  {
    var mark := if colon then ":" else "";
    var t := mark + Two(m);
    AtBoth(s, i, [Sign(plus)], Two(h) + t);
    AtBoth(s, i + 1, Two(h), t);
    AtBoth(s, i + 3, mark, Two(m));
    AtChar(s, i + 3, t, 0);
  }

  lemma HoursPlaces(s: string, i: nat, plus: bool, h: nat, colon: bool)
    requires h <= 99 && At(s, i, ZoneText(HourOffset(plus, h, colon)))
    ensures |ZoneText(HourOffset(plus, h, colon))| == if colon then 4 else 3
    ensures i < |s| && s[i] == Sign(plus) && At(s, i + 1, Two(h))
    ensures colon ==> i + 3 < |s| && s[i + 3] == ':'
  {
    hide At, Two;
    var mark := if colon then ":" else "";
    AtBoth(s, i, [Sign(plus)], Two(h) + mark);
    AtBoth(s, i + 1, Two(h), mark);
    AtMark(s, i, Sign(plus));
    if colon { AtMark(s, i + 3, ':'); }
  }

  lemma ZoneReads(s: string, i: nat, z: Zone)
    requires ZoneOk(z) && At(s, i, ZoneText(z)) && i + |ZoneText(z)| == |s|
    ensures ZonePart(s, i) == Some((ZoneMinutes(z), |s|))
  {
    match z
    case NoZone =>
    case Zulu(_) => AtChar(s, i, ZoneText(z), 0);
    case HourOffset(plus, h, colon) =>
      hide ZonePart, At, Field, Two, ZoneText, ZoneMinutes;
      HoursPlaces(s, i, plus, h, colon);
      AtTwo(s, i + 1, h);
      HoursRead(s, i, plus, h, colon);
    case Offset(plus, h, colon, m) =>
      hide ZonePart, At, Field, Two, ZoneText, ZoneMinutes;
      OffsetPlaces(s, i, plus, h, colon, m);
      AtMark(s, i, Sign(plus));
      AtTwo(s, i + 1, h);
      AtTwo(s, if colon then i + 4 else i + 3, m);
      OffsetReads(s, i, plus, h, colon, m);
  }

  lemma ZoneStarts(z: Zone)
    requires ZoneOk(z)
    ensures AfterClock(ZoneText(z), 0)
  {
  }

  lemma DayPlaces(s: string, d: Day, rest: string)
    requires DayOk(d) && s == DayText(d) + rest
    ensures |DayText(d)| == 10 && At(s, 10, rest) && |s| == 10 + |rest|
    ensures At(s, 0, Four(d.year)) && At(s, 4, "-") && At(s, 5, Two(d.month)) && At(s, 7, "-") && At(s, 8, Two(d.day))
  {
    assert s[0..|s|] == s && At(s, 0, DayText(d) + rest);
    hide At, Two, Four;
    AtBoth(s, 0, DayText(d), rest);
    AtBoth(s, 0, Four(d.year), "-" + (Two(d.month) + ("-" + Two(d.day))));
    AtBoth(s, 4, "-", Two(d.month) + ("-" + Two(d.day)));
    AtBoth(s, 5, Two(d.month), "-" + Two(d.day));
    AtBoth(s, 7, "-", Two(d.day));
  }

  lemma GapPlaces(s: string, sep: Option<char>, rest: string)
    requires At(s, 10, (if sep.Some? then [sep.value] else "") + rest)
    requires |s| == 10 + (if sep.Some? then 1 else 0) + |rest|
    ensures sep.Some? ==> |s| > 10 && s[10] == sep.value
    ensures sep.None? && rest != "" ==> |s| > 10 && s[10] == rest[0]
    ensures At(s, |s| - |rest|, rest)
  {
    AtBoth(s, 10, if sep.Some? then [sep.value] else "", rest);
    if |s| > 10 { AtChar(s, 10, (if sep.Some? then [sep.value] else "") + rest, 0); }
  }

  lemma DayReads(s: string, d: Day, sep: Option<char>, rest: string)
    requires DayOk(d) && (sep == None || sep == Some('T') || sep == Some(' '))
    requires s == DayText(d) + ((if sep.Some? then [sep.value] else "") + rest)
    requires sep.None? ==> rest == "" || (rest[0] != 'T' && rest[0] != ' ')
    ensures DatePart(s) == Some((Parsed(d), |s| - |rest|)) && At(s, |s| - |rest|, rest)
  {
    hide Field, At, Two, Four, DayText;
    DayPlaces(s, d, (if sep.Some? then [sep.value] else "") + rest);
    GapPlaces(s, sep, rest);
    AtMark(s, 4, '-');
    AtMark(s, 7, '-');
    AtFour(s, 0, d.year);
    AtTwo(s, 5, d.month);
    AtTwo(s, 8, d.day);
  }

  // ---------------------------------------------------------------- the main results

  function TimestampText(d: Day, sep: Option<char>, c: Clock, z: Zone): string
    requires DayOk(d) && ClockOk(c) && ZoneOk(z)
  {
    DayText(d) + ((if sep.Some? then [sep.value] else "") + ClockText(c, ZoneText(z)))
  }

  lemma ClockStarts(c: Clock, rest: string)
    requires ClockOk(c)
    ensures |ClockText(c, rest)| >= 5 && IsDigit(ClockText(c, rest)[0])
  {
  }

  lemma TextTrimmed(s: string)
    requires s != "" && !IsTrimmed(s[0]) && !IsTrimmed(s[|s| - 1])
    ensures Trim(s) == s
  {
    TrimTrims(s);
  }

  lemma ClockEnds(c: Clock, z: Zone)
    requires ClockOk(c) && ZoneOk(z)
    ensures var t := ClockText(c, ZoneText(z)); |t| > 0 && !IsTrimmed(t[|t| - 1])
  {
    var t, zone, f := ClockText(c, ZoneText(z)), ZoneText(z), FractionText(c);
    if zone != "" {
      assert t[|t| - 1] == zone[|zone| - 1];
    } else if f != "" {
      assert f + zone == f;
      assert t[|t| - 1] == f[|f| - 1];
    } else {
      assert f + zone == "";
      var sec := SecondText(c);
      assert sec + "" == sec;
      if sec != "" { assert t[|t| - 1] == sec[|sec| - 1]; } else { assert t[|t| - 1] == Two(c.minute)[1]; }
    }
  }

  lemma TimestampLocal(d: Day, sep: Option<char>, c: Clock, z: Zone)
    requires DayOk(d) && ClockOk(c) && ZoneOk(z) && (sep == None || sep == Some('T') || sep == Some(' '))
    ensures Local(TimestampText(d, sep, c, z)) == Some((WithClock(Parsed(d), c), ZoneMinutes(z)))
  {
    hide DayText, ClockText, DatePart, ClockPart, ZonePart, Trim, ZoneText;
    var zone := ZoneText(z);
    var clock := ClockText(c, zone);
    var s := TimestampText(d, sep, c, z);
    ClockStarts(c, zone);
    ClockEnds(c, z);
    DayStarts(d);
    assert s[0] == DayText(d)[0] && s[|s| - 1] == clock[|clock| - 1];
    TextTrimmed(s);
    DayReads(s, d, sep, clock);
    ZoneStarts(z);
    ClockReads(s, |s| - |clock|, c, zone, Parsed(d));
    ZoneReads(s, |s| - |zone|, z);
  }

  lemma DayStarts(d: Day)
    requires DayOk(d)
    ensures |DayText(d)| == 10 && IsDigit(DayText(d)[0]) && IsDigit(DayText(d)[9])
  {
  }

  /** A timestamp is read as the UTC instant it names: hours and minutes east of Greenwich are
      subtracted, those west of it added. Without an offset the parts are those written. */
  lemma TimestampReads(d: Day, sep: Option<char>, c: Clock, z: Zone)
    requires DayOk(d) && ClockOk(c) && ZoneOk(z) && (sep == None || sep == Some('T') || sep == Some(' '))
    ensures var r := Parse(TimestampText(d, sep, c, z));
            r.Some? &&
            var p := r.value;
            p.hasDate && p.hasTime && DateInRange(p) && ClockInRange(p) &&
            Minutes(p) ==
            DaysFromCivil(Date(d.year, d.month, d.day)) * 1440 + c.hour * 60 + c.minute -
            (match z
             case Offset(plus, h, _, m) => if plus then h * 60 + m else -(h * 60 + m)
             case HourOffset(plus, h, _) => if plus then h * 60 else -(h * 60)
             case _ => 0) &&
            p.second == (if c.second.Some? then c.second.value else 0) && p.millis == ClockMillis(c) &&
            (ZoneMinutes(z) == 0 ==>
               p.year == d.year && p.month == d.month && p.day == d.day && p.hour == c.hour && p.minute == c.minute)
  {
    hide DaysFromCivil, CivilFromDays, Local, TimestampText, Thousandths;
    TimestampLocal(d, sep, c, z);
    var l := WithClock(Parsed(d), c);
    ParsedInstant(TimestampText(d, sep, c, z));
    if ZoneMinutes(z) != 0 { UtcKeepsInstant(l, ZoneMinutes(z)); }
  }

  /** A day alone is read as such, even with a T behind it. */
  lemma DayAloneReads(d: Day, tee: bool)
    requires DayOk(d)
    ensures Parse(DayText(d) + if tee then "T" else "") == Some(Parsed(d))
  {
    hide DayText, DatePart, Trim;
    var mark := if tee then "T" else "";
    var s := DayText(d) + mark;
    DayStarts(d);
    assert s[0] == DayText(d)[0] && s[|s| - 1] == if tee then 'T' else DayText(d)[9];
    TextTrimmed(s);
    assert mark + "" == mark;
    DayReads(s, d, if tee then Some('T') else None, "");
  }

  /** A time of day alone is read as it stands: without a date its offset does not count. */
  lemma ClockAloneReads(c: Clock, z: Zone)
    requires ClockOk(c) && ZoneOk(z)
    ensures Parse(ClockText(c, ZoneText(z))) == Some(WithClock(EMPTY, c))
  {
    hide ClockText, ClockPart, ZonePart, Trim, ZoneText;
    var zone := ZoneText(z);
    var s := ClockText(c, zone);
    ClockStarts(c, zone);
    ClockEnds(c, z);
    TextTrimmed(s);
    NoDay(c, zone);
    assert s[0..|s|] == s && At(s, 0, s);
    ZoneStarts(z);
    ClockReads(s, 0, c, zone, EMPTY);
    ZoneReads(s, |s| - |zone|, z);
  }

  lemma NoDay(c: Clock, rest: string)
    requires ClockOk(c)
    ensures DatePart(ClockText(c, rest)) == Some((EMPTY, 0))
  {
    var s := ClockText(c, rest);
    assert s[4] == Two(c.minute)[1];
  }

  // ---------------------------------------------------------------- what is written and delivered

  lemma PadTwo(n: nat)
    requires n < 100
    ensures Pad(n, 2) == Two(n)
  {
    Powers();
    assert Digits(n, 2) == Digits(n / 10, 1) + [DigitChar(n % 10)];
    assert Digits(n / 10, 1) == Digits(n / 10 / 10, 0) + [DigitChar(n / 10 % 10)];
  }

  lemma PadThree(n: nat)
    requires n < 1000
    ensures Pad(n, 3) == [Figure(n / 100), Figure(n / 10 % 10), Figure(n % 10)]
  {
    Powers();
    PadTwo(n / 10);
    assert Digits(n, 3) == Digits(n / 10, 2) + [DigitChar(n % 10)];
  }

  lemma PadFour(n: nat)
    requires n < 10000
    ensures Pad(n, 4) == Four(n)
  {
    Powers();
    PadThree(n / 10);
    assert Digits(n, 4) == Digits(n / 10, 3) + [DigitChar(n % 10)];
  }

  /** The text of a timestamp: year, month and day with dashes, a blank, hours, minutes and seconds with
      colons, and three digits of a fraction. */
  lemma TimestampWritten(p: Parts)
    requires ClockInRange(p) && DateInRange(p) && 0 <= p.year <= 9999
    ensures FormatDate(p) == Four(p.year) + "-" + Two(p.month) + "-" + Two(p.day)
    ensures FormatTime(p) == Two(p.hour) + ":" + Two(p.minute) + ":" + Two(p.second)
    ensures FormatTimestamp(p) ==
            Four(p.year) + "-" + Two(p.month) + "-" + Two(p.day) + " " +
            (Two(p.hour) + ":" + Two(p.minute) + ":" + Two(p.second)) + "." +
            [Figure(p.millis / 100), Figure(p.millis / 10 % 10), Figure(p.millis % 10)]
  {
    hide Pad;
    PadFour(p.year);
    PadTwo(p.month);
    PadTwo(p.day);
    PadTwo(p.hour);
    PadTwo(p.minute);
    PadTwo(p.second);
    PadThree(p.millis);
  }

  /** A time of day is refused for a timestamp with 07006, any text that is not read with 22018. */
  lemma TimestampRefused(text: string, c: Clock, z: Zone)
    requires ClockOk(c) && ZoneOk(z)
    ensures GetTimestamp(ClockText(c, ZoneText(z))) == Err("07006")
    ensures Parse(text) == None ==> GetTimestamp(text) == Err("22018") && DatetimeText(text) == text
  {
    hide Parse, ClockText, ZoneText;
    ClockAloneReads(c, z);
  }

  // ---------------------------------------------------------------- nothing else is read

  datatype Written = Days(d: Day, tee: bool) | Clocks(c: Clock, z: Zone)
                   | Timestamps(d: Day, sep: Option<char>, c: Clock, z: Zone)

  predicate WrittenOk(w: Written) {
    match w
    case Days(d, _) => DayOk(d)
    case Clocks(c, z) => ClockOk(c) && ZoneOk(z)
    case Timestamps(d, sep, c, z) =>
      DayOk(d) && ClockOk(c) && ZoneOk(z) && (sep == None || sep == Some('T') || sep == Some(' '))
  }

  function WrittenText(w: Written): string
    requires WrittenOk(w)
  {
    match w
    case Days(d, tee) => DayText(d) + if tee then "T" else ""
    case Clocks(c, z) => ClockText(c, ZoneText(z))
    case Timestamps(d, sep, c, z) => TimestampText(d, sep, c, z)
  }

  lemma ValueTwo(a: char, b: char)
    requires IsDigit(a) && IsDigit(b)
    ensures AllDigits([a, b]) && Value([a, b]) == DigitValue(a) * 10 + DigitValue(b)
  {
    ValueSnoc([], a);
    ValueSnoc([a], b);
    assert [] + [a] == [a] && [a] + [b] == [a, b];
  }

  lemma FieldIsTwo(s: string, i: nat)
    requires Field(s, i, 2).Some?
    ensures Field(s, i, 2).value < 100 && At(s, i, Two(Field(s, i, 2).value))
  {
    var t := s[i..i + 2];
    assert t == [t[0], t[1]];
    ValueTwo(t[0], t[1]);
  }

  lemma FieldIsFour(s: string, i: nat)
    requires Field(s, i, 4).Some?
    ensures Field(s, i, 4).value < 10000 && At(s, i, Four(Field(s, i, 4).value))
  {
    var t := s[i..i + 4];
    assert t == [t[0], t[1], t[2], t[3]];
    ValueFour(t[0], t[1], t[2], t[3]);
    hide Value;
    FiguresAre(DigitValue(t[0]), DigitValue(t[1]), DigitValue(t[2]), DigitValue(t[3]));
  }

  lemma FigureAt(n: nat, a: nat, b: nat, unit: nat)
    requires unit == 1 || unit == 10 || unit == 100 || unit == 1000
    requires b < unit && n == a * unit + b
    ensures n / unit == a
  {
  }

  lemma FiguresAre(a: nat, b: nat, c: nat, d: nat)
    requires a < 10 && b < 10 && c < 10 && d < 10
    ensures var n := a * 1000 + b * 100 + c * 10 + d;
            n < 10000 && n / 1000 == a && n / 100 % 10 == b && n / 10 % 10 == c && n % 10 == d
  {
    var n := a * 1000 + b * 100 + c * 10 + d;
    FigureAt(n, a, b * 100 + c * 10 + d, 1000);
    FigureAt(n, a * 10 + b, c * 10 + d, 100);
    FigureAt(n, a * 100 + b * 10 + c, d, 10);
  }

  lemma Join(s: string, i: nat, a: string, b: string)
    requires At(s, i, a) && At(s, i + |a|, b)
    ensures At(s, i, a + b)
  {
    assert s[i..i + |a| + |b|] == s[i..i + |a|] + s[i + |a|..i + |a| + |b|];
  }

  lemma MarkAt(s: string, i: nat, c: char)
    requires i < |s| && s[i] == c
    ensures At(s, i, [c])
  {
  }

  lemma SecondIs(s: string, i: nat) returns (sec: Option<nat>)
    requires i <= |s| && SecondPart(s, i).Some?
    ensures sec.Some? ==> sec.value < 100
    ensures var t := if sec.Some? then ":" + Two(sec.value) else "";
            At(s, i, t) && SecondPart(s, i).value == (if sec.Some? then sec.value else 0, i + |t|)
  {
    if CharAt(s, i, ':') {
      FieldIsTwo(s, i + 1);
      MarkAt(s, i, ':');
      sec := Some(Field(s, i + 1, 2).value);
      hide Field, Two;
      Join(s, i, ":", Two(sec.value));
    } else {
      sec := None;
    }
  }

  lemma FractionIs(s: string, i: nat) returns (f: Option<string>)
    requires i <= |s|
    ensures f.Some? ==> forall k :: 0 <= k < |f.value| ==> '0' <= f.value[k] <= '9'
    ensures var t := if f.Some? then "." + f.value else "";
            At(s, i, t) && FractionPart(s, i).1 == i + |t|
  {
    if CharAt(s, i, '.') {
      var k := DigitRun(s, i + 1);
      f := Some(s[i + 1..k]);
      assert s[i..k] == "." + f.value;
    } else {
      f := None;
    }
  }

  lemma ClockFields(s: string, i: nat, p: Parts)
    requires ClockPart(s, i, p).Some?
    ensures Field(s, i, 2).Some? && Field(s, i + 3, 2).Some? && i + 5 <= |s| && s[i + 2] == ':'
    ensures Field(s, i, 2).value <= 23 && Field(s, i + 3, 2).value <= 59
    ensures SecondPart(s, i + 5).Some? && SecondPart(s, i + 5).value.0 <= 60
    ensures ClockPart(s, i, p).value.1 == FractionPart(s, SecondPart(s, i + 5).value.1).1
  {
    FieldWithin(s, i + 3, 2);
    hide Field, SecondPart, FractionPart;
  }

  lemma ClockJoins(s: string, i: nat, c: Clock)
    requires ClockOk(c) && At(s, i, Two(c.hour)) && At(s, i + 2, ":") && At(s, i + 3, Two(c.minute))
    requires At(s, i + 5, SecondText(c)) && At(s, i + 5 + |SecondText(c)|, FractionText(c))
    ensures At(s, i, ClockText(c, "")) && |ClockText(c, "")| == 5 + |SecondText(c)| + |FractionText(c)|
  {
    hide At, Two, SecondText, FractionText;
    var u := FractionText(c);
    assert u + "" == u;
    Join(s, i + 5, SecondText(c), u);
    Join(s, i + 3, Two(c.minute), SecondText(c) + u);
    Join(s, i + 2, ":", Two(c.minute) + (SecondText(c) + u));
    Join(s, i, Two(c.hour), ":" + (Two(c.minute) + (SecondText(c) + u)));
  }

  lemma ClockIs(s: string, i: nat, p: Parts) returns (c: Clock)
    requires ClockPart(s, i, p).Some?
    ensures ClockOk(c) && At(s, i, ClockText(c, "")) && ClockPart(s, i, p).value.1 == i + |ClockText(c, "")|
  {
    ClockFields(s, i, p);
    hide ClockPart, Field, SecondPart, FractionPart, At, Two, ClockText;
    FieldIsTwo(s, i);
    FieldIsTwo(s, i + 3);
    MarkAt(s, i + 2, ':');
    var sec := SecondIs(s, i + 5);
    AtWithin(s, i + 5, if sec.Some? then ":" + Two(sec.value) else "");
    var f := FractionIs(s, SecondPart(s, i + 5).value.1);
    c := Clock(Field(s, i, 2).value, Field(s, i + 3, 2).value, sec, f);
    ClockJoins(s, i, c);
  }

  lemma FieldWithin(s: string, i: nat, n: nat)
    ensures Field(s, i, n).Some? ==> i + n <= |s|
  {
  }

  lemma AtWithin(s: string, i: nat, t: string)
    requires At(s, i, t)
    ensures i + |t| <= |s|
  {
  }

  lemma ZoneIs(s: string, i: nat) returns (z: Zone)
    requires i <= |s| && ZonePart(s, i).Some? && ZonePart(s, i).value.1 == |s|
    ensures ZoneOk(z) && At(s, i, ZoneText(z)) && i + |ZoneText(z)| == |s|
  {
    if CharAt(s, i, 'Z') || CharAt(s, i, 'z') {
      z := Zulu(s[i] == 'Z');
    } else if CharAt(s, i, '+') || CharAt(s, i, '-') {
      z := OffsetIs(s, i);
    } else {
      z := NoZone;
    }
  }

  /** The fields of an offset, as it is read. */
  lemma OffsetFields(s: string, i: nat)
    requires i < |s| && (s[i] == '+' || s[i] == '-') && ZonePart(s, i).Some? && ZonePart(s, i).value.1 == |s|
    ensures Field(s, i + 1, 2).Some? && i + 3 <= |s|
    ensures var j := if CharAt(s, i + 3, ':') then i + 4 else i + 3;
            j == |s| || (Field(s, j, 2).Some? && j + 2 == |s|)
  {
  }

  lemma HoursAre(s: string, i: nat, plus: bool, h: nat, colon: bool)
    requires h < 100 && At(s, i, [Sign(plus)]) && At(s, i + 1, Two(h)) && i + (if colon then 4 else 3) == |s|
    requires colon ==> At(s, i + 3, ":")
    ensures At(s, i, ZoneText(HourOffset(plus, h, colon)))
    ensures i + |ZoneText(HourOffset(plus, h, colon))| == |s|
  {
    hide At, Two;
    var mark := if colon then ":" else "";
    if !colon { assert Two(h) + mark == Two(h); } else { Join(s, i + 1, Two(h), mark); }
    Join(s, i, [Sign(plus)], Two(h) + mark);
  }

  lemma OffsetAre(s: string, i: nat, plus: bool, h: nat, colon: bool, m: nat)
    requires h < 100 && m < 100 && At(s, i, [Sign(plus)]) && At(s, i + 1, Two(h))
    requires var j := if colon then i + 4 else i + 3; At(s, j, Two(m)) && j + 2 == |s|
    requires colon ==> At(s, i + 3, ":")
    ensures At(s, i, ZoneText(Offset(plus, h, colon, m)))
    ensures i + |ZoneText(Offset(plus, h, colon, m))| == |s|
  {
    hide At, Two;
    var mark := if colon then ":" else "";
    if colon { Join(s, i + 3, mark, Two(m)); } else { assert mark + Two(m) == Two(m); }
    Join(s, i + 1, Two(h), mark + Two(m));
    Join(s, i, [Sign(plus)], Two(h) + (mark + Two(m)));
  }

  lemma OffsetIs(s: string, i: nat) returns (z: Zone)
    requires i < |s| && (s[i] == '+' || s[i] == '-') && ZonePart(s, i).Some? && ZonePart(s, i).value.1 == |s|
    ensures ZoneOk(z) && At(s, i, ZoneText(z)) && i + |ZoneText(z)| == |s|
  {
    OffsetFields(s, i);
    hide ZonePart, Field, At, Two, ZoneText;
    var plus := s[i] == '+';
    var colon := CharAt(s, i + 3, ':');
    var j := if colon then i + 4 else i + 3;
    MarkAt(s, i, Sign(plus));
    FieldIsTwo(s, i + 1);
    var h := Field(s, i + 1, 2).value;
    if colon { MarkAt(s, i + 3, ':'); }
    if j < |s| {
      FieldIsTwo(s, j);
      z := Offset(plus, h, colon, Field(s, j, 2).value);
      OffsetAre(s, i, plus, h, colon, Field(s, j, 2).value);
    } else {
      z := HourOffset(plus, h, colon);
      HoursAre(s, i, plus, h, colon);
    }
  }

  lemma DayIs(s: string) returns (d: Day)
    requires |s| >= 10 && s[4] == '-' && s[7] == '-' && DatePart(s).Some?
    ensures DayOk(d) && At(s, 0, DayText(d))
  {
    FieldIsFour(s, 0);
    FieldIsTwo(s, 5);
    FieldIsTwo(s, 8);
    MarkAt(s, 4, '-');
    MarkAt(s, 7, '-');
    d := Day(Field(s, 0, 4).value, Field(s, 5, 2).value, Field(s, 8, 2).value);
    hide At, Field, Two, Four;
    Join(s, 7, "-", Two(d.day));
    Join(s, 5, Two(d.month), "-" + Two(d.day));
    Join(s, 4, "-", Two(d.month) + ("-" + Two(d.day)));
    Join(s, 0, Four(d.year), "-" + (Two(d.month) + ("-" + Two(d.day))));
  }

  lemma ClockAppend(c: Clock, rest: string)
    requires ClockOk(c)
    ensures ClockText(c, "") + rest == ClockText(c, rest)
  {
  }

  /** A time of day to the end of the text. */
  lemma ClockToEnd(s: string, i: nat, p: Parts) returns (c: Clock, z: Zone)
    requires ClockPart(s, i, p).Some?
    requires ZonePart(s, ClockPart(s, i, p).value.1).Some? && ZonePart(s, ClockPart(s, i, p).value.1).value.1 == |s|
    ensures ClockOk(c) && ZoneOk(z) && At(s, i, ClockText(c, ZoneText(z))) && i + |ClockText(c, ZoneText(z))| == |s|
  {
    hide ClockPart, ZonePart, ClockText, ZoneText, At;
    c := ClockIs(s, i, p);
    AtWithin(s, i, ClockText(c, ""));
    z := ZoneIs(s, i + |ClockText(c, "")|);
    Join(s, i, ClockText(c, ""), ZoneText(z));
    ClockAppend(c, ZoneText(z));
  }

  lemma WholeText(s: string, t: string)
    requires At(s, 0, t) && |t| == |s|
    ensures s == t
  {
  }

  lemma LocalIs(s: string) returns (w: Written)
    requires Trim(s) == s && Local(s).Some?
    ensures WrittenOk(w) && s == WrittenText(w)
  {
    hide Trim, ClockPart, ZonePart, ClockText, ZoneText, DayText, At;
    var (p, i) := DatePart(s).value;
    if !p.hasDate {
      NoDateAtZero(s);
      var c, z := ClockToEnd(s, 0, p);
      w := Clocks(c, z);
      WholeText(s, ClockText(c, ZoneText(z)));
    } else {
      DateLooks(s);
      var d := DayIs(s);
      DayStarts(d);
      if i == |s| {
        w := Days(d, |s| == 11);
        if |s| == 11 {
          TeeEnds(s, i);
          MarkAt(s, 10, 'T');
          Join(s, 0, DayText(d), "T");
        } else {
          assert DayText(d) + "" == DayText(d);
        }
        WholeText(s, WrittenText(w));
      } else {
        var c, z := ClockToEnd(s, i, p);
        var sep := if i == 11 then Some(s[10]) else None;
        w := Timestamps(d, sep, c, z);
        var gap := if sep.Some? then [sep.value] else "";
        SepIs(s, i);
        if i == 11 {
          MarkAt(s, 10, s[10]);
        } else {
          assert gap + ClockText(c, ZoneText(z)) == ClockText(c, ZoneText(z));
        }
        if i == 11 { Join(s, 10, gap, ClockText(c, ZoneText(z))); }
        Join(s, 0, DayText(d), gap + ClockText(c, ZoneText(z)));
        WholeText(s, WrittenText(w));
      }
    }
  }

  lemma NoDateAtZero(s: string)
    requires DatePart(s).Some? && !DatePart(s).value.0.hasDate
    ensures DatePart(s).value == (EMPTY, 0)
  {
  }

  lemma DateLooks(s: string)
    requires DatePart(s).Some? && DatePart(s).value.0.hasDate
    ensures |s| >= 10 && s[4] == '-' && s[7] == '-' && (DatePart(s).value.1 == 10 || DatePart(s).value.1 == 11)
  {
    hide Field;
  }

  lemma SepIs(s: string, i: nat)
    requires DatePart(s).Some? && DatePart(s).value.0.hasDate && i == DatePart(s).value.1 && i <= |s|
    ensures i == 11 ==> s[10] == 'T' || s[10] == ' '
  {
    hide Field;
  }

  lemma TeeEnds(s: string, i: nat)
    requires Trim(s) == s && DatePart(s).Some? && DatePart(s).value.0.hasDate && i == DatePart(s).value.1 == |s| == 11
    ensures s[10] == 'T'
  {
    TrimTrims(s);
    hide Field, Trim;
  }

  /** The texts that are read are exactly these, blanks around them aside. */
  lemma ReadExactly(s: string)
    ensures Parse(s).Some? <==> exists w :: WrittenOk(w) && Trim(s) == WrittenText(w)
  {
    hide Local, WrittenText, ToUtc;
    var t := Trim(s);
    TrimTrims(s);
    TrimTrims(t);
    LocalTrims(s);
    if Parse(s).Some? {
      var w := LocalIs(t);
    } else if w :| WrittenOk(w) && t == WrittenText(w) {
      WrittenReads(w);
    }
  }

  lemma LocalTrims(s: string)
    requires Trim(Trim(s)) == Trim(s)
    ensures Local(Trim(s)) == Local(s)
  {
    hide DatePart, ClockPart, ZonePart, Trim;
  }

  lemma WrittenReads(w: Written)
    requires WrittenOk(w)
    ensures Local(WrittenText(w)).Some?
  {
    hide Local, TimestampText, DayText, ClockText, ToUtc;
    match w
    case Days(d, tee) => DayAloneReads(d, tee);
    case Clocks(c, z) => ClockAloneReads(c, z);
    case Timestamps(d, sep, c, z) => TimestampLocal(d, sep, c, z);
  }
}
