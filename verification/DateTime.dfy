/** Timestamps as text: reading, UTC normalisation, printing (src/util.cpp), and the path of a
    Salesforce datetime to an application buffer (src/cursor.cpp, src/convert.cpp). */
module DateTime {
  import opened Wrappers
  import opened Text
  import opened Calendar

  datatype Parts = Parts(year: int, month: int, day: int, hour: int, minute: int, second: int, millis: int,
                         hasDate: bool, hasTime: bool)

  const EMPTY := Parts(0, 0, 0, 0, 0, 0, 0, false, false)

  // ---------------------------------------------------------------- what a text denotes

  /** The `n`-digit number at offset `i`, if there is one. */
  function Field(s: string, i: nat, n: nat): Option<nat> {
    if i + n <= |s| && AllDigits(s[i..i + n]) then Some(Value(s[i..i + n])) else None
  }

  /** The date part, and where the rest starts. A text that does not look like a date has none. */
  function DatePart(s: string): Option<(Parts, nat)> {
    if |s| >= 10 && s[4] == '-' && s[7] == '-' then
      var y :- Field(s, 0, 4);
      var m :- Field(s, 5, 2);
      var d :- Field(s, 8, 2);
      if 1 <= m <= 12 && 1 <= d <= 31
      then Some((EMPTY.(year := y, month := m, day := d, hasDate := true),
                 if CharAt(s, 10, 'T') || CharAt(s, 10, ' ') then 11 else 10))
      else None
    else Some((EMPTY, 0))
  }

  /** A fraction in milliseconds: the first three digits, zero-filled on the right. */
  function Millis(digits: string): nat
    requires AllDigits(digits)
  {
    if |digits| >= 3 then Value(digits[..3]) else Value(digits) * Pow10(3 - |digits|)
  }

  function SecondPart(s: string, i: nat): Option<(nat, nat)> {
    if CharAt(s, i, ':') then
      var sec :- Field(s, i + 1, 2);
      Some((sec, i + 3))
    else Some((0, i))
  }

  function FractionPart(s: string, i: nat): (nat, nat) {
    if CharAt(s, i, '.') then
      var j := DigitRun(s, i + 1);
      (Millis(s[i + 1..j]), j)
    else (0, i)
  }

  function ClockPart(s: string, i: nat, p: Parts): Option<(Parts, nat)> {
    var h :- Field(s, i, 2);
    if !CharAt(s, i + 2, ':') then None
    else
      var mi :- Field(s, i + 3, 2);
      var (sec, j) :- SecondPart(s, i + 5);
      var (ms, k) := FractionPart(s, j);
      if h > 23 || mi > 59 || sec > 60 then None
      else Some((p.(hour := h, minute := mi, second := sec, millis := ms, hasTime := true), k))
  }

  /** The UTC offset in minutes. */
  function ZonePart(s: string, i: nat): Option<(int, nat)> {
    if CharAt(s, i, 'Z') || CharAt(s, i, 'z') then Some((0, i + 1))
    else if CharAt(s, i, '+') || CharAt(s, i, '-') then
      var sign := if s[i] == '-' then -1 else 1;
      var oh :- Field(s, i + 1, 2);
      var j := if CharAt(s, i + 3, ':') then i + 4 else i + 3;
      if j < |s| then
        var om :- Field(s, j, 2);
        Some((sign * (oh * 60 + om), j + 2))
      else Some((sign * (oh * 60), j))
    else Some((0, i))
  }

  /** The parts as written and the offset written after them. */
  function Local(text: string): Option<(Parts, int)> {
    var s := Trim(text);
    var (p, i) :- DatePart(s);
    if i < |s| then
      var (q, j) :- ClockPart(s, i, p);
      var (offset, k) :- ZonePart(s, j);
      if k == |s| then Some((q, offset)) else None
    else if p.hasDate then Some((p, 0))
    else None
  }

  function DayCount(p: Parts): int {
    DaysFromCivil(Date(p.year, p.month, p.day))
  }

  /** Minutes since 1 January 1970 of the date and the time of day. */
  function Minutes(p: Parts): int {
    DayCount(p) * 1440 + p.hour * 60 + p.minute
  }

  function ToUtc(p: Parts, offset: int): Parts {
    if offset != 0 && p.hasDate then
      var total := Minutes(p) - offset;
      var days := Era(total, 1440);
      var mins := total - days * 1440;
      var d := CivilFromDays(days);
      p.(year := d.year, month := d.month, day := d.day, hour := mins / 60, minute := mins % 60)
    else p
  }

  function Parse(text: string): Option<Parts> {
    var (p, offset) :- Local(text);
    Some(ToUtc(p, offset))
  }

  // ---------------------------------------------------------------- the reader

  lemma NextDigit(s: string, i: nat, j: nat)
    requires i <= j < |s| && AllDigits(s[i..j]) && IsDigit(s[j])
    ensures AllDigits(s[i..j + 1]) && Value(s[i..j + 1]) == Value(s[i..j]) * 10 + DigitValue(s[j])
  {
    assert s[i..j + 1] == s[i..j] + [s[j]];
    ValueSnoc(s[i..j], s[j]);
  }

  method ReadInt(s: string, i: nat, digits: nat) returns (ok: bool, next: nat, out: nat)
    ensures ok <==> Field(s, i, digits).Some?
    ensures ok ==> out == Field(s, i, digits).value && next == i + digits
  {
    ok, next, out := false, i, 0;
    if i + digits > |s| { return; }
    var v, k := 0, 0;
    while k < digits
      invariant 0 <= k <= digits
      invariant AllDigits(s[i..i + k]) && v == Value(s[i..i + k])
    {
      var c := s[i + k];
      if c < '0' || c > '9' {
        assert !IsDigit(s[i..i + digits][k]);
        return;
      }
      NextDigit(s, i, i + k);
      v := v * 10 + DigitValue(c);
      k := k + 1;
    }
    ok, next, out := true, i + digits, v;
  }

  /** The first three (or fewer) digits of `s[start..i]`. */
  function Leading(s: string, start: nat, i: nat): string
    requires start <= i <= |s|
  {
    if i - start < 3 then s[start..i] else s[start..start + 3]
  }

  lemma LeadingStep(s: string, start: nat, i: nat)
    requires start <= i < |s| && AllDigits(s[start..i]) && IsDigit(s[i])
    ensures AllDigits(s[start..i + 1]) && AllDigits(Leading(s, start, i)) && AllDigits(Leading(s, start, i + 1))
    ensures Value(Leading(s, start, i + 1)) ==
            if i - start < 3 then Value(Leading(s, start, i)) * 10 + DigitValue(s[i]) else Value(Leading(s, start, i))
  {
    NextDigit(s, start, i);
    if i - start >= 3 {
      assert s[start..start + 3] == s[start..i][..3];
    }
  }

  lemma MillisOfLeading(s: string, start: nat, i: nat)
    requires start <= i <= |s| && AllDigits(s[start..i])
    ensures AllDigits(Leading(s, start, i))
    ensures Millis(s[start..i]) == Value(Leading(s, start, i)) * Pow10(3 - |Leading(s, start, i)|)
  {
    assert i - start >= 3 ==> s[start..i][..3] == s[start..start + 3];
    assert Pow10(0) == 1;
  }

  method ReadFraction(s: string, start: nat) returns (ms: nat, next: nat)
    requires start <= |s|
    ensures next == DigitRun(s, start) && ms == Millis(s[start..next])
  {
    assert Leading(s, start, start) == "" && Value("") == 0;
    hide Value, Millis;
    var i, digits := start, 0;
    ms := 0;
    while i < |s| && IsDigit(s[i])
      invariant start <= i <= |s| && DigitRun(s, start) == DigitRun(s, i)
      invariant AllDigits(s[start..i]) && AllDigits(Leading(s, start, i))
      invariant digits == |Leading(s, start, i)| && ms == Value(Leading(s, start, i))
    {
      LeadingStep(s, start, i);
      if digits < 3 {
        ms := ms * 10 + DigitValue(s[i]);
        digits := digits + 1;
      }
      i := i + 1;
    }
    next := i;
    MillisOfLeading(s, start, i);
    ms := ScaleToMillis(ms, digits);
  }

  method ScaleToMillis(value: nat, count: nat) returns (ms: nat)
    requires count <= 3
    ensures ms == value * Pow10(3 - count)
  {
    var digits := count;
    ms := value;
    while digits < 3
      invariant count <= digits <= 3 && ms == value * Pow10(digits - count)
    {
      assert value * Pow10(digits + 1 - count) == value * Pow10(digits - count) * 10;
      ms, digits := ms * 10, digits + 1;
    }
  }

  method ReadClock(s: string, start: nat, from: Parts) returns (ok: bool, p: Parts, i: nat)
    ensures ok <==> ClockPart(s, start, from).Some?
    ensures ok ==> (p, i) == ClockPart(s, start, from).value
  {
    p, i := from, start;
    var v;
    ok, i, v := ReadInt(s, i, 2);
    if !ok { return; }
    p := p.(hour := v);
    if i >= |s| || s[i] != ':' { ok := false; return; }
    ok, i, v := ReadInt(s, i + 1, 2);
    if !ok { return; }
    p := p.(minute := v, second := 0, millis := 0);
    if i < |s| && s[i] == ':' {
      ok, i, v := ReadInt(s, i + 1, 2);
      if !ok { return; }
      p := p.(second := v);
    }
    if i < |s| && s[i] == '.' {
      v, i := ReadFraction(s, i + 1);
      p := p.(millis := v);
    }
    ok := !(p.hour > 23 || p.minute > 59 || p.second > 60);
    p := p.(hasTime := true);
  }

  method ReadZone(s: string, start: nat) returns (ok: bool, offset: int, i: nat)
    ensures ok <==> ZonePart(s, start).Some?
    ensures ok ==> (offset, i) == ZonePart(s, start).value
  {
    ok, offset, i := true, 0, start;
    if i < |s| && (s[i] == 'Z' || s[i] == 'z') {
      i := i + 1;
    } else if i < |s| && (s[i] == '+' || s[i] == '-') {
      var sign: int := if s[i] == '-' then -1 else 1;
      var oh, om := 0, 0;
      ok, i, oh := ReadInt(s, i + 1, 2);
      if !ok { return; }
      if i < |s| && s[i] == ':' { i := i + 1; }
      if i < |s| {
        ok, i, om := ReadInt(s, i, 2);
        if !ok { return; }
      }
      offset := sign * (oh * 60 + om);
    }
  }

  method ParseDateTime(text: string) returns (ok: bool, p: Parts)
    ensures ok <==> Parse(text).Some?
    ensures ok ==> p == Parse(text).value
  {
    var s := Trim(text);
    p, ok := EMPTY, false;
    var i: nat, v: nat := 0, 0;
    if |s| >= 10 && s[4] == '-' && s[7] == '-' {
      ok, i, v := ReadInt(s, 0, 4);
      if !ok { return; }
      p := p.(year := v);
      ok, i, v := ReadInt(s, i + 1, 2);
      if !ok { return; }
      p := p.(month := v);
      ok, i, v := ReadInt(s, i + 1, 2);
      if !ok { return; }
      p := p.(day := v);
      if p.month < 1 || p.month > 12 || p.day < 1 || p.day > 31 { ok := false; return; }
      p := p.(hasDate := true);
      if i < |s| && (s[i] == 'T' || s[i] == ' ') { i := i + 1; }
    }
    assert DatePart(s) == Some((p, i));
    if i < |s| {
      ok, p, i := ReadClock(s, i, p);
      if !ok { return; }
      var offset;
      ok, offset, i := ReadZone(s, i);
      if !ok { return; }
      if i != |s| { ok := false; return; }
      p := ToUtc(p, offset);
    }
    ok := p.hasDate || p.hasTime;
  }

  // ---------------------------------------------------------------- printing

  /** `%0<width>d`. */
  function Pad(n: int, width: nat): string
    requires width > 0
  {
    var m := if n < 0 then -n else n;
    var w := if n < 0 then width - 1 else width;
    (if n < 0 then "-" else "") + if m < Pow10(w) then Digits(m, w) else Decimal(m)
  }

  function FormatDate(p: Parts): string {
    Pad(p.year, 4) + "-" + Pad(p.month, 2) + "-" + Pad(p.day, 2)
  }

  function FormatTime(p: Parts): string {
    Pad(p.hour, 2) + ":" + Pad(p.minute, 2) + ":" + Pad(p.second, 2)
  }

  function FormatTimestamp(p: Parts): string {
    FormatDate(p) + " " + FormatTime(p) + "." + Pad(p.millis, 3)
  }

  predicate ClockInRange(p: Parts) {
    0 <= p.hour <= 23 && 0 <= p.minute <= 59 && 0 <= p.second <= 60 && 0 <= p.millis <= 999
  }

  predicate DateInRange(p: Parts) {
    1 <= p.month <= 12 && 1 <= p.day <= 31
  }

  lemma Powers()
    ensures Pow10(1) == 10 && Pow10(2) == 100 && Pow10(3) == 1000 && Pow10(4) == 10000
  {
    assert Pow10(2) == 10 * Pow10(1);
    assert Pow10(3) == 10 * Pow10(2);
  }

  lemma FieldReads(s: string, i: nat, n: nat, width: nat)
    requires n < Pow10(width) && i + width <= |s| && s[i..i + width] == Digits(n, width)
    ensures Field(s, i, width) == Some(n)
  {
    DigitsValue(n, width);
  }

  lemma NotTrimmed(s: string)
    requires Trimmed(s)
    ensures Trim(s) == s
  {
    TrimTrims(s);
  }

  predicate Layout(s: string, p: Parts)
    requires ClockInRange(p)
  {
    |s| == 23 && s[0..10] == FormatDate(p) && s[10] == ' ' && s[11..19] == FormatTime(p) && s[19] == '.' &&
    s[20..23] == Digits(p.millis, 3)
  }

  lemma Joined(a: string, b: string, c: string, sep: char)
    ensures var s := a + [sep] + b + [sep] + c;
            |s| == |a| + |b| + |c| + 2 && s[0..|a|] == a && s[|a|] == sep && s[|a| + 1..|a| + 1 + |b|] == b &&
            s[|a| + |b| + 1] == sep && s[|a| + |b| + 2..|s|] == c
  {
  }

  lemma Within(s: string, from: nat, t: string, i: nat, j: nat)
    requires from + |t| <= |s| && s[from..from + |t|] == t && i <= j <= |t|
    ensures s[from + i..from + j] == t[i..j]
  {
    forall k | i <= k < j ensures s[from + k] == t[k] {
      assert s[from..from + |t|][k] == s[from + k];
    }
  }

  lemma Char(s: string, from: nat, t: string, i: nat)
    requires from + |t| <= |s| && s[from..from + |t|] == t && i < |t|
    ensures s[from + i] == t[i]
  {
  }

  lemma TimestampLayout(p: Parts)
    requires ClockInRange(p) && 0 <= p.year <= 9999 && 0 <= p.month <= 99 && 0 <= p.day <= 99
    ensures Layout(FormatTimestamp(p), p)
  {
    hide Digits;
    Powers();
    var date, time, ms := FormatDate(p), FormatTime(p), Pad(p.millis, 3);
    assert |date| == 10 && |time| == 8 && |ms| == 3;
    hide FormatDate, FormatTime, Pad;
    var s := date + " " + time + "." + ms;
    assert s == FormatTimestamp(p);
    assert s[0..10] == date;
    assert s[11..19] == time;
  }

  lemma LayoutTrimmed(s: string, p: Parts)
    requires ClockInRange(p) && 0 <= p.year <= 9999 && Layout(s, p)
    ensures Trim(s) == s && |s| == 23
  {
    Powers();
    Char(s, 0, FormatDate(p), 0);
    Char(s, 20, Digits(p.millis, 3), 2);
    NotTrimmed(s);
  }

  lemma DateShape(p: Parts)
    requires 0 <= p.year <= 9999 && 0 <= p.month <= 99 && 0 <= p.day <= 99
    ensures var d := FormatDate(p);
            |d| == 10 && d[0..4] == Digits(p.year, 4) && d[4] == '-' && d[5..7] == Digits(p.month, 2) &&
            d[7] == '-' && d[8..10] == Digits(p.day, 2)
  {
    hide Digits;
    Powers();
    Joined(Digits(p.year, 4), Digits(p.month, 2), Digits(p.day, 2), '-');
  }

  lemma DateFields(p: Parts, s: string)
    requires ClockInRange(p) && 0 <= p.year <= 9999 && 0 <= p.month <= 99 && 0 <= p.day <= 99 && Layout(s, p)
    ensures s[0..4] == Digits(p.year, 4) && s[4] == '-' && s[5..7] == Digits(p.month, 2) && s[7] == '-'
    ensures s[8..10] == Digits(p.day, 2)
  {
    hide FormatDate, FormatTime, Digits;
    var date := FormatDate(p);
    DateShape(p);
    Within(s, 0, date, 0, 4);
    Within(s, 0, date, 5, 7);
    Within(s, 0, date, 8, 10);
    Char(s, 0, date, 4);
    Char(s, 0, date, 7);
  }

  lemma DatePrinted(p: Parts, s: string)
    requires ClockInRange(p) && 0 <= p.year <= 9999 && 0 <= p.month <= 99 && 0 <= p.day <= 99 && Layout(s, p)
    ensures DatePart(s) ==
            if DateInRange(p) then
              Some((EMPTY.(year := p.year, month := p.month, day := p.day, hasDate := true), 11))
            else None
  {
    Powers();
    hide FormatDate, FormatTime, Field, Digits;
    DateFields(p, s);
    FieldReads(s, 0, p.year, 4);
    FieldReads(s, 5, p.month, 2);
    FieldReads(s, 8, p.day, 2);
  }

  lemma TimeShape(p: Parts)
    requires ClockInRange(p)
    ensures var t := FormatTime(p);
            |t| == 8 && t[0..2] == Digits(p.hour, 2) && t[2] == ':' && t[3..5] == Digits(p.minute, 2) &&
            t[5] == ':' && t[6..8] == Digits(p.second, 2)
  {
    hide Digits;
    Powers();
    Joined(Digits(p.hour, 2), Digits(p.minute, 2), Digits(p.second, 2), ':');
  }

  lemma TimeFields(p: Parts, s: string)
    requires ClockInRange(p) && Layout(s, p)
    ensures s[11..13] == Digits(p.hour, 2) && s[13] == ':' && s[14..16] == Digits(p.minute, 2) && s[16] == ':'
    ensures s[17..19] == Digits(p.second, 2)
  {
    hide FormatDate, FormatTime, Digits;
    var time := FormatTime(p);
    TimeShape(p);
    Within(s, 11, time, 0, 2);
    Within(s, 11, time, 3, 5);
    Within(s, 11, time, 6, 8);
    Char(s, 11, time, 2);
    Char(s, 11, time, 5);
  }

  lemma ClockPrinted(p: Parts, s: string, from: Parts)
    requires ClockInRange(p) && Layout(s, p)
    ensures ClockPart(s, 11, from) ==
            Some((from.(hour := p.hour, minute := p.minute, second := p.second, millis := p.millis,
                        hasTime := true), 23))
  {
    hide FormatDate, FormatTime, Field, Digits, FractionPart;
    Powers();
    TimeFields(p, s);
    FieldReads(s, 11, p.hour, 2);
    FieldReads(s, 14, p.minute, 2);
    FieldReads(s, 17, p.second, 2);
    FractionPrinted(s, p.millis);
  }

  lemma FractionPrinted(s: string, ms: nat)
    requires ms <= 999 && |s| == 23 && s[19] == '.' && s[20..23] == Digits(ms, 3)
    ensures FractionPart(s, 19) == (ms, 23)
  {
    Powers();
    Char(s, 20, Digits(ms, 3), 0);
    Char(s, 20, Digits(ms, 3), 1);
    Char(s, 20, Digits(ms, 3), 2);
    assert DigitRun(s, 23) == DigitRun(s, 22) == DigitRun(s, 21) == DigitRun(s, 20);
    assert s[20..23][..3] == s[20..23];
    DigitsValue(ms, 3);
  }

  /** Reading a printed timestamp gives back its parts, for every year the format can hold. */
  lemma PrintedTimestampReads(p: Parts)
    requires DateInRange(p) && ClockInRange(p) && 0 <= p.year <= 9999
    ensures Parse(FormatTimestamp(p)) == Some(p.(hasDate := true, hasTime := true))
  {
    hide Layout, FormatTimestamp, Trim, DatePart, ClockPart, Minutes, CivilFromDays, Era;
    TimestampLayout(p);
    var s := FormatTimestamp(p);
    LayoutTrimmed(s, p);
    DatePrinted(p, s);
    ClockPrinted(p, s, EMPTY.(year := p.year, month := p.month, day := p.day, hasDate := true));
  }

  // ---------------------------------------------------------------- UTC normalisation

  lemma FloorMinutes(total: int)
    ensures 0 <= total - Era(total, 1440) * 1440 < 1440
  {
  }

  /** Moving to UTC keeps the instant: the new date and time are the local ones minus the offset,
      the date is a real calendar date and the time of day is back in range. */
  lemma UtcKeepsInstant(p: Parts, offset: int)
    requires p.hasDate && offset != 0
    ensures var u := ToUtc(p, offset);
            Minutes(u) == Minutes(p) - offset &&
            ValidDate(Date(u.year, u.month, u.day)) && 0 <= u.hour <= 23 && 0 <= u.minute <= 59 &&
            u == p.(year := u.year, month := u.month, day := u.day, hour := u.hour, minute := u.minute)
  {
    hide DaysFromCivil, CivilFromDays;
    var total := Minutes(p) - offset;
    FloorMinutes(total);
    CivilInvertsDays(Era(total, 1440));
  }

  /** Every text the reader accepts: what it was, in range, and the UTC instant it names. */
  lemma ParsedInstant(text: string)
    requires Parse(text).Some?
    ensures Local(text).Some?
    ensures var p, (l, offset) := Parse(text).value, Local(text).value;
            ClockInRange(p) && (p.hasDate ==> DateInRange(p)) && (p.hasDate || p.hasTime) &&
            (p.hasDate ==> Minutes(p) == Minutes(l) - offset) &&
            p.second == l.second && p.millis == l.millis && p.hasDate == l.hasDate && p.hasTime == l.hasTime
  {
    var s := Trim(text);
    var (d, i) := DatePart(s).value;
    if i < |s| {
      FractionInRange(s, SecondPart(s, i + 5).value.1);
    }
    var (l, offset) := Local(text).value;
    if l.hasDate && offset != 0 {
      UtcKeepsInstant(l, offset);
    }
  }

  lemma FractionInRange(s: string, i: nat)
    ensures FractionPart(s, i).0 <= 999
  {
    Powers();
    if CharAt(s, i, '.') {
      var d := s[i + 1..DigitRun(s, i + 1)];
      ValueBound(if |d| >= 3 then d[..3] else d);
      if |d| == 2 {
        assert Millis(d) == Value(d) * 10;
      } else if |d| == 1 {
        assert Millis(d) == Value(d) * 100;
      } else if |d| == 0 {
        assert Millis(d) == 0;
      }
    }
  }

  // ---------------------------------------------------------------- from a record to a buffer

  /** The text a cursor stores for a datetime field: normalised when it can be read. */
  function DatetimeText(json: string): string {
    match Parse(json)
    case Some(p) => FormatTimestamp(p)
    case None => json
  }

  datatype TimestampStruct = TimestampStruct(year: int, month: int, day: int, hour: int, minute: int, second: int,
                                             fraction: int)

  /** The SQL_C_TYPE_TIMESTAMP conversion; `fraction` counts nanoseconds. */
  function GetTimestamp(text: string): Result<TimestampStruct> {
    match Parse(text)
    case None => Err("22018")
    case Some(p) =>
      if !p.hasDate then Err("07006")
      else Ok(TimestampStruct(p.year, p.month, p.day, p.hour, p.minute, p.second, p.millis * 1000000))
  }

  lemma UnprintableYear(p: Parts)
    requires ClockInRange(p)
    requires p.year < 0 || p.year > 9999
    ensures Parse(FormatTimestamp(p)) == None
  {
    hide ZonePart, ToUtc, SecondPart, FractionPart;
    Powers();
    var s := FormatTimestamp(p);
    var y := Pad(p.year, 4);
    if p.year > 9999 {
      DecimalLength(p.year, 4);
      assert s[0] == y[0] && s[2] == y[2] && s[4] == y[4];
    } else {
      assert s[0] == y[0] == '-';
      assert |s| >= 4 ==> s[0..4][0] == '-';
      assert |s| >= 2 ==> s[0..2][0] == '-';
    }
    assert s[|s| - 1] == Digits(p.millis, 3)[2];
    NotTrimmed(s);
  }

  lemma NoDateUnreadable(p: Parts)
    requires ClockInRange(p) && p.year == p.month == p.day == 0
    ensures Parse(FormatTimestamp(p)) == None
  {
    hide Layout, FormatTimestamp, Trim, DatePart, ClockPart, ToUtc;
    TimestampLayout(p);
    LayoutTrimmed(FormatTimestamp(p), p);
    DatePrinted(p, FormatTimestamp(p));
  }

  /** A datetime the org sends reaches a timestamp buffer as the UTC instant it names, to the
      millisecond, exactly when it has a date and its UTC year has four digits. */
  lemma DatetimeDelivered(json: string)
    requires Parse(json).Some?
    ensures var p, (l, offset) := Parse(json).value, Local(json).value;
            var out := GetTimestamp(DatetimeText(json));
            (out.Ok? <==> p.hasDate && 0 <= p.year <= 9999) && (out.Err? ==> out == Err("22018")) &&
            (out.Ok? ==>
               out.value == TimestampStruct(p.year, p.month, p.day, p.hour, p.minute, p.second, l.millis * 1000000) &&
               Minutes(p) == Minutes(l) - offset && p.second == l.second)
  {
    hide DaysFromCivil, CivilFromDays;
    var p := Parse(json).value;
    ParsedInstant(json);
    if !p.hasDate {
      NoDateIsZero(json);
      NoDateUnreadable(p);
    } else if 0 <= p.year <= 9999 {
      PrintedTimestampReads(p);
    } else {
      UnprintableYear(p);
    }
  }

  lemma NoDateIsZero(json: string)
    requires Parse(json).Some? && !Parse(json).value.hasDate
    ensures var p := Parse(json).value; p.year == p.month == p.day == 0
  {
    hide DaysFromCivil, CivilFromDays;
  }

  const LAST_MINUTE := "9999-12-31T23:59:00-01:00"

  lemma TwoDigits(s: string, i: nat)
    requires i + 2 <= |s| && IsDigit(s[i]) && IsDigit(s[i + 1])
    ensures Field(s, i, 2) == Some(DigitValue(s[i]) * 10 + DigitValue(s[i + 1]))
  {
    var t := s[i..i + 2];
    assert t == [s[i], s[i + 1]];
    assert t[..1] == [s[i]] && t[..1][..0] == [];
    assert Value(t[..1]) == DigitValue(s[i]);
  }

  lemma LastDate(s: string)
    requires |s| == 25 && s[0] == s[1] == s[2] == s[3] == '9' && s[4] == s[7] == '-'
    requires s[5] == s[9] == '1' && s[6] == '2' && s[8] == '3' && s[10] == 'T'
    ensures DatePart(s) == Some((EMPTY.(year := 9999, month := 12, day := 31, hasDate := true), 11))
  {
    YearField(s);
    TwoDigits(s, 5);
    TwoDigits(s, 8);
    hide Field;
  }

  lemma LastClock(s: string, p: Parts)
    requires |s| == 25 && s[11] == '2' && s[12] == '3' && s[13] == s[16] == ':' && s[14] == '5' && s[15] == '9'
    requires s[17] == s[18] == '0' && s[19] == '-'
    ensures ClockPart(s, 11, p) ==
            Some((p.(hour := 23, minute := 59, second := 0, millis := 0, hasTime := true), 19))
  {
    TwoDigits(s, 11);
    TwoDigits(s, 14);
    TwoDigits(s, 17);
    hide Field;
  }

  lemma LastZone(s: string)
    requires |s| == 25 && s[19] == '-' && s[20] == s[23] == s[24] == '0' && s[21] == '1' && s[22] == ':'
    ensures ZonePart(s, 19) == Some((-60, 25))
  {
    TwoDigits(s, 20);
    TwoDigits(s, 23);
    hide Field;
  }

  lemma LastMinuteLocal()
    ensures Local(LAST_MINUTE) == Some((Parts(9999, 12, 31, 23, 59, 0, 0, true, true), -60))
  {
    hide Trim, DatePart, ClockPart, ZonePart;
    TrimTrims(LAST_MINUTE);
    LastDate(LAST_MINUTE);
    LastClock(LAST_MINUTE, EMPTY.(year := 9999, month := 12, day := 31, hasDate := true));
    LastZone(LAST_MINUTE);
  }

  lemma YearField(s: string)
    requires |s| >= 4 && s[0] == s[1] == s[2] == s[3] == '9'
    ensures Field(s, 0, 4) == Some(9999)
  {
    var t := s[0..4];
    assert t == ['9', '9', '9', '9'];
    assert t[..3] == ['9', '9', '9'] && t[..3][..2] == ['9', '9'] && t[..3][..2][..1] == ['9'];
    assert t[..3][..2][..1][..0] == [];
    assert Value(t[..3][..2][..1]) == 9 && Value(t[..3][..2]) == 99 && Value(t[..3]) == 999;
  }

  lemma DayOfMinutes(days: int, minutes: int)
    requires 0 <= minutes < 1440
    ensures Era(days * 1440 + minutes, 1440) == days
  {
  }

  lemma NewYear(l: Parts)
    requires l == Parts(9999, 12, 31, 23, 59, 0, 0, true, true)
    ensures ToUtc(l, -60) == Parts(10000, 1, 1, 0, 59, 0, 0, true, true)
  {
    hide DaysFromCivil, CivilFromDays, Era;
    var eve, day := Date(9999, 12, 31), Date(10000, 1, 1);
    DaysCountTomorrow(eve);
    assert Tomorrow(eve) == day && ValidDate(day);
    DaysInvertCivil(day);
    var days := DaysFromCivil(day);
    DayOfMinutes(days, 59);
    assert Minutes(l) + 60 == days * 1440 + 59;
  }

  lemma LocalParses(json: string, l: Parts, offset: int)
    requires Local(json) == Some((l, offset))
    ensures Parse(json) == Some(ToUtc(l, offset))
  {
    hide Local, ToUtc;
  }

  lemma NotDelivered(json: string, p: Parts)
    requires Parse(json) == Some(p) && ClockInRange(p) && (p.year < 0 || p.year > 9999)
    ensures GetTimestamp(DatetimeText(json)) == Err("22018")
  {
    UnprintableYear(p);
    hide Parse, FormatTimestamp;
  }

  /** One minute before the year 10000 an hour west of Greenwich: the org's text can be read, and
      no timestamp is delivered. */
  lemma LastMinuteLost()
    ensures Parse(LAST_MINUTE) == Some(Parts(10000, 1, 1, 0, 59, 0, 0, true, true))
    ensures GetTimestamp(DatetimeText(LAST_MINUTE)) == Err("22018")
  {
    hide Parse, Local, ToUtc, FormatTimestamp, DatetimeText, GetTimestamp;
    var l := Parts(9999, 12, 31, 23, 59, 0, 0, true, true);
    LastMinuteLocal();
    LocalParses(LAST_MINUTE, l, -60);
    NewYear(l);
    NotDelivered(LAST_MINUTE, Parts(10000, 1, 1, 0, 59, 0, 0, true, true));
  }
}
