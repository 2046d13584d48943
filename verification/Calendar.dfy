/** Proleptic Gregorian day arithmetic (src/util.cpp). */
module Calendar {
  import opened Arithmetic

  datatype Date = Date(year: int, month: int, day: int)

  // ---- The calendar itself, stated without any day count.

  predicate IsLeap(y: int) {
    y % 4 == 0 && (y % 100 != 0 || y % 400 == 0)
  }

  function MonthLength(y: int, m: int): int {
    if m == 2 then (if IsLeap(y) then 29 else 28)
    else if m == 4 || m == 6 || m == 9 || m == 11 then 30
    else 31
  }

  predicate ValidDate(d: Date) {
    1 <= d.month <= 12 && 1 <= d.day <= MonthLength(d.year, d.month)
  }

  function Tomorrow(d: Date): Date {
    if d.day < MonthLength(d.year, d.month) then d.(day := d.day + 1)
    else if d.month < 12 then Date(d.year, d.month + 1, 1)
    else Date(d.year + 1, 1, 1)
  }

  // ---- The driver's closed forms. Every dividend is non-negative where the driver divides,
  //      so `/` and `%` agree with C++; the two era computations are written as the driver
  //      writes them, with C++ truncation spelled out.

  function Era(n: int, size: int): int
    requires size > 0
  {
    if n >= 0 then n / size else -((size - 1 - n) / size)
  }

  function MonthIndex(m: int): int {
    if m > 2 then m - 3 else m + 9
  }

  function DayOfYear(m: int, d: int): int {
    (153 * MonthIndex(m) + 2) / 5 + d - 1
  }

  function DaysFromCivil(d: Date): int {
    var y := if d.month <= 2 then d.year - 1 else d.year;
    var era := Era(y, 400);
    var yoe := y - era * 400;
    var doe := yoe * 365 + yoe / 4 - yoe / 100 + DayOfYear(d.month, d.day);
    era * 146097 + doe - 719468
  }

  function YearOfEra(doe: int): int {
    (doe - doe / 1460 + doe / 36524 - doe / 146096) / 365
  }

  function CivilFromDays(days: int): Date {
    var z := days + 719468;
    var era := Era(z, 146097);
    var doe := z - era * 146097;
    var yoe := YearOfEra(doe);
    var doy := doe - (365 * yoe + yoe / 4 - yoe / 100);
    var mp := (5 * doy + 2) / 153;
    var m := if mp < 10 then mp + 3 else mp - 9;
    Date(yoe + era * 400 + (if m <= 2 then 1 else 0), m, doy - (153 * mp + 2) / 5 + 1)
  }

  // C++ `/` truncates toward zero; with the shift by `size - 1` it is a floor division.
  lemma EraIsFloor(n: int, size: int)
    requires size == 400 || size == 146097
    ensures Era(n, size) == n / size
    ensures 0 <= n - Era(n, size) * size < size
  {
  }

  /** First day of year `yoe` of a 400-year era that starts on 1 March. */
  function YearStart(yoe: int): int {
    365 * yoe + yoe / 4 - yoe / 100
  }

  /** Number of days of the March-based year `yoe`; the leap day, when there is one, is its last. */
  function YearLength(yoe: int): int {
    if IsLeap(yoe + 1) then 366 else 365
  }

  // ---- A 400-year era is centuries, four-year cycles, years and days: day `doe` is
  //      36524c + 1461k + 365j + r, and both closed forms are read off that expansion.

  predicate Expansion(c: int, k: int, j: int, r: int) {
    0 <= c <= 3 && 0 <= k <= 24 && 0 <= j <= 3 && 0 <= r &&
    r <= if j == 3 && (k < 24 || c == 3) then 365 else 364
  }

  lemma ExpansionYear(c: int, k: int, j: int, r: int)
    requires Expansion(c, k, j, r)
    ensures var yoe := 100 * c + 4 * k + j;
            YearStart(yoe) == 36524 * c + 1461 * k + 365 * j && r < YearLength(yoe)
  {
    var yoe := 100 * c + 4 * k + j;
    DivIs(yoe, 4, 25 * c + k);
    DivIs(yoe, 100, c);
  }

  lemma ExpansionInverts(c: int, k: int, j: int, r: int)
    requires Expansion(c, k, j, r)
    ensures YearOfEra(36524 * c + 1461 * k + 365 * j + r) == 100 * c + 4 * k + j
  {
    var doe := 36524 * c + 1461 * k + 365 * j + r;
    var e := if 24 * c + k + 365 * j + r >= 1460 then 1 else 0;
    DivIs(doe, 1460, 25 * c + k + e);
    if doe == 146096 {
    } else {
      DivIs(doe, 36524, c);
      DivIs(doe, 146096, 0);
    }
    DivIs(365 * (100 * c + 4 * k + j) + r - e, 365, 100 * c + 4 * k + j);
  }

  lemma YearStartStep(yoe: int)
    requires 0 <= yoe <= 398
    ensures YearStart(yoe + 1) == YearStart(yoe) + YearLength(yoe)
  {
    var c, k, j := yoe / 100, yoe % 100 / 4, yoe % 4;
    assert yoe == 100 * c + 4 * k + j;
    ExpansionYear(c, k, j, 0);
    if j < 3 {
      ExpansionYear(c, k, j + 1, 0);
    } else if k < 24 {
      ExpansionYear(c, k + 1, 0, 0);
    } else {
      ExpansionYear(c + 1, 0, 0, 0);
    }
  }

  lemma YearOfEraInverts(yoe: int, doy: int)
    requires 0 <= yoe <= 399
    requires 0 <= doy < YearLength(yoe)
    ensures YearOfEra(YearStart(yoe) + doy) == yoe
    ensures 0 <= YearStart(yoe) + doy <= 146096
  {
    var c, k, j := yoe / 100, yoe % 100 / 4, yoe % 4;
    assert yoe == 100 * c + 4 * k + j;
    ExpansionYear(c, k, j, 0);
    ExpansionInverts(c, k, j, doy);
  }

  lemma DayOfEraSplits(doe: int)
    requires 0 <= doe <= 146096
    ensures var yoe := YearOfEra(doe);
            0 <= yoe <= 399 && 0 <= doe - YearStart(yoe) < YearLength(yoe)
  {
    var c := if doe == 146096 then 3 else doe / 36524;
    var rest := doe - 36524 * c;
    var k := rest / 1461;
    var rest' := rest - 1461 * k;
    var j := if rest' == 1460 then 3 else rest' / 365;
    var r := rest' - 365 * j;
    ExpansionYear(c, k, j, r);
    ExpansionInverts(c, k, j, r);
  }

  // ---- Within a March-based year, day `doy` is month `mp` (March is 0) and day `d` of it.

  function MonthStart(mp: int): int {
    (153 * mp + 2) / 5
  }

  lemma MonthOfDay(mp: int, d: int)
    requires 0 <= mp <= 11 && 1 <= d <= MonthStart(mp + 1) - MonthStart(mp)
    ensures (5 * (MonthStart(mp) + d - 1) + 2) / 153 == mp
  {
    DivIs(5 * (MonthStart(mp) + d - 1) + 2, 153, mp);
  }

  lemma DayHasMonth(doy: int)
    requires 0 <= doy <= 365
    ensures var mp := (5 * doy + 2) / 153;
            0 <= mp <= 11 && MonthStart(mp) <= doy < MonthStart(mp + 1)
  {
  }

  function CivilMonth(mp: int): int {
    if mp < 10 then mp + 3 else mp - 9
  }

  /** The civil date of day `d` of month `mp` of year `yoe` of era `era`. */
  function Assemble(era: int, yoe: int, mp: int, d: int): Date {
    var m := CivilMonth(mp);
    Date(yoe + era * 400 + (if m <= 2 then 1 else 0), m, d)
  }

  function DayNumber(era: int, yoe: int, mp: int, d: int): int {
    era * 146097 + YearStart(yoe) + MonthStart(mp) + d - 1 - 719468
  }

  predicate Parts(yoe: int, mp: int, d: int) {
    0 <= yoe <= 399 && 0 <= mp <= 11 && 1 <= d <= MonthStart(mp + 1) - MonthStart(mp) &&
    MonthStart(mp) + d - 1 < YearLength(yoe)
  }

  lemma LeapShift(era: int, y: int)
    ensures IsLeap(y + era * 400) == IsLeap(y)
  {
    ModShift(y, 4, 100 * era);
    ModShift(y, 100, 4 * era);
    ModShift(y, 400, era);
  }

  lemma MarchMonthLength(era: int, yoe: int, mp: int)
    requires 0 <= yoe <= 399 && 0 <= mp <= 11
    ensures var a := Assemble(era, yoe, mp, 1);
            MonthLength(a.year, a.month) ==
            (if mp == 11 then YearLength(yoe) else MonthStart(mp + 1)) - MonthStart(mp)
  {
    LeapShift(era, yoe + 1);
  }

  lemma AssembleValid(era: int, yoe: int, mp: int, d: int)
    requires Parts(yoe, mp, d)
    ensures ValidDate(Assemble(era, yoe, mp, d))
  {
    LeapShift(era, yoe + 1);
  }

  lemma AssembleDays(era: int, yoe: int, mp: int, d: int)
    requires Parts(yoe, mp, d)
    ensures DaysFromCivil(Assemble(era, yoe, mp, d)) == DayNumber(era, yoe, mp, d)
  {
    EraIsFloor(yoe + era * 400, 400);
    DivIs(yoe + era * 400, 400, era);
  }

  lemma AssembleCivil(era: int, yoe: int, mp: int, d: int)
    requires Parts(yoe, mp, d)
    ensures CivilFromDays(DayNumber(era, yoe, mp, d)) == Assemble(era, yoe, mp, d)
  {
    var doy := MonthStart(mp) + d - 1;
    YearOfEraInverts(yoe, doy);
    MonthOfDay(mp, d);
    var z := era * 146097 + (YearStart(yoe) + doy);
    EraIsFloor(z, 146097);
    DivIs(z, 146097, era);
  }

  lemma Disassemble(d: Date) returns (era: int, yoe: int, mp: int)
    requires ValidDate(d)
    ensures Parts(yoe, mp, d.day) && Assemble(era, yoe, mp, d.day) == d
  {
    var y := if d.month <= 2 then d.year - 1 else d.year;
    era, mp := y / 400, MonthIndex(d.month);
    yoe := y - era * 400;
    LeapShift(era, yoe + 1);
  }

  lemma SplitDays(z: int) returns (era: int, yoe: int, mp: int, d: int)
    ensures Parts(yoe, mp, d) && DayNumber(era, yoe, mp, d) == z
  {
    era := (z + 719468) / 146097;
    var doe := z + 719468 - era * 146097;
    DayOfEraSplits(doe);
    yoe := YearOfEra(doe);
    var doy := doe - YearStart(yoe);
    DayHasMonth(doy);
    mp := (5 * doy + 2) / 153;
    d := doy - MonthStart(mp) + 1;
  }

  lemma {:induction false} CivilInvertsDays(z: int)
    ensures ValidDate(CivilFromDays(z))
    ensures DaysFromCivil(CivilFromDays(z)) == z
  {
    var era, yoe, mp, d := SplitDays(z);
    AssembleCivil(era, yoe, mp, d);
    AssembleDays(era, yoe, mp, d);
    AssembleValid(era, yoe, mp, d);
  }

  lemma {:induction false} DaysInvertCivil(d: Date)
    requires ValidDate(d)
    ensures CivilFromDays(DaysFromCivil(d)) == d
  {
    var era, yoe, mp := Disassemble(d);
    AssembleDays(era, yoe, mp, d.day);
    AssembleCivil(era, yoe, mp, d.day);
  }

  lemma YearTurn(era: int, yoe: int) returns (era': int, yoe': int)
    requires 0 <= yoe <= 399
    ensures 0 <= yoe' <= 399
    ensures era' * 400 + yoe' == era * 400 + yoe + 1
    ensures era' * 146097 + YearStart(yoe') == era * 146097 + YearStart(yoe) + YearLength(yoe)
  {
    if yoe < 399 {
      YearStartStep(yoe);
      era', yoe' := era, yoe + 1;
    } else {
      era', yoe' := era + 1, 0;
    }
  }

  lemma TomorrowParts(era: int, yoe: int, mp: int, d: int) returns (era': int, yoe': int, mp': int, d': int)
    requires Parts(yoe, mp, d)
    ensures Parts(yoe', mp', d')
    ensures Assemble(era', yoe', mp', d') == Tomorrow(Assemble(era, yoe, mp, d))
    ensures DayNumber(era', yoe', mp', d') == DayNumber(era, yoe, mp, d) + 1
  {
    MarchMonthLength(era, yoe, mp);
    era', yoe', mp', d' := era, yoe, mp, d + 1;
    var a := Assemble(era, yoe, mp, d);
    if d == MonthLength(a.year, a.month) {
      d' := 1;
      if mp < 11 {
        mp' := mp + 1;
      } else {
        era', yoe' := YearTurn(era, yoe);
        mp' := 0;
      }
    }
  }

  lemma AssembleTomorrow(era: int, yoe: int, mp: int, d: int)
    requires Parts(yoe, mp, d)
    ensures ValidDate(Tomorrow(Assemble(era, yoe, mp, d)))
    ensures DaysFromCivil(Tomorrow(Assemble(era, yoe, mp, d))) == DaysFromCivil(Assemble(era, yoe, mp, d)) + 1
  {
    AssembleDays(era, yoe, mp, d);
    var era', yoe', mp', d' := TomorrowParts(era, yoe, mp, d);
    AssembleDays(era', yoe', mp', d');
    AssembleValid(era', yoe', mp', d');
  }

  /** The day count is the calendar's: 1 January 1970 is day 0 and each next date adds one. */
  lemma DaysCountTomorrow(d: Date)
    requires ValidDate(d)
    ensures DaysFromCivil(Date(1970, 1, 1)) == 0
    ensures ValidDate(Tomorrow(d))
    ensures DaysFromCivil(Tomorrow(d)) == DaysFromCivil(d) + 1
  {
    var era, yoe, mp := Disassemble(d);
    AssembleTomorrow(era, yoe, mp, d.day);
    AssembleDays(4, 369, 10, 1);
  }
}
