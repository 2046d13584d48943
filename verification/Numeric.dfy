/** SQL_C_NUMERIC: decimal text to and from a 128-bit little-endian integer (src/convert.cpp). */
module Numeric {
  import opened Wrappers
  import opened Text
  import opened Arithmetic

  const MAX_LEN := 16

  const LIMIT := 0x1_0000_0000_0000_0000_0000_0000_0000_0000  // 2^128

  /** SQL_NUMERIC_STRUCT; `sign` is 1 for positive, 0 for negative. */
  datatype Struct = Struct(precision: int, scale: int, sign: int, val: seq<Byte>)

  datatype Outcome = Stored(ns: Struct, truncated: bool) | Failed(state: string)

  // ---------------------------------------------------------------- little-endian integers

  function LittleEndian(bytes: seq<Byte>): nat {
    if bytes == [] then 0 else bytes[0] + 256 * LittleEndian(bytes[1..])
  }

  function Bytes(n: nat, count: nat): (s: seq<Byte>)
    ensures |s| == count
  {
    if count == 0 then [] else [n % 256] + Bytes(n / 256, count - 1)
  }

  function Pow256(n: nat): (p: nat)
    ensures p > 0
  {
    if n == 0 then 1 else 256 * Pow256(n - 1)
  }

  lemma Pow256Max()
    ensures Pow256(MAX_LEN) == LIMIT
  {
    assert Pow256(4) == 256 * Pow256(3) == 0x1_0000_0000;
    assert Pow256(8) == 256 * 256 * 256 * 256 * Pow256(4) by {
      assert Pow256(8) == 256 * Pow256(7) && Pow256(7) == 256 * Pow256(6);
      assert Pow256(6) == 256 * Pow256(5) && Pow256(5) == 256 * Pow256(4);
    }
    assert Pow256(12) == 256 * 256 * 256 * 256 * Pow256(8) by {
      assert Pow256(12) == 256 * Pow256(11) && Pow256(11) == 256 * Pow256(10);
      assert Pow256(10) == 256 * Pow256(9) && Pow256(9) == 256 * Pow256(8);
    }
    assert Pow256(16) == 256 * 256 * 256 * 256 * Pow256(12) by {
      assert Pow256(16) == 256 * Pow256(15) && Pow256(15) == 256 * Pow256(14);
      assert Pow256(14) == 256 * Pow256(13) && Pow256(13) == 256 * Pow256(12);
    }
  }

  lemma {:induction false} LittleEndianBytes(n: nat, count: nat)
    requires n < Pow256(count)
    ensures LittleEndian(Bytes(n, count)) == n
  {
    if count > 0 {
      LittleEndianBytes(n / 256, count - 1);
      assert Bytes(n, count)[1..] == Bytes(n / 256, count - 1);
    }
  }

  lemma {:induction false} BytesLittleEndian(s: seq<Byte>)
    ensures Bytes(LittleEndian(s), |s|) == s
    ensures LittleEndian(s) < Pow256(|s|)
  {
    if s != [] {
      BytesLittleEndian(s[1..]);
      assert s == [s[0]] + s[1..];
    }
  }

  lemma {:induction false} LittleEndianSnoc(s: seq<Byte>, b: Byte)
    ensures LittleEndian(s + [b]) == LittleEndian(s) + b * Pow256(|s|)
  {
    if s == [] {
      assert s + [b] == [b];
    } else {
      LittleEndianSnoc(s[1..], b);
      assert (s + [b])[1..] == s[1..] + [b];
      MulAssoc(b, Pow256(|s| - 1), 256);
    }
  }

  // ---------------------------------------------------------------- what a decimal text denotes

  datatype DecimalText = DecimalText(negative: bool, whole: string, fraction: string) {
    predicate Valid() {
      AllDigits(whole) && AllDigits(fraction)
    }

    /** The magnitude is `Unscaled() / 10^|fraction|`. */
    function Unscaled(): nat
      requires Valid()
    {
      ValueAppend(whole, fraction);
      Value(whole + fraction)
    }
  }

  /** Digits, then perhaps a point and more digits, from `i` to the end of `s`. */
  function Unsigned(s: string, i: nat): (r: Option<(string, string)>)
    requires i <= |s|
    ensures r.Some? ==> AllDigits(r.value.0) && AllDigits(r.value.1)
  {
    var j := DigitRun(s, i);
    var whole := s[i..j];
    var dot := j < |s| && s[j] == '.';
    var k := if dot then DigitRun(s, j + 1) else j;
    var fraction := if dot then s[j + 1..k] else "";
    if k != |s| || (whole == "" && fraction == "") then None else Some((whole, fraction))
  }

  function SplitDecimal(s: string): (r: Option<DecimalText>)
    ensures r.Some? ==> r.value.Valid()
  {
    var signed := s != [] && (s[0] == '-' || s[0] == '+');
    var (whole, fraction) :- Unsigned(s, if signed then 1 else 0);
    Some(DecimalText(signed && s[0] == '-', whole, fraction))
  }

  predicate HasExponent(s: string) {
    exists i :: 0 <= i < |s| && (s[i] == 'e' || s[i] == 'E')
  }

  function Clamp(n: int, lo: int, hi: int): int {
    if n < lo then lo else if n > hi then hi else n
  }

  function Times(a: nat, b: nat): nat {
    a * b
  }

  function Floor(n: nat, d: nat): nat
    requires d > 0
  {
    n / d
  }

  /** floor(|x| * 10^scale) for the number `d` denotes. */
  function Scaled(d: DecimalText, scale: nat): nat
    requires d.Valid()
  {
    Floor(Times(d.Unscaled(), Pow10(scale)), Pow10(|d.fraction|))
  }

  /** Whether |x| * 10^scale is an integer. */
  predicate Exact(d: DecimalText, scale: nat)
    requires d.Valid()
  {
    Times(d.Unscaled(), Pow10(scale)) % Pow10(|d.fraction|) == 0
  }

  /** The conversion of a text without exponent. */
  function Convert(s: string, columnSize: int, decimalDigits: int): Outcome {
    match SplitDecimal(s)
    case None => Failed("22018")
    case Some(d) =>
      var scale := Clamp(decimalDigits, 0, 38);
      if Scaled(d, scale) >= LIMIT then Failed("22003")
      else Stored(Struct(Clamp(columnSize, 1, 38), scale, if d.negative then 0 else 1,
                         Bytes(Scaled(d, scale), MAX_LEN)), !Exact(d, scale))
  }

  /** What a successful conversion stores, against the number itself: the largest integer not
      above |x| * 10^scale, flagged as truncated exactly when it is below. */
  lemma StoredIsFloor(s: string, columnSize: int, decimalDigits: int)
    requires Convert(s, columnSize, decimalDigits).Stored?
    ensures var d, out := SplitDecimal(s).value, Convert(s, columnSize, decimalDigits);
            var n, one := LittleEndian(out.ns.val), Pow10(|d.fraction|);
            var x := d.Unscaled() * Pow10(out.ns.scale);
            n * one <= x < (n + 1) * one && (out.truncated <==> n * one < x)
  {
    hide SplitDecimal, Times;
    var d, out := SplitDecimal(s).value, Convert(s, columnSize, decimalDigits);
    var x, one := Times(d.Unscaled(), Pow10(out.ns.scale)), Pow10(|d.fraction|);
    Pow256Max();
    LittleEndianBytes(Scaled(d, out.ns.scale), MAX_LEN);
    FloorBounds(x, one);
    TimesIs(d.Unscaled(), Pow10(out.ns.scale));
  }

  lemma TimesIs(a: nat, b: nat)
    ensures Times(a, b) == a * b
  {
  }

  lemma FloorBounds(n: nat, d: nat)
    requires d > 0
    ensures Floor(n, d) * d <= n < (Floor(n, d) + 1) * d
    ensures n % d == 0 <==> Floor(n, d) * d == n
  {
    assert n == n / d * d + n % d;
  }

  // ---------------------------------------------------------------- rescaling digit strings

  function Zeros(n: nat): (s: string)
    ensures |s| == n && AllDigits(s)
    ensures forall i :: 0 <= i < n ==> s[i] == '0'
  {
    seq(n, i => '0')
  }

  lemma {:induction false} ValueZeros(n: nat)
    ensures Value(Zeros(n)) == 0
  {
    if n > 0 {
      ValueZeros(n - 1);
      assert Zeros(n)[..n - 1] == Zeros(n - 1);
    }
  }

  lemma {:induction false} ValueZeroIff(s: string)
    requires AllDigits(s)
    ensures Value(s) == 0 <==> forall i :: 0 <= i < |s| ==> s[i] == '0'
  {
    if s != [] {
      ValueZeroIff(s[..|s| - 1]);
    }
  }

  lemma DivMulCancel(n: nat, p: nat, q: nat)
    requires p > 0 && q > 0
    ensures n * p / (p * q) == n / q
    ensures n * p % (p * q) == n % q * p
  {
    var d, m := n / q, n % q;
    assert n == d * q + m;
    assert n * p == d * (p * q) + m * p;
    assert m * p <= (q - 1) * p by { MulMono(m, q - 1, p); }
    DivModIs(n * p, p * q, d, m * p);
  }

  /** Dropping fraction digits past `scale` computes the scaled value, and loses something
      exactly when a dropped digit is not zero. */
  lemma DropDigits(d: DecimalText, scale: nat)
    requires d.Valid() && scale <= |d.fraction|
    ensures Value(d.whole + d.fraction[..scale]) == Scaled(d, scale)
    ensures Exact(d, scale) <==> forall i :: scale <= i < |d.fraction| ==> d.fraction[i] == '0'
  {
    var kept, dropped := d.whole + d.fraction[..scale], d.fraction[scale..];
    assert d.whole + d.fraction == kept + dropped;
    ValueAppend(kept, dropped);
    ValueBound(dropped);
    var k := |dropped|;
    DivModIs(d.Unscaled(), Pow10(k), Value(kept), Value(dropped));
    PowAdd(scale, k);
    DivMulCancel(d.Unscaled(), Pow10(scale), Pow10(k));
    ValueZeroIff(dropped);
    assert Value(dropped) * Pow10(scale) == 0 <==> Value(dropped) == 0;
    assert forall i :: scale <= i < |d.fraction| ==> d.fraction[i] == dropped[i - scale];
  }

  lemma PadDigits(d: DecimalText, scale: nat)
    requires d.Valid() && |d.fraction| <= scale
    ensures Value(d.whole + d.fraction + Zeros(scale - |d.fraction|)) == Scaled(d, scale)
    ensures Exact(d, scale)
  {
    var k := scale - |d.fraction|;
    ValueAppend(d.whole + d.fraction, Zeros(k));
    ValueZeros(k);
    PowAdd(k, |d.fraction|);
    var v := d.Unscaled() * Pow10(k);
    MulAssoc(d.Unscaled(), Pow10(k), Pow10(|d.fraction|));
    DivModIs(d.Unscaled() * Pow10(scale), Pow10(|d.fraction|), v, 0);
  }

  lemma {:induction false} PrefixValue(s: string, j: nat)
    requires AllDigits(s) && j <= |s|
    ensures Value(s[..j]) <= Value(s)
    decreases |s|
  {
    if j < |s| {
      PrefixValue(s[..|s| - 1], j);
      assert s[..|s| - 1][..j] == s[..j];
    } else {
      assert s[..j] == s;
    }
  }

  // ---------------------------------------------------------------- put_numeric

  lemma CarryStep(low: nat, old': nat, p: nat, c0: nat, carry: nat, b: Byte)
    requires low + carry * p == old' * 10 + c0
    ensures var v := b * 10 + carry;
            low + v % 256 * p + v / 256 * (256 * p) == (old' + b * p) * 10 + c0
  {
    var v := b * 10 + carry;
    assert v == v / 256 * 256 + v % 256;
    assert v * p == v / 256 * (256 * p) + v % 256 * p;
    assert v * p == b * p * 10 + carry * p;
  }

  /** `val := val * 10 + digit`, byte by byte; what does not fit comes back as a carry. */
  method MulTenAdd(val: array<Byte>, digit: nat) returns (carry: nat)
    requires val.Length == MAX_LEN && digit < 10
    modifies val
    ensures LittleEndian(val[..]) + carry * LIMIT == LittleEndian(old(val[..])) * 10 + digit
  {
    ghost var was := val[..];
    carry := digit;
    var k := 0;
    assert val[..0] == was[..0] == [] && LittleEndian([]) == 0;
    hide LittleEndian;
    while k < MAX_LEN
      invariant 0 <= k <= MAX_LEN && carry < 10
      invariant val[k..] == was[k..]
      invariant LittleEndian(val[..k]) + carry * Pow256(k) == LittleEndian(was[..k]) * 10 + digit
    {
      var b := val[k];
      assert b == val[k..][0] == was[k];
      var v := b * 10 + carry;
      CarryStep(LittleEndian(val[..k]), LittleEndian(was[..k]), Pow256(k), digit, carry, b);
      LittleEndianSnoc(val[..k], v % 256);
      LittleEndianSnoc(was[..k], b);
      ghost var low := val[..k];
      val[k] := v % 256;
      carry := v / 256;
      assert val[..k + 1] == low + [v % 256];
      assert was[..k + 1] == was[..k] + [b];
      assert val[k + 1..] == was[k + 1..];
      k := k + 1;
    }
    assert val[..MAX_LEN] == val[..] && was[..MAX_LEN] == was;
    Pow256Max();
  }

  method StoreDigits(val: array<Byte>, digits: string) returns (ok: bool)
    requires val.Length == MAX_LEN && AllDigits(digits)
    requires LittleEndian(val[..]) == 0
    modifies val
    ensures ok <==> Value(digits) < LIMIT
    ensures ok ==> LittleEndian(val[..]) == Value(digits)
  {
    var j := 0;
    while j < |digits|
      invariant 0 <= j <= |digits| && LittleEndian(val[..]) == Value(digits[..j]) < LIMIT
    {
      assert digits[..j + 1] == digits[..j] + [digits[j]];
      ValueSnoc(digits[..j], digits[j]);
      var carry := MulTenAdd(val, DigitValue(digits[j]));
      BytesLittleEndian(val[..]);
      Pow256Max();
      PrefixValue(digits, j + 1);
      if carry != 0 { return false; }
      j := j + 1;
    }
    assert digits[..j] == digits;
    return true;
  }

  method TakeDigits(s: string, i: nat) returns (digits: string, j: nat)
    requires i <= |s|
    ensures j == DigitRun(s, i) && digits == s[i..j]
  {
    digits, j := "", i;
    while j < |s| && IsDigit(s[j])
      invariant i <= j <= |s| && DigitRun(s, j) == DigitRun(s, i) && digits == s[i..j]
    {
      digits, j := digits + [s[j]], j + 1;
    }
  }

  method ScanDecimal(s: string) returns (r: Option<DecimalText>)
    ensures r == SplitDecimal(s)
  {
    hide DigitRun;
    var negative, i := false, 0;
    if i < |s| && (s[i] == '-' || s[i] == '+') {
      negative := s[i] == '-';
      i := i + 1;
    }
    var whole, fraction := "", "";
    whole, i := TakeDigits(s, i);
    if i < |s| && s[i] == '.' {
      fraction, i := TakeDigits(s, i + 1);
    }
    if i != |s| || (whole == "" && fraction == "") { return None; }
    return Some(DecimalText(negative, whole, fraction));
  }

  /** Brings the fraction to `scale` digits, cutting or zero-filling, and joins the two parts. */
  method Rescale(d: DecimalText, scale: nat) returns (digits: string, truncated: bool)
    requires d.Valid()
    ensures AllDigits(digits) && Value(digits) == Scaled(d, scale)
    ensures truncated <==> !Exact(d, scale)
  {
    truncated := false;
    var fraction := d.fraction;
    if |fraction| > scale {
      truncated := exists k :: scale <= k < |fraction| && fraction[k] != '0';
      fraction := fraction[..scale];
      DropDigits(d, scale);
    } else {
      PadDigits(d, scale);
      assert d.whole + d.fraction + Zeros(scale - |d.fraction|) == d.whole + (fraction + Zeros(scale - |fraction|));
      fraction := fraction + Zeros(scale - |fraction|);
    }
    digits := d.whole + fraction;
  }

  method PutNumeric(raw: string, columnSize: int, decimalDigits: int, expand: string -> Option<string>)
    returns (r: Outcome)
    ensures var s := Trim(raw);
            r == if forall i :: 0 <= i < |s| ==> s[i] != 'e' && s[i] != 'E' then Convert(s, columnSize, decimalDigits)
                 else if expand(s).None? then Failed("22018")
                 else Convert(expand(s).value, columnSize, decimalDigits)
  {
    hide Scaled, Exact, SplitDecimal;
    var s := Trim(raw);
    if exists i :: 0 <= i < |s| && (s[i] == 'e' || s[i] == 'E') {
      var b := expand(s);
      if b.None? { return Failed("22018"); }
      s := b.value;
    }
    var split := ScanDecimal(s);
    if split.None? { return Failed("22018"); }
    var d, scale := split.value, Clamp(decimalDigits, 0, 38);
    var digits, truncated := Rescale(d, scale);
    var val := new Byte[MAX_LEN](i => 0);
    ZeroBytes(val[..]);
    var ok := StoreDigits(val, digits);
    if !ok { return Failed("22003"); }
    BytesLittleEndian(val[..]);
    r := Stored(Struct(Clamp(columnSize, 1, 38), scale, if d.negative then 0 else 1, val[..]), truncated);
  }

  lemma {:induction false} ZeroBytes(s: seq<Byte>)
    requires forall i :: 0 <= i < |s| ==> s[i] == 0
    ensures LittleEndian(s) == 0
  {
    if s != [] {
      ZeroBytes(s[1..]);
    }
  }

  // ---------------------------------------------------------------- read_param

  /** The text of a bound SQL_C_NUMERIC parameter. */
  function NumericText(ns: Struct): string {
    var digits := Decimal(LittleEndian(ns.val));
    (if ns.sign != 0 then "" else "-") +
    if ns.scale > 0 then PlacePoint(digits, ns.scale)
    else digits + Zeros(-ns.scale)
  }

  /** At least `scale + 1` digits, with a point before the last `scale` of them. */
  function PlacePoint(digits: string, scale: nat): string {
    var d := if |digits| <= scale then Zeros(scale + 1 - |digits|) + digits else digits;
    d[..|d| - scale] + "." + d[|d| - scale..]
  }

  lemma QuotientStep(high: nat, q: nat, r: nat, b: Byte)
    requires high == 10 * q + r && r < 10
    ensures var cur := r * 256 + b;
            b + 256 * high == 10 * (cur / 10 + 256 * q) + cur % 10 && cur / 10 < 256
  {
  }

  /** `val := val / 10`, byte by byte from the top; the remainder comes back. */
  method DivideByTen(val: array<Byte>) returns (rem: nat, nonzero: bool)
    requires val.Length == MAX_LEN
    modifies val
    ensures LittleEndian(val[..]) == LittleEndian(old(val[..])) / 10
    ensures rem == LittleEndian(old(val[..])) % 10
    ensures nonzero <==> LittleEndian(val[..]) != 0
  {
    ghost var was := val[..];
    rem, nonzero := 0, false;
    var k := MAX_LEN;
    while k > 0
      invariant 0 <= k <= MAX_LEN && rem < 10
      invariant val[..k] == was[..k]
      invariant LittleEndian(was[k..]) == 10 * LittleEndian(val[k..]) + rem
      invariant nonzero <==> LittleEndian(val[k..]) != 0
    {
      k := k - 1;
      var b := val[k];
      assert b == val[..k + 1][k] == was[k];
      var cur := rem * 256 + b;
      ghost var high := val[k + 1..];
      QuotientStep(LittleEndian(was[k + 1..]), LittleEndian(high), rem, b);
      val[k] := cur / 10;
      rem := cur % 10;
      if val[k] != 0 { nonzero := true; }
      assert val[k..] == [cur / 10] + high;
      assert was[k..] == [b] + was[k + 1..];
      assert val[..k] == was[..k];
    }
    assert val[0..] == val[..] && was[0..] == was;
  }

  method ToDecimal(val: array<Byte>) returns (digits: string)
    requires val.Length == MAX_LEN
    modifies val
    ensures digits == Decimal(LittleEndian(old(val[..])))
  {
    var nonzero := true;
    digits := "";
    ghost var n := LittleEndian(val[..]);
    while nonzero
      invariant nonzero ==> Decimal(n) == Decimal(LittleEndian(val[..])) + digits
      invariant !nonzero ==> LittleEndian(val[..]) == 0 && Decimal(n) == digits
      decreases LittleEndian(val[..]), nonzero
    {
      ghost var v, tail := LittleEndian(val[..]), digits;
      var rem;
      rem, nonzero := DivideByTen(val);
      digits := [DigitChar(rem)] + digits;
      if nonzero {
        assert Decimal(v) + tail == Decimal(v / 10) + digits;
      }
    }
  }

  method InsertPoint(d: string, scale: nat) returns (digits: string)
    ensures digits == PlacePoint(d, scale)
  {
    digits := d;
    while |digits| <= scale
      invariant |digits| >= |d| && (|digits| > |d| ==> |digits| <= scale + 1)
      invariant digits == Zeros(|digits| - |d|) + d
    {
      ghost var fill := Zeros(|digits| - |d|);
      assert "0" + fill == Zeros(|fill| + 1);
      assert "0" + (fill + d) == ("0" + fill) + d;
      digits := "0" + digits;
    }
    assert |d| > scale ==> digits == d;
    digits := digits[..|digits| - scale] + "." + digits[|digits| - scale..];
  }

  method ReadNumeric(ns: Struct) returns (text: string)
    requires |ns.val| == MAX_LEN
    ensures text == NumericText(ns)
  {
    var val := new Byte[MAX_LEN](i requires 0 <= i < MAX_LEN => ns.val[i]);
    assert val[..] == ns.val;
    var digits := ToDecimal(val);
    if ns.scale > 0 {
      digits := InsertPoint(digits, ns.scale);
    } else {
      digits := digits + Zeros(-ns.scale);
    }
    text := (if ns.sign != 0 then "" else "-") + digits;
  }

  // ---------------------------------------------------------------- the two are inverses

  lemma {:induction false} RunEnds(s: string, i: nat, j: nat)
    requires i <= j <= |s| && AllDigits(s[i..j])
    requires j == |s| || !IsDigit(s[j])
    ensures DigitRun(s, i) == j
    decreases j - i
  {
    if i < j {
      assert s[i..j][0] == s[i];
      assert s[i + 1..j] == s[i..j][1..];
      RunEnds(s, i + 1, j);
    }
  }

  lemma UnsignedReads(s: string, i: nat, j: nat)
    requires i < j <= |s| && AllDigits(s[i..j])
    requires j < |s| ==> s[j] == '.' && AllDigits(s[j + 1..])
    ensures Unsigned(s, i) == Some((s[i..j], if j < |s| then s[j + 1..] else ""))
  {
    RunEnds(s, i, j);
    if j < |s| {
      assert s[j + 1..|s|] == s[j + 1..];
      RunEnds(s, j + 1, |s|);
    }
  }

  predicate Plain(s: string) {
    forall i :: 0 <= i < |s| ==> IsDigit(s[i]) || s[i] == '-' || s[i] == '.'
  }

  lemma PlainIsBare(s: string)
    requires Plain(s)
    ensures !HasExponent(s) && Trim(s) == s
  {
    TrimTrims(s);
  }

  /** The printed form of a decimal text; `point` asks for the decimal point. */
  function Printed(d: DecimalText, point: bool): string {
    (if d.negative then "-" else "") + (d.whole + (if point then "." + d.fraction else ""))
  }

  lemma BodyReads(s: string, i: nat, whole: string, fraction: string, point: bool)
    requires i <= |s| && whole != "" && AllDigits(whole) && AllDigits(fraction) && (!point ==> fraction == "")
    requires s[i..] == whole + (if point then "." + fraction else "")
    ensures Unsigned(s, i) == Some((whole, fraction))
  {
    hide Unsigned;
    var t, j := s[i..], i + |whole|;
    assert s[i..j] == t[..|whole|] == whole;
    if point {
      assert s[j] == t[|whole|] == '.';
      assert s[j + 1..] == t[|whole| + 1..] == fraction;
    }
    UnsignedReads(s, i, j);
  }

  lemma PrintedReads(d: DecimalText, point: bool)
    requires d.Valid() && d.whole != "" && (!point ==> d.fraction == "")
    ensures SplitDecimal(Printed(d, point)) == Some(d)
  {
    hide Unsigned;
    var s := Printed(d, point);
    var body := d.whole + (if point then "." + d.fraction else "");
    assert body[0] == d.whole[0];
    assert s[if d.negative then 1 else 0..] == body;
    BodyReads(s, if d.negative then 1 else 0, d.whole, d.fraction, point);
  }

  lemma PrintedPlain(d: DecimalText, point: bool)
    requires d.Valid()
    ensures Plain(Printed(d, point))
  {
  }

  lemma PointPlaced(digits: string, scale: nat) returns (whole: string, fraction: string)
    requires digits != "" && AllDigits(digits) && scale > 0
    ensures whole != "" && AllDigits(whole + fraction) && |fraction| == scale
    ensures Value(whole + fraction) == Value(digits)
    ensures PlacePoint(digits, scale) == whole + ("." + fraction)
  {
    var fill := if |digits| <= scale then Zeros(scale + 1 - |digits|) else "";
    var all := fill + digits;
    assert |digits| > scale ==> all == digits;
    ValueAppend(fill, digits);
    ValueZeroIff(fill);
    var cut := |all| - scale;
    whole, fraction := all[..cut], all[cut..];
    assert whole + fraction == all;
    assert whole + "." + fraction == whole + ("." + fraction);
  }

  lemma DecimalTextOf(ns: Struct) returns (d: DecimalText)
    ensures d.Valid() && d.whole != "" && d.negative == (ns.sign == 0)
    ensures |d.fraction| == if ns.scale > 0 then ns.scale else 0
    ensures NumericText(ns) == Printed(d, ns.scale > 0)
    ensures d.Unscaled() == LittleEndian(ns.val) * Pow10(if ns.scale < 0 then -ns.scale else 0)
  {
    hide PlacePoint, Value;
    var digits := Decimal(LittleEndian(ns.val));
    DecimalValue(LittleEndian(ns.val));
    if ns.scale > 0 {
      var whole, fraction := PointPlaced(digits, ns.scale);
      assert forall i :: 0 <= i < |whole| ==> whole[i] == (whole + fraction)[i];
      assert forall i :: 0 <= i < |fraction| ==> fraction[i] == (whole + fraction)[|whole| + i];
      d := DecimalText(ns.sign == 0, whole, fraction);
    } else {
      ValueAppend(digits, Zeros(-ns.scale));
      ValueZeros(-ns.scale);
      d := DecimalText(ns.sign == 0, digits + Zeros(-ns.scale), "");
      assert d.whole + d.fraction == d.whole;
    }
  }

  /** The text of a bound parameter is plain decimal text of the number the structure holds:
      val / 10^scale with its sign. */
  lemma ReadTextDenotes(ns: Struct)
    ensures SplitDecimal(NumericText(ns)).Some?
    ensures var d := SplitDecimal(NumericText(ns)).value;
            d.negative == (ns.sign == 0) &&
            d.Unscaled() == LittleEndian(ns.val) * Pow10(if ns.scale < 0 then -ns.scale else 0) &&
            |d.fraction| == if ns.scale > 0 then ns.scale else 0
    ensures !HasExponent(NumericText(ns)) && Trim(NumericText(ns)) == NumericText(ns)
  {
    hide NumericText, SplitDecimal, Trim, HasExponent;
    var d := DecimalTextOf(ns);
    PrintedReads(d, ns.scale > 0);
    PrintedPlain(d, ns.scale > 0);
    PlainIsBare(NumericText(ns));
  }

  /** Encoding the text of a structure at the structure's scale gives the same sign and bytes, exactly. */
  lemma NumericRoundTrip(ns: Struct, columnSize: int)
    requires |ns.val| == MAX_LEN && 0 <= ns.scale <= 38 && (ns.sign == 0 || ns.sign == 1)
    ensures !HasExponent(Trim(NumericText(ns)))
    ensures Convert(Trim(NumericText(ns)), columnSize, ns.scale) ==
            Stored(ns.(precision := Clamp(columnSize, 1, 38)), false)
  {
    hide NumericText, SplitDecimal, Trim, HasExponent;
    ReadTextDenotes(ns);
    var d := SplitDecimal(NumericText(ns)).value;
    var n := LittleEndian(ns.val);
    assert d.Unscaled() == n by { assert Pow10(0) == 1; }
    DivModIs(n * Pow10(ns.scale), Pow10(ns.scale), n, 0);
    BytesLittleEndian(ns.val);
    Pow256Max();
  }
}
