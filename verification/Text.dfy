/** ASCII helpers (src/util.cpp) and decimal digit strings. A `char` stands for one byte. */
module Text {
  type Byte = x: int | 0 <= x < 256

  function Lower(c: char): char {
    if 'A' <= c <= 'Z' then (c as int + 32) as char else c
  }

  function ToLower(s: string): (r: string)
    ensures |r| == |s| && forall i :: 0 <= i < |s| ==> r[i] == Lower(s[i])
  {
    seq(|s|, i requires 0 <= i < |s| => Lower(s[i]))
  }

  predicate IEquals(a: string, b: string) {
    ToLower(a) == ToLower(b)
  }

  /** The same character, or the same of the letters A to Z in upper and lower case. */
  predicate SameLetter(a: char, b: char) {
    a == b || ('A' <= a <= 'Z' && b as int == a as int + 32) || ('A' <= b <= 'Z' && a as int == b as int + 32)
  }

  /** Texts are equal in any case exactly when they agree letter by letter. */
  lemma EqualsInAnyCase(a: string, b: string)
    ensures IEquals(a, b) <==> |a| == |b| && forall i :: 0 <= i < |a| ==> SameLetter(a[i], b[i])
  {
    forall x: char, y: char ensures Lower(x) == Lower(y) <==> SameLetter(x, y) {
    }
    if IEquals(a, b) {
      forall i | 0 <= i < |a| ensures SameLetter(a[i], b[i]) {
        assert ToLower(a)[i] == ToLower(b)[i];
      }
    }
  }

  /** Words whose lengths or first letters differ. */
  lemma Differ(a: string, b: string)
    requires |a| != |b| || (|a| > 0 && Lower(a[0]) != Lower(b[0])) || (|a| > 1 && Lower(a[1]) != Lower(b[1]))
    ensures !IEquals(a, b)
  {
    if |a| == |b| {
      assert |a| > 0 ==> ToLower(a)[0] == Lower(a[0]) && ToLower(b)[0] == Lower(b[0]);
      assert |a| > 1 ==> ToLower(a)[1] == Lower(a[1]) && ToLower(b)[1] == Lower(b[1]);
    }
  }

  /** `std::string::compare`: negative, zero or positive. */
  function TextCompare(a: string, b: string): int {
    if a == "" && b == "" then 0
    else if a == "" then -1
    else if b == "" then 1
    else if a[0] < b[0] then -1
    else if a[0] > b[0] then 1
    else TextCompare(a[1..], b[1..])
  }

  /** The texts part at `k`: the second goes on there, or has the greater character. */
  predicate PartAt(a: string, b: string, k: nat) {
    k <= |a| && k < |b| && a[..k] == b[..k] && (k == |a| || a[k] < b[k])
  }

  /** `a` comes before `b` in the order of a dictionary. */
  predicate TextLess(a: string, b: string) {
    exists k :: 0 <= k < |b| && PartAt(a, b, k)
  }

  lemma PartLater(a: string, b: string, k: nat)
    requires a != "" && b != "" && a[0] == b[0]
    ensures PartAt(a[1..], b[1..], k) <==> PartAt(a, b, k + 1)
  {
    if k < |a| && k < |b| - 1 {
      assert a[..k + 1] == [a[0]] + a[1..][..k];
      assert b[..k + 1] == [b[0]] + b[1..][..k];
    }
  }

  lemma TextLessStep(a: string, b: string)
    requires a != "" && b != ""
    ensures TextLess(a, b) <==> a[0] < b[0] || (a[0] == b[0] && TextLess(a[1..], b[1..]))
  {
    if a[0] < b[0] {
      assert PartAt(a, b, 0);
    } else if a[0] == b[0] {
      forall k: nat { PartLater(a, b, k); }
      if TextLess(a, b) {
        var k :| 0 <= k < |b| && PartAt(a, b, k);
        assert k > 0 && PartAt(a[1..], b[1..], k - 1);
      }
    }
  }

  /** The comparison is the order of a dictionary, and zero only for equal texts. */
  lemma {:induction false} TextCompareOrders(a: string, b: string)
    ensures TextCompare(a, b) < 0 <==> TextLess(a, b)
    ensures TextCompare(a, b) == 0 <==> a == b
    ensures TextCompare(a, b) > 0 <==> TextLess(b, a)
  {
    if a != "" && b != "" {
      TextLessStep(a, b);
      TextLessStep(b, a);
      TextCompareOrders(a[1..], b[1..]);
      assert a == [a[0]] + a[1..] && b == [b[0]] + b[1..];
    } else if a == "" && b != "" {
      assert PartAt(a, b, 0);
    } else if a != "" {
      assert PartAt(b, a, 0);
    }
  }

  lemma {:induction false} TextLessTransitive(a: string, b: string, c: string)
    requires TextLess(a, b) && TextLess(b, c)
    ensures TextLess(a, c)
    decreases |a|
  {
    if a == "" {
      assert c != "" && PartAt(a, c, 0);
    } else {
      TextLessStep(a, b);
      TextLessStep(b, c);
      TextLessStep(a, c);
      if a[0] == b[0] == c[0] { TextLessTransitive(a[1..], b[1..], c[1..]); }
    }
  }

  predicate CharAt(s: string, i: nat, c: char) {
    i < |s| && s[i] == c
  }

  predicate IsDigit(c: char) {
    '0' <= c <= '9'
  }

  predicate IsAlpha(c: char) {
    'a' <= c <= 'z' || 'A' <= c <= 'Z'
  }

  /** `isspace` in the C locale. */
  predicate IsSpace(c: char) {
    c == ' ' || 9 <= c as int <= 13
  }

  /** The characters `trim` strips: `isspace` without vertical tab and form feed. */
  predicate IsTrimmed(c: char) {
    c == ' ' || c == '\t' || c == '\r' || c == '\n'
  }

  function TrimLeft(s: string): string {
    if s != [] && IsTrimmed(s[0]) then TrimLeft(s[1..]) else s
  }

  function TrimRight(s: string): string {
    if s != [] && IsTrimmed(s[|s| - 1]) then TrimRight(s[..|s| - 1]) else s
  }

  function Trim(s: string): string {
    TrimRight(TrimLeft(s))
  }

  predicate Trimmed(s: string) {
    s == [] || (!IsTrimmed(s[0]) && !IsTrimmed(s[|s| - 1]))
  }

  lemma TrimRightKeepsStart(s: string)
    ensures TrimRight(s) <= s
    ensures TrimRight(s) == [] || !IsTrimmed(TrimRight(s)[|TrimRight(s)| - 1])
  {
  }

  lemma TrimLeftStart(s: string)
    ensures TrimLeft(s) == [] || !IsTrimmed(TrimLeft(s)[0])
  {
  }

  /** Trimming strips both ends and changes a string exactly when an end can be stripped. */
  lemma TrimTrims(s: string)
    ensures Trimmed(Trim(s))
    ensures Trim(s) == s <==> Trimmed(s)
  {
    TrimLeftStart(s);
    TrimRightKeepsStart(TrimLeft(s));
  }

  /** A space, a tab or an end of a line. */
  predicate IsPadding(s: string) {
    forall i :: 0 <= i < |s| ==> s[i] == ' ' || s[i] == '\t' || s[i] == '\r' || s[i] == '\n'
  }

  lemma {:induction false} LeftStripped(s: string) returns (left: string)
    ensures IsPadding(left) && s == left + TrimLeft(s)
  {
    left := "";
    if s != [] && IsTrimmed(s[0]) {
      left := LeftStripped(s[1..]);
      left := [s[0]] + left;
    }
  }

  lemma {:induction false} RightStripped(s: string) returns (right: string)
    ensures IsPadding(right) && s == TrimRight(s) + right
  {
    right := "";
    if s != [] && IsTrimmed(s[|s| - 1]) {
      right := RightStripped(s[..|s| - 1]);
      right := right + [s[|s| - 1]];
    }
  }

  /** What is stripped on either side is padding, and what is left neither starts nor ends with any. */
  lemma TrimStrips(s: string) returns (left: string, right: string)
    ensures IsPadding(left) && IsPadding(right) && s == left + Trim(s) + right
    ensures Trim(s) != "" ==> !IsPadding(Trim(s)[..1]) && !IsPadding(Trim(s)[|Trim(s)| - 1..])
  {
    left := LeftStripped(s);
    right := RightStripped(TrimLeft(s));
    TrimTrims(s);
    assert left + Trim(s) + right == left + (Trim(s) + right);
  }

  // ---- Decimal digits

  function Pow10(n: nat): (p: nat)
    ensures p > 0
  {
    if n == 0 then 1 else 10 * Pow10(n - 1)
  }

  predicate AllDigits(s: string) {
    forall i :: 0 <= i < |s| ==> IsDigit(s[i])
  }

  /** Where the run of digits that starts at `i` ends. */
  function DigitRun(s: string, i: nat): (j: nat)
    requires i <= |s|
    ensures i <= j <= |s| && AllDigits(s[i..j])
    decreases |s| - i
  {
    if i < |s| && IsDigit(s[i]) then
      var j := DigitRun(s, i + 1);
      assert s[i..j] == [s[i]] + s[i + 1..j];
      j
    else i
  }

  function DigitValue(c: char): nat
    requires IsDigit(c)
  {
    c as int - '0' as int
  }

  function DigitChar(n: nat): (c: char)
    requires n < 10
    ensures IsDigit(c) && DigitValue(c) == n
  {
    ('0' as int + n) as char
  }

  /** The number a digit string denotes, most significant digit first. */
  function Value(s: string): nat
    requires AllDigits(s)
  {
    if s == [] then 0 else Value(s[..|s| - 1]) * 10 + DigitValue(s[|s| - 1])
  }

  /** The last `width` decimal digits of `n`. */
  function Digits(n: nat, width: nat): (s: string)
    ensures |s| == width && AllDigits(s)
  {
    if width == 0 then [] else Digits(n / 10, width - 1) + [DigitChar(n % 10)]
  }

  /** The shortest digit string of `n`; "0" for zero. */
  function Decimal(n: nat): (s: string)
    ensures |s| > 0 && AllDigits(s)
  {
    if n < 10 then [DigitChar(n)] else Decimal(n / 10) + [DigitChar(n % 10)]
  }

  lemma ValueSnoc(s: string, c: char)
    requires AllDigits(s) && IsDigit(c)
    ensures AllDigits(s + [c]) && Value(s + [c]) == Value(s) * 10 + DigitValue(c)
  {
    var t := s + [c];
    assert t[..|t| - 1] == s;
  }

  lemma {:induction false} DigitsValue(n: nat, width: nat)
    requires n < Pow10(width)
    ensures Value(Digits(n, width)) == n
  {
    if width > 0 {
      DigitsValue(n / 10, width - 1);
      ValueSnoc(Digits(n / 10, width - 1), DigitChar(n % 10));
    }
  }

  lemma {:induction false} DecimalValue(n: nat)
    ensures Value(Decimal(n)) == n
  {
    if n >= 10 {
      DecimalValue(n / 10);
      ValueSnoc(Decimal(n / 10), DigitChar(n % 10));
    }
  }

  lemma {:induction false} DecimalLength(n: nat, width: nat)
    requires n >= Pow10(width)
    ensures |Decimal(n)| > width
  {
    if width > 0 {
      DecimalLength(n / 10, width - 1);
    }
  }

  lemma MulAssoc(x: int, y: int, z: int)
    ensures x * (z * y) == x * y * z == x * (y * z)
  {
  }

  lemma {:induction false} ValueAppend(a: string, b: string)
    requires AllDigits(a) && AllDigits(b)
    ensures AllDigits(a + b) && Value(a + b) == Value(a) * Pow10(|b|) + Value(b)
  {
    if b == [] {
      assert a + b == a;
    } else {
      var b', c := b[..|b| - 1], b[|b| - 1];
      ValueAppend(a, b');
      assert a + b == (a + b') + [c];
      ValueSnoc(a + b', c);
      MulAssoc(Value(a), Pow10(|b'|), 10);
    }
  }

  lemma {:induction false} ValueBound(s: string)
    requires AllDigits(s)
    ensures Value(s) < Pow10(|s|)
  {
    if s != [] {
      ValueBound(s[..|s| - 1]);
    }
  }

  lemma {:induction false} PowAdd(a: nat, b: nat)
    ensures Pow10(a + b) == Pow10(a) * Pow10(b)
  {
    if a > 0 {
      PowAdd(a - 1, b);
      assert Pow10(a) * Pow10(b) == 10 * (Pow10(a - 1) * Pow10(b));
    }
  }
}
