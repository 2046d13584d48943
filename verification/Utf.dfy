/** UTF-8 and UTF-16 conversion (src/util.cpp), for a 2-byte SQLWCHAR. */
module Utf {
  import opened Text
  import opened Arithmetic

  /** One SQLWCHAR. */
  type Unit = x: int | 0 <= x < 0x10000

  type Scalar = x: int | 0 <= x < 0x110000 && !(0xD800 <= x < 0xE000)

  // ---------------------------------------------------------------- the two encodings

  /** Section 3 of RFC 3629. */
  function Utf8(c: Scalar): seq<Byte> {
    if c < 0x80 then [c]
    else if c < 0x800 then [0xC0 + c / 64, 0x80 + c % 64]
    else if c < 0x10000 then [0xE0 + c / 4096, 0x80 + c / 64 % 64, 0x80 + c % 64]
    else [0xF0 + c / 262144, 0x80 + c / 4096 % 64, 0x80 + c / 64 % 64, 0x80 + c % 64]
  }

  /** Section 2.1 of RFC 2781. */
  function Utf16(c: Scalar): seq<Unit> {
    if c < 0x10000 then [c]
    else [0xD800 + (c - 0x10000) / 1024, 0xDC00 + (c - 0x10000) % 1024]
  }

  function Text8(cs: seq<Scalar>): seq<Byte> {
    if cs == [] then [] else Utf8(cs[0]) + Text8(cs[1..])
  }

  function Text16(cs: seq<Scalar>): seq<Unit> {
    if cs == [] then [] else Utf16(cs[0]) + Text16(cs[1..])
  }

  predicate Tail(b: Byte) {
    0x80 <= b < 0xC0
  }

  /** Length of the well-formed sequence at the start of `s` by the grammar of section 4 of
      RFC 3629; 0 when there is none. */
  function WellFormedLength(s: seq<Byte>): (n: nat)
    ensures n <= |s|
  {
    if s == [] then 0
    else if s[0] < 0x80 then 1
    else if |s| >= 2 && 0xC2 <= s[0] <= 0xDF && Tail(s[1]) then 2
    else if |s| >= 3 && Tail(s[2]) &&
            (|| (s[0] == 0xE0 && 0xA0 <= s[1] <= 0xBF)
             || (0xE1 <= s[0] <= 0xEC && Tail(s[1]))
             || (s[0] == 0xED && 0x80 <= s[1] <= 0x9F)
             || (0xEE <= s[0] <= 0xEF && Tail(s[1]))) then 3
    else if |s| >= 4 && Tail(s[2]) && Tail(s[3]) &&
            (|| (s[0] == 0xF0 && 0x90 <= s[1] <= 0xBF)
             || (0xF1 <= s[0] <= 0xF3 && Tail(s[1]))
             || (s[0] == 0xF4 && 0x80 <= s[1] <= 0x8F)) then 4
    else 0
  }

  predicate WellFormed8(s: seq<Byte>) {
    s == [] || (var n := WellFormedLength(s); n > 0 && WellFormed8(s[n..]))
  }

  /** Section 2.2 of RFC 2781: surrogates come in pairs, high before low. */
  predicate WellFormed16(w: seq<Unit>) {
    if w == [] then true
    else if 0xD800 <= w[0] < 0xDC00 then |w| >= 2 && 0xDC00 <= w[1] < 0xE000 && WellFormed16(w[2..])
    else (w[0] < 0xD800 || w[0] >= 0xE000) && WellFormed16(w[1..])
  }

  // ---------------------------------------------------------------- utf8_to_wide

  /** A code point read at the front of a text and how many bytes past the first it took. */
  datatype Decoded = Decoded(cp: nat, extra: nat)

  const REPLACEMENT := 0xFFFD

  function Continue(cp: nat, b: Byte): nat {
    cp * 64 + b % 64
  }

  /** The payload of a lead byte and the number of continuation bytes it asks for. */
  function Lead(c: Byte): Decoded {
    if c < 0x80 then Decoded(c, 0)
    else if c / 32 == 0x6 then Decoded(c % 32, 1)
    else if c / 16 == 0xE then Decoded(c % 16, 2)
    else if c / 8 == 0x1E then Decoded(c % 8, 3)
    else Decoded(REPLACEMENT, 0)
  }

  predicate Tails(s: seq<Byte>, k: nat)
    requires k <= |s|
  {
    forall i :: 1 <= i < k ==> Tail(s[i])
  }

  /** The code point after the first `k` bytes. */
  function Fold(s: seq<Byte>, k: nat): nat
    requires 1 <= k <= |s|
  {
    if k == 1 then Lead(s[0]).cp else Continue(Fold(s, k - 1), s[k - 1])
  }

  function Decode(s: seq<Byte>): Decoded
    requires s != []
  {
    var n := Lead(s[0]).extra;
    if |s| > n && Tails(s, n + 1) then Decoded(Fold(s, n + 1), n) else Decoded(REPLACEMENT, 0)
  }

  lemma UnfoldFold(s: seq<Byte>)
    requires s != []
    ensures |s| > 1 ==> Fold(s, 2) == Continue(Lead(s[0]).cp, s[1])
    ensures |s| > 2 ==> Fold(s, 3) == Continue(Continue(Lead(s[0]).cp, s[1]), s[2])
    ensures |s| > 3 ==> Fold(s, 4) == Continue(Continue(Continue(Lead(s[0]).cp, s[1]), s[2]), s[3])
  {
    assert Fold(s, 1) == Lead(s[0]).cp;
    assert |s| > 1 ==> Fold(s, 2) == Continue(Fold(s, 1), s[1]);
    assert |s| > 2 ==> Fold(s, 3) == Continue(Fold(s, 2), s[2]);
    assert |s| > 3 ==> Fold(s, 4) == Continue(Fold(s, 3), s[3]);
  }

  lemma DecodeFits(s: seq<Byte>)
    requires s != []
    ensures Decode(s).extra < |s| && Decode(s).cp < 0x200000
    ensures |Units(Decode(s).cp)| <= Decode(s).extra + 1
  {
    UnfoldFold(s);
  }

  function Units(cp: nat): seq<Unit> {
    if 0x10000 <= cp <= 0x10FFFF then [0xD800 + (cp - 0x10000) / 1024, 0xDC00 + (cp - 0x10000) % 1024]
    else [cp % 0x10000]
  }

  function ToWide(s: seq<Byte>): seq<Unit> {
    if s == [] then []
    else
      DecodeFits(s);
      Units(Decode(s).cp) + ToWide(s[Decode(s).extra + 1..])
  }

  method DecodeAt(s: seq<Byte>, i: nat) returns (d: Decoded)
    requires i < |s|
    ensures d == Decode(s[i..])
  {
    var c := s[i];
    var cp, extra;
    if c < 0x80 { cp, extra := c, 0; }
    else if c / 32 == 0x6 { cp, extra := c % 32, 1; }
    else if c / 16 == 0xE { cp, extra := c % 16, 2; }
    else if c / 8 == 0x1E { cp, extra := c % 8, 3; }
    else { cp, extra := REPLACEMENT, 0; }
    ghost var t := s[i..];
    var ok := i + extra < |s| || extra == 0;
    var k := 1;
    while ok && k <= extra
      invariant 1 <= k <= extra + 1
      invariant extra == Lead(t[0]).extra
      invariant ok ==> |t| > extra && Tails(t, k) && cp == Fold(t, k)
      invariant !ok ==> |t| <= extra || !Tails(t, extra + 1)
      decreases ok, extra - k
    {
      var cc := s[i + k];
      assert cc == t[k];
      if !(0x80 <= cc < 0xC0) {
        ok := false;
      } else {
        cp := Continue(cp, cc);
        k := k + 1;
      }
    }
    if !ok { cp, extra := REPLACEMENT, 0; }
    d := Decoded(cp, extra);
  }

  method AppendUnits(out: seq<Unit>, cp: nat) returns (r: seq<Unit>)
    ensures r == out + Units(cp)
  {
    r := out;
    if 0x10000 <= cp <= 0x10FFFF {
      var v := cp - 0x10000;
      r := r + [0xD800 + v / 1024];
      r := r + [0xDC00 + v % 1024];
    } else {
      r := r + [cp % 0x10000];
    }
  }

  /** Always advances, and never yields more units than bytes read. */
  method Utf8ToWide(s: seq<Byte>) returns (out: seq<Unit>)
    ensures out == ToWide(s)
    ensures |out| <= |s|
  {
    hide Decode, Units;
    out := [];
    var i := 0;
    while i < |s|
      invariant 0 <= i <= |s| && ToWide(s) == out + ToWide(s[i..]) && |out| <= i
    {
      var d := DecodeAt(s, i);
      DecodeFits(s[i..]);
      assert s[i..][d.extra + 1..] == s[i + d.extra + 1..];
      ghost var before := out;
      out := AppendUnits(out, d.cp);
      assert before + (Units(d.cp) + ToWide(s[i + d.extra + 1..])) == out + ToWide(s[i + d.extra + 1..]);
      i := i + d.extra + 1;
    }
  }

  // ---------------------------------------------------------------- wide_to_utf8

  function Sanitize(cp: nat): Scalar {
    if cp > 0x10FFFF || 0xD800 <= cp <= 0xDFFF then REPLACEMENT else cp
  }

  predicate PairAt(w: seq<Unit>) {
    |w| >= 2 && 0xD800 <= w[0] <= 0xDBFF && 0xDC00 <= w[1] <= 0xDFFF
  }

  function Combine(hi: int, lo: int): (cp: nat)
    requires 0xD800 <= hi <= 0xDBFF && 0xDC00 <= lo <= 0xDFFF
    ensures 0x10000 <= cp <= 0x10FFFF
  {
    0x10000 + (hi - 0xD800) * 1024 + (lo - 0xDC00)
  }

  function FromWide(w: seq<Unit>): seq<Byte> {
    if w == [] then []
    else if PairAt(w) then Utf8(Sanitize(Combine(w[0], w[1]))) + FromWide(w[2..])
    else Utf8(Sanitize(w[0])) + FromWide(w[1..])
  }

  method AppendUtf8(out: seq<Byte>, cp: nat) returns (r: seq<Byte>)
    ensures r == out + Utf8(Sanitize(cp))
  {
    var c := cp;
    if c > 0x10FFFF || (c >= 0xD800 && c <= 0xDFFF) { c := REPLACEMENT; }
    r := out;
    if c < 0x80 {
      r := r + [c];
    } else if c < 0x800 {
      r := r + [0xC0 + c / 64];
      r := r + [0x80 + c % 64];
    } else if c < 0x10000 {
      r := r + [0xE0 + c / 4096];
      r := r + [0x80 + c / 64 % 64];
      r := r + [0x80 + c % 64];
    } else {
      r := r + [0xF0 + c / 262144];
      r := r + [0x80 + c / 4096 % 64];
      r := r + [0x80 + c / 64 % 64];
      r := r + [0x80 + c % 64];
    }
  }

  /** The code point at unit `i`, a surrogate pair taken as one, and where the next one starts. */
  method NextCodePoint(w: seq<Unit>, i: nat) returns (cp: nat, next: nat)
    requires i < |w|
    ensures i < next <= |w|
    ensures FromWide(w[i..]) == Utf8(Sanitize(cp)) + FromWide(w[next..])
  {
    hide Utf8, Sanitize;
    cp, next := w[i], i;
    ghost var t := w[i..];
    assert PairAt(t) ==> t[2..] == w[i + 2..];
    assert t[1..] == w[i + 1..];
    if cp >= 0xD800 && cp <= 0xDBFF && i + 1 < |w| {
      var lo := w[i + 1];
      if lo >= 0xDC00 && lo <= 0xDFFF {
        cp := Combine(cp, lo);
        next := next + 1;
      }
    }
    next := next + 1;
  }

  method WideToUtf8(w: seq<Unit>) returns (out: seq<Byte>)
    ensures out == FromWide(w)
  {
    hide Utf8, Sanitize;
    out := [];
    var i := 0;
    while i < |w|
      invariant 0 <= i <= |w| && FromWide(w) == out + FromWide(w[i..])
    {
      var cp, next := NextCodePoint(w, i);
      ghost var before, rest := out, FromWide(w[next..]);
      out := AppendUtf8(out, cp);
      assert before + (Utf8(Sanitize(cp)) + rest) == out + rest;
      i := next;
    }
  }

  // ---------------------------------------------------------------- the two undo each other

  /** Taking a code point apart into six-bit groups and putting it together. */
  lemma Groups(c: nat, a: nat, b: nat, d: nat)
    requires b < 64 && d < 64
    ensures c == a * 4096 + b * 64 + d <==> c / 4096 == a && c / 64 % 64 == b && c % 64 == d
  {
    DivDiv(c, 64, 64);
    if c == a * 4096 + b * 64 + d {
      DivModIs(c, 64, a * 64 + b, d);
      DivModIs(a * 64 + b, 64, a, b);
    }
  }

  lemma Decode2(s: seq<Byte>, a: nat, b: nat)
    requires |s| >= 2 && a < 32 && b < 64 && s[0] == 0xC0 + a && s[1] == 0x80 + b
    ensures Decode(s) == Decoded(a * 64 + b, 1)
  {
    UnfoldFold(s);
  }

  lemma Decode3(s: seq<Byte>, a: nat, b: nat, d: nat)
    requires |s| >= 3 && a < 16 && b < 64 && d < 64 && s[0] == 0xE0 + a && s[1] == 0x80 + b && s[2] == 0x80 + d
    ensures Decode(s) == Decoded(a * 4096 + b * 64 + d, 2)
  {
    DivModIs(s[0], 16, 0xE, a);
    UnfoldFold(s);
  }

  lemma Decode4(s: seq<Byte>, h: nat, a: nat, b: nat, d: nat)
    requires |s| >= 4 && h < 8 && a < 64 && b < 64 && d < 64
    requires s[0] == 0xF0 + h && s[1] == 0x80 + a && s[2] == 0x80 + b && s[3] == 0x80 + d
    ensures Decode(s) == Decoded((h * 64 + a) * 4096 + b * 64 + d, 3)
  {
    DivModIs(s[0], 8, 0x1E, h);
    DivModIs(s[1], 64, 2, a);
    DivModIs(s[2], 64, 2, b);
    DivModIs(s[3], 64, 2, d);
    UnfoldFold(s);
  }

  lemma DecodeUtf8(c: Scalar, rest: seq<Byte>)
    ensures Decode(Utf8(c) + rest) == Decoded(c, |Utf8(c)| - 1)
  {
    hide Decode;
    var s := Utf8(c) + rest;
    Groups(c, c / 4096, c / 64 % 64, c % 64);
    if c < 0x80 {
      DecodeAscii(s);
    } else if c < 0x800 {
      Decode2(s, c / 64, c % 64);
    } else if c < 0x10000 {
      Decode3(s, c / 4096, c / 64 % 64, c % 64);
    } else {
      DivDiv(c, 4096, 64);
      Decode4(s, c / 262144, c / 4096 % 64, c / 64 % 64, c % 64);
    }
  }

  lemma DecodeAscii(s: seq<Byte>)
    requires s != [] && s[0] < 0x80
    ensures Decode(s) == Decoded(s[0], 0)
  {
  }

  lemma {:induction false} ToWideText(cs: seq<Scalar>)
    ensures ToWide(Text8(cs)) == Text16(cs)
  {
    hide Decode, Utf8;
    if cs != [] {
      var first, rest := Utf8(cs[0]), Text8(cs[1..]);
      DecodeUtf8(cs[0], rest);
      Utf8NonEmpty(cs[0]);
      assert (first + rest)[|first|..] == rest;
      ToWideText(cs[1..]);
    }
  }

  lemma Utf8NonEmpty(c: Scalar)
    ensures 1 <= |Utf8(c)| <= 4
  {
  }

  lemma {:induction false} FromWideText(cs: seq<Scalar>)
    ensures FromWide(Text16(cs)) == Text8(cs)
  {
    if cs != [] {
      var rest := Text16(cs[1..]);
      assert (Utf16(cs[0]) + rest)[|Utf16(cs[0])|..] == rest;
      FromWideText(cs[1..]);
    }
  }

  lemma Utf8WellFormed(c: Scalar, rest: seq<Byte>)
    ensures WellFormedLength(Utf8(c) + rest) == |Utf8(c)|
  {
  }

  lemma {:induction false} TextWellFormed(cs: seq<Scalar>)
    ensures WellFormed8(Text8(cs)) && WellFormed16(Text16(cs))
  {
    if cs != [] {
      TextWellFormed(cs[1..]);
      Utf8WellFormed(cs[0], Text8(cs[1..]));
      assert (Utf8(cs[0]) + Text8(cs[1..]))[|Utf8(cs[0])|..] == Text8(cs[1..]);
      assert (Utf16(cs[0]) + Text16(cs[1..]))[|Utf16(cs[0])|..] == Text16(cs[1..]);
    }
  }

  lemma Three(a: nat, b: nat, d: nat) returns (c: Scalar)
    requires a < 16 && b < 64 && d < 64 && (a == 0 ==> b >= 32) && (a == 13 ==> b < 32)
    ensures Utf8(c) == [0xE0 + a, 0x80 + b, 0x80 + d]
  {
    c := a * 4096 + b * 64 + d;
    Groups(c, a, b, d);
  }

  lemma Four(h: nat, a: nat, b: nat, d: nat) returns (c: Scalar)
    requires h <= 4 && a < 64 && b < 64 && d < 64 && (h == 0 ==> a >= 16) && (h == 4 ==> a < 16)
    ensures Utf8(c) == [0xF0 + h, 0x80 + a, 0x80 + b, 0x80 + d]
  {
    c := (h * 64 + a) * 4096 + b * 64 + d;
    Groups(c, h * 64 + a, b, d);
    DivDiv(c, 4096, 64);
    DivModIs(h * 64 + a, 64, h, a);
  }

  lemma FirstScalar8(s: seq<Byte>) returns (c: Scalar)
    requires WellFormedLength(s) > 0
    ensures Utf8(c) == s[..WellFormedLength(s)]
  {
    var n := WellFormedLength(s);
    if n == 1 {
      c := s[0];
    } else if n == 2 {
      var a: int, d: int := s[0] - 0xC0, s[1] - 0x80;
      c := a * 64 + d;
      DivModIs(c, 64, a, d);
    } else if n == 3 {
      c := Three(s[0] - 0xE0, s[1] - 0x80, s[2] - 0x80);
    } else {
      c := Four(s[0] - 0xF0, s[1] - 0x80, s[2] - 0x80, s[3] - 0x80);
    }
  }

  lemma {:induction false} Scalars8(s: seq<Byte>) returns (cs: seq<Scalar>)
    requires WellFormed8(s)
    ensures Text8(cs) == s
  {
    cs := [];
    if s != [] {
      var c := FirstScalar8(s);
      var n := WellFormedLength(s);
      var tail := Scalars8(s[n..]);
      cs := [c] + tail;
      assert s == s[..n] + s[n..];
    }
  }

  lemma {:induction false} Scalars16(w: seq<Unit>) returns (cs: seq<Scalar>)
    requires WellFormed16(w)
    ensures Text16(cs) == w
  {
    cs := [];
    if w != [] {
      var pair := 0xD800 <= w[0] < 0xDC00;
      var c: Scalar := if pair then Combine(w[0], w[1]) else w[0];
      var n := if pair then 2 else 1;
      var tail := Scalars16(w[n..]);
      cs := [c] + tail;
      assert Utf16(c) == w[..n];
      assert w == w[..n] + w[n..];
    }
  }

  lemma {:induction false} FromWideIsText(w: seq<Unit>) returns (cs: seq<Scalar>)
    ensures Text8(cs) == FromWide(w)
  {
    cs := [];
    if w != [] {
      var c := if PairAt(w) then Sanitize(Combine(w[0], w[1])) else Sanitize(w[0]);
      var tail := FromWideIsText(w[if PairAt(w) then 2 else 1..]);
      cs := [c] + tail;
    }
  }

  /** UTF-8 survives the trip through UTF-16 exactly when it is well-formed. */
  lemma Utf8RoundTrip(s: seq<Byte>)
    ensures FromWide(ToWide(s)) == s <==> WellFormed8(s)
    ensures WellFormed8(s) ==> WellFormed16(ToWide(s))
  {
    if WellFormed8(s) {
      var cs := Scalars8(s);
      ToWideText(cs);
      FromWideText(cs);
      TextWellFormed(cs);
    } else {
      var cs := FromWideIsText(ToWide(s));
      TextWellFormed(cs);
    }
  }

  /** UTF-16 survives the trip through UTF-8 exactly when it is well-formed. */
  lemma Utf16RoundTrip(w: seq<Unit>)
    ensures ToWide(FromWide(w)) == w <==> WellFormed16(w)
    ensures WellFormed8(FromWide(w))
  {
    var cs := FromWideIsText(w);
    ToWideText(cs);
    TextWellFormed(cs);
    if WellFormed16(w) {
      var ds := Scalars16(w);
      FromWideText(ds);
      ToWideText(ds);
    }
  }
}
