/** Which texts SQL_C_NUMERIC takes for numbers and what it makes of each (src/convert.cpp:84-125). */
module Decimals {
  import opened Wrappers
  import opened Text
  import opened Numeric

  predicate Numerals(s: string) {
    forall i :: 0 <= i < |s| ==> '0' <= s[i] <= '9'
  }

  /** Perhaps a sign, digits, perhaps a point and digits behind it; at least one digit. */
  predicate Spells(s: string, sign: string, whole: string, point: bool, fraction: string) {
    s == sign + (whole + (if point then "." + fraction else "")) && (sign == "" || sign == "+" || sign == "-") &&
    Numerals(whole) && Numerals(fraction) && (whole != "" || fraction != "") && (!point ==> fraction == "")
  }

  lemma SignIs(s: string, sign: string, whole: string, point: bool, fraction: string)
    requires Spells(s, sign, whole, point, fraction)
    ensures (s != [] && (s[0] == '-' || s[0] == '+')) == (sign != "") && |sign| <= 1
    ensures sign != "" ==> (s[0] == '-') == (sign == "-")
    ensures s[|sign|..] == whole + (if point then "." + fraction else "")
  {
    var body := whole + (if point then "." + fraction else "");
    assert body != [] && (body[0] == '.' || '0' <= body[0] <= '9') by {
      if whole != "" { assert body[0] == whole[0]; } else { assert body == "." + fraction; }
    }
    if sign == "" { assert s == body; }
  }

  lemma BodyParts(s: string, i: nat, whole: string, point: bool, fraction: string) returns (j: nat)
    requires i <= |s| && s[i..] == whole + (if point then "." + fraction else "")
    ensures j == i + |whole| <= |s| && s[i..j] == whole && point == (j < |s|)
    ensures point ==> s[j] == '.' && s[j + 1..] == fraction
  {
    var t := s[i..];
    j := i + |whole|;
    assert s[i..j] == t[..|whole|] == whole;
    if point {
      assert s[j] == t[|whole|];
      assert s[j + 1..] == t[|whole| + 1..];
    }
  }

  lemma BodyTaken(s: string, i: nat, whole: string, point: bool, fraction: string)
    requires i <= |s| && Numerals(whole) && Numerals(fraction) && (whole != "" || fraction != "")
    requires s[i..] == whole + (if point then "." + fraction else "") && (!point ==> fraction == "")
    ensures Unsigned(s, i) == Some((whole, fraction))
  {
    var j := BodyParts(s, i, whole, point, fraction);
    RunEnds(s, i, j);
    if point {
      assert s[j + 1..|s|] == s[j + 1..];
      RunEnds(s, j + 1, |s|);
    }
  }

  lemma SpelledSplits(s: string, sign: string, whole: string, point: bool, fraction: string)
    requires Spells(s, sign, whole, point, fraction)
    ensures SplitDecimal(s) == Some(DecimalText(sign == "-", whole, fraction))
  {
    hide Unsigned;
    SignIs(s, sign, whole, point, fraction);
    BodyTaken(s, |sign|, whole, point, fraction);
  }

  lemma UnsignedSpells(s: string, i: nat) returns (point: bool)
    requires i <= |s| && Unsigned(s, i).Some?
    ensures var (whole, fraction) := Unsigned(s, i).value;
            s[i..] == whole + (if point then "." + fraction else "") && (!point ==> fraction == "") &&
            (whole != "" || fraction != "")
  {
    var j := DigitRun(s, i);
    point := j < |s|;
    if point {
      assert s[j + 1..|s|] == s[j + 1..];
      assert s[i..] == s[i..j] + ([s[j]] + s[j + 1..]);
    }
  }

  lemma SplitSpells(s: string) returns (sign: string, whole: string, point: bool, fraction: string)
    requires SplitDecimal(s).Some?
    ensures Spells(s, sign, whole, point, fraction)
  {
    hide Unsigned;
    var i := if s != [] && (s[0] == '-' || s[0] == '+') then 1 else 0;
    sign, whole, fraction := s[..i], Unsigned(s, i).value.0, Unsigned(s, i).value.1;
    point := UnsignedSpells(s, i);
    assert s == sign + s[i..];
    assert i == 1 ==> sign == [s[0]];
  }

  /** A text is taken for a number exactly when it is spelled as one, and its parts are those it is
      spelled with. */
  lemma NumbersAccepted(s: string)
    ensures SplitDecimal(s).Some? <==> exists sign, whole, point, fraction :: Spells(s, sign, whole, point, fraction)
    ensures forall sign, whole, point, fraction :: Spells(s, sign, whole, point, fraction) ==>
              SplitDecimal(s) == Some(DecimalText(sign == "-", whole, fraction))
  {
    hide SplitDecimal, Spells;
    if SplitDecimal(s).Some? { var sign, whole, point, fraction := SplitSpells(s); }
    forall sign, whole, point, fraction | Spells(s, sign, whole, point, fraction)
      ensures SplitDecimal(s) == Some(DecimalText(sign == "-", whole, fraction))
    {
      SpelledSplits(s, sign, whole, point, fraction);
    }
  }

  /** The number of fraction digits kept: those of the column, from none to 38. */
  function Places(decimalDigits: int): (n: nat)
    ensures n <= 38 && (0 <= decimalDigits <= 38 ==> n == decimalDigits)
    ensures (decimalDigits < 0 ==> n == 0) && (decimalDigits > 38 ==> n == 38)
  {
    if decimalDigits < 0 then 0 else if decimalDigits > 38 then 38 else decimalDigits
  }

  /** The conversion of a spelled number: out of range from 2^128 on, otherwise the structure with the
      column's precision and scale, the sign of the text and the scaled number rounded down. */
  lemma SpelledConverts(s: string, sign: string, whole: string, point: bool, fraction: string, columnSize: int,
                        decimalDigits: int)
    requires Spells(s, sign, whole, point, fraction)
    ensures AllDigits(whole + fraction)
    ensures var x := Times(Value(whole + fraction), Pow10(Places(decimalDigits)));
            var one := Pow10(|fraction|);
            var out := Convert(s, columnSize, decimalDigits);
            if x / one >= 0x1_0000_0000_0000_0000_0000_0000_0000_0000 then out == Failed("22003")
            else
              out.Stored? && out.truncated == (x % one != 0) && out.ns.scale == Places(decimalDigits) &&
              out.ns.precision == (if columnSize < 1 then 1 else if columnSize > 38 then 38 else columnSize) &&
              out.ns.sign == (if sign == "-" then 0 else 1) && |out.ns.val| == 16 &&
              LittleEndian(out.ns.val) == x / one
  {
    hide Spells, SplitDecimal, Times, Pow10, LittleEndian, Bytes;
    SpelledSplits(s, sign, whole, point, fraction);
    var d := DecimalText(sign == "-", whole, fraction);
    SpelledDigits(s, sign, whole, point, fraction);
    Pow256Max();
    if Scaled(d, Places(decimalDigits)) < LIMIT { LittleEndianBytes(Scaled(d, Places(decimalDigits)), MAX_LEN); }
  }

  lemma SpelledDigits(s: string, sign: string, whole: string, point: bool, fraction: string)
    requires Spells(s, sign, whole, point, fraction)
    ensures AllDigits(whole) && AllDigits(fraction) && AllDigits(whole + fraction)
  {
  }

  /** Any other text is refused. */
  lemma UnspelledRefused(s: string, columnSize: int, decimalDigits: int)
    requires !exists sign, whole, point, fraction :: Spells(s, sign, whole, point, fraction)
    ensures Convert(s, columnSize, decimalDigits) == Failed("22018")
  {
    NumbersAccepted(s);
  }
}
