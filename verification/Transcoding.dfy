/** What the conversions make of each piece of a text, well-formed or not (src/util.cpp:39-145). */
module Transcoding {
  import opened Text
  import opened Utf

  predicate Following(b: int) {
    0x80 <= b <= 0xBF
  }

  /** How many bytes the first one announces; none where it cannot stand first. */
  function Announced(first: Byte): nat {
    if first <= 0x7F then 1
    else if 0xC0 <= first <= 0xDF then 2
    else if 0xE0 <= first <= 0xEF then 3
    else if 0xF0 <= first <= 0xF7 then 4
    else 0
  }

  /** The bytes announced are there; this says nothing of overlong forms, surrogates or large numbers. */
  predicate Complete(s: seq<Byte>)
    requires s != []
  {
    0 < Announced(s[0]) <= |s| && forall i :: 1 <= i < Announced(s[0]) ==> Following(s[i])
  }

  /** The number that the payload bits of a complete sequence make. */
  function Number(s: seq<Byte>): int
    requires s != [] && Complete(s)
  {
    var t: seq<int> := s;
    match Announced(s[0])
    case 1 => t[0]
    case 2 => (t[0] - 0xC0) * 64 + (t[1] - 0x80)
    case 3 => (t[0] - 0xE0) * 4096 + (t[1] - 0x80) * 64 + (t[2] - 0x80)
    case _ => (t[0] - 0xF0) * 262144 + (t[1] - 0x80) * 4096 + (t[2] - 0x80) * 64 + (t[3] - 0x80)
  }

  lemma LeadIs(c: Byte)
    ensures Announced(c) == 0 ==> Lead(c) == Decoded(0xFFFD, 0)
    ensures Announced(c) == 1 ==> Lead(c) == Decoded(c, 0)
    ensures Announced(c) == 2 ==> Lead(c) == Decoded(c - 0xC0, 1)
    ensures Announced(c) == 3 ==> Lead(c) == Decoded(c - 0xE0, 2)
    ensures Announced(c) == 4 ==> Lead(c) == Decoded(c - 0xF0, 3)
  {
  }

  lemma ContinueIs(cp: nat, b: Byte)
    requires Following(b)
    ensures Continue(cp, b) == cp * 64 + (b - 0x80)
  {
  }

  lemma CompleteDecodes(s: seq<Byte>)
    requires s != [] && Complete(s)
    ensures Number(s) >= 0 && Decode(s) == Decoded(Number(s), Announced(s[0]) - 1)
  {
    hide Continue, Lead;
    LeadIs(s[0]);
    UnfoldFold(s);
    var c := Lead(s[0]).cp;
    if Announced(s[0]) > 1 {
      ContinueIs(c, s[1]);
      var d := Continue(c, s[1]);
      if Announced(s[0]) > 2 {
        ContinueIs(d, s[2]);
        if Announced(s[0]) > 3 { ContinueIs(Continue(d, s[2]), s[3]); }
      }
    }
  }

  lemma IncompleteDecodes(s: seq<Byte>)
    requires s != [] && !Complete(s)
    ensures Decode(s) == Decoded(0xFFFD, 0)
  {
    LeadIs(s[0]);
  }

  /** From bytes to code units: a complete sequence gives the units of its number, whatever the number,
      and any other byte gives U+FFFD on its own. */
  lemma BytesConvert(s: seq<Byte>)
    requires s != []
    ensures !Complete(s) ==> ToWide(s) == [0xFFFD] + ToWide(s[1..])
    ensures Complete(s) ==>
              var cp := Number(s);
              ToWide(s) == (if 0x10000 <= cp <= 0x10FFFF
                            then [0xD800 + (cp - 0x10000) / 0x400, 0xDC00 + (cp - 0x10000) % 0x400]
                            else [cp % 0x10000]) + ToWide(s[Announced(s[0])..])
  {
    hide Decode, Number;
    if Complete(s) { CompleteDecodes(s); } else { IncompleteDecodes(s); }
  }

  predicate High(x: int) {
    0xD800 <= x <= 0xDBFF
  }

  predicate Low(x: int) {
    0xDC00 <= x <= 0xDFFF
  }

  /** The character that a high and a low surrogate make. */
  function Paired(high: int, low: int): Scalar
    requires High(high) && Low(low)
  {
    0x10000 + (high - 0xD800) * 0x400 + (low - 0xDC00)
  }

  /** From code units to bytes: a high surrogate and the low one behind it give one character, any other
      surrogate gives the three bytes of U+FFFD, and any other unit its own character. */
  lemma UnitsConvert(w: seq<Unit>)
    requires w != []
    ensures FromWide(w) ==
            if High(w[0]) && |w| > 1 && Low(w[1])
            then Utf8(Paired(w[0], w[1])) + FromWide(w[2..])
            else if High(w[0]) || Low(w[0]) then [0xEF, 0xBF, 0xBD] + FromWide(w[1..])
            else Utf8(w[0]) + FromWide(w[1..])
  {
    hide Utf8;
    ReplacementBytes();
    if PairAt(w) {
      PairedCombines(w[0], w[1]);
    } else {
      SanitizeIs(w[0]);
    }
  }

  lemma ReplacementBytes()
    ensures Utf8(0xFFFD) == [0xEF, 0xBF, 0xBD]
  {
  }

  lemma PairedCombines(high: int, low: int)
    requires High(high) && Low(low)
    ensures Sanitize(Combine(high, low)) == Paired(high, low)
  {
  }

  lemma SanitizeIs(x: Unit)
    ensures Sanitize(x) == if High(x) || Low(x) then 0xFFFD else x
  {
  }
}
