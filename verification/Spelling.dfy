/** What a written condition may be made of, letter by letter: names, numbers and keywords that the
    tokenizer takes for one token each (src/sql_parser.cpp:27-118). */
module Spelling {
  import opened Wrappers
  import opened Text
  import opened Scanning
  import opened SqlTokenizer
  import P = SqlPrinter
  import S = Soql

  predicate NameStart(c: char) {
    'a' <= c <= 'z' || 'A' <= c <= 'Z' || c == '_' || c as int >= 128
  }

  predicate NamePart(c: char) {
    NameStart(c) || '0' <= c <= '9' || c == '$'
  }

  /** A name written without quotes. */
  predicate NameText(name: string) {
    name != "" && NameStart(name[0]) && forall i :: 0 <= i < |name| ==> NamePart(name[i])
  }

  predicate Figure(c: char) {
    '0' <= c <= '9'
  }

  /** Digits and points, the first of them a digit or a point before a digit. */
  predicate Mantissa(m: string) {
    m != "" && (forall i :: 0 <= i < |m| ==> Figure(m[i]) || m[i] == '.') &&
    (Figure(m[0]) || (|m| > 1 && Figure(m[1])))
  }

  /** Nothing, or `e` in either case, an optional sign and digits. */
  predicate Exponent(e: string) {
    e == "" ||
    ((e[0] == 'e' || e[0] == 'E') &&
     var k := if |e| > 1 && (e[1] == '+' || e[1] == '-') then 2 else 1;
     forall i :: k <= i < |e| ==> Figure(e[i]))
  }

  /** A number as SQL has it. */
  predicate NumberText(s: string) {
    exists k :: 0 < k <= |s| && Mantissa(s[..k]) && Exponent(s[k..])
  }

  // ---------------------------------------------------------------- one token each

  lemma NameSpellable(name: string)
    requires NameText(name)
    ensures Spellable(Token(Ident, name))
  {
  }

  lemma NumberSpellable(s: string)
    requires NumberText(s)
    ensures Spellable(Token(Number, s))
  {
    var k :| 0 < k <= |s| && Mantissa(s[..k]) && Exponent(s[k..]);
    MantissaExponent(s[..k], s[k..]);
    assert s[..k] + s[k..] == s;
  }

  lemma MantissaExponent(m: string, e: string)
    requires Mantissa(m) && Exponent(e)
    ensures NumberStart(m + e) && NumberLength(m + e) == |m + e|
  {
    var s := m + e;
    RunOver(m, e, DigitOrDot);
    assert s[0] == m[0] && (|m| > 1 ==> s[1] == m[1]);
    if e != "" {
      var k := if |e| > 1 && (e[1] == '+' || e[1] == '-') then 2 else 1;
      assert s[|m|] == e[0] && (|e| > 1 ==> s[|m| + 1] == e[1]);
      var tail := e[k..];
      assert s[|m|..] == e && tail + "" == tail;
      Dropped(s, |m|, k);
      forall i | 0 <= i < |tail| ensures IsDigit(tail[i]) {
        assert tail[i] == e[k + i];
      }
      RunOver(tail, "", IsDigit);
    }
  }

  /** A keyword in any case. */
  lemma WordSpellable(w: string, keyword: string)
    requires P.Spelled(w, keyword) && keyword != "" && forall i :: 0 <= i < |keyword| ==> 'A' <= keyword[i] <= 'Z'
    ensures Spellable(Token(Ident, w))
  {
    forall i | 0 <= i < |w| ensures IsAlpha(w[i]) {
    }
  }

  // ---------------------------------------------------------------- whole conditions

  predicate AllSpellable(ts: seq<Token>) {
    forall i :: 0 <= i < |ts| ==> Spellable(ts[i])
  }

  predicate SegmentText(s: P.Segment) {
    s.Bare? ==> NameText(s.name)
  }

  predicate TermText(t: P.Term) {
    match t
    case Path(first, more) => SegmentText(first) && forall i :: 0 <= i < |more| ==> SegmentText(more[i])
    case Mark => true
    case Value(lit) => lit.Digits? || lit.Signed? ==> NumberText(lit.s)
  }

  /** Every bare name and every number of the condition can be written as it stands. */
  predicate CondText(c: P.Cond) {
    match c
    case COr(l, r, _) => CondText(l) && CondText(r)
    case CAnd(l, r, _) => CondText(l) && CondText(r)
    case CNot(a, _) => CondText(a)
    case CParen(a) => CondText(a)
    case CCompare(a, _, _, b) => TermText(a) && TermText(b)
    case CIn(a, list, _, _) => TermText(a) && forall i :: 0 <= i < |list| ==> TermText(list[i])
    case CLike(a, b, _, _) => TermText(a) && TermText(b)
    case CBetween(a, lo, hi, _, _, _) => TermText(a) && TermText(lo) && TermText(hi)
    case CIsNull(a, _, _, _) => TermText(a)
  }

  lemma Put(t: Token, rest: seq<Token>)
    requires Spellable(t) && AllSpellable(rest)
    ensures AllSpellable([t] + rest)
  {
    hide Spellable;
  }

  lemma PutSym(s: string, rest: seq<Token>)
    requires (|s| == 1 && OneCharOp(s[0])) || (|s| == 2 && TwoCharOp(s))
    requires AllSpellable(rest)
    ensures AllSpellable([P.Sym(s)] + rest)
  {
    hide AllSpellable;
    Put(P.Sym(s), rest);
  }

  lemma PutWord(w: string, keyword: string, rest: seq<Token>)
    requires P.Spelled(w, keyword) && keyword != "" && (forall i :: 0 <= i < |keyword| ==> 'A' <= keyword[i] <= 'Z')
    requires AllSpellable(rest)
    ensures AllSpellable([P.Word(w)] + rest)
  {
    hide AllSpellable;
    WordSpellable(w, keyword);
    Put(P.Word(w), rest);
  }

  lemma SegmentSpellable(s: P.Segment)
    requires SegmentText(s)
    ensures Spellable(P.SegmentToken(s))
  {
    if s.Bare? { NameSpellable(s.name); }
  }

  lemma {:induction false} PathSpellable(more: seq<P.Segment>, rest: seq<Token>)
    requires (forall i :: 0 <= i < |more| ==> SegmentText(more[i])) && AllSpellable(rest)
    ensures AllSpellable(P.PathFront(more, rest))
  {
    hide AllSpellable, SegmentText, Spellable;
    if more != [] {
      PathSpellable(more[1..], rest);
      SegmentSpellable(more[0]);
      Put(P.SegmentToken(more[0]), P.PathFront(more[1..], rest));
      PutSym(".", [P.SegmentToken(more[0])] + P.PathFront(more[1..], rest));
    }
  }

  lemma TermSpellable(t: P.Term, rest: seq<Token>)
    requires TermText(t) && P.WritableTerm(t) && AllSpellable(rest)
    ensures AllSpellable(P.TermFront(t, rest))
  {
    hide AllSpellable, SegmentText, NumberText;
    match t
    case Path(first, more) =>
      PathSpellable(more, rest);
      SegmentSpellable(first);
      Put(P.SegmentToken(first), P.PathFront(more, rest));
    case Mark => Put(Token(ParamMark, "?"), rest);
    case Value(lit) =>
      match lit
      case NullWord(w) => PutWord(w, "NULL", rest);
      case TrueWord(w) => PutWord(w, "TRUE", rest);
      case FalseWord(w) => PutWord(w, "FALSE", rest);
      case Text(s) => Put(Token(String, s), rest);
      case Digits(s) =>
        NumberSpellable(s);
        Put(Token(Number, s), rest);
      case Signed(minus, s) =>
        NumberSpellable(s);
        Put(Token(Number, s), rest);
        PutSym(if minus then "-" else "+", [Token(Number, s)] + rest);
      case DateEscape(s) => Put(Token(DateTok, s), rest);
      case TimeEscape(s) => Put(Token(TimeTok, s), rest);
      case TsEscape(s) => Put(Token(TsTok, s), rest);
  }

  lemma {:induction false} ListSpellable(list: seq<P.Term>, rest: seq<Token>)
    requires list != [] && (forall i :: 0 <= i < |list| ==> TermText(list[i]) && P.WritableTerm(list[i]))
    requires AllSpellable(rest)
    ensures AllSpellable(P.ListFront(list, rest))
  {
    hide AllSpellable, TermText, P.WritableTerm, P.TermFront;
    if |list| == 1 {
      TermSpellable(list[0], rest);
    } else {
      ListSpellable(list[1..], rest);
      PutSym(",", P.ListFront(list[1..], rest));
      TermSpellable(list[0], [P.Sym(",")] + P.ListFront(list[1..], rest));
    }
  }

  lemma NotSpellable(no: Option<string>, rest: seq<Token>)
    requires P.SpelledNot(no) && AllSpellable(rest)
    ensures AllSpellable(P.NotFront(no, rest))
  {
    hide AllSpellable;
    if no.Some? { PutWord(no.value, "NOT", rest); }
  }

  lemma OpSpellable(op: S.CmpOp, diamond: bool, rest: seq<Token>)
    requires AllSpellable(rest)
    ensures AllSpellable([P.OpToken(op, diamond)] + rest)
  {
    hide AllSpellable;
    PutSym(P.OpToken(op, diamond).v, rest);
  }

  lemma PredicateSpellable(c: P.Cond, level: nat, rest: seq<Token>)
    requires P.IsPredicate(c) && P.Writable(c) && P.Lists(c) && CondText(c) && AllSpellable(rest)
    ensures AllSpellable(P.Front(c, level, rest))
  {
    hide AllSpellable, TermText, P.WritableTerm, P.TermFront, P.ListFront, P.NotFront, P.Spelled, P.SpelledNot;
    match c
    case CCompare(a, op, diamond, b) =>
      TermSpellable(b, rest);
      OpSpellable(op, diamond, P.TermFront(b, rest));
      TermSpellable(a, [P.OpToken(op, diamond)] + P.TermFront(b, rest));
    case CIn(a, list, no, w) =>
      PutSym(")", rest);
      ListSpellable(list, [P.Sym(")")] + rest);
      var items := P.ListFront(list, [P.Sym(")")] + rest);
      PutSym("(", items);
      PutWord(w, "IN", [P.Sym("(")] + items);
      NotSpellable(no, [P.Word(w)] + ([P.Sym("(")] + items));
      TermSpellable(a, P.NotFront(no, [P.Word(w)] + ([P.Sym("(")] + items)));
    case CLike(a, b, no, w) =>
      TermSpellable(b, rest);
      PutWord(w, "LIKE", P.TermFront(b, rest));
      NotSpellable(no, [P.Word(w)] + P.TermFront(b, rest));
      TermSpellable(a, P.NotFront(no, [P.Word(w)] + P.TermFront(b, rest)));
    case CBetween(a, lo, hi, no, w, conj) =>
      TermSpellable(hi, rest);
      PutWord(conj, "AND", P.TermFront(hi, rest));
      TermSpellable(lo, [P.Word(conj)] + P.TermFront(hi, rest));
      var tail := P.TermFront(lo, [P.Word(conj)] + P.TermFront(hi, rest));
      PutWord(w, "BETWEEN", tail);
      NotSpellable(no, [P.Word(w)] + tail);
      TermSpellable(a, P.NotFront(no, [P.Word(w)] + tail));
    case CIsNull(a, no, w, last) =>
      PutWord(last, "NULL", rest);
      NotSpellable(no, [P.Word(last)] + rest);
      PutWord(w, "IS", P.NotFront(no, [P.Word(last)] + rest));
      TermSpellable(a, [P.Word(w)] + P.NotFront(no, [P.Word(last)] + rest));
  }

  /** A condition whose names and numbers can be written is printed in tokens that can. */
  lemma {:induction false} FrontSpellable(c: P.Cond, level: nat, rest: seq<Token>)
    requires P.Writable(c) && P.Lists(c) && CondText(c) && AllSpellable(rest)
    ensures AllSpellable(P.Front(c, level, rest))
    decreases c, level
  {
    hide AllSpellable, TermText, P.WritableTerm, P.TermFront, P.ListFront, P.Spelled;
    match c
    case COr(l, r, w) =>
      if level > 0 {
        PutSym(")", rest);
        FrontSpellable(c, 0, [P.Sym(")")] + rest);
        PutSym("(", P.Front(c, 0, [P.Sym(")")] + rest));
      } else {
        FrontSpellable(r, 1, rest);
        PutWord(w, "OR", P.Front(r, 1, rest));
        FrontSpellable(l, 0, [P.Word(w)] + P.Front(r, 1, rest));
      }
    case CAnd(l, r, w) =>
      if level > 1 {
        PutSym(")", rest);
        FrontSpellable(c, 0, [P.Sym(")")] + rest);
        PutSym("(", P.Front(c, 0, [P.Sym(")")] + rest));
      } else {
        FrontSpellable(r, 2, rest);
        PutWord(w, "AND", P.Front(r, 2, rest));
        FrontSpellable(l, 1, [P.Word(w)] + P.Front(r, 2, rest));
      }
    case CNot(a, w) =>
      FrontSpellable(a, 2, rest);
      PutWord(w, "NOT", P.Front(a, 2, rest));
    case CParen(a) =>
      PutSym(")", rest);
      FrontSpellable(a, 0, [P.Sym(")")] + rest);
      PutSym("(", P.Front(a, 0, [P.Sym(")")] + rest));
    case _ => PredicateSpellable(c, level, rest);
  }

  lemma PrintSpellable(c: P.Cond)
    requires P.Writable(c) && P.Lists(c) && CondText(c)
    ensures AllSpellable(P.Print(c))
  {
    FrontSpellable(c, 0, []);
  }
}
