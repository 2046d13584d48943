/** The mock org's reader gets back the condition the driver spelled. */
module SoqlReading {
  import opened Wrappers
  import opened Text
  import opened Soql

  // ---------------------------------------------------------------- what can be read back

  /** What may follow an operand in a condition. */
  predicate Delimited(rest: string) {
    rest == "" || rest[0] == ' ' || rest[0] == ')' || rest[0] == ','
  }

  /** No number goes on with `rest`. */
  predicate EndsNumber(rest: string) {
    rest == "" || !(IsDigit(rest[0]) || rest[0] == '.' || rest[0] == '-' || rest[0] == ':')
  }

  predicate Word(w: string) {
    w != "" && WordStart(w[0]) && forall i :: 0 <= i < |w| ==> WordChar(w[i])
  }

  predicate FieldName(f: string) {
    Word(f) && !IEquals(f, "NOT")
  }

  predicate NumberForm(t: string) {
    NumberEnd(t) > 0 && NumberEnd(t) == |t|
  }

  predicate DayForm(t: string) {
    |t| == 10 && DateShape(t)
  }

  predicate MomentForm(t: string) {
    |t| == 20 && DateShape(t) && t[10] == 'T' && TimeShape(t, 11) && t[19] == 'Z'
  }

  predicate ClockForm(t: string) {
    |t| == 13 && TimeShape(t, 0) && t[8] == '.' && DigitsAt(t, 9, 3) && t[12] == 'Z'
  }

  predicate ReadableValue(v: Value) {
    match v
    case Num(t) => NumberForm(t)
    case Day(t) => DayForm(t)
    case Moment(t) => MomentForm(t)
    case Clock(t) => ClockForm(t)
    case _ => true
  }

  predicate Readable(t: Tree<Value>) {
    match t
    case And(l, r) => Readable(l) && Readable(r)
    case Or(l, r) => Readable(l) && Readable(r)
    case Not(a) => Readable(a)
    case Compare(f, _, v) => FieldName(f) && ReadableValue(v)
    case Like(f, v) => FieldName(f) && ReadableValue(v)
    case In(f, vs) => FieldName(f) && vs != [] && forall i :: 0 <= i < |vs| ==> ReadableValue(vs[i])
    case NotIn(f, vs) => FieldName(f) && vs != [] && forall i :: 0 <= i < |vs| ==> ReadableValue(vs[i])
  }

  lemma ReadableListed(t: Tree<Value>)
    requires Readable(t)
    ensures Listed(t)
  {
  }

  // ---------------------------------------------------------------- quoted text

  function Unescaped(d: char): char {
    if d == 'n' then '\n' else if d == 'r' then '\r' else if d == 't' then '\t' else d
  }

  function Past(n: nat, rest: Option<nat>): Option<nat> {
    if rest.Some? then Some(n + rest.value) else None
  }

  lemma Pair(d: char, tail: string)
    requires d != '\n'
    ensures StringLength(['\\', d] + tail) == Past(2, StringLength(tail))
    ensures Unescape(['\\', d] + tail) == [Unescaped(d)] + Unescape(tail)
  {
    var s := ['\\', d] + tail;
    assert s[2..] == tail && s[1] == d;
  }

  lemma Single(c: char, tail: string)
    requires c != '\\' && c != '\''
    ensures StringLength([c] + tail) == Past(1, StringLength(tail))
    ensures Unescape([c] + tail) == [c] + Unescape(tail)
  {
    var s := [c] + tail;
    assert s[1..] == tail;
  }

  lemma OneEscape(c: char, tail: string)
    ensures StringLength(Escaped(c) + tail) == Past(|Escaped(c)|, StringLength(tail))
    ensures Unescape(Escaped(c) + tail) == [c] + Unescape(tail)
  {
    hide StringLength, Unescape;
    if |Escaped(c)| == 2 {
      Pair(Escaped(c)[1], tail);
    } else {
      Single(c, tail);
    }
  }

  lemma {:induction false} EscapedEnds(s: string, rest: string)
    ensures StringLength(EscapedText(s) + ("'" + rest)) == Some(|EscapedText(s)| + 1)
  {
    hide Escaped;
    if s != "" {
      var e, tail := Escaped(s[0]), EscapedText(s[1..]) + ("'" + rest);
      EscapedEnds(s[1..], rest);
      OneEscape(s[0], tail);
      assert e + tail == EscapedText(s) + ("'" + rest);
    } else {
      assert EscapedText(s) + ("'" + rest) == "'" + rest;
    }
  }

  lemma {:induction false} UnescapeEscaped(s: string)
    ensures Unescape(EscapedText(s)) == s
  {
    hide Escaped;
    if s != "" {
      UnescapeEscaped(s[1..]);
      OneEscape(s[0], EscapedText(s[1..]));
      assert s == [s[0]] + s[1..];
    }
  }

  /** However a text is quoted, the rest of the query starts right after it, and the text comes back. */
  lemma QuotedReads(s: string, rest: string)
    ensures Lex(Quoted(s) + rest) == Some((StrTok, |Quoted(s)|))
    ensures Unescape(Quoted(s)[1..|Quoted(s)| - 1]) == s
  {
    var body := EscapedText(s);
    var q := Quoted(s) + rest;
    assert q == "'" + (body + ("'" + rest));
    assert q[0] == '\'' && q[1..] == body + ("'" + rest);
    EscapedEnds(s, rest);
    assert |Quoted(s)| == |body| + 2;
    assert Quoted(s)[1..|body| + 1] == body;
    UnescapeEscaped(s);
  }

  // ---------------------------------------------------------------- one token at a time

  lemma TokenStep(t: string, kind: Kind, rest: string)
    requires t != "" && Lex(t + rest) == Some((kind, |t|))
    ensures Tokenize(t + rest) == Prepend(if kind == Space then [] else [Token(kind, t)], Tokenize(rest))
  {
    assert (t + rest)[..|t|] == t && (t + rest)[|t|..] == rest;
  }

  lemma PrependAll(a: seq<Token>, b: seq<Token>, rest: Option<seq<Token>>)
    ensures Prepend(a, Prepend(b, rest)) == Prepend(a + b, rest)
    ensures Prepend([], rest) == rest
  {
    if rest.Some? {
      assert a + (b + rest.value) == (a + b) + rest.value;
      assert [] + rest.value == rest.value;
    }
  }

  lemma {:induction false} WordRun(w: string, i: nat, rest: string)
    requires i <= |w| && forall k :: 0 <= k < |w| ==> WordChar(w[k])
    requires rest == "" || !WordChar(rest[0])
    ensures WordEnd(w + rest, i) == |w|
    decreases |w| - i
  {
    if i < |w| {
      WordRun(w, i + 1, rest);
    }
  }

  lemma WordStep(w: string, rest: string)
    requires Word(w) && (rest == "" || !WordChar(rest[0]))
    ensures Tokenize(w + rest) == Prepend([Token(IdentTok, w)], Tokenize(rest))
  {
    WordRun(w, 1, rest);
    var s := w + rest;
    assert s[0] == w[0];
    NotNumeric(s);
    TokenStep(w, IdentTok, rest);
  }

  lemma NotNumeric(s: string)
    requires s != "" && !IsDigit(s[0]) && s[0] != '-'
    ensures MomentEnd(s) == 0 && !DateShape(s) && ClockEnd(s) == 0 && NumberEnd(s) == 0
  {
    assert |s| >= 1 ==> s[0..1][0] == s[0];
    assert |s| >= 2 ==> s[0..2][0] == s[0];
    assert |s| >= 4 ==> s[0..4][0] == s[0];
  }

  lemma BlankStep(rest: string)
    requires rest != "" && !IsSpace(rest[0])
    ensures Tokenize(" " + rest) == Tokenize(rest)
  {
    assert (" " + rest)[1] == rest[0];
    TokenStep(" ", Space, rest);
    PrependAll([], [], Tokenize(rest));
  }

  lemma MarkStep(c: char, rest: string)
    requires c == '(' || c == ')' || c == ','
    ensures Tokenize([c] + rest) == Prepend([Token(OpTok, [c])], Tokenize(rest))
  {
    NotNumeric([c] + rest);
    TokenStep([c], OpTok, rest);
  }

  lemma OpStep(op: CmpOp, rest: string)
    requires rest != "" && rest[0] == ' '
    ensures Tokenize(OpText(op) + rest) == Prepend([Token(OpTok, OpText(op))], Tokenize(rest))
  {
    NotNumeric(OpText(op) + rest);
    TokenStep(OpText(op), OpTok, rest);
  }

  // ---------------------------------------------------------------- literals

  function ValueKind(v: Value): Kind {
    match v
    case Str(_) => StrTok
    case Num(_) => NumTok
    case Day(_) => DateTok
    case Moment(_) => DtTok
    case Clock(_) => TimeTok
    case _ => IdentTok
  }

  function ValueToken(v: Value): Token {
    Token(ValueKind(v), ValueText(v))
  }

  lemma DigitsKept(t: string, rest: string, i: nat, n: nat)
    ensures DigitsAt(t, i, n) ==> DigitsAt(t + rest, i, n)
    ensures DigitsAt(t + rest, i, n) && i + n <= |t| ==> DigitsAt(t, i, n)
  {
    if i + n <= |t| {
      assert (t + rest)[i..i + n] == t[i..i + n];
    }
  }

  lemma DateKept(t: string, rest: string)
    requires |t| >= 10
    ensures DateShape(t + rest) == DateShape(t)
  {
    DigitsKept(t, rest, 0, 4);
    DigitsKept(t, rest, 5, 2);
    DigitsKept(t, rest, 8, 2);
  }

  lemma TimeKept(t: string, rest: string, i: nat)
    requires |t| >= i + 8
    ensures TimeShape(t + rest, i) == TimeShape(t, i)
  {
    DigitsKept(t, rest, i, 2);
    DigitsKept(t, rest, i + 3, 2);
    DigitsKept(t, rest, i + 6, 2);
  }

  lemma DayLexes(t: string, rest: string)
    requires DayForm(t) && Delimited(rest)
    ensures Lex(t + rest) == Some((DateTok, 10))
  {
    DateKept(t, rest);
    assert IsDigit(t[0..4][0]);
  }

  lemma MomentLexes(t: string, rest: string)
    requires MomentForm(t)
    ensures Lex(t + rest) == Some((DtTok, 20))
  {
    DateKept(t, rest);
    TimeKept(t, rest, 11);
    assert IsDigit(t[0..4][0]);
  }

  lemma {:induction false} RunOver(s: string, i: nat, j: nat)
    requires i <= j <= |s| && forall k :: i <= k < j ==> IsDigit(s[k])
    requires j == |s| || !IsDigit(s[j])
    ensures DigitRun(s, i) == j
    decreases j - i
  {
    if i < j {
      RunOver(s, i + 1, j);
    }
  }

  lemma ClockLexes(t: string, rest: string)
    requires ClockForm(t)
    ensures Lex(t + rest) == Some((TimeTok, 13))
  {
    var s := t + rest;
    TimeKept(t, rest, 0);
    assert IsDigit(t[0..2][0]);
    assert s[0..2] == t[0..2];
    assert |s| >= 4 ==> s[0..4][2] == ':';
    DigitsKept(t, rest, 9, 1);
    assert t[9..12][0] == t[9] && t[9..12][1] == t[10] && t[9..12][2] == t[11];
    assert t[9..10] == [t[9]];
    RunOver(s, 9, 12);
  }

  lemma {:induction false} RunKept(t: string, rest: string, i: nat)
    requires i <= |t| && (rest == "" || !IsDigit(rest[0]))
    ensures DigitRun(t + rest, i) == DigitRun(t, i)
    decreases |t| - i
  {
    if i < |t| && IsDigit(t[i]) {
      RunKept(t, rest, i + 1);
    }
  }

  lemma RunDigits(t: string, i: nat, k: nat)
    requires i <= |t| && i <= k < DigitRun(t, i)
    ensures IsDigit(t[k])
  {
    assert t[i..DigitRun(t, i)][k - i] == t[k];
  }

  lemma NumberChars(t: string, k: nat)
    requires NumberForm(t) && k < |t|
    ensures IsDigit(t[k]) || t[k] == '.' || (k == 0 && t[k] == '-')
  {
    var i := if CharAt(t, 0, '-') then 1 else 0;
    var j := DigitRun(t, i);
    if k >= i {
      if k < j {
        RunDigits(t, i, k);
      } else if k > j {
        RunDigits(t, j + 1, k);
      }
    }
  }

  lemma NumberLexes(t: string, rest: string)
    requires NumberForm(t) && EndsNumber(rest)
    ensures Lex(t + rest) == Some((NumTok, |t|))
  {
    var s := t + rest;
    NumberKept(t, rest);
    NumberNotDate(t, rest);
    NumberChars(t, 0);
  }

  lemma NumberKept(t: string, rest: string)
    requires NumberForm(t) && EndsNumber(rest)
    ensures NumberEnd(t + rest) == |t|
  {
    var s := t + rest;
    var i := if CharAt(t, 0, '-') then 1 else 0;
    DigitsKept(t, rest, i, 1);
    RunKept(t, rest, i);
    var j := DigitRun(t, i);
    if j < |t| {
      DigitsKept(t, rest, j + 1, 1);
      RunKept(t, rest, j + 1);
    }
  }

  lemma NumberNotDate(t: string, rest: string)
    requires NumberForm(t) && EndsNumber(rest)
    ensures var s := t + rest; MomentEnd(s) == 0 && !DateShape(s) && ClockEnd(s) == 0
  {
    var s := t + rest;
    if DateShape(s) {
      assert s[0..4][3] == s[3] && s[0..4][2] == s[2] && s[0..4][1] == s[1] && s[0..4][0] == s[0];
      if |t| > 4 { NumberChars(t, 4); }
    }
    if TimeShape(s, 0) {
      assert s[0..2][1] == s[1] && s[0..2][0] == s[0];
      if |t| > 2 { NumberChars(t, 2); }
    }
  }

  lemma ValueStep(v: Value, rest: string)
    requires ReadableValue(v) && Delimited(rest)
    ensures Tokenize(ValueText(v) + rest) == Prepend([ValueToken(v)], Tokenize(rest))
    ensures ValueText(v) != "" && !IsSpace(ValueText(v)[0])
  {
    match v
    case Str(s) =>
      QuotedReads(s, rest);
      TokenStep(Quoted(s), StrTok, rest);
    case Num(t) =>
      NumberLexes(t, rest);
      NumberChars(t, 0);
      TokenStep(t, NumTok, rest);
    case Day(t) =>
      DayLexes(t, rest);
      assert IsDigit(t[0..4][0]);
      TokenStep(t, DateTok, rest);
    case Moment(t) =>
      MomentLexes(t, rest);
      assert IsDigit(t[0..4][0]);
      TokenStep(t, DtTok, rest);
    case Clock(t) =>
      ClockLexes(t, rest);
      assert IsDigit(t[0..2][0]);
      TokenStep(t, TimeTok, rest);
    case Null => WordStep("null", rest);
    case True => WordStep("true", rest);
    case False => WordStep("false", rest);
  }

  lemma ValueParses(v: Value, more: seq<Token>)
    requires ReadableValue(v)
    ensures ParseValue([ValueToken(v)] + more) == Some((v, more))
  {
    var ts := [ValueToken(v)] + more;
    assert ts[0] == ValueToken(v) && ts[1..] == more;
    match v
    case Str(s) => QuotedReads(s, "");
    case Null => LowerWords();
    case True => LowerWords();
    case False => LowerWords();
    case _ =>
  }

  lemma LowerWords()
    ensures IEquals("true", "true") && IEquals("false", "false") && IEquals("null", "null")
    ensures !IEquals("false", "true") && !IEquals("null", "true") && !IEquals("null", "false")
  {
    assert ToLower("null")[0] == 'n' && ToLower("true")[0] == 't' && ToLower("false")[0] == 'f';
  }

  // ---------------------------------------------------------------- whole conditions

  const OPEN := Token(OpTok, "(")
  const CLOSE := Token(OpTok, ")")
  const COMMA := Token(OpTok, ",")

  function Name(w: string): Token {
    Token(IdentTok, w)
  }

  function OpToken(op: CmpOp): Token {
    Token(OpTok, OpText(op))
  }

  function ListTokens(vs: seq<Value>): seq<Token>
    requires vs != []
  {
    [ValueToken(vs[0])] + if |vs| == 1 then [] else [COMMA] + ListTokens(vs[1..])
  }

  function TreeTokens(t: Tree<Value>): seq<Token>
    requires Listed(t)
  {
    match t
    case And(l, r) => [OPEN] + (TreeTokens(l) + ([Name("AND")] + (TreeTokens(r) + [CLOSE])))
    case Or(l, r) => [OPEN] + (TreeTokens(l) + ([Name("OR")] + (TreeTokens(r) + [CLOSE])))
    case Not(a) => [OPEN] + ([Name("NOT")] + (TreeTokens(a) + [CLOSE]))
    case Compare(f, op, v) => [Name(f)] + ([OpToken(op)] + [ValueToken(v)])
    case Like(f, v) => [Name(f)] + ([Name("LIKE")] + [ValueToken(v)])
    case In(f, vs) => [Name(f)] + ([Name("IN")] + ([OPEN] + (ListTokens(vs) + [CLOSE])))
    case NotIn(f, vs) => [Name(f)] + ([Name("NOT")] + ([Name("IN")] + ([OPEN] + (ListTokens(vs) + [CLOSE]))))
  }

  function NodeOf(t: Tree<Value>): Node {
    match t
    case And(l, r) => AndNode(NodeOf(l), NodeOf(r))
    case Or(l, r) => OrNode(NodeOf(l), NodeOf(r))
    case Not(a) => NotNode(NodeOf(a))
    case Compare(f, op, v) => CmpNode(f, op, v)
    case Like(f, v) => LikeNode(f, v)
    case In(f, vs) => InNode(f, vs)
    case NotIn(f, vs) => NotNode(InNode(f, vs))
  }

  /** `text` is read as the tokens `ts` in front of `rest`. */
  predicate Spells(text: string, ts: seq<Token>, rest: string) {
    Tokenize(text + rest) == Prepend(ts, Tokenize(rest))
  }

  lemma SpellsBoth(a: string, ta: seq<Token>, b: string, tb: seq<Token>, rest: string)
    requires Spells(a, ta, b + rest) && Spells(b, tb, rest)
    ensures Spells(a + b, ta + tb, rest)
  {
    assert (a + b) + rest == a + (b + rest);
    PrependAll(ta, tb, Tokenize(rest));
  }

  lemma MarkSpells(c: char, rest: string)
    requires c == '(' || c == ')' || c == ','
    ensures Spells([c], [Token(OpTok, [c])], rest)
  {
    MarkStep(c, rest);
  }

  /** `s` starts with a character that a blank may precede. */
  predicate Solid(s: string) {
    s != "" && !IsSpace(s[0])
  }

  lemma SolidFront(a: string, b: string)
    requires Solid(a)
    ensures Solid(a + b)
  {
    assert (a + b)[0] == a[0];
  }

  lemma WordSpells(w: string, rest: string)
    requires Word(w) && (rest == "" || !WordChar(rest[0]))
    ensures Spells(w, [Name(w)], rest)
  {
    WordStep(w, rest);
  }

  lemma MidSpells(w: string, rest: string)
    requires Word(w) && Solid(rest)
    ensures Spells(Mid(w), [Name(w)], rest)
  {
    assert Mid(w) + rest == " " + (w + (" " + rest));
    WordStep(w, " " + rest);
    BlankStep(rest);
    assert (w + (" " + rest))[0] == w[0];
    BlankStep(w + (" " + rest));
  }

  lemma MidOpSpells(op: CmpOp, rest: string)
    requires Solid(rest)
    ensures Spells(Mid(OpText(op)), [OpToken(op)], rest)
  {
    assert Mid(OpText(op)) + rest == " " + (OpText(op) + (" " + rest));
    OpStep(op, " " + rest);
    BlankStep(rest);
    BlankStep(OpText(op) + (" " + rest));
  }

  lemma NotBlankSpells(rest: string)
    requires Solid(rest)
    ensures Spells("NOT ", [Name("NOT")], rest)
  {
    assert "NOT " + rest == "NOT" + (" " + rest);
    WordStep("NOT", " " + rest);
    BlankStep(rest);
  }

  lemma BlankNotSpells(w: string, rest: string)
    ensures Spells(" NOT", [Name("NOT")], Mid(w) + rest)
  {
    assert " NOT" + (Mid(w) + rest) == " " + ("NOT" + (Mid(w) + rest));
    WordStep("NOT", Mid(w) + rest);
    BlankStep("NOT" + (Mid(w) + rest));
  }

  lemma ValueSpells(v: Value, rest: string)
    requires ReadableValue(v) && Delimited(rest)
    ensures Spells(ValueText(v), [ValueToken(v)], rest) && Solid(ValueText(v))
  {
    ValueStep(v, rest);
  }

  lemma {:induction false} ListSpells(vs: seq<Value>, rest: string)
    requires vs != [] && (forall i :: 0 <= i < |vs| ==> ReadableValue(vs[i])) && Delimited(rest)
    ensures Spells(ListText(vs), ListTokens(vs), rest) && Solid(ListText(vs))
  {
    hide Spells, ValueText, ReadableValue;
    var v := vs[0];
    if |vs| == 1 {
      ValueSpells(v, rest);
      assert ListText(vs) == ValueText(v) && ListTokens(vs) == [ValueToken(v)];
    } else {
      ListSpells(vs[1..], rest);
      MarkSpells(',', ListText(vs[1..]) + rest);
      SpellsBoth(",", [COMMA], ListText(vs[1..]), ListTokens(vs[1..]), rest);
      var tail := "," + ListText(vs[1..]);
      ValueSpells(v, tail + rest);
      SpellsBoth(ValueText(v), [ValueToken(v)], tail, [COMMA] + ListTokens(vs[1..]), rest);
      SolidFront(ValueText(v), tail);
    }
  }

  /** `( l word r )` */
  lemma BinarySpells(l: string, tl: seq<Token>, word: string, r: string, tr: seq<Token>, rest: string)
    requires Word(word) && Solid(r)
    requires Spells(l, tl, (Mid(word) + (r + ")")) + rest) && Spells(r, tr, ")" + rest)
    ensures Spells("(" + (l + (Mid(word) + (r + ")"))), [OPEN] + (tl + ([Name(word)] + (tr + [CLOSE]))), rest)
  {
    hide Spells, Mid;
    MarkSpells(')', rest);
    SpellsBoth(r, tr, ")", [CLOSE], rest);
    SolidFront(r, ")");
    SolidFront(r + ")", rest);
    MidSpells(word, (r + ")") + rest);
    SpellsBoth(Mid(word), [Name(word)], r + ")", tr + [CLOSE], rest);
    SpellsBoth(l, tl, Mid(word) + (r + ")"), [Name(word)] + (tr + [CLOSE]), rest);
    var body := l + (Mid(word) + (r + ")"));
    MarkSpells('(', body + rest);
    SpellsBoth("(", [OPEN], body, tl + ([Name(word)] + (tr + [CLOSE])), rest);
  }

  lemma NotSpells(a: string, ta: seq<Token>, rest: string)
    requires Solid(a) && Spells(a, ta, ")" + rest)
    ensures Spells("(" + ("NOT " + (a + ")")), [OPEN] + ([Name("NOT")] + (ta + [CLOSE])), rest)
  {
    hide Spells;
    MarkSpells(')', rest);
    SpellsBoth(a, ta, ")", [CLOSE], rest);
    SolidFront(a, ")");
    SolidFront(a + ")", rest);
    NotBlankSpells((a + ")") + rest);
    SpellsBoth("NOT ", [Name("NOT")], a + ")", ta + [CLOSE], rest);
    MarkSpells('(', ("NOT " + (a + ")")) + rest);
    SpellsBoth("(", [OPEN], "NOT " + (a + ")"), [Name("NOT")] + (ta + [CLOSE]), rest);
  }

  /** A field, a word or operator, and what it applies to. */
  lemma FieldSpells(f: string, w: string, tw: seq<Token>, tail: string, tt: seq<Token>, rest: string)
    requires FieldName(f) && Spells(Mid(w), tw, tail + rest) && Spells(tail, tt, rest)
    ensures Spells(f + (Mid(w) + tail), [Name(f)] + (tw + tt), rest) && Solid(f)
  {
    SpellsBoth(Mid(w), tw, tail, tt, rest);
    var body := Mid(w) + tail;
    assert (body + rest)[0] == ' ';
    hide Spells, Mid;
    WordSpells(f, body + rest);
    SpellsBoth(f, [Name(f)], body, tw + tt, rest);
  }

  lemma ParenListSpells(vs: seq<Value>, rest: string)
    requires vs != [] && forall i :: 0 <= i < |vs| ==> ReadableValue(vs[i])
    ensures Spells("(" + (ListText(vs) + ")"), [OPEN] + (ListTokens(vs) + [CLOSE]), rest)
  {
    hide Spells, ListText, ListTokens;
    MarkSpells(')', rest);
    ListSpells(vs, ")" + rest);
    SpellsBoth(ListText(vs), ListTokens(vs), ")", [CLOSE], rest);
    MarkSpells('(', (ListText(vs) + ")") + rest);
    SpellsBoth("(", [OPEN], ListText(vs) + ")", ListTokens(vs) + [CLOSE], rest);
  }

  lemma NotInSpells(f: string, list: string, tl: seq<Token>, rest: string)
    requires FieldName(f) && Solid(list) && Spells(list, tl, rest)
    ensures Spells(f + (" NOT" + (Mid("IN") + list)), [Name(f)] + ([Name("NOT")] + ([Name("IN")] + tl)), rest)
  {
    hide Spells, FieldName;
    SolidFront(list, rest);
    MidSpells("IN", list + rest);
    SpellsBoth(Mid("IN"), [Name("IN")], list, tl, rest);
    BlankNotSpells("IN", list + rest);
    assert Mid("IN") + (list + rest) == (Mid("IN") + list) + rest;
    SpellsBoth(" NOT", [Name("NOT")], Mid("IN") + list, [Name("IN")] + tl, rest);
    var body := " NOT" + (Mid("IN") + list);
    assert (body + rest)[0] == ' ';
    FieldIsWord(f);
    WordSpells(f, body + rest);
    SpellsBoth(f, [Name(f)], body, [Name("NOT")] + ([Name("IN")] + tl), rest);
  }

  lemma FieldIsWord(f: string)
    requires FieldName(f)
    ensures Word(f) && Solid(f)
  {
  }

  lemma KeywordWords()
    ensures Word("AND") && Word("OR") && Word("IN") && Word("LIKE")
  {
  }

  lemma {:induction false} TreeSpells(t: Tree<Value>, rest: string)
    requires Readable(t) && Listed(t) && Delimited(rest)
    ensures Spells(TreeText(t), TreeTokens(t), rest) && Solid(TreeText(t))
    decreases t, 1
  {
    hide Spells, FieldName, ReadableValue, ValueText, ListText, ListTokens;
    KeywordWords();
    match t
    case And(l, r) => JunctionSpells(t, l, "AND", r, rest);
    case Or(l, r) => JunctionSpells(t, l, "OR", r, rest);
    case Not(a) =>
      TreeSpells(a, ")" + rest);
      NotSpells(TreeText(a), TreeTokens(a), rest);
    case Compare(f, op, v) =>
      ValueSpells(v, rest);
      SolidFront(ValueText(v), rest);
      MidOpSpells(op, ValueText(v) + rest);
      FieldSpells(f, OpText(op), [OpToken(op)], ValueText(v), [ValueToken(v)], rest);
      SolidFront(f, Mid(OpText(op)) + ValueText(v));
    case Like(f, v) =>
      ValueSpells(v, rest);
      SolidFront(ValueText(v), rest);
      MidSpells("LIKE", ValueText(v) + rest);
      FieldSpells(f, "LIKE", [Name("LIKE")], ValueText(v), [ValueToken(v)], rest);
      SolidFront(f, Mid("LIKE") + ValueText(v));
    case In(f, vs) =>
      var list, tl := "(" + (ListText(vs) + ")"), [OPEN] + (ListTokens(vs) + [CLOSE]);
      ParenListSpells(vs, rest);
      SolidFront(list, rest);
      MidSpells("IN", list + rest);
      FieldSpells(f, "IN", [Name("IN")], list, tl, rest);
      SolidFront(f, Mid("IN") + list);
    case NotIn(f, vs) =>
      var list, tl := "(" + (ListText(vs) + ")"), [OPEN] + (ListTokens(vs) + [CLOSE]);
      ParenListSpells(vs, rest);
      NotInSpells(f, list, tl, rest);
      FieldIsWord(f);
      SolidFront(f, " NOT" + (Mid("IN") + list));
  }

  lemma {:induction false} JunctionSpells(t: Tree<Value>, l: Tree<Value>, word: string, r: Tree<Value>, rest: string)
    requires t == And(l, r) || t == Or(l, r)
    requires Readable(l) && Listed(l) && Readable(r) && Listed(r) && Word(word) && Delimited(rest)
    ensures Spells("(" + (TreeText(l) + (Mid(word) + (TreeText(r) + ")"))),
                   [OPEN] + (TreeTokens(l) + ([Name(word)] + (TreeTokens(r) + [CLOSE]))), rest)
    decreases t, 0
  {
    hide Spells;
    TreeSpells(r, ")" + rest);
    var after := Mid(word) + (TreeText(r) + ")");
    TreeSpells(l, after + rest);
    BinarySpells(TreeText(l), TreeTokens(l), word, TreeText(r), TreeTokens(r), rest);
  }

  // ---------------------------------------------------------------- parsing the tokens

  lemma LowerWord(w: string, x: string)
    requires |w| > 0 && |x| > 0 && Lower(w[0]) != Lower(x[0])
    ensures !IEquals(w, x)
  {
    assert ToLower(w)[0] != ToLower(x)[0];
  }

  lemma Keywords()
    ensures !IEquals("AND", "OR") && !IEquals("IN", "NOT") && !IEquals("LIKE", "NOT") && !IEquals("LIKE", "IN")
  {
    LowerWord("AND", "OR");
    LowerWord("IN", "NOT");
    LowerWord("LIKE", "NOT");
    LowerWord("LIKE", "IN");
  }

  lemma {:induction false} ListParses(vs: seq<Value>, more: seq<Token>)
    requires vs != [] && (forall i :: 0 <= i < |vs| ==> ReadableValue(vs[i]))
    requires !Expect(more, ",")
    ensures ParseValues(ListTokens(vs) + more) == Some((vs, more))
  {
    hide ParseValue, ReadableValue, ValueToken;
    var tail := (if |vs| == 1 then [] else [COMMA] + ListTokens(vs[1..])) + more;
    assert ListTokens(vs) + more == [ValueToken(vs[0])] + tail;
    ValueParses(vs[0], tail);
    if |vs| == 1 {
      assert tail == more && vs == [vs[0]];
    } else {
      ListParses(vs[1..], more);
      assert tail[1..] == ListTokens(vs[1..]) + more;
      assert vs == [vs[0]] + vs[1..];
    }
  }

  lemma InParses(f: string, vs: seq<Value>, more: seq<Token>)
    requires vs != [] && (forall i :: 0 <= i < |vs| ==> ReadableValue(vs[i]))
    ensures ParseIn(f, [OPEN] + (ListTokens(vs) + ([CLOSE] + more))) == Some((InNode(f, vs), more))
  {
    hide ParseValues, ListTokens, ReadableValue;
    var list, end := ListTokens(vs) + ([CLOSE] + more), [CLOSE] + more;
    var ts := [OPEN] + list;
    assert ts[0] == OPEN && ts[1..] == list;
    ListParses(vs, end);
    assert end[0] == CLOSE && end[1..] == more;
  }

  lemma FieldParses(f: string, ts: seq<Token>)
    requires FieldName(f)
    ensures ParseNot([Name(f)] + ts) == ParseField(f, ts)
  {
    var all := [Name(f)] + ts;
    assert all[0] == Name(f) && all[1..] == ts;
    assert f[0] != '(';
  }

  /** The tokens of a single test, apart from what follows. */
  lemma TestTokens(f: Token, op: Token, v: Token, more: seq<Token>)
    ensures [f] + ([op] + [v]) + more == [f] + ([op] + ([v] + more))
  {
  }

  lemma OpFieldParses(f: string, op: CmpOp, v: Value, more: seq<Token>)
    requires ReadableValue(v)
    ensures ParseField(f, [OpToken(op)] + ([ValueToken(v)] + more)) == Some((CmpNode(f, op, v), more))
  {
    hide ReadableValue, ParseValue, ValueToken;
    var ts := [OpToken(op)] + ([ValueToken(v)] + more);
    assert ts[0] == OpToken(op) && ts[1..] == [ValueToken(v)] + more;
    ValueParses(v, more);
  }

  lemma CompareParses(f: string, op: CmpOp, v: Value, more: seq<Token>)
    requires FieldName(f) && ReadableValue(v)
    ensures ParseNot(TreeTokens(Compare(f, op, v)) + more) == Some((CmpNode(f, op, v), more))
  {
    hide FieldName, ReadableValue, ParseValue, ParseField, ValueToken, OpToken, ParseNot;
    FieldParses(f, [OpToken(op)] + ([ValueToken(v)] + more));
    TestTokens(Name(f), OpToken(op), ValueToken(v), more);
    OpFieldParses(f, op, v, more);
  }

  lemma LikeFieldParses(f: string, v: Value, more: seq<Token>)
    requires ReadableValue(v)
    ensures ParseField(f, [Name("LIKE")] + ([ValueToken(v)] + more)) == Some((LikeNode(f, v), more))
  {
    hide ReadableValue, ParseValue, ValueToken, IEquals;
    Keywords();
    var ts := [Name("LIKE")] + ([ValueToken(v)] + more);
    assert ts[0] == Name("LIKE") && ts[1..] == [ValueToken(v)] + more;
    assert IEquals("LIKE", "LIKE") by { SameWord("LIKE"); }
    ValueParses(v, more);
  }

  lemma SameWord(w: string)
    ensures IEquals(w, w)
  {
  }

  lemma LikeParses(f: string, v: Value, more: seq<Token>)
    requires FieldName(f) && ReadableValue(v)
    ensures ParseNot(TreeTokens(Like(f, v)) + more) == Some((LikeNode(f, v), more))
  {
    hide FieldName, ReadableValue, ParseValue, ParseField, ValueToken, ParseNot;
    FieldParses(f, [Name("LIKE")] + ([ValueToken(v)] + more));
    TestTokens(Name(f), Name("LIKE"), ValueToken(v), more);
    LikeFieldParses(f, v, more);
  }

  lemma InFieldParses(f: string, list: seq<Token>)
    ensures ParseField(f, [Name("IN")] + list) == ParseIn(f, list)
    ensures ParseField(f, [Name("NOT")] + ([Name("IN")] + list)) ==
            (match ParseIn(f, list) case Some((node, rest)) => Some((NotNode(node), rest)) case None => None)
  {
    hide ParseIn;
    Keywords();
    var ts := [Name("IN")] + list;
    var us := [Name("NOT")] + ts;
    assert ts[0] == Name("IN") && ts[1..] == list;
    assert us[0] == Name("NOT") && us[1..] == ts && us[2..] == list;
  }

  lemma MemberParses(f: string, vs: seq<Value>, more: seq<Token>)
    requires FieldName(f) && vs != [] && (forall i :: 0 <= i < |vs| ==> ReadableValue(vs[i]))
    ensures ParseNot(TreeTokens(In(f, vs)) + more) == Some((InNode(f, vs), more))
    ensures ParseNot(TreeTokens(NotIn(f, vs)) + more) == Some((NotNode(InNode(f, vs)), more))
  {
    hide FieldName, ReadableValue, ParseIn, ParseField, ListTokens, ParseNot;
    var list := [OPEN] + (ListTokens(vs) + ([CLOSE] + more));
    FieldParses(f, [Name("IN")] + list);
    FieldParses(f, [Name("NOT")] + ([Name("IN")] + list));
    InFieldParses(f, list);
    InParses(f, vs, more);
    assert TreeTokens(In(f, vs)) + more == [Name(f)] + ([Name("IN")] + list);
    assert TreeTokens(NotIn(f, vs)) + more == [Name(f)] + ([Name("NOT")] + ([Name("IN")] + list));
  }

  /** Nothing after a condition is taken for a continuation of it. */
  lemma TailStops(left: Node, ts: seq<Token>)
    requires !Keyword(ts, "AND") && !Keyword(ts, "OR")
    ensures AndTail(left, ts) == Some((left, ts)) && OrTail(left, ts) == Some((left, ts))
  {
  }

  lemma LoneOr(ts: seq<Token>, node: Node, more: seq<Token>)
    requires ParseNot(ts) == Some((node, more)) && !Keyword(more, "AND") && !Keyword(more, "OR")
    ensures ParseOr(ts) == Some((node, more))
  {
    TailStops(node, more);
    assert ParseAnd(ts) == Some((node, more));
  }

  lemma ParenParses(ts: seq<Token>, node: Node, more: seq<Token>)
    requires ParseOr(ts) == Some((node, [CLOSE] + more))
    ensures ParseNot([OPEN] + ts) == Some((node, more))
  {
    var all := [OPEN] + ts;
    assert all[0] == OPEN && all[1..] == ts;
    assert ([CLOSE] + more)[0] == CLOSE && ([CLOSE] + more)[1..] == more;
  }

  lemma JunctionParses(l: Node, word: string, r: Node, ts: seq<Token>, us: seq<Token>, more: seq<Token>)
    requires word == "AND" || word == "OR"
    requires ParseNot(ts) == Some((l, [Name(word)] + us)) && ParseNot(us) == Some((r, [CLOSE] + more))
    ensures ParseOr(ts) == Some((if word == "AND" then AndNode(l, r) else OrNode(l, r), [CLOSE] + more))
  {
    Keywords();
    LowerWord("OR", "AND");
    var mid, end := [Name(word)] + us, [CLOSE] + more;
    assert mid[0] == Name(word) && mid[1..] == us;
    TailStops(r, end);
    if word == "AND" {
      TailStops(AndNode(l, r), end);
      assert AndTail(l, mid) == AndTail(AndNode(l, r), end);
      assert ParseAnd(ts) == Some((AndNode(l, r), end));
    } else {
      TailStops(OrNode(l, r), end);
      assert AndTail(l, mid) == Some((l, mid));
      assert ParseAnd(us) == Some((r, end));
      assert OrTail(l, mid) == OrTail(OrNode(l, r), end);
    }
  }

  lemma NegationParses(a: Node, ts: seq<Token>, more: seq<Token>)
    requires ParseNot(ts) == Some((a, [CLOSE] + more))
    ensures ParseOr([Name("NOT")] + ts) == Some((NotNode(a), [CLOSE] + more))
  {
    var all := [Name("NOT")] + ts;
    assert all[0] == Name("NOT") && all[1..] == ts;
    assert ParseNot(all) == Some((NotNode(a), [CLOSE] + more));
    LoneOr(all, NotNode(a), [CLOSE] + more);
  }

  lemma {:induction false} TreeParses(t: Tree<Value>, more: seq<Token>)
    requires Readable(t) && Listed(t)
    ensures ParseNot(TreeTokens(t) + more) == Some((NodeOf(t), more))
    decreases t
  {
    hide ParseNot, ParseOr, FieldName, ReadableValue;
    match t
    case And(l, r) =>
      var us := TreeTokens(r) + ([CLOSE] + more);
      TreeParses(r, [CLOSE] + more);
      TreeParses(l, [Name("AND")] + us);
      var ts := TreeTokens(l) + ([Name("AND")] + us);
      JunctionParses(NodeOf(l), "AND", NodeOf(r), ts, us, more);
      ParenParses(ts, NodeOf(t), more);
      assert TreeTokens(t) + more == [OPEN] + ts;
    case Or(l, r) =>
      var us := TreeTokens(r) + ([CLOSE] + more);
      TreeParses(r, [CLOSE] + more);
      TreeParses(l, [Name("OR")] + us);
      var ts := TreeTokens(l) + ([Name("OR")] + us);
      JunctionParses(NodeOf(l), "OR", NodeOf(r), ts, us, more);
      ParenParses(ts, NodeOf(t), more);
      assert TreeTokens(t) + more == [OPEN] + ts;
    case Not(a) =>
      var ts := TreeTokens(a) + ([CLOSE] + more);
      TreeParses(a, [CLOSE] + more);
      NegationParses(NodeOf(a), ts, more);
      ParenParses([Name("NOT")] + ts, NodeOf(t), more);
      assert TreeTokens(t) + more == [OPEN] + ([Name("NOT")] + ts);
    case Compare(f, op, v) => CompareParses(f, op, v, more);
    case Like(f, v) => LikeParses(f, v, more);
    case In(f, vs) => MemberParses(f, vs, more);
    case NotIn(f, vs) => MemberParses(f, vs, more);
  }

  /** The spelling of a condition, read with the org's grammar, is that condition. */
  lemma TreeReads(t: Tree<Value>)
    requires Readable(t)
    ensures Listed(t) && Read(TreeText(t)) == Some(NodeOf(t))
  {
    hide ParseNot, TreeText, TreeTokens, NodeOf, Readable;
    ReadableListed(t);
    TreeSpells(t, "");
    assert TreeText(t) + "" == TreeText(t);
    assert TreeTokens(t) + [] == TreeTokens(t);
    TreeParses(t, []);
    LoneOr(TreeTokens(t), NodeOf(t), []);
    assert Tokenize("") == Some([]);
  }
}
