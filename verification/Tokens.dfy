/** Which texts are tokens, character by character (src/sql_parser.cpp:28-127). */
module Tokens {
  import opened Wrappers
  import opened Text
  import opened Scanning
  import opened SqlTokenizer

  // ---------------------------------------------------------------- characters

  /** Space, tab, line feed, vertical tab, form feed and carriage return. */
  predicate Space(c: char) {
    c == ' ' || 9 <= c as int <= 13
  }

  predicate Letter(c: char) {
    'a' <= c <= 'z' || 'A' <= c <= 'Z'
  }

  predicate Figure(c: char) {
    '0' <= c <= '9'
  }

  predicate NameStart(c: char) {
    Letter(c) || c == '_' || 0x80 <= c as int
  }

  predicate NamePart(c: char) {
    NameStart(c) || Figure(c) || c == '$'
  }

  predicate Spaces(s: string) {
    forall i :: 0 <= i < |s| ==> Space(s[i])
  }

  predicate Figures(s: string) {
    forall i :: 0 <= i < |s| ==> Figure(s[i])
  }

  predicate Starts(s: string, c: char) {
    s != "" && s[0] == c
  }

  // ---------------------------------------------------------------- tokens

  /** A text with its closing characters doubled and one behind it, in front of anything else. */
  predicate Quotes(w: string, close: char, v: string, rest: string) {
    w == Doubled(v, close) + [close] && !Starts(rest, close)
  }

  predicate Bracketed(w: string, v: string) {
    w == v + "]" && forall i :: 0 <= i < |v| ==> v[i] != ']'
  }

  predicate NameText(w: string, rest: string) {
    w != "" && NameStart(w[0]) && (forall i :: 0 <= i < |w| ==> NamePart(w[i])) && (rest == "" || !NamePart(rest[0]))
  }

  /** Digits and points, a digit first or right behind the first point. */
  predicate Mantissa(w: string) {
    w != "" && (forall i :: 0 <= i < |w| ==> Figure(w[i]) || w[i] == '.') && (Figure(w[0]) || (|w| > 1 && Figure(w[1])))
  }

  /** An E, perhaps a sign, and digits, which may be missing; nothing more of it follows. */
  predicate Exponent(w: string, rest: string) {
    (Starts(w, 'e') || Starts(w, 'E')) && (rest == "" || !Figure(rest[0])) &&
    if Starts(w[1..], '+') || Starts(w[1..], '-') then Figures(w[2..])
    else Figures(w[1..]) && (|w| == 1 ==> !Starts(rest, '+') && !Starts(rest, '-'))
  }

  predicate NumberText(w: string, rest: string) {
    (Mantissa(w) && (rest == "" || (!Figure(rest[0]) && rest[0] != '.' && rest[0] != 'e' && rest[0] != 'E'))) ||
    exists k :: 0 < k < |w| && Mantissa(w[..k]) && Exponent(w[k..], rest)
  }

  /** The word of an escape in upper and lower case letters. */
  predicate EscapeWord(w: string, kind: Tok) {
    match kind
    case DateTok => w == "d" || w == "D"
    case TimeTok => w == "t" || w == "T"
    case TsTok => w == "ts" || w == "tS" || w == "Ts" || w == "TS"
    case _ => false
  }

  /** An escape behind its opening brace: its word, its text in quotes and the closing brace, with
      blanks or none in front of each. */
  ghost predicate EscapeIs(w: string, kind: Tok, v: string) {
    exists i: nat, j: nat, k: nat, m: nat :: EscapeParts(w, kind, v, i, j, k, m)
  }

  predicate EscapeParts(w: string, kind: Tok, v: string, i: nat, j: nat, k: nat, m: nat) {
    i <= j <= k < m < |w| && Spaces(w[..i]) && EscapeWord(w[i..j], kind) && Spaces(w[j..k]) && w[k] == '\'' &&
    w[k + 1..m] == Doubled(v, '\'') + ['\''] && Spaces(w[m..|w| - 1]) && w[|w| - 1] == '}'
  }

  predicate Pair(s: string) {
    s == "<=" || s == ">=" || s == "<>" || s == "!="
  }

  predicate Single(c: char) {
    c in {'=', '<', '>', '(', ')', ',', '.', '*', ';', '-', '+', '\0'}
  }

  /** One of the operators, where it is not the start of something longer. */
  predicate Operator(w: string, rest: string) {
    Pair(w) ||
    (|w| == 1 && Single(w[0]) && (rest != "" ==> !Pair([w[0], rest[0]])) && !(w[0] == '-' && Starts(rest, '-')) &&
     !(w[0] == '.' && rest != "" && Figure(rest[0])))
  }

  /** The first `n` characters are the token. */
  ghost predicate TokenAt(s: string, t: Token, n: nat) {
    0 < n <= |s| &&
    match t.t
    case String => s[0] == '\'' && Quotes(s[1..n], '\'', t.v, s[n..])
    case QIdent =>
      (s[0] == '"' && Quotes(s[1..n], '"', t.v, s[n..])) || (s[0] == '`' && Quotes(s[1..n], '`', t.v, s[n..])) ||
      (s[0] == '[' && Bracketed(s[1..n], t.v))
    case Number => t.v == s[..n] && NumberText(s[..n], s[n..])
    case Ident => t.v == s[..n] && NameText(s[..n], s[n..])
    case ParamMark => t.v == s[..n] == "?"
    case Op => t.v == s[..n] && Operator(s[..n], s[n..])
    case End => false
    case _ => s[0] == '{' && EscapeIs(s[1..n], t.t, t.v)
  }

  /** No `*` with a `/` behind it from 2 up to `n`. */
  predicate Open(s: string, n: nat) {
    forall i :: 2 <= i < n && i + 1 < |s| ==> s[i] != '*' || s[i + 1] != '/'
  }

  /** The first `n` characters are a comment: to the end of the line, or to the first closing mark
      or the end of the text. */
  predicate CommentAt(s: string, n: nat) {
    2 <= n <= |s| &&
    if s[0] == '-' then s[1] == '-' && (forall i :: 0 <= i < n ==> s[i] != '\n') && (n == |s| || s[n] == '\n')
    else
      s[0] == '/' && s[1] == '*' &&
      ((4 <= n && s[n - 2] == '*' && s[n - 1] == '/' && Open(s, n - 2)) || (n == |s| && Open(s, n)))
  }

  // ---------------------------------------------------------------- runs

  lemma {:induction false} RunEnds(s: string, p: char -> bool)
    ensures var n := Run(s, p); (forall i :: 0 <= i < n ==> p(s[i])) && (n == |s| || !p(s[n]))
  {
    if s != "" && p(s[0]) {
      RunEnds(s[1..], p);
      var n := Run(s, p);
      forall i | 0 <= i < n ensures p(s[i]) {
        if i > 0 { assert s[i] == s[1..][i - 1]; }
      }
    }
  }

  lemma RunIs(s: string, n: nat, p: char -> bool)
    requires n <= |s| && (forall i :: 0 <= i < n ==> p(s[i])) && (n == |s| || !p(s[n]))
    ensures Run(s, p) == n
  {
    RunEnds(s, p);
  }

  // ---------------------------------------------------------------- quoted texts

  lemma {:induction false} QuotedIs(s: string, close: char)
    ensures match QuotedText(s, close, true)
            case Some((v, n)) => n <= |s| && Quotes(s[..n], close, v, s[n..])
            case None => forall v, n :: 0 <= n <= |s| ==> !Quotes(s[..n], close, v, s[n..])
  {
    match QuotedText(s, close, true)
    case Some((v, n)) => QuotedGives(s, close);
    case None =>
      forall v, n | 0 <= n <= |s| ensures !Quotes(s[..n], close, v, s[n..]) {
        if Quotes(s[..n], close, v, s[n..]) {
          QuotesRead(s, n, close, v);
          assert false;
        }
      }
  }

  lemma {:induction false} QuotedGives(s: string, close: char)
    requires QuotedText(s, close, true).Some?
    ensures var (v, n) := QuotedText(s, close, true).value; n <= |s| && Quotes(s[..n], close, v, s[n..])
  {
    if s[0] == close {
      if CharAt(s, 1, close) {
        QuotedGives(s[2..], close);
        var (v, n) := QuotedText(s[2..], close, true).value;
        assert s[..n + 2] == [close, close] + s[2..][..n] && s[n + 2..] == s[2..][n..];
        assert ([close] + v)[1..] == v;
        assert [close, close] + (Doubled(v, close) + [close]) == ([close, close] + Doubled(v, close)) + [close];
      } else {
        assert s[..1] == [close] && Doubled("", close) + [close] == [close];
      }
    } else {
      QuotedGives(s[1..], close);
      var (v, n) := QuotedText(s[1..], close, true).value;
      assert s[..n + 1] == [s[0]] + s[1..][..n] && s[n + 1..] == s[1..][n..];
      assert ([s[0]] + v)[1..] == v;
      assert [s[0]] + (Doubled(v, close) + [close]) == ([s[0]] + Doubled(v, close)) + [close];
    }
  }

  lemma QuotesRead(s: string, n: nat, close: char, v: string)
    requires n <= |s| && Quotes(s[..n], close, v, s[n..])
    ensures QuotedText(s, close, true) == Some((v, n))
  {
    hide QuotedText, Doubled;
    QuotedReads(v, close, s[n..]);
    assert s == s[..n] + s[n..];
    assert s == QuotedFront(v, close, s[n..]);
  }

  lemma {:induction false} BracketGives(s: string)
    ensures match QuotedText(s, ']', false)
            case Some((v, n)) => n <= |s| && Bracketed(s[..n], v)
            case None => forall i :: 0 <= i < |s| ==> s[i] != ']'
  {
    if s != "" && s[0] != ']' {
      BracketGives(s[1..]);
      match QuotedText(s[1..], ']', false)
      case Some((v, n)) => assert s[..n + 1] == [s[0]] + s[1..][..n];
      case None => assert forall i :: 0 < i < |s| ==> s[i] == s[1..][i - 1];
    }
  }

  lemma BracketRead(s: string, n: nat, v: string)
    requires n <= |s| && Bracketed(s[..n], v)
    ensures QuotedText(s, ']', false) == Some((v, n))
  {
    hide QuotedText;
    BracketGives(s);
    assert s[..n][n - 1] == s[n - 1] == ']';
    var (u, m) := QuotedText(s, ']', false).value;
    assert s[..m][m - 1] == s[m - 1] == ']';
    assert v == s[..n][..n - 1] && u == s[..n][..n - 1];
  }

  // ---------------------------------------------------------------- names and numbers

  lemma NameIs(s: string, n: nat)
    requires n <= |s|
    ensures NameText(s[..n], s[n..]) <==> s != "" && IdentStart(s[0]) && n == Run(s, IdentPart)
  {
    forall c: char ensures (NameStart(c) <==> IdentStart(c)) && (NamePart(c) <==> IdentPart(c)) {
    }
    RunEnds(s, IdentPart);
    if NameText(s[..n], s[n..]) {
      assert forall i :: 0 <= i < n ==> s[i] == s[..n][i];
      RunIs(s, n, IdentPart);
    }
  }

  lemma MantissaIs(s: string, k: nat)
    requires k <= |s|
    ensures Mantissa(s[..k]) && (k == |s| || (!Figure(s[k]) && s[k] != '.')) <==>
            NumberStart(s) && k == Run(s, DigitOrDot)
  {
    RunEnds(s, DigitOrDot);
    if Mantissa(s[..k]) && (k == |s| || (!Figure(s[k]) && s[k] != '.')) {
      assert forall i :: 0 <= i < k ==> s[i] == s[..k][i];
      RunIs(s, k, DigitOrDot);
    }
  }

  /** Where the exponent at the front of a text ends. */
  function ExponentLength(s: string): nat
    requires s != ""
  {
    var m := if CharAt(s, 1, '+') || CharAt(s, 1, '-') then 2 else 1;
    m + Run(s[m..], IsDigit)
  }

  lemma FiguresRun(s: string, m: nat, n: nat)
    requires m <= n <= |s|
    ensures Figures(s[m..n]) && (n == |s| || !Figure(s[n])) <==> n == m + Run(s[m..], IsDigit)
  {
    var t := s[m..];
    RunEnds(t, IsDigit);
    assert forall i :: 0 <= i < n - m ==> s[m..n][i] == t[i];
    if Figures(s[m..n]) && (n == |s| || !Figure(s[n])) {
      assert forall i :: 0 <= i < n - m ==> Figure(s[m..n][i]);
      assert n < |s| ==> t[n - m] == s[n];
      RunIs(t, n - m, IsDigit);
    }
  }

  lemma ExponentIs(s: string, n: nat)
    requires 0 < n <= |s|
    ensures Exponent(s[..n], s[n..]) <==> (s[0] == 'e' || s[0] == 'E') && n == ExponentLength(s)
  {
    var w := s[..n];
    assert n > 1 ==> w[1..][0] == s[1];
    assert w[1..] == s[1..n];
    if n > 1 && (s[1] == '+' || s[1] == '-') {
      assert w[2..] == s[2..n];
      FiguresRun(s, 2, n);
    } else {
      FiguresRun(s, 1, n);
    }
  }

  lemma NumberIs(s: string, n: nat)
    requires n <= |s|
    ensures NumberText(s[..n], s[n..]) <==> NumberStart(s) && n == NumberLength(s)
  {
    hide Run, Mantissa, Exponent, ExponentLength;
    if NumberText(s[..n], s[n..]) { NumberRead(s, n); }
    if NumberStart(s) && n == NumberLength(s) { NumberGives(s); }
  }

  lemma LengthIs(s: string)
    requires NumberStart(s)
    ensures var k := Run(s, DigitOrDot);
            0 < k && NumberLength(s) == if CharAt(s, k, 'e') || CharAt(s, k, 'E') then k + ExponentLength(s[k..]) else k
  {
    var k := Run(s, DigitOrDot);
    if CharAt(s, k, 'e') || CharAt(s, k, 'E') {
      var t := s[k..];
      Dropped(s, k, if CharAt(t, 1, '+') || CharAt(t, 1, '-') then 2 else 1);
    }
  }

  lemma NumberRead(s: string, n: nat)
    requires n <= |s| && NumberText(s[..n], s[n..])
    ensures NumberStart(s) && n == NumberLength(s)
  {
    hide Run, Exponent, ExponentLength, NumberLength, Mantissa, NumberStart;
    var w, rest := s[..n], s[n..];
    if Mantissa(w) && (rest == "" || (!Figure(rest[0]) && rest[0] != '.' && rest[0] != 'e' && rest[0] != 'E')) {
      MantissaIs(s, n);
      LengthIs(s);
    } else {
      var k :| 0 < k < |w| && Mantissa(w[..k]) && Exponent(w[k..], rest);
      assert w[..k] == s[..k];
      var t := s[k..];
      assert w[k..] == t[..n - k] && rest == t[n - k..];
      ExponentIs(t, n - k);
      MantissaIs(s, k);
      LengthIs(s);
    }
  }

  lemma NumberGives(s: string)
    requires NumberStart(s)
    ensures var n := NumberLength(s); NumberText(s[..n], s[n..])
  {
    hide Run, Exponent, ExponentLength, NumberLength, Mantissa, NumberStart;
    var k, n := Run(s, DigitOrDot), NumberLength(s);
    LengthIs(s);
    MantissaIs(s, k);
    if CharAt(s, k, 'e') || CharAt(s, k, 'E') {
      var t := s[k..];
      ExponentPositive(t);
      assert s[..n][..k] == s[..k] && s[..n][k..] == t[..n - k] && s[n..] == t[n - k..];
      ExponentIs(t, n - k);
    }
  }

  lemma ExponentPositive(t: string)
    requires t != ""
    ensures 0 < ExponentLength(t)
  {
  }

  // ---------------------------------------------------------------- operators and escapes

  lemma OperatorIs(s: string, n: nat)
    requires 0 < n <= |s| && !(CharAt(s, 0, '-') && CharAt(s, 1, '-')) && !NumberStart(s)
    requires s[0] != '?' && s[0] != '{'
    ensures Operator(s[..n], s[n..]) <==> ScanSymbol(s) == Ok(([Token(Op, s[..n])], n))
  {
    if n >= 2 { assert s[..n][..2] == s[..2]; }
    if |s| >= 2 { assert s[..2] == [s[0], s[1]]; }
    if n == 1 { assert s[..1] == [s[0]]; }
  }

  lemma WordIs(w: string, kind: Tok)
    ensures EscapeWord(w, kind) <==> EscapeTok(ToLower(w)) == Some(kind)
  {
    if |w| == 1 {
      assert w == [w[0]] && ToLower(w) == [Lower(w[0])];
    } else if |w| == 2 {
      assert w == [w[0], w[1]] && ToLower(w) == [Lower(w[0]), Lower(w[1])];
    }
  }

  /** The text of an escape and its closing brace, in front of which blanks may stand. */
  predicate TextParts(w: string, v: string, k: nat, m: nat) {
    k < m < |w| && Spaces(w[..k]) && w[k] == '\'' && w[k + 1..m] == Doubled(v, '\'') + ['\''] &&
    Spaces(w[m..|w| - 1]) && w[|w| - 1] == '}'
  }

  lemma SpacesRun(s: string, m: nat, n: nat)
    requires m <= n <= |s|
    ensures Spaces(s[m..n]) && (n == |s| || !Space(s[n])) <==> n == m + Run(s[m..], IsSpace)
  {
    var t := s[m..];
    RunEnds(t, IsSpace);
    assert forall i :: 0 <= i < n - m ==> s[m..n][i] == t[i];
    if Spaces(s[m..n]) && (n == |s| || !Space(s[n])) {
      assert forall i :: 0 <= i < n - m ==> Space(s[m..n][i]);
      assert n < |s| ==> t[n - m] == s[n];
      RunIs(t, n - m, IsSpace);
    }
  }

  lemma TextGives(kind: Tok, s: string) returns (k: nat, m: nat)
    requires EscapeText(kind, s).Ok?
    ensures var (t, n) := EscapeText(kind, s).value; t.t == kind && n <= |s| && TextParts(s[..n], t.v, k, m)
  {
    hide QuotedText, Run, Doubled;
    var (t, n) := EscapeText(kind, s).value;
    k := Run(s, IsSpace);
    assert s[0..] == s;
    SpacesRun(s, 0, k);
    var u := s[k + 1..];
    QuotedIs(u, '\'');
    m := k + 1 + QuotedText(u, '\'', true).value.1;
    SpacesRun(s, m, n - 1);
    var w := s[..n];
    assert w[..k] == s[0..k] && w[k + 1..m] == u[..m - k - 1] && w[m..n - 1] == s[m..n - 1];
  }

  lemma TextRead(kind: Tok, s: string, n: nat, v: string, k: nat, m: nat)
    requires n <= |s| && TextParts(s[..n], v, k, m)
    ensures EscapeText(kind, s) == Ok((Token(kind, v), n))
  {
    hide QuotedText, Run, Doubled;
    var w := s[..n];
    assert s[0..] == s && w[..k] == s[0..k];
    SpacesRun(s, 0, k);
    var u := s[k + 1..];
    assert w[k + 1..m] == u[..m - k - 1] && u[m - k - 1..] == s[m..];
    assert w[m..n - 1] == s[m..n - 1];
    SpacesRun(s, m, n - 1);
    assert m < n - 1 ==> Space(w[m..n - 1][0]);
    assert Quotes(u[..m - k - 1], '\'', v, s[m..]);
    QuotesRead(u, m - k - 1, '\'', v);
  }

  lemma LettersRun(s: string, m: nat, n: nat)
    requires m <= n <= |s|
    ensures (forall i :: m <= i < n ==> Letter(s[i])) && (n == |s| || !Letter(s[n])) <==> n == m + Run(s[m..], IsAlpha)
  {
    var t := s[m..];
    RunEnds(t, IsAlpha);
    assert forall i :: 0 <= i < n - m ==> s[m + i] == t[i];
    assert n < |s| ==> t[n - m] == s[n];
    if (forall i :: m <= i < n ==> Letter(s[i])) && (n == |s| || !Letter(s[n])) {
      RunIs(t, n - m, IsAlpha);
    } else if n == m + Run(s[m..], IsAlpha) {
      forall i | m <= i < n ensures Letter(s[i]) {
        assert IsAlpha(t[i - m]);
      }
    }
  }

  lemma EscapeGives(s: string)
    requires Escape(s).Ok?
    ensures var (t, n) := Escape(s).value;
            (t.t == DateTok || t.t == TimeTok || t.t == TsTok) && n <= |s| && EscapeIs(s[..n], t.t, t.v)
  {
    hide EscapeText, Run, EscapeTok, EscapeWord, Doubled;
    var (t, n) := Escape(s).value;
    var i := Run(s, IsSpace);
    assert s[0..] == s;
    SpacesRun(s, 0, i);
    var j := i + Run(s[i..], IsAlpha);
    var kind := EscapeTok(ToLower(s[i..j])).value;
    WordIs(s[i..j], kind);
    KindIs(ToLower(s[i..j]));
    var k, m := TextGives(kind, s[j..]);
    var w, u := s[..n], s[j..][..n - j];
    assert w[..i] == s[0..i] && w[i..j] == s[i..j];
    PartsShift(w, u, j, t.v, k, m);
    assert EscapeParts(w, kind, t.v, i, j, j + k, j + m);
  }

  lemma KindIs(word: string)
    ensures EscapeTok(word).Some? ==>
              EscapeTok(word).value == DateTok || EscapeTok(word).value == TimeTok || EscapeTok(word).value == TsTok
  {
  }

  lemma PartsShift(w: string, u: string, j: nat, v: string, k: nat, m: nat)
    requires j <= |w| && u == w[j..]
    ensures TextParts(u, v, k, m) <==>
            k < m && j + m < |w| && Spaces(w[j..j + k]) && w[j + k] == '\'' &&
            w[j + k + 1..j + m] == Doubled(v, '\'') + ['\''] && Spaces(w[j + m..|w| - 1]) && w[|w| - 1] == '}'
  {
    if k < m && j + m < |w| {
      assert u[..k] == w[j..j + k] && u[k + 1..m] == w[j + k + 1..j + m] && u[m..|u| - 1] == w[j + m..|w| - 1];
    }
  }

  /** The word of an escape is where the tokenizer looks for it. */
  lemma WordFound(s: string, w: string, i: nat, j: nat, kind: Tok)
    requires i <= j < |w| <= |s| && w == s[..|w|] && Spaces(w[..i]) && EscapeWord(w[i..j], kind)
    requires Space(w[j]) || w[j] == '\''
    ensures i == Run(s, IsSpace) && j == i + Run(s[i..], IsAlpha) && EscapeTok(ToLower(s[i..j])) == Some(kind)
  {
    hide Run, EscapeTok, EscapeWord;
    assert s[0..] == s && w[..i] == s[0..i] && w[i..j] == s[i..j];
    WordLetters(w[i..j], kind);
    assert forall x :: i <= x < j ==> s[x] == w[i..j][x - i];
    SpacesRun(s, 0, i);
    LettersRun(s, i, j);
    WordIs(w[i..j], kind);
  }

  lemma EscapeOf(s: string, kind: Tok, i: nat, j: nat, t: Token, n: nat)
    requires i <= j <= |s| && i == Run(s, IsSpace) && j == i + Run(s[i..], IsAlpha)
    requires EscapeTok(ToLower(s[i..j])) == Some(kind) && EscapeText(kind, s[j..]) == Ok((t, n))
    ensures Escape(s) == Ok((t, j + n))
  {
    hide Run, EscapeTok, EscapeText;
  }

  lemma EscapeRead(s: string, n: nat, kind: Tok, v: string)
    requires n <= |s| && EscapeIs(s[..n], kind, v)
    ensures Escape(s) == Ok((Token(kind, v), n))
  {
    hide EscapeText, Run, EscapeTok, EscapeWord, Doubled, Escape, TextParts;
    var w := s[..n];
    var i: nat, j: nat, k: nat, m: nat :| EscapeParts(w, kind, v, i, j, k, m);
    assert j < k ==> Space(w[j..k][0]);
    WordFound(s, w, i, j, kind);
    PartsShift(w, w[j..], j, v, k - j, m - j);
    assert w[j..] == s[j..][..n - j];
    TextRead(kind, s[j..], n - j, v, k - j, m - j);
    EscapeOf(s, kind, i, j, Token(kind, v), n - j);
  }

  lemma WordLetters(w: string, kind: Tok)
    requires EscapeWord(w, kind)
    ensures w != "" && (forall i :: 0 <= i < |w| ==> Letter(w[i])) && !Space(w[0])
  {
  }

  // ---------------------------------------------------------------- comments

  lemma {:induction false} CommentCloses(s: string, k: nat)
    requires 2 <= k <= |s|
    ensures var n := CommentEnd(s, k);
            (forall i :: k <= i < n - 2 ==> s[i] != '*' || s[i + 1] != '/') &&
            ((k + 2 <= n && s[n - 2] == '*' && s[n - 1] == '/') ||
             (n == |s| && forall i :: k <= i && i + 1 < |s| ==> s[i] != '*' || s[i + 1] != '/'))
    decreases |s| - k
  {
    if k < |s| && !(s[k] == '*' && CharAt(s, k + 1, '/')) { CommentCloses(s, k + 1); }
  }

  lemma LineIs(s: string, n: nat)
    requires n <= |s| && CharAt(s, 0, '-') && CharAt(s, 1, '-')
    ensures CommentAt(s, n) <==> n == Run(s, NotNewline)
  {
    RunEnds(s, NotNewline);
    if CommentAt(s, n) { RunIs(s, n, NotNewline); }
    var m := Run(s, NotNewline);
    assert m < 2 ==> !NotNewline(s[m]);
  }

  lemma BlockIs(s: string, n: nat)
    requires n <= |s| && CharAt(s, 0, '/') && CharAt(s, 1, '*')
    ensures CommentAt(s, n) <==> n == CommentEnd(s, 2)
  {
    CommentCloses(s, 2);
  }

  // ---------------------------------------------------------------- one round

  lemma QuoteGives(s: string)
    requires s != "" && Quote(s[0]) && Scan(s).Ok?
    ensures var (ts, n) := Scan(s).value; |ts| == 1 && TokenAt(s, ts[0], n)
  {
    hide QuotedText, Quotes, Bracketed;
    var u := s[1..];
    var (v, n) := QuotedText(u, Closing(s[0]), s[0] != '[').value;
    assert s[1..n + 1] == u[..n] && s[n + 1..] == u[n..];
    if s[0] == '[' { BracketGives(u); } else { QuotedIs(u, s[0]); }
  }

  lemma QuoteRead(s: string, t: Token, n: nat)
    requires TokenAt(s, t, n) && (t.t == String || t.t == QIdent)
    ensures Scan(s) == Ok(([t], n))
  {
    hide QuotedText, Quotes, Bracketed;
    var u := s[1..];
    assert s[1..n] == u[..n - 1] && s[n..] == u[n - 1..];
    if s[0] == '[' { BracketRead(u, n - 1, t.v); } else { QuotesRead(u, n - 1, s[0], t.v); }
  }

  lemma SymbolGives(s: string)
    requires s != "" && ScanSymbol(s).Ok? && !(CharAt(s, 0, '-') && CharAt(s, 1, '-')) && !NumberStart(s)
    ensures var (ts, n) := ScanSymbol(s).value; |ts| == 1 && TokenAt(s, ts[0], n)
  {
    hide Escape, Operator, EscapeIs;
    var (ts, n) := ScanSymbol(s).value;
    if s[0] == '{' {
      EscapeGives(s[1..]);
      assert s[1..n] == s[1..][..n - 1];
    } else if s[0] != '?' {
      assert s[..1] == [s[0]];
      assert ts == [Token(Op, s[..n])];
      OperatorIs(s, n);
    } else {
      assert s[..1] == "?";
    }
  }

  /** What one round takes is a token or a comment. */
  lemma ScanGives(s: string)
    requires s != "" && Scan(s).Ok?
    ensures var (ts, n) := Scan(s).value;
            |ts| <= 1 && n <= |s| && if ts == [] then CommentAt(s, n) else TokenAt(s, ts[0], n)
  {
    hide QuotedText, ScanSymbol, Run, CommentEnd, NumberLength, NameText, NumberText, CommentAt, NumberStart;
    var c := s[0];
    if c == '-' && CharAt(s, 1, '-') {
      LineIs(s, Run(s, NotNewline));
    } else if c == '/' && CharAt(s, 1, '*') {
      BlockIs(s, CommentEnd(s, 2));
    } else if Quote(c) {
      QuoteGives(s);
    } else if NumberStart(s) {
      NumberIs(s, NumberLength(s));
    } else if IdentStart(c) {
      NameIs(s, Run(s, IdentPart));
    } else {
      SymbolGives(s);
    }
  }

  lemma WordStarts(s: string, n: nat)
    requires 0 < n <= |s|
    ensures NumberText(s[..n], s[n..]) ==> Figure(s[0]) || s[0] == '.'
    ensures NameText(s[..n], s[n..]) ==> NameStart(s[0])
  {
    if NumberText(s[..n], s[n..]) { NumberRead(s, n); }
  }

  lemma WordRead(s: string, t: Token, n: nat)
    requires TokenAt(s, t, n) && (t.t == Number || t.t == Ident)
    ensures Scan(s) == Ok(([t], n))
  {
    hide QuotedText, ScanSymbol, Run, CommentEnd, NumberLength, NameText, NumberText;
    WordStarts(s, n);
    if t.t == Number { NumberIs(s, n); } else { NameIs(s, n); }
  }

  lemma OperatorStarts(s: string, n: nat)
    requires 0 < n <= |s| && Operator(s[..n], s[n..])
    ensures !(CharAt(s, 0, '-') && CharAt(s, 1, '-')) && !NumberStart(s) && s[0] != '?' && s[0] != '{' && s[0] != '/' &&
            !Quote(s[0]) && !IdentStart(s[0])
  {
    assert s[0] == s[..n][0];
    assert n < |s| ==> s[n..][0] == s[n];
  }

  lemma SymbolRead(s: string, t: Token, n: nat)
    requires TokenAt(s, t, n) && !(t.t == String || t.t == QIdent || t.t == Number || t.t == Ident)
    ensures Scan(s) == Ok(([t], n))
  {
    hide Escape, Operator, EscapeIs, QuotedText, Run, CommentEnd, NumberLength;
    if t.t == Op {
      OperatorStarts(s, n);
      OperatorIs(s, n);
    } else if t.t == ParamMark {
      assert s[..n][0] == s[0];
    } else {
      assert s[1..n] == s[1..][..n - 1];
      EscapeRead(s[1..], n - 1, t.t, t.v);
    }
  }

  lemma CommentRead(s: string, n: nat)
    requires CommentAt(s, n)
    ensures Scan(s) == Ok(([], n))
  {
    hide QuotedText, Run, CommentEnd, NumberLength, ScanSymbol;
    if s[0] == '-' { LineIs(s, n); } else { BlockIs(s, n); }
  }

  /** Behind blanks one round of the tokenizer takes exactly the token or the comment that stands there,
      and reports an error exactly where neither does. */
  lemma ScanIs(s: string)
    requires s != ""
    ensures forall t, n: nat :: Scan(s) == Ok(([t], n)) <==> TokenAt(s, t, n)
    ensures forall n: nat :: Scan(s) == Ok(([], n)) <==> CommentAt(s, n)
    ensures Scan(s).Err? <==> (forall t, n: nat :: !TokenAt(s, t, n)) && forall n: nat :: !CommentAt(s, n)
  {
    hide Scan, TokenAt, CommentAt;
    forall t, n: nat ensures Scan(s) == Ok(([t], n)) <==> TokenAt(s, t, n) {
      if TokenAt(s, t, n) { TokenRead(s, t, n); }
      if Scan(s) == Ok(([t], n)) { ScanGives(s); }
    }
    forall n: nat ensures Scan(s) == Ok(([], n)) <==> CommentAt(s, n) {
      if CommentAt(s, n) { CommentRead(s, n); }
      if Scan(s) == Ok(([], n)) { ScanGives(s); }
    }
    if Scan(s).Ok? {
      ScanGives(s);
      var (ts, n) := Scan(s).value;
      assert ts != [] ==> ts == [ts[0]];
    }
  }

  lemma TokenRead(s: string, t: Token, n: nat)
    requires TokenAt(s, t, n)
    ensures Scan(s) == Ok(([t], n))
  {
    hide Scan;
    if t.t == String || t.t == QIdent { QuoteRead(s, t, n); }
    else if t.t == Number || t.t == Ident { WordRead(s, t, n); }
    else { SymbolRead(s, t, n); }
  }

  /** A text of blanks has no tokens; any other has the token or comment behind its blanks and then
      those of the rest, or an error. */
  lemma TextIs(blanks: string, s: string, t: Token, n: nat)
    requires Spaces(blanks) && (s == "" || !Space(s[0]))
    ensures s == "" ==> Tokenize(blanks + s) == Ok([END])
    ensures TokenAt(s, t, n) ==> Tokenize(blanks + s) == Prepend([t], Tokenize(s[n..]))
    ensures CommentAt(s, n) ==> Tokenize(blanks + s) == Prepend([], Tokenize(s[n..]))
    ensures s != "" && (forall u, m: nat :: !TokenAt(s, u, m)) && (forall m: nat :: !CommentAt(s, m)) ==>
              Tokenize(blanks + s) == Err("42000")
  {
    hide Scan, Run;
    RunIs(blanks + s, |blanks|, IsSpace);
    assert (blanks + s)[|blanks|..] == s;
    if s != "" {
      ScanIs(s);
      hide TokenAt, CommentAt;
    }
  }
}
