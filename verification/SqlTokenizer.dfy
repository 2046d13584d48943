/** The SQL tokenizer (src/sql_parser.cpp), its spelling of tokens, and the proof that it reads
    every spelling back. Token positions, which only error messages use, are not kept. */
module SqlTokenizer {
  import opened Wrappers
  import opened Text
  import opened Scanning

  datatype Tok = End | Ident | QIdent | String | Number | ParamMark | Op | DateTok | TimeTok | TsTok

  datatype Token = Token(t: Tok, v: string)

  const END := Token(End, "")

  // ---------------------------------------------------------------- runs of characters

  predicate NotNewline(c: char) {
    c != '\n'
  }

  predicate DigitOrDot(c: char) {
    IsDigit(c) || c == '.'
  }

  predicate IdentStart(c: char) {
    IsAlpha(c) || c == '_' || c as int >= 0x80
  }

  predicate IdentPart(c: char) {
    IsAlpha(c) || IsDigit(c) || c == '_' || c == '$' || c as int >= 0x80
  }

  // ---------------------------------------------------------------- single tokens

  /** Quoted text whose contents start `s`, and its length with the closing character. */
  function QuotedText(s: string, close: char, doubled: bool): (r: Option<(string, nat)>)
    ensures r.Some? ==> 0 < r.value.1 <= |s|
  {
    if s == "" then None
    else if s[0] == close then
      if doubled && CharAt(s, 1, close) then
        var (v, n) :- QuotedText(s[2..], close, doubled);
        Some(([close] + v, n + 2))
      else Some(("", 1))
    else
      var (v, n) :- QuotedText(s[1..], close, doubled);
      Some(([s[0]] + v, n + 1))
  }

  /** Past the first `*` `/` at or after `k`, or the end. */
  function CommentEnd(s: string, k: nat): (n: nat)
    requires k <= |s|
    ensures k <= n <= |s|
    decreases |s| - k
  {
    if k == |s| then k
    else if s[k] == '*' && CharAt(s, k + 1, '/') then k + 2
    else CommentEnd(s, k + 1)
  }

  predicate NumberStart(s: string) {
    s != "" && (IsDigit(s[0]) || (s[0] == '.' && |s| > 1 && IsDigit(s[1])))
  }

  function NumberLength(s: string): (n: nat)
    requires NumberStart(s)
    ensures 0 < n <= |s|
  {
    var n := Run(s, DigitOrDot);
    if CharAt(s, n, 'e') || CharAt(s, n, 'E') then
      var m := if CharAt(s, n + 1, '+') || CharAt(s, n + 1, '-') then n + 2 else n + 1;
      m + Run(s[m..], IsDigit)
    else n
  }

  function EscapeTok(word: string): Option<Tok> {
    if word == "d" then Some(DateTok) else if word == "t" then Some(TimeTok)
    else if word == "ts" then Some(TsTok) else None
  }

  /** The quoted text of an escape and its closing brace. */
  function EscapeText(kind: Tok, s: string): (r: Result<(Token, nat)>)
    ensures r.Ok? ==> 0 < r.value.1 <= |s|
    ensures r.Err? ==> r.state == "42000"
  {
    var k := Run(s, IsSpace);
    if !CharAt(s, k, '\'') then Err("42000")
    else
      match QuotedText(s[k + 1..], '\'', true)
      case None => Err("42000")
      case Some((v, n)) =>
        var m := k + 1 + n;
        var e := m + Run(s[m..], IsSpace);
        if CharAt(s, e, '}') then Ok((Token(kind, v), e + 1)) else Err("42000")
  }

  /** The inside of `{word 'text'}`, closing brace included. */
  function Escape(s: string): (r: Result<(Token, nat)>)
    ensures r.Ok? ==> 0 < r.value.1 <= |s|
    ensures r.Err? ==> r.state == "42000"
  {
    var i := Run(s, IsSpace);
    var j := i + Run(s[i..], IsAlpha);
    var kind := EscapeTok(ToLower(s[i..j]));
    if kind.None? then Err("42000")
    else
      var (t, n) :- EscapeText(kind.value, s[j..]);
      Ok((t, j + n))
  }

  predicate TwoCharOp(s: string) {
    |s| >= 2 && (s[..2] == "<=" || s[..2] == ">=" || s[..2] == "<>" || s[..2] == "!=")
  }

  /** `strchr` also finds the terminating NUL. */
  predicate OneCharOp(c: char) {
    c == '=' || c == '<' || c == '>' || c == '(' || c == ')' || c == ',' || c == '.' || c == '*' || c == ';' ||
    c == '-' || c == '+' || c == '\0'
  }

  predicate Quote(c: char) {
    c == '\'' || c == '"' || c == '`' || c == '['
  }

  function Closing(c: char): char {
    if c == '[' then ']' else c
  }

  /** One round of the tokenizer's loop after blanks: the token found, if the text is not a
      comment, and how much text it took. */
  function Scan(s: string): (r: Result<(seq<Token>, nat)>)
    requires s != ""
    ensures r.Ok? ==> 0 < r.value.1 <= |s|
    ensures r.Err? ==> r.state == "42000"
  {
    var c := s[0];
    if c == '-' && CharAt(s, 1, '-') then Ok(([], Run(s, NotNewline)))
    else if c == '/' && CharAt(s, 1, '*') then Ok(([], CommentEnd(s, 2)))
    else if Quote(c) then
      match QuotedText(s[1..], Closing(c), c != '[')
      case None => Err("42000")
      case Some((v, n)) => Ok(([Token(if c == '\'' then String else QIdent, v)], n + 1))
    else if NumberStart(s) then Ok(([Token(Number, s[..NumberLength(s)])], NumberLength(s)))
    else if IdentStart(c) then Ok(([Token(Ident, s[..Run(s, IdentPart)])], Run(s, IdentPart)))
    else ScanSymbol(s)
  }

  function ScanSymbol(s: string): (r: Result<(seq<Token>, nat)>)
    requires s != ""
    ensures r.Ok? ==> 0 < r.value.1 <= |s|
    ensures r.Err? ==> r.state == "42000"
  {
    var c := s[0];
    if c == '?' then Ok(([Token(ParamMark, "?")], 1))
    else if c == '{' then
      var (t, n) :- Escape(s[1..]);
      Ok(([t], n + 1))
    else if TwoCharOp(s) then Ok(([Token(Op, s[..2])], 2))
    else if OneCharOp(c) then Ok(([Token(Op, [c])], 1))
    else Err("42000")
  }

  function Prepend(ts: seq<Token>, rest: Result<seq<Token>>): Result<seq<Token>> {
    match rest
    case Err(e) => Err(e)
    case Ok(r) => Ok(ts + r)
  }

  function Tokenize(s: string): (r: Result<seq<Token>>)
    ensures r.Err? ==> r.state == "42000"
    decreases |s|
  {
    var t := s[Run(s, IsSpace)..];
    if t == "" then Ok([END])
    else
      var (ts, n) :- Scan(t);
      Prepend(ts, Tokenize(t[n..]))
  }

  // ---------------------------------------------------------------- the tokenizer's loops

  /** A quoted text that `v`, of length `k` as written, comes before. */
  function Extended(v: string, k: nat, r: Option<(string, nat)>): Option<(string, nat)> {
    if r.None? then None else Some((v + r.value.0, k + r.value.1))
  }

  lemma ExtendedTwice(v: string, k: nat, w: string, j: nat, r: Option<(string, nat)>)
    ensures Extended(v, k, Extended(w, j, r)) == Extended(v + w, k + j, r)
  {
    if r.Some? { assert v + (w + r.value.0) == (v + w) + r.value.0; }
  }

  lemma QuotedStep(s: string, i: nat, close: char, doubled: bool)
    requires i < |s|
    ensures s[i] != close ==>
              QuotedText(s[i..], close, doubled) == Extended([s[i]], 1, QuotedText(s[i + 1..], close, doubled))
    ensures s[i] == close ==>
              QuotedText(s[i..], close, doubled) ==
              if doubled && i + 1 < |s| && s[i + 1] == close
              then Extended([close], 2, QuotedText(s[i + 2..], close, doubled))
              else Some(("", 1))
  {
    Dropped(s, i, 1);
    if i + 1 < |s| { Dropped(s, i, 2); }
  }

  /** `start` is past the opening quote. */
  method ReadQuoted(s: string, start: nat, close: char, doubled: bool) returns (r: Option<(string, nat)>)
    requires start <= |s|
    ensures r == match QuotedText(s[start..], close, doubled)
                 case None => None
                 case Some((v, n)) => Some((v, start + n))
  {
    hide QuotedText;
    var v, i := "", start;
    var whole := QuotedText(s[start..], close, doubled);
    assert whole == Extended(v, 0, whole) by { if whole.Some? { assert "" + whole.value.0 == whole.value.0; } }
    while true
      invariant start <= i <= |s| && whole == Extended(v, i - start, QuotedText(s[i..], close, doubled))
      decreases |s| - i
    {
      if i >= |s| {
        NothingQuoted(s[i..], close, doubled);
        return None;
      }
      QuotedStep(s, i, close, doubled);
      if s[i] == close {
        if doubled && i + 1 < |s| && s[i + 1] == close {
          ExtendedTwice(v, i - start, [close], 2, QuotedText(s[i + 2..], close, doubled));
          v := v + [close];
          i := i + 2;
        } else {
          assert v + "" == v;
          return Some((v, i + 1));
        }
      } else {
        ExtendedTwice(v, i - start, [s[i]], 1, QuotedText(s[i + 1..], close, doubled));
        v := v + [s[i]];
        i := i + 1;
      }
    }
  }

  lemma NothingQuoted(s: string, close: char, doubled: bool)
    requires s == ""
    ensures QuotedText(s, close, doubled) == None
  {
  }

  method SkipComment(s: string, start: nat) returns (i: nat)
    requires start + 2 <= |s|
    ensures start + 2 <= i <= |s| && i == start + CommentEnd(s[start..], 2)
  {
    i := start + 2;
    while i < |s| && !(s[i] == '*' && i + 1 < |s| && s[i + 1] == '/')
      invariant start + 2 <= i <= |s| && CommentEnd(s[start..], i - start) == CommentEnd(s[start..], 2)
    {
      i := i + 1;
    }
    if i < |s| { i := i + 2; }
  }

  method SkipNumber(s: string, start: nat) returns (i: nat)
    requires start <= |s| && NumberStart(s[start..])
    ensures start <= i <= |s| && i == start + NumberLength(s[start..])
  {
    i := SkipRun(s, start, DigitOrDot);
    if i < |s| && (s[i] == 'e' || s[i] == 'E') {
      i := i + 1;
      if i < |s| && (s[i] == '+' || s[i] == '-') { i := i + 1; }
      Dropped(s, start, i - start);
      i := SkipRun(s, i, IsDigit);
    }
  }

  method ReadEscapeText(kind: Tok, s: string, start: nat) returns (r: Result<(Token, nat)>)
    requires start <= |s|
    ensures r == match EscapeText(kind, s[start..])
                 case Err(e) => Err(e)
                 case Ok((t, n)) => Ok((t, start + n))
  {
    hide QuotedText, Run;
    var k := SkipRun(s, start, IsSpace);
    if k >= |s| || s[k] != '\'' { return Err("42000"); }
    Dropped(s, start, k + 1 - start);
    var text := ReadQuoted(s, k + 1, '\'', true);
    if text.None? { return Err("42000"); }
    var (v, m) := text.value;
    Dropped(s, start, m - start);
    var e := SkipRun(s, m, IsSpace);
    if e >= |s| || s[e] != '}' { return Err("42000"); }
    return Ok((Token(kind, v), e + 1));
  }

  method ReadEscape(s: string, start: nat) returns (r: Result<(Token, nat)>)
    requires start <= |s|
    ensures r == match Escape(s[start..])
                 case Err(e) => Err(e)
                 case Ok((t, n)) => Ok((t, start + n))
  {
    hide EscapeText, Run;
    var i := SkipRun(s, start, IsSpace);
    Dropped(s, start, i - start);
    var j := SkipRun(s, i, IsAlpha);
    Dropped(s, start, j - start);
    assert s[start..][i - start..j - start] == s[i..j];
    var kind := EscapeTok(ToLower(s[i..j]));
    if kind.None? { return Err("42000"); }
    r := ReadEscapeText(kind.value, s, j);
  }

  method ScanSymbolAt(s: string, i: nat) returns (r: Result<(seq<Token>, nat)>)
    requires i < |s|
    ensures r == match ScanSymbol(s[i..])
                 case Err(e) => Err(e)
                 case Ok((ts, n)) => Ok((ts, i + n))
  {
    hide Escape;
    var c := s[i];
    Dropped(s, i, 1);
    if c == '?' { return Ok(([Token(ParamMark, "?")], i + 1)); }
    if c == '{' {
      var e := ReadEscape(s, i + 1);
      if e.Err? { return Err(e.state); }
      return Ok(([e.value.0], e.value.1));
    }
    if i + 1 < |s| {
      var two := s[i..i + 2];
      Dropped(s, i, 2);
      if two == "<=" || two == ">=" || two == "<>" || two == "!=" { return Ok(([Token(Op, two)], i + 2)); }
    }
    if OneCharOp(c) { return Ok(([Token(Op, [c])], i + 1)); }
    return Err("42000");
  }

  /** One round of the loop, at `i`. */
  method ScanAt(s: string, i: nat) returns (r: Result<(seq<Token>, nat)>)
    requires i < |s|
    ensures r == match Scan(s[i..])
                 case Err(e) => Err(e)
                 case Ok((ts, n)) => Ok((ts, i + n))
  {
    hide QuotedText, Run, CommentEnd, NumberLength, ScanSymbol;
    var c := s[i];
    Dropped(s, i, 1);
    if c == '-' && i + 1 < |s| && s[i + 1] == '-' {
      var j := SkipRun(s, i, NotNewline);
      return Ok(([], j));
    }
    if c == '/' && i + 1 < |s| && s[i + 1] == '*' {
      var j := SkipComment(s, i);
      return Ok(([], j));
    }
    if Quote(c) {
      var q := ReadQuoted(s, i + 1, Closing(c), c != '[');
      if q.None? { return Err("42000"); }
      return Ok(([Token(if c == '\'' then String else QIdent, q.value.0)], q.value.1));
    }
    if IsDigit(c) || (c == '.' && i + 1 < |s| && IsDigit(s[i + 1])) {
      var j := SkipNumber(s, i);
      Dropped(s, i, j - i);
      return Ok(([Token(Number, s[i..j])], j));
    }
    if IdentStart(c) {
      var j := SkipRun(s, i, IdentPart);
      Dropped(s, i, j - i);
      return Ok(([Token(Ident, s[i..j])], j));
    }
    r := ScanSymbolAt(s, i);
  }

  method TokenizeText(s: string) returns (r: Result<seq<Token>>)
    ensures r == Tokenize(s)
  {
    hide Run, Scan;
    var out: seq<Token>, i := [], 0;
    assert s[0..] == s;
    assert Prepend([], Tokenize(s)) == Tokenize(s) by { PrependNothing(Tokenize(s)); }
    while true
      invariant i <= |s| && Tokenize(s) == Prepend(out, Tokenize(s[i..]))
      decreases |s| - i
    {
      var start := SkipRun(s, i, IsSpace);
      Dropped(s, i, start - i);
      if start >= |s| { break; }
      var t := ScanAt(s, start);
      if t.Err? { return Err(t.state); }
      var (ts, next) := t.value;
      Dropped(s, start, next - start);
      PrependTwice(out, ts, Tokenize(s[next..]));
      out, i := out + ts, next;
    }
    r := Ok(out + [END]);
  }

  lemma PrependNothing(r: Result<seq<Token>>)
    ensures Prepend([], r) == r
  {
    if r.Ok? { assert [] + r.value == r.value; }
  }

  lemma PrependTwice(a: seq<Token>, b: seq<Token>, r: Result<seq<Token>>)
    ensures Prepend(a, Prepend(b, r)) == Prepend(a + b, r)
  {
    if r.Ok? { assert a + (b + r.value) == (a + b) + r.value; }
  }

  // ---------------------------------------------------------------- spelling tokens

  /** The text with every `close` written twice. */
  function Doubled(v: string, close: char): string {
    if v == "" then "" else (if v[0] == close then [close, close] else [v[0]]) + Doubled(v[1..], close)
  }

  /** A doubled text, its closing character and what follows it. */
  function QuotedFront(v: string, close: char, rest: string): string {
    Doubled(v, close) + ([close] + rest)
  }

  function EscapeFront(word: string, v: string, rest: string): string {
    "{" + (word + BlankQuoted(v, "}" + rest))
  }

  predicate Spellable(t: Token) {
    match t.t
    case End => false
    case Ident => t.v != "" && IdentStart(t.v[0]) && All(t.v, IdentPart)
    case Number => NumberStart(t.v) && NumberLength(t.v) == |t.v|
    case ParamMark => t.v == "?"
    case Op => (|t.v| == 2 && TwoCharOp(t.v)) || (|t.v| == 1 && OneCharOp(t.v[0]))
    case _ => true
  }

  /** A token as it may be written, then a blank, before `rest`. */
  function SpellFront(t: Token, rest: string): string {
    match t.t
    case QIdent => ['"'] + QuotedFront(t.v, '"', " " + rest)
    case String => ['\''] + QuotedFront(t.v, '\'', " " + rest)
    case DateTok => EscapeFront("d", t.v, " " + rest)
    case TimeTok => EscapeFront("t", t.v, " " + rest)
    case TsTok => EscapeFront("ts", t.v, " " + rest)
    case _ => t.v + (" " + rest)
  }

  /** What may stand between tokens: a blank, a comment to the end of its line, or one between
      its marks. */
  datatype Filler = Blank(c: char) | LineComment(text: string) | BlockComment(text: string)

  predicate Fills(f: Filler) {
    match f
    case Blank(c) => IsSpace(c)
    case LineComment(text) => All(text, NotNewline)
    case BlockComment(text) => forall i :: 0 <= i < |text| - 1 ==> text[i] != '*' || text[i + 1] != '/'
  }

  function FillerFront(f: Filler, rest: string): string {
    match f
    case Blank(c) => [c] + rest
    case LineComment(text) => "--" + (text + ("\n" + rest))
    case BlockComment(text) => "/*" + (text + ("*/" + rest))
  }

  function GapFront(gap: seq<Filler>, rest: string): string {
    if gap == [] then rest else FillerFront(gap[0], GapFront(gap[1..], rest))
  }

  predicate Gaps(gaps: seq<seq<Filler>>) {
    forall i, j :: 0 <= i < |gaps| && 0 <= j < |gaps[i]| ==> Fills(gaps[i][j])
  }

  /** Tokens, each followed by a blank and a gap. */
  function Spell(ts: seq<Token>, gaps: seq<seq<Filler>>): string
    requires |gaps| == |ts|
  {
    if ts == [] then "" else SpellFront(ts[0], GapFront(gaps[0], Spell(ts[1..], gaps[1..])))
  }

  /** A quoted text is read back whatever it contains, as long as the closing character is not
      followed by another one. */
  lemma {:induction false} QuotedReads(v: string, close: char, rest: string)
    requires !CharAt(rest, 0, close)
    ensures QuotedText(QuotedFront(v, close, rest), close, true) == Some((v, |Doubled(v, close)| + 1))
  {
    var s := QuotedFront(v, close, rest);
    if v == "" {
      assert s == [close] + rest;
    } else {
      var tail := QuotedFront(v[1..], close, rest);
      QuotedReads(v[1..], close, rest);
      assert [v[0]] + v[1..] == v;
      if v[0] == close {
        assert s == [close, close] + tail && s[2..] == tail;
      } else {
        assert s == [v[0]] + tail && s[1..] == tail;
      }
    }
  }

  lemma QuotedRest(v: string, close: char, rest: string)
    ensures |QuotedFront(v, close, rest)| == |Doubled(v, close)| + 1 + |rest|
    ensures QuotedFront(v, close, rest)[|Doubled(v, close)| + 1..] == rest
  {
  }

  /** A SQL string literal is read as its text, whatever the text is and whatever follows it but
      another quote. */
  lemma StringReads(v: string, rest: string)
    requires !CharAt(rest, 0, '\'')
    ensures var s := ['\''] + QuotedFront(v, '\'', rest);
            Scan(s) == Ok(([Token(String, v)], |Doubled(v, '\'')| + 2)) && s[|Doubled(v, '\'')| + 2..] == rest
  {
    hide QuotedText, QuotedFront;
    QuotedReads(v, '\'', rest);
    QuotedRest(v, '\'', rest);
    var body := QuotedFront(v, '\'', rest);
    var s := ['\''] + body;
    assert s[1..] == body;
    Dropped(s, 1, |Doubled(v, '\'')| + 1);
  }

  /** One scan takes exactly the spelling of a token. */
  predicate ScansTo(s: string, t: Token, rest: string) {
    s != "" && !IsSpace(s[0]) && Scan(s).Ok? && Scan(s).value.0 == [t] && s[Scan(s).value.1..] == rest
  }

  lemma QIdentScans(v: string, rest: string)
    requires !CharAt(rest, 0, '"')
    ensures ScansTo(['"'] + QuotedFront(v, '"', rest), Token(QIdent, v), rest)
  {
    hide QuotedText, QuotedFront;
    QuotedReads(v, '"', rest);
    QuotedRest(v, '"', rest);
    var body := QuotedFront(v, '"', rest);
    var s := ['"'] + body;
    assert s[1..] == body;
    Dropped(s, 1, |Doubled(v, '"')| + 1);
  }

  lemma WordScans(v: string, rest: string)
    requires Spellable(Token(Ident, v)) && (rest == "" || !IdentPart(rest[0]))
    ensures ScansTo(v + rest, Token(Ident, v), rest)
  {
    RunOver(v, rest, IdentPart);
    var s := v + rest;
    assert s[0] == v[0] && s[..|v|] == v && s[|v|..] == rest;
  }

  lemma {:induction false} RunExtends(v: string, rest: string, p: char -> bool)
    requires rest == "" || !p(rest[0])
    ensures Run(v + rest, p) == Run(v, p)
  {
    if v == "" {
      assert v + rest == rest;
    } else {
      assert (v + rest)[1..] == v[1..] + rest;
      RunExtends(v[1..], rest, p);
    }
  }

  lemma NumberScans(v: string, rest: string)
    requires Spellable(Token(Number, v))
    ensures ScansTo(v + (" " + rest), Token(Number, v), " " + rest)
  {
    var s, tail := v + (" " + rest), " " + rest;
    NumberExtends(v, tail);
    assert s[0] == v[0] && s[..|v|] == v && s[|v|..] == tail;
  }

  lemma NumberExtends(v: string, tail: string)
    requires NumberStart(v) && tail != "" && tail[0] == ' '
    ensures NumberStart(v + tail) && NumberLength(v + tail) == NumberLength(v)
  {
    hide Run;
    RunExtends(v, tail, DigitOrDot);
    var s, n := v + tail, Run(v, DigitOrDot);
    assert s[0] == v[0] && (|v| > 1 ==> s[1] == v[1]);
    CharExtends(v, tail, n, 'e');
    CharExtends(v, tail, n, 'E');
    CharExtends(v, tail, n + 1, '+');
    CharExtends(v, tail, n + 1, '-');
    if CharAt(v, n, 'e') || CharAt(v, n, 'E') {
      var m := if CharAt(v, n + 1, '+') || CharAt(v, n + 1, '-') then n + 2 else n + 1;
      assert s[m..] == v[m..] + tail;
      RunExtends(v[m..], tail, IsDigit);
    }
  }

  lemma CharExtends(v: string, tail: string, i: nat, c: char)
    requires i <= |v| + 1 && tail != "" && tail[0] == ' ' && c != ' '
    ensures i <= |v| ==> CharAt(v + tail, i, c) == CharAt(v, i, c)
  {
  }

  lemma SymbolIsScanned(s: string)
    requires s != "" && (TwoCharOp(s) || (OneCharOp(s[0]) && CharAt(s, 1, ' ')) || s[0] == '?')
    ensures !IsSpace(s[0]) && Scan(s) == ScanSymbol(s)
  {
  }

  lemma SymbolScans(t: Token, rest: string)
    requires Spellable(t) && (t.t == Op || t.t == ParamMark)
    ensures ScansTo(t.v + (" " + rest), t, " " + rest)
  {
    hide Scan, ScanSymbol, Escape;
    var s := t.v + (" " + rest);
    assert s[|t.v|..] == " " + rest;
    if |t.v| == 2 {
      assert s[..2] == t.v && s[0] == t.v[0];
    } else {
      assert s[1] == ' ' && t.v == [t.v[0]] && s[0] == t.v[0];
    }
    SymbolIsScanned(s);
    SymbolIsRead(t, s);
  }

  lemma SymbolIsRead(t: Token, s: string)
    requires Spellable(t) && |s| > |t.v| && s[..|t.v|] == t.v
    requires t.t == ParamMark || (t.t == Op && (|t.v| == 1 ==> s[1] == ' '))
    ensures ScanSymbol(s) == Ok(([t], |t.v|))
  {
    hide Escape;
    assert s[0] == t.v[0];
    if |t.v| == 1 { assert t.v == [t.v[0]]; }
    if |t.v| == 1 && |s| >= 2 { assert s[..2] == [s[0], s[1]]; }
  }

  /** A blank, an opening quote, and the quoted text with what follows it. */
  function BlankQuoted(v: string, rest: string): string {
    [' ', '\''] + QuotedFront(v, '\'', rest)
  }

  lemma BlankQuotedShape(v: string, rest: string)
    ensures var s := BlankQuoted(v, rest);
            |s| == 3 + |Doubled(v, '\'')| + |rest| && Run(s, IsSpace) == 1 && s[1] == '\'' &&
            s[2..] == QuotedFront(v, '\'', rest) &&
            s[2 + |Doubled(v, '\'')| + 1..] == rest
  {
    hide QuotedFront, Run;
    var body := QuotedFront(v, '\'', rest);
    QuotedRest(v, '\'', rest);
    OneBlank(body);
    Dropped(BlankQuoted(v, rest), 2, |Doubled(v, '\'')| + 1);
  }

  lemma EscapeTextReads(kind: Tok, v: string, rest: string)
    ensures var s, n := BlankQuoted(v, "}" + rest), |Doubled(v, '\'')| + 3;
            EscapeText(kind, s) == Ok((Token(kind, v), n + 1)) && s[n + 1..] == rest
  {
    hide QuotedText, QuotedFront, Run, BlankQuoted;
    var end := "}" + rest;
    var s, n := BlankQuoted(v, end), |Doubled(v, '\'')| + 3;
    BlankQuotedShape(v, end);
    QuotedReads(v, '\'', end);
    NoBlank(end);
    assert end[1..] == rest;
    Dropped(s, n, 1);
  }

  lemma OneBlank(body: string)
    ensures Run([' ', '\''] + body, IsSpace) == 1
  {
    RunOver([' '], ['\''] + body, IsSpace);
    assert [' ', '\''] + body == [' '] + (['\''] + body);
  }

  lemma NoBlank(s: string)
    requires s != "" && !IsSpace(s[0])
    ensures Run(s, IsSpace) == 0
  {
  }

  lemma EscapeReads(word: string, kind: Tok, tail: string, t: Token, n: nat)
    requires EscapeTok(word) == Some(kind) && EscapeText(kind, tail) == Ok((t, n)) && n <= |tail|
    requires tail != "" && !IsAlpha(tail[0])
    ensures Escape(word + tail) == Ok((t, |word| + n)) && (word + tail)[|word| + n..] == tail[n..]
  {
    hide EscapeText, Run;
    var s := word + tail;
    NoBlank(s);
    assert s[0..] == s;
    RunOver(word, tail, IsAlpha);
    assert s[0..|word|] == word && s[|word|..] == tail;
    assert ToLower(word) == word;
    Dropped(s, |word|, n);
  }

  lemma EscapeScans(word: string, kind: Tok, v: string, rest: string)
    requires EscapeTok(word) == Some(kind)
    ensures ScansTo(EscapeFront(word, v, rest), Token(kind, v), rest)
  {
    hide BlankQuoted, Escape, EscapeTok;
    var tail, n := BlankQuoted(v, "}" + rest), |Doubled(v, '\'')| + 4;
    EscapeTextReads(kind, v, rest);
    BlankQuotedStart(v, "}" + rest);
    EscapeReads(word, kind, tail, Token(kind, v), n);
    var whole := "{" + (word + tail);
    assert whole[1..] == word + tail;
    Dropped(whole, 1, |word| + n);
  }

  lemma BlankQuotedStart(v: string, rest: string)
    ensures BlankQuoted(v, rest) != "" && BlankQuoted(v, rest)[0] == ' '
  {
  }

  lemma SpellingScans(t: Token, rest: string)
    requires Spellable(t)
    ensures ScansTo(SpellFront(t, rest), t, " " + rest)
  {
    hide Scan, QuotedFront, EscapeFront;
    match t.t
    case QIdent => QIdentScans(t.v, " " + rest);
    case String => StringReads(t.v, " " + rest);
    case DateTok => EscapeScans("d", DateTok, t.v, " " + rest);
    case TimeTok => EscapeScans("t", TimeTok, t.v, " " + rest);
    case TsTok => EscapeScans("ts", TsTok, t.v, " " + rest);
    case Ident => WordScans(t.v, " " + rest);
    case Number => NumberScans(t.v, rest);
    case _ => SymbolScans(t, rest);
  }

  lemma {:induction false} CommentCloses(text: string, tail: string, k: nat)
    requires Fills(BlockComment(text)) && k <= |text|
    ensures CommentEnd("/*" + (text + ("*/" + tail)), k + 2) == |text| + 4
    decreases |text| - k
  {
    var s := "/*" + (text + ("*/" + tail));
    if k < |text| {
      assert s[k + 2] == text[k];
      assert k + 1 < |text| ==> s[k + 3] == text[k + 1];
      CommentCloses(text, tail, k + 1);
    }
  }

  lemma LineSkipped(text: string, rest: string)
    requires Fills(LineComment(text))
    ensures Tokenize(FillerFront(LineComment(text), rest)) == Tokenize(rest)
  {
    var s, tail := FillerFront(LineComment(text), rest), "\n" + rest;
    assert s == ("--" + text) + tail;
    RunOver("--" + text, tail, NotNewline);
    assert s[|text| + 2..] == tail;
    CommentStep(s, |text| + 2);
    SpaceSkipped('\n', rest);
  }

  lemma BlockSkipped(text: string, rest: string)
    requires Fills(BlockComment(text))
    ensures Tokenize(FillerFront(BlockComment(text), rest)) == Tokenize(rest)
  {
    var s := FillerFront(BlockComment(text), rest);
    CommentCloses(text, rest, 0);
    assert s[0] == '/' && s[1] == '*' && s[|text| + 4..] == rest;
    CommentStep(s, |text| + 4);
  }

  lemma CommentStep(s: string, n: nat)
    requires s != "" && !IsSpace(s[0]) && Scan(s) == Ok(([], n))
    ensures Tokenize(s) == Tokenize(s[n..])
  {
    hide Scan;
    assert s[0..] == s && Run(s, IsSpace) == 0;
    NoTokens(Tokenize(s[n..]));
  }

  lemma NoTokens(rest: Result<seq<Token>>)
    ensures Prepend([], rest) == rest
  {
    if rest.Ok? { assert [] + rest.value == rest.value; }
  }

  /** Blanks and comments before a text do not count. */
  lemma {:induction false} GapSkipped(gap: seq<Filler>, rest: string)
    requires forall j :: 0 <= j < |gap| ==> Fills(gap[j])
    ensures Tokenize(GapFront(gap, rest)) == Tokenize(rest)
  {
    hide Tokenize;
    if gap != [] {
      GapSkipped(gap[1..], rest);
      var tail := GapFront(gap[1..], rest);
      match gap[0]
      case Blank(c) => SpaceSkipped(c, tail);
      case LineComment(text) => LineSkipped(text, tail);
      case BlockComment(text) => BlockSkipped(text, tail);
    }
  }

  /** Tokens written with any blanks and comments around them are read back as those tokens and
      End. */
  lemma {:induction false} SpellingReads(ts: seq<Token>, gaps: seq<seq<Filler>>)
    requires (forall i :: 0 <= i < |ts| ==> Spellable(ts[i])) && |gaps| == |ts| && Gaps(gaps)
    ensures Tokenize(Spell(ts, gaps)) == Ok(ts + [END])
  {
    hide Spellable, SpellFront, Tokenize, ScansTo, GapFront, Fills;
    if ts == [] {
      EmptyReads();
      assert ts + [END] == [END];
    } else {
      assert Gaps(gaps[1..]) by {
        forall i, j | 0 <= i < |gaps[1..]| && 0 <= j < |gaps[1..][i]| ensures Fills(gaps[1..][i][j]) {
          assert gaps[1..][i] == gaps[i + 1];
        }
      }
      SpellingReads(ts[1..], gaps[1..]);
      var tail := Spell(ts[1..], gaps[1..]);
      SpellingScans(ts[0], GapFront(gaps[0], tail));
      SpellStep(ts[0], Spell(ts, gaps), GapFront(gaps[0], tail));
      GapSkipped(gaps[0], tail);
      assert [ts[0]] + (ts[1..] + [END]) == ts + [END];
    }
  }

  lemma EmptyReads()
    ensures Tokenize("") == Ok([END])
  {
  }

  lemma SpellStep(t: Token, s: string, rest: string)
    requires ScansTo(s, t, " " + rest)
    ensures Tokenize(s) == Prepend([t], Tokenize(rest))
  {
    hide Scan;
    assert s[0..] == s && Run(s, IsSpace) == 0;
    SpaceSkipped(' ', rest);
  }

  lemma SpaceSkipped(c: char, rest: string)
    requires IsSpace(c)
    ensures Tokenize([c] + rest) == Tokenize(rest)
  {
    hide Scan;
    var s := [c] + rest;
    assert s[1..] == rest;
    Dropped(s, 1, Run(rest, IsSpace));
    assert Run(s, IsSpace) == 1 + Run(rest, IsSpace);
  }
}
