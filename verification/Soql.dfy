/** The conditions of a SOQL query: trees over field names and literal values, how the driver
    spells them, and the reader the mock org uses (tests/mock_salesforce.py). */
module Soql {
  import opened Wrappers
  import opened Text

  datatype CmpOp = Eq | Ne | Lt | Le | Gt | Ge

  function OpText(op: CmpOp): string {
    match op
    case Eq => "="
    case Ne => "!="
    case Lt => "<"
    case Le => "<="
    case Gt => ">"
    case Ge => ">="
  }

  /** A literal as written: quoted text by its contents, the others by their spelling. */
  datatype Value = Null | True | False | Str(text: string) | Num(text: string) | Day(text: string)
                 | Moment(text: string) | Clock(text: string)

  /** A condition whose operands are `V`: literals, or literals and parameter slots. */
  datatype Tree<+V> =
    | And(left: Tree<V>, right: Tree<V>)
    | Or(left: Tree<V>, right: Tree<V>)
    | Not(arg: Tree<V>)
    | Compare(field: string, op: CmpOp, value: V)
    | Like(field: string, value: V)
    | In(field: string, values: seq<V>)
    | NotIn(field: string, values: seq<V>)

  // ---------------------------------------------------------------- spelling

  function Escaped(c: char): string {
    if c == '\'' then "\\'"
    else if c == '\\' then "\\\\"
    else if c == '\n' then "\\n"
    else if c == '\r' then "\\r"
    else if c == '\t' then "\\t"
    else [c]
  }

  function EscapedText(s: string): string {
    if s == "" then "" else Escaped(s[0]) + EscapedText(s[1..])
  }

  function Quoted(s: string): string {
    "'" + (EscapedText(s) + "'")
  }

  function ValueText(v: Value): string {
    match v
    case Null => "null"
    case True => "true"
    case False => "false"
    case Str(s) => Quoted(s)
    case _ => v.text
  }

  function ListText(vs: seq<Value>): string
    requires vs != []
  {
    ValueText(vs[0]) + if |vs| == 1 then "" else "," + ListText(vs[1..])
  }

  predicate Listed<V>(t: Tree<V>) {
    match t
    case And(l, r) => Listed(l) && Listed(r)
    case Or(l, r) => Listed(l) && Listed(r)
    case Not(a) => Listed(a)
    case In(_, vs) => vs != []
    case NotIn(_, vs) => vs != []
    case _ => true
  }

  /** A word or operator between blanks. */
  function Mid(w: string): string {
    " " + (w + " ")
  }

  function TreeText(t: Tree<Value>): string
    requires Listed(t)
  {
    match t
    case And(l, r) => "(" + (TreeText(l) + (Mid("AND") + (TreeText(r) + ")")))
    case Or(l, r) => "(" + (TreeText(l) + (Mid("OR") + (TreeText(r) + ")")))
    case Not(a) => "(" + ("NOT " + (TreeText(a) + ")"))
    case Compare(f, op, v) => f + (Mid(OpText(op)) + ValueText(v))
    case Like(f, v) => f + (Mid("LIKE") + ValueText(v))
    case In(f, vs) => f + (Mid("IN") + ("(" + (ListText(vs) + ")")))
    case NotIn(f, vs) => f + (" NOT" + (Mid("IN") + ("(" + (ListText(vs) + ")"))))
  }

  // ---------------------------------------------------------------- tokens

  datatype Kind = Space | StrTok | DtTok | DateTok | TimeTok | NumTok | OpTok | IdentTok

  datatype Token = Token(kind: Kind, text: string)

  /** Length of the quoted text whose contents start `s`, closing quote included; None when it
      does not end. */
  function StringLength(s: string): (r: Option<nat>)
    ensures r.Some? ==> 0 < r.value <= |s|
  {
    if s == "" then None
    else if s[0] == '\'' then Some(1)
    else if s[0] != '\\' then
      var n :- StringLength(s[1..]);
      Some(n + 1)
    else if |s| > 1 && s[1] != '\n' then
      var n :- StringLength(s[2..]);
      Some(n + 2)
    else None
  }

  predicate DigitsAt(s: string, i: nat, n: nat) {
    i + n <= |s| && AllDigits(s[i..i + n])
  }

  /** \d{4}-\d{2}-\d{2} */
  predicate DateShape(s: string) {
    DigitsAt(s, 0, 4) && CharAt(s, 4, '-') && DigitsAt(s, 5, 2) && CharAt(s, 7, '-') && DigitsAt(s, 8, 2)
  }

  /** \d{2}:\d{2}:\d{2} at `i` */
  predicate TimeShape(s: string, i: nat) {
    DigitsAt(s, i, 2) && CharAt(s, i + 2, ':') && DigitsAt(s, i + 3, 2) && CharAt(s, i + 5, ':') &&
    DigitsAt(s, i + 6, 2)
  }

  /** Past (?:\.\d+)? at `i` */
  function FractionEnd(s: string, i: nat): nat {
    if CharAt(s, i, '.') && DigitsAt(s, i + 1, 1) then DigitRun(s, i + 1) else i
  }

  /** Past (?:Z|[+-]\d{2}:?\d{2}) at `i`; 0 when it is not there. */
  function ZoneEnd(s: string, i: nat): nat {
    if CharAt(s, i, 'Z') then i + 1
    else if (CharAt(s, i, '+') || CharAt(s, i, '-')) && DigitsAt(s, i + 1, 2) then
      var j := if CharAt(s, i + 3, ':') then i + 4 else i + 3;
      if DigitsAt(s, j, 2) then j + 2 else 0
    else 0
  }

  function MomentEnd(s: string): nat {
    if DateShape(s) && CharAt(s, 10, 'T') && TimeShape(s, 11) then ZoneEnd(s, FractionEnd(s, 19)) else 0
  }

  function ClockEnd(s: string): nat {
    if TimeShape(s, 0) && CharAt(s, FractionEnd(s, 8), 'Z') then FractionEnd(s, 8) + 1 else 0
  }

  /** -?\d+(?:\.\d+)? */
  function NumberEnd(s: string): nat {
    var i := if CharAt(s, 0, '-') then 1 else 0;
    if DigitsAt(s, i, 1) then FractionEnd(s, DigitRun(s, i)) else 0
  }

  function OpEnd(s: string): nat
    requires s != ""
  {
    if |s| >= 2 && s[1] == '=' && (s[0] == '<' || s[0] == '>' || s[0] == '!') then 2
    else if s[0] in "=<>()," then 1
    else 0
  }

  predicate WordChar(c: char) {
    IsAlpha(c) || IsDigit(c) || c == '_' || c == '.'
  }

  predicate WordStart(c: char) {
    IsAlpha(c) || c == '_'
  }

  function WordEnd(s: string, i: nat): (j: nat)
    requires i <= |s|
    ensures i <= j <= |s|
    decreases |s| - i
  {
    if i < |s| && WordChar(s[i]) then WordEnd(s, i + 1) else i
  }

  function SpaceEnd(s: string, i: nat): (j: nat)
    requires i <= |s|
    ensures i <= j <= |s|
    decreases |s| - i
  {
    if i < |s| && IsSpace(s[i]) then SpaceEnd(s, i + 1) else i
  }

  /** The first alternative that matches at the front of `s`, and where it ends. */
  function Lex(s: string): (r: Option<(Kind, nat)>)
    requires s != ""
    ensures r.Some? ==> 0 < r.value.1 <= |s|
  {
    if IsSpace(s[0]) then Some((Space, SpaceEnd(s, 1)))
    else if s[0] == '\'' then
      var n :- StringLength(s[1..]);
      Some((StrTok, n + 1))
    else if MomentEnd(s) > 0 then Some((DtTok, MomentEnd(s)))
    else if DateShape(s) then Some((DateTok, 10))
    else if ClockEnd(s) > 0 then Some((TimeTok, ClockEnd(s)))
    else if NumberEnd(s) > 0 then Some((NumTok, NumberEnd(s)))
    else if OpEnd(s) > 0 then Some((OpTok, OpEnd(s)))
    else if WordStart(s[0]) then Some((IdentTok, WordEnd(s, 1)))
    else None
  }

  function Prepend(ts: seq<Token>, rest: Option<seq<Token>>): Option<seq<Token>> {
    match rest
    case None => None
    case Some(r) => Some(ts + r)
  }

  function Tokenize(s: string): Option<seq<Token>>
    decreases |s|
  {
    if s == "" then Some([])
    else
      var (kind, n) :- Lex(s);
      Prepend(if kind == Space then [] else [Token(kind, s[..n])], Tokenize(s[n..]))
  }

  // ---------------------------------------------------------------- the reader

  datatype Node =
    | AndNode(left: Node, right: Node)
    | OrNode(left: Node, right: Node)
    | NotNode(arg: Node)
    | CmpNode(field: string, op: CmpOp, value: Value)
    | LikeNode(field: string, value: Value)
    | InNode(field: string, values: seq<Value>)

  /** Backslash escapes undone; `body` is the text between the quotes. */
  function Unescape(body: string): string {
    if |body| >= 2 && body[0] == '\\' && body[1] != '\n' then
      [if body[1] == 'n' then '\n' else if body[1] == 'r' then '\r' else if body[1] == 't' then '\t' else body[1]] +
      Unescape(body[2..])
    else if body == "" then ""
    else [body[0]] + Unescape(body[1..])
  }

  predicate Keyword(ts: seq<Token>, word: string) {
    ts != [] && ts[0].kind == IdentTok && IEquals(ts[0].text, word)
  }

  predicate Expect(ts: seq<Token>, text: string) {
    ts != [] && ts[0].text == text
  }

  function ParseValue(ts: seq<Token>): (r: Option<(Value, seq<Token>)>)
    ensures r.Some? ==> |r.value.1| < |ts|
  {
    if ts == [] then None
    else
      var t := ts[0];
      match t.kind
      case StrTok => if |t.text| < 2 then None else Some((Str(Unescape(t.text[1..|t.text| - 1])), ts[1..]))
      case NumTok => Some((Num(t.text), ts[1..]))
      case DateTok => Some((Day(t.text), ts[1..]))
      case DtTok => Some((Moment(t.text), ts[1..]))
      case TimeTok => Some((Clock(t.text), ts[1..]))
      case IdentTok =>
        if IEquals(t.text, "true") then Some((True, ts[1..]))
        else if IEquals(t.text, "false") then Some((False, ts[1..]))
        else if IEquals(t.text, "null") then Some((Null, ts[1..]))
        else None
      case _ => None
  }

  function ParseValues(ts: seq<Token>): (r: Option<(seq<Value>, seq<Token>)>)
    ensures r.Some? ==> |r.value.1| < |ts| && r.value.0 != []
    decreases |ts|
  {
    var (v, rest) :- ParseValue(ts);
    if Expect(rest, ",") then
      var (vs, end) :- ParseValues(rest[1..]);
      Some(([v] + vs, end))
    else Some(([v], rest))
  }

  function ParseIn(field: string, ts: seq<Token>): (r: Option<(Node, seq<Token>)>)
    ensures r.Some? ==> |r.value.1| < |ts|
  {
    if !Expect(ts, "(") then None
    else
      var (vs, rest) :- ParseValues(ts[1..]);
      if Expect(rest, ")") then Some((InNode(field, vs), rest[1..])) else None
  }

  function ParseOp(t: Token): Option<CmpOp> {
    if t.kind != OpTok then None
    else if t.text == "=" then Some(Eq)
    else if t.text == "!=" then Some(Ne)
    else if t.text == "<" then Some(Lt)
    else if t.text == "<=" then Some(Le)
    else if t.text == ">" then Some(Gt)
    else if t.text == ">=" then Some(Ge)
    else None
  }

  /** A predicate on a field whose name has been read. */
  function ParseField(field: string, ts: seq<Token>): (r: Option<(Node, seq<Token>)>)
    ensures r.Some? ==> |r.value.1| < |ts|
  {
    if Keyword(ts, "NOT") then
      if Keyword(ts[1..], "IN") then
        var (node, rest) :- ParseIn(field, ts[2..]);
        Some((NotNode(node), rest))
      else None
    else if Keyword(ts, "IN") then ParseIn(field, ts[1..])
    else if Keyword(ts, "LIKE") then
      var (v, rest) :- ParseValue(ts[1..]);
      Some((LikeNode(field, v), rest))
    else if ts == [] then None
    else
      var op :- ParseOp(ts[0]);
      var (v, rest) :- ParseValue(ts[1..]);
      Some((CmpNode(field, op, v), rest))
  }

  function ParsePred(ts: seq<Token>): (r: Option<(Node, seq<Token>)>)
    ensures r.Some? ==> |r.value.1| < |ts|
    decreases |ts|, 0
  {
    if Expect(ts, "(") then
      var (node, rest) :- ParseOr(ts[1..]);
      if Expect(rest, ")") then Some((node, rest[1..])) else None
    else if ts == [] || ts[0].kind != IdentTok then None
    else ParseField(ts[0].text, ts[1..])
  }

  function ParseNot(ts: seq<Token>): (r: Option<(Node, seq<Token>)>)
    ensures r.Some? ==> |r.value.1| < |ts|
    decreases |ts|, 1
  {
    if Keyword(ts, "NOT") then
      var (node, rest) :- ParseNot(ts[1..]);
      Some((NotNode(node), rest))
    else ParsePred(ts)
  }

  function AndTail(left: Node, ts: seq<Token>): (r: Option<(Node, seq<Token>)>)
    ensures r.Some? ==> |r.value.1| <= |ts|
    decreases |ts|, 2
  {
    if Keyword(ts, "AND") then
      var (right, rest) :- ParseNot(ts[1..]);
      AndTail(AndNode(left, right), rest)
    else Some((left, ts))
  }

  function ParseAnd(ts: seq<Token>): (r: Option<(Node, seq<Token>)>)
    ensures r.Some? ==> |r.value.1| < |ts|
    decreases |ts|, 3
  {
    var (left, rest) :- ParseNot(ts);
    AndTail(left, rest)
  }

  function OrTail(left: Node, ts: seq<Token>): (r: Option<(Node, seq<Token>)>)
    ensures r.Some? ==> |r.value.1| <= |ts|
    decreases |ts|, 4
  {
    if Keyword(ts, "OR") then
      var (right, rest) :- ParseAnd(ts[1..]);
      OrTail(OrNode(left, right), rest)
    else Some((left, ts))
  }

  function ParseOr(ts: seq<Token>): (r: Option<(Node, seq<Token>)>)
    ensures r.Some? ==> |r.value.1| < |ts|
    decreases |ts|, 5
  {
    var (left, rest) :- ParseAnd(ts);
    OrTail(left, rest)
  }

  /** A whole condition: tokens, then one tree with nothing left over. */
  function Read(s: string): Option<Node> {
    var ts :- Tokenize(s);
    var (node, rest) :- ParseOr(ts);
    if rest == [] then Some(node) else None
  }
}
