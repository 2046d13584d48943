/** A printer for SQL conditions, and the proof that the parser undoes it. */
module SqlPrinter {
  import opened Wrappers
  import opened Text
  import opened Sql
  import opened SqlParser
  import opened SqlTokenizer
  import S = Soql

  // ---------------------------------------------------------------- conditions as written

  datatype Segment = Bare(name: string) | Quoted(name: string)

  /** The words of a literal or a test are kept as they are written. */
  datatype SqlLit = NullWord(word: string) | TrueWord(word: string) | FalseWord(word: string)
                  | Text(s: string) | Digits(s: string) | Signed(minus: bool, s: string)
                  | DateEscape(s: string) | TimeEscape(s: string) | TsEscape(s: string)

  datatype Term = Path(first: Segment, more: seq<Segment>) | Mark | Value(lit: SqlLit)

  /** A condition as written: BETWEEN, `<>`, redundant parentheses and the spelling of every keyword
      are still there, and parameters are not numbered. `no` is the word NOT where there is one. */
  datatype Cond =
    | COr(left: Cond, right: Cond, word: string)
    | CAnd(left: Cond, right: Cond, word: string)
    | CNot(arg: Cond, word: string)
    | CParen(arg: Cond)
    | CCompare(a: Term, op: S.CmpOp, diamond: bool, b: Term)
    | CIn(a: Term, list: seq<Term>, no: Option<string>, word: string)
    | CLike(a: Term, b: Term, no: Option<string>, word: string)
    | CBetween(a: Term, lo: Term, hi: Term, no: Option<string>, word: string, conj: string)
    | CIsNull(a: Term, no: Option<string>, word: string, last: string)

  /** A keyword, given in upper case, as it may be written: each letter in either case. */
  predicate Spelled(w: string, keyword: string) {
    |w| == |keyword| &&
    forall i :: 0 <= i < |w| ==> w[i] == keyword[i] || LowerLetter(w[i], keyword[i])
  }

  predicate LowerLetter(c: char, upper: char) {
    'A' <= upper <= 'Z' && c as int == upper as int + 32
  }

  predicate SpelledNot(no: Option<string>) {
    no.Some? ==> Spelled(no.value, "NOT")
  }

  /** However it is written, a keyword is recognised. */
  lemma SpelledIs(w: string, keyword: string)
    requires Spelled(w, keyword)
    ensures ToLower(w) == ToLower(keyword)
  {
    forall i | 0 <= i < |w| ensures Lower(w[i]) == Lower(keyword[i]) {
    }
  }

  lemma SpelledNotIs(no: Option<string>)
    requires SpelledNot(no)
    ensures no.Some? ==> ToLower(no.value) == ToLower("NOT")
  {
    if no.Some? { SpelledIs(no.value, "NOT"); }
  }

  // ---------------------------------------------------------------- tokens

  function Word(w: string): Token {
    Token(Ident, w)
  }

  function Sym(s: string): Token {
    Token(Op, s)
  }

  function SegmentToken(s: Segment): Token {
    match s
    case Bare(n) => Token(Ident, n)
    case Quoted(n) => Token(QIdent, n)
  }

  function OpToken(op: S.CmpOp, diamond: bool): Token {
    Sym(if op == S.Ne && diamond then "<>" else S.OpText(op))
  }

  /** The tokens of a path's further segments, before `rest`. */
  function PathFront(more: seq<Segment>, rest: seq<Token>): seq<Token> {
    if more == [] then rest else [Sym(".")] + ([SegmentToken(more[0])] + PathFront(more[1..], rest))
  }

  function LitFront(lit: SqlLit, rest: seq<Token>): seq<Token> {
    match lit
    case NullWord(w) => [Word(w)] + rest
    case TrueWord(w) => [Word(w)] + rest
    case FalseWord(w) => [Word(w)] + rest
    case Text(s) => [Token(String, s)] + rest
    case Digits(s) => [Token(Number, s)] + rest
    case Signed(minus, s) => [Sym(if minus then "-" else "+")] + ([Token(Number, s)] + rest)
    case DateEscape(s) => [Token(DateTok, s)] + rest
    case TimeEscape(s) => [Token(TimeTok, s)] + rest
    case TsEscape(s) => [Token(TsTok, s)] + rest
  }

  function TermFront(t: Term, rest: seq<Token>): seq<Token> {
    match t
    case Path(first, more) => [SegmentToken(first)] + PathFront(more, rest)
    case Mark => [Token(ParamMark, "?")] + rest
    case Value(lit) => LitFront(lit, rest)
  }

  function ListFront(list: seq<Term>, rest: seq<Token>): seq<Token>
    requires list != []
  {
    TermFront(list[0], if |list| == 1 then rest else [Sym(",")] + ListFront(list[1..], rest))
  }

  function NotFront(no: Option<string>, rest: seq<Token>): seq<Token> {
    if no.Some? then [Word(no.value)] + rest else rest
  }

  predicate Lists(c: Cond) {
    match c
    case COr(l, r, _) => Lists(l) && Lists(r)
    case CAnd(l, r, _) => Lists(l) && Lists(r)
    case CNot(a, _) => Lists(a)
    case CParen(a) => Lists(a)
    case CIn(_, list, _, _) => list != []
    case _ => true
  }

  /** How tightly the place of an operand binds: 0 at the top and left of OR, 1 left of AND and
      right of OR, 2 right of AND and under NOT. */
  function Front(c: Cond, level: nat, rest: seq<Token>): seq<Token>
    requires Lists(c)
    decreases c, level
  {
    match c
    case COr(l, r, w) =>
      if level > 0 then [Sym("(")] + Front(c, 0, [Sym(")")] + rest)
      else Front(l, 0, [Word(w)] + Front(r, 1, rest))
    case CAnd(l, r, w) =>
      if level > 1 then [Sym("(")] + Front(c, 0, [Sym(")")] + rest)
      else Front(l, 1, [Word(w)] + Front(r, 2, rest))
    case CNot(a, w) => [Word(w)] + Front(a, 2, rest)
    case CParen(a) => [Sym("(")] + Front(a, 0, [Sym(")")] + rest)
    case CCompare(a, op, diamond, b) => TermFront(a, [OpToken(op, diamond)] + TermFront(b, rest))
    case CIn(a, list, no, w) =>
      TermFront(a, NotFront(no, [Word(w)] + ([Sym("(")] + ListFront(list, [Sym(")")] + rest))))
    case CLike(a, b, no, w) => TermFront(a, NotFront(no, [Word(w)] + TermFront(b, rest)))
    case CBetween(a, lo, hi, no, w, conj) =>
      TermFront(a, NotFront(no, [Word(w)] + TermFront(lo, [Word(conj)] + TermFront(hi, rest))))
    case CIsNull(a, no, w, last) => TermFront(a, [Word(w)] + NotFront(no, [Word(last)] + rest))
  }

  // ---------------------------------------------------------------- what a written condition stands for

  function SegmentName(s: Segment): string {
    match s
    case Bare(n) => n
    case Quoted(n) => n
  }

  function Names(more: seq<Segment>): seq<string> {
    if more == [] then [] else [SegmentName(more[0])] + Names(more[1..])
  }

  function LitOf(l: SqlLit): Lit {
    match l
    case NullWord(_) => NULL
    case TrueWord(_) => Lit(BoolLit, "true")
    case FalseWord(_) => Lit(BoolLit, "false")
    case Text(s) => Lit(StringLit, s)
    case Digits(s) => Lit(NumberLit, s)
    case Signed(minus, s) => Lit(NumberLit, (if minus then "-" else "") + s)
    case DateEscape(s) => Lit(DateLit, s)
    case TimeEscape(s) => Lit(TimeLit, s)
    case TsEscape(s) => Lit(TimestampLit, s)
  }

  /** The operand, with `n` parameters before it. */
  function TermOf(t: Term, n: nat): Operand {
    match t
    case Path(first, more) => Column([SegmentName(first)] + Names(more))
    case Mark => Param(n)
    case Value(lit) => Literal(LitOf(lit))
  }

  function Marks(t: Term): nat {
    if t.Mark? then 1 else 0
  }

  function ListOf(list: seq<Term>, n: nat): (seq<Operand>, nat) {
    if list == [] then ([], n)
    else
      var (more, m) := ListOf(list[1..], n + Marks(list[0]));
      ([TermOf(list[0], n)] + more, m)
  }

  /** The condition tree, parameters numbered from `n` in the order of their marks, and the number
      of parameters after it. */
  function Desugar(c: Cond, n: nat): (Expr, nat) {
    match c
    case COr(l, r, _) =>
      var (x, m) := Desugar(l, n);
      var (y, k) := Desugar(r, m);
      (Or(x, y), k)
    case CAnd(l, r, _) =>
      var (x, m) := Desugar(l, n);
      var (y, k) := Desugar(r, m);
      (And(x, y), k)
    case CNot(a, _) =>
      var (x, m) := Desugar(a, n);
      (Not(x), m)
    case CParen(a) => Desugar(a, n)
    case CCompare(a, op, _, b) =>
      var m := n + Marks(a);
      (Compare(op, TermOf(a, n), TermOf(b, m)), m + Marks(b))
    case CIn(a, list, no, _) =>
      var (os, m) := ListOf(list, n + Marks(a));
      (In(TermOf(a, n), os, no.Some?), m)
    case CLike(a, b, no, _) =>
      var m := n + Marks(a);
      (Like(TermOf(a, n), TermOf(b, m), no.Some?), m + Marks(b))
    case CBetween(a, lo, hi, no, _, _) =>
      var m := n + Marks(a);
      var k := m + Marks(lo);
      var x := TermOf(a, n);
      var both := And(Compare(S.Ge, x, TermOf(lo, m)), Compare(S.Le, x, TermOf(hi, k)));
      (if no.Some? then Not(both) else both, k + Marks(hi))
    case CIsNull(a, no, _, _) => (IsNull(TermOf(a, n), no.Some?), n + Marks(a))
  }

  // ---------------------------------------------------------------- what can be written

  /** A bare first segment must not be read as something else. */
  predicate Plain(name: string) {
    !IEquals(name, "NULL") && !IEquals(name, "TRUE") && !IEquals(name, "FALSE") && !IEquals(name, "SELECT")
  }

  predicate WritableLit(lit: SqlLit) {
    match lit
    case NullWord(w) => Spelled(w, "NULL")
    case TrueWord(w) => Spelled(w, "TRUE")
    case FalseWord(w) => Spelled(w, "FALSE")
    case _ => true
  }

  predicate WritableTerm(t: Term) {
    match t
    case Path(first, _) => first.Bare? ==> Plain(first.name)
    case Mark => true
    case Value(lit) => WritableLit(lit)
  }

  /** Nor, where it starts a predicate, as one of the two words that may stand there. */
  predicate LeadTerm(t: Term) {
    WritableTerm(t) &&
    (t.Path? && t.first.Bare? ==> !IEquals(t.first.name, "EXISTS") && !IEquals(t.first.name, "NOT"))
  }

  predicate Writable(c: Cond) {
    match c
    case COr(l, r, w) => Writable(l) && Writable(r) && Spelled(w, "OR")
    case CAnd(l, r, w) => Writable(l) && Writable(r) && Spelled(w, "AND")
    case CNot(a, w) => Writable(a) && Spelled(w, "NOT")
    case CParen(a) => Writable(a)
    case CCompare(a, _, _, b) => LeadTerm(a) && WritableTerm(b)
    case CIn(a, list, no, w) =>
      LeadTerm(a) && list != [] && (forall i :: 0 <= i < |list| ==> WritableTerm(list[i])) &&
      SpelledNot(no) && Spelled(w, "IN")
    case CLike(a, b, no, w) => LeadTerm(a) && WritableTerm(b) && SpelledNot(no) && Spelled(w, "LIKE")
    case CBetween(a, lo, hi, no, w, conj) =>
      LeadTerm(a) && WritableTerm(lo) && WritableTerm(hi) && SpelledNot(no) && Spelled(w, "BETWEEN") &&
      Spelled(conj, "AND")
    case CIsNull(a, no, w, last) => LeadTerm(a) && SpelledNot(no) && Spelled(w, "IS") && Spelled(last, "NULL")
  }

  lemma WritableLists(c: Cond)
    requires Writable(c)
    ensures Lists(c)
  {
  }

  /** Tokens that cannot be taken for more of an operand. */
  predicate Ends(ts: seq<Token>) {
    Terminated(ts) && !IsOp(ts, "+", 0) && !IsOp(ts, "-", 0) && !IsOp(ts, "*", 0) && !IsOp(ts, ".", 0) &&
    !IsOp(ts, "(", 0)
  }

  /** Tokens that cannot continue a condition. */
  predicate Stops(ts: seq<Token>) {
    Ends(ts) && !IsKw(ts, "AND") && !IsKw(ts, "OR") && !IsKw(ts, "ESCAPE")
  }

  // ---------------------------------------------------------------- operands

  lemma Cons(t: Token, rest: seq<Token>)
    requires Terminated(rest) && t.t != End
    ensures Terminated([t] + rest) && ([t] + rest)[0] == t && Next([t] + rest) == rest
    ensures Peek([t] + rest, 1) == rest[0]
  {
    var ts := [t] + rest;
    assert ts[1..] == rest;
    forall i | 0 <= i < |ts| ensures ts[i].t == End <==> i == |ts| - 1 {
      if i > 0 { assert ts[i] == rest[i - 1]; }
    }
  }

  /** A keyword, or an operator other than those that extend an operand, ends the one before it. */
  lemma WordEnds(w: string, rest: seq<Token>)
    requires Terminated(rest)
    ensures Ends([Word(w)] + rest)
  {
    Cons(Word(w), rest);
  }

  lemma SymEnds(s: string, rest: seq<Token>)
    requires Terminated(rest) && s != "+" && s != "-" && s != "*" && s != "." && s != "("
    ensures Ends([Sym(s)] + rest)
  {
    Cons(Sym(s), rest);
  }

  lemma {:induction false} PathReads(more: seq<Segment>, rest: seq<Token>)
    requires Ends(rest)
    ensures Terminated(PathFront(more, rest)) && PathTail(PathFront(more, rest)) == (Names(more), rest)
    ensures !IsOp(PathFront(more, rest), "(", 0)
  {
    if more != [] {
      var tail := PathFront(more[1..], rest);
      PathReads(more[1..], rest);
      Cons(SegmentToken(more[0]), tail);
      Cons(Sym("."), [SegmentToken(more[0])] + tail);
    }
  }

  lemma LitReads(lit: SqlLit, rest: seq<Token>)
    requires Terminated(rest) && WritableLit(lit)
    ensures var ts := LitFront(lit, rest);
            Terminated(ts) && ts[0].t != ParamMark && LiteralStart(ts) && ParseLiteral(ts) == (LitOf(lit), rest)
  {
    Words();
    match lit
    case NullWord(w) =>
      SpelledIs(w, "NULL");
      Cons(Word(w), rest);
    case TrueWord(w) =>
      SpelledIs(w, "TRUE");
      Cons(Word(w), rest);
    case FalseWord(w) =>
      SpelledIs(w, "FALSE");
      Cons(Word(w), rest);
    case Text(s) => Cons(Token(String, s), rest);
    case Digits(s) => Cons(Token(Number, s), rest);
    case Signed(minus, s) =>
      Cons(Token(Number, s), rest);
      Cons(Sym(if minus then "-" else "+"), [Token(Number, s)] + rest);
    case DateEscape(s) => Cons(Token(DateTok, s), rest);
    case TimeEscape(s) => Cons(Token(TimeTok, s), rest);
    case TsEscape(s) => Cons(Token(TsTok, s), rest);
  }

  lemma Words()
    ensures !IEquals("TRUE", "NULL") && !IEquals("FALSE", "NULL") && !IEquals("FALSE", "TRUE")
  {
    Differ("TRUE", "NULL");
    Differ("FALSE", "NULL");
    Differ("FALSE", "TRUE");
  }

  lemma TermReads(t: Term, rest: seq<Token>, n: nat)
    requires WritableTerm(t) && Ends(rest)
    ensures Terminated(TermFront(t, rest))
    ensures ParseOperand(TermFront(t, rest), n) == Ok(Step(TermOf(t, n), rest, n + Marks(t)))
  {
    hide LiteralStart, ParseLiteral, PathTail;
    match t
    case Path(first, more) =>
      PathReads(more, rest);
      Cons(SegmentToken(first), PathFront(more, rest));
      NotLiteral(first, PathFront(more, rest));
    case Mark => Cons(Token(ParamMark, "?"), rest);
    case Value(lit) => LitReads(lit, rest);
  }

  lemma NotLiteral(first: Segment, rest: seq<Token>)
    requires Terminated(rest) && (first.Bare? ==> Plain(first.name))
    ensures Terminated([SegmentToken(first)] + rest) && !LiteralStart([SegmentToken(first)] + rest)
  {
    Cons(SegmentToken(first), rest);
  }

  lemma LitWordIs(lit: SqlLit)
    requires WritableLit(lit)
    ensures lit.NullWord? ==> ToLower(lit.word) == ToLower("NULL")
    ensures lit.TrueWord? ==> ToLower(lit.word) == ToLower("TRUE")
    ensures lit.FalseWord? ==> ToLower(lit.word) == ToLower("FALSE")
  {
    match lit
    case NullWord(w) => SpelledIs(w, "NULL");
    case TrueWord(w) => SpelledIs(w, "TRUE");
    case FalseWord(w) => SpelledIs(w, "FALSE");
    case _ =>
  }

  /** No operand starts with SELECT. */
  lemma TermIsNoQuery(t: Term, rest: seq<Token>)
    requires WritableTerm(t) && Ends(rest)
    ensures Terminated(TermFront(t, rest)) && !IsKw(TermFront(t, rest), "SELECT")
  {
    TermReads(t, rest, 0);
    if t.Value? { LitWordIs(t.lit); }
    Differ("NULL", "SELECT");
    Differ("TRUE", "SELECT");
    Differ("FALSE", "SELECT");
  }

  /** A predicate's first operand starts neither a parenthesis nor a keyword. */
  lemma TermStarts(t: Term, rest: seq<Token>)
    requires LeadTerm(t) && Ends(rest)
    ensures var ts := TermFront(t, rest);
            Terminated(ts) && !IsKw(ts, "EXISTS") && !IsKw(ts, "NOT") && !IsOp(ts, "(", 0) && !IsKw(ts, "SELECT")
  {
    TermReads(t, rest, 0);
    TermIsNoQuery(t, rest);
    if t.Value? { LitWordIs(t.lit); }
    Differ("NULL", "EXISTS");
    Differ("TRUE", "EXISTS");
    Differ("FALSE", "EXISTS");
    Differ("NULL", "NOT");
    Differ("TRUE", "NOT");
    Differ("FALSE", "NOT");
  }

  lemma {:induction false} ListReads(list: seq<Term>, rest: seq<Token>, n: nat)
    requires list != [] && (forall i :: 0 <= i < |list| ==> WritableTerm(list[i])) && Terminated(rest)
    ensures var ts := ListFront(list, [Sym(")")] + rest);
            Terminated(ts) && !IsKw(ts, "SELECT") &&
            ParseList(ts, n) == Ok(Step(ListOf(list, n).0, rest, ListOf(list, n).1))
  {
    hide ParseOperand, TermFront, WritableTerm;
    var close := [Sym(")")] + rest;
    Cons(Sym(")"), rest);
    SymEnds(")", rest);
    var m := n + Marks(list[0]);
    if |list| == 1 {
      TermReads(list[0], close, n);
      TermIsNoQuery(list[0], close);
      assert list[1..] == [];
      assert ListOf(list[1..], m) == ([], m);
      assert [TermOf(list[0], n)] + [] == [TermOf(list[0], n)];
    } else {
      ListReads(list[1..], rest, m);
      var tail := ListFront(list[1..], close);
      Cons(Sym(","), tail);
      SymEnds(",", tail);
      TermReads(list[0], [Sym(",")] + tail, n);
      TermIsNoQuery(list[0], [Sym(",")] + tail);
    }
  }

  // ---------------------------------------------------------------- predicates

  /** Reading `ts` as one condition that binds tightly gives what `c` stands for, and `rest`. */
  predicate Reads(ts: seq<Token>, c: Cond, rest: seq<Token>, n: nat) {
    Terminated(ts) && ParseNot(ts, n) == Ok(Step(Desugar(c, n).0, rest, Desugar(c, n).1))
  }

  lemma OperandThen(a: Term, tail: seq<Token>, n: nat)
    requires LeadTerm(a) && Ends(tail)
    ensures Terminated(TermFront(a, tail))
    ensures ParseNot(TermFront(a, tail), n) == AfterOperand(TermOf(a, n), tail, n + Marks(a))
  {
    hide ParseOperand, TermFront, WritableTerm;
    TermReads(a, tail, n);
    TermStarts(a, tail);
  }

  lemma CompareReads(a: Term, op: S.CmpOp, diamond: bool, b: Term, rest: seq<Token>, n: nat)
    requires LeadTerm(a) && WritableTerm(b) && Ends(rest)
    ensures Reads(Front(CCompare(a, op, diamond, b), 2, rest), CCompare(a, op, diamond, b), rest, n)
  {
    hide ParseOperand, TermFront, WritableTerm, ParseNot;
    var right := TermFront(b, rest);
    TermReads(b, rest, n + Marks(a));
    Cons(OpToken(op, diamond), right);
    SymEnds(OpToken(op, diamond).v, right);
    OperandThen(a, [OpToken(op, diamond)] + right, n);
  }

  /** An optional NOT before a keyword test. */
  lemma NotThen(a: Operand, no: Option<string>, w: string, tail: seq<Token>, n: nat)
    requires Terminated(tail) && !IEquals(w, "NOT") && SpelledNot(no)
    ensures var ts := NotFront(no, [Word(w)] + tail);
            Terminated([Word(w)] + tail) && Ends(ts) &&
            AfterOperand(a, ts, n) == ParseTest(a, no.Some?, [Word(w)] + tail, n)
  {
    SpelledNotIs(no);
    hide ParseTest, Spelled;
    Cons(Word(w), tail);
    WordEnds(w, tail);
    if no.Some? {
      Cons(Word(no.value), [Word(w)] + tail);
      WordEnds(no.value, [Word(w)] + tail);
    }
  }

  lemma TestWords()
    ensures !IEquals("IN", "NOT") && !IEquals("LIKE", "NOT") && !IEquals("BETWEEN", "NOT") && !IEquals("IS", "NOT")
    ensures !IEquals("LIKE", "IN") && !IEquals("BETWEEN", "IN") && !IEquals("BETWEEN", "LIKE")
    ensures !IEquals("IS", "IN") && !IEquals("IS", "LIKE") && !IEquals("IS", "BETWEEN") && !IEquals("NULL", "NOT")
    ensures !IEquals("AND", "ESCAPE")
  {
    Differ("IN", "NOT");
    Differ("LIKE", "NOT");
    Differ("BETWEEN", "NOT");
    Differ("IS", "NOT");
    Differ("LIKE", "IN");
    Differ("BETWEEN", "IN");
    Differ("BETWEEN", "LIKE");
    Differ("IS", "IN");
    Differ("IS", "LIKE");
    Differ("IS", "BETWEEN");
    Differ("NULL", "NOT");
    Differ("AND", "ESCAPE");
  }

  /** The tokens of a test: its word and what follows. */
  function Test(w: string, tail: seq<Token>): seq<Token> {
    [Word(w)] + tail
  }

  function InTail(list: seq<Term>, rest: seq<Token>): seq<Token>
    requires list != []
  {
    [Sym("(")] + ListFront(list, [Sym(")")] + rest)
  }

  function BetweenTail(lo: Term, conj: string, hi: Term, rest: seq<Token>): seq<Token> {
    TermFront(lo, [Word(conj)] + TermFront(hi, rest))
  }

  function NullTail(no: Option<string>, last: string, rest: seq<Token>): seq<Token> {
    NotFront(no, [Word(last)] + rest)
  }

  /** In front of `tail` the word `w` is read as a test that yields `e`. */
  predicate Tests(a: Operand, negated: bool, w: string, tail: seq<Token>, e: Expr, rest: seq<Token>, n: nat, k: nat) {
    Terminated(tail) && Terminated(Test(w, tail)) && ParseTest(a, negated, Test(w, tail), n) == Ok(Step(e, rest, k))
  }

  /** A condition made of an operand and a test that is read as it stands for reads so. */
  lemma TestReads(c: Cond, a: Term, w: string, tail: seq<Token>, no: Option<string>, rest: seq<Token>, n: nat)
    requires Lists(c) && LeadTerm(a) && !IEquals(w, "NOT") && SpelledNot(no)
    requires Front(c, 2, rest) == TermFront(a, NotFront(no, Test(w, tail)))
    requires Tests(TermOf(a, n), no.Some?, w, tail, Desugar(c, n).0, rest, n + Marks(a), Desugar(c, n).1)
    ensures Reads(Front(c, 2, rest), c, rest, n)
  {
    hide ParseTest, TermFront, WritableTerm, ParseNot, AfterOperand, NotFront, TermOf, Terminated, Next, Ends,
      SpelledNot, Front, Desugar, Lists;
    NotThen(TermOf(a, n), no, w, tail, n + Marks(a));
    OperandThen(a, NotFront(no, Test(w, tail)), n);
  }

  /** The word of a test is not taken for NOT. */
  lemma NotTheWord(w: string, keyword: string)
    requires Spelled(w, keyword)
    requires keyword == "IN" || keyword == "LIKE" || keyword == "BETWEEN" || keyword == "IS"
    ensures !IEquals(w, "NOT")
  {
    SpelledIs(w, keyword);
    TestWords();
  }

  lemma InTest(a: Operand, list: seq<Term>, negated: bool, w: string, rest: seq<Token>, n: nat)
    requires list != [] && (forall i :: 0 <= i < |list| ==> WritableTerm(list[i])) && Terminated(rest)
    requires Spelled(w, "IN")
    ensures Tests(a, negated, w, InTail(list, rest), In(a, ListOf(list, n).0, negated), rest, n, ListOf(list, n).1)
  {
    SpelledIs(w, "IN");
    hide ParseList, ListFront, WritableTerm, ListOf, Spelled;
    var items := ListFront(list, [Sym(")")] + rest);
    ListReads(list, rest, n);
    Cons(Sym("("), items);
    Cons(Word(w), [Sym("(")] + items);
  }

  lemma InFront(a: Term, list: seq<Term>, no: Option<string>, w: string, rest: seq<Token>, n: nat)
    requires list != []
    ensures var c, m := CIn(a, list, no, w), n + Marks(a);
            Lists(c) && Front(c, 2, rest) == TermFront(a, NotFront(no, Test(w, InTail(list, rest)))) &&
            Desugar(c, n) == (In(TermOf(a, n), ListOf(list, m).0, no.Some?), ListOf(list, m).1)
  {
  }

  lemma InReads(a: Term, list: seq<Term>, no: Option<string>, w: string, rest: seq<Token>, n: nat)
    requires LeadTerm(a) && list != [] && (forall i :: 0 <= i < |list| ==> WritableTerm(list[i])) &&
             Terminated(rest)
    requires SpelledNot(no) && Spelled(w, "IN")
    ensures Reads(Front(CIn(a, list, no, w), 2, rest), CIn(a, list, no, w), rest, n)
  {
    hide *;
    NotTheWord(w, "IN");
    InFront(a, list, no, w, rest, n);
    InTest(TermOf(a, n), list, no.Some?, w, rest, n + Marks(a));
    TestReads(CIn(a, list, no, w), a, w, InTail(list, rest), no, rest, n);
  }

  lemma LikeTest(a: Operand, b: Term, negated: bool, w: string, rest: seq<Token>, n: nat)
    requires WritableTerm(b) && Ends(rest) && !IsKw(rest, "ESCAPE") && Spelled(w, "LIKE")
    ensures Tests(a, negated, w, TermFront(b, rest), Like(a, TermOf(b, n), negated), rest, n, n + Marks(b))
  {
    SpelledIs(w, "LIKE");
    hide ParseOperand, TermFront, WritableTerm, Spelled;
    TestWords();
    TermReads(b, rest, n);
    Cons(Word(w), TermFront(b, rest));
  }

  lemma LikeFront(a: Term, b: Term, no: Option<string>, w: string, rest: seq<Token>, n: nat)
    ensures var c, m := CLike(a, b, no, w), n + Marks(a);
            Lists(c) && Front(c, 2, rest) == TermFront(a, NotFront(no, Test(w, TermFront(b, rest)))) &&
            Desugar(c, n) == (Like(TermOf(a, n), TermOf(b, m), no.Some?), m + Marks(b))
  {
  }

  lemma LikeReads(a: Term, b: Term, no: Option<string>, w: string, rest: seq<Token>, n: nat)
    requires LeadTerm(a) && WritableTerm(b) && Ends(rest) && !IsKw(rest, "ESCAPE")
    requires SpelledNot(no) && Spelled(w, "LIKE")
    ensures Reads(Front(CLike(a, b, no, w), 2, rest), CLike(a, b, no, w), rest, n)
  {
    hide *;
    NotTheWord(w, "LIKE");
    LikeFront(a, b, no, w, rest, n);
    LikeTest(TermOf(a, n), b, no.Some?, w, rest, n + Marks(a));
    TestReads(CLike(a, b, no, w), a, w, TermFront(b, rest), no, rest, n);
  }

  /** Two bounds with AND between them. */
  lemma BoundsAre(a: Operand, negated: bool, ts: seq<Token>, n: nat, lo: Step<Operand>, hi: Step<Operand>)
    requires Terminated(ts) && ParseOperand(ts, n) == Ok(lo) && IsKw(lo.rest, "AND")
    requires ParseOperand(Next(lo.rest), lo.params) == Ok(hi)
    ensures ParseBetween(a, negated, ts, n) ==
            Ok(Step(SqlParser.Between(a, lo.value, hi.value, negated), hi.rest, hi.params))
  {
    hide ParseOperand, SqlParser.Between;
  }

  lemma WordIsKw(w: string, keyword: string, rest: seq<Token>)
    requires Terminated(rest) && Spelled(w, keyword)
    ensures Terminated([Word(w)] + rest) && IsKw([Word(w)] + rest, keyword) && Next([Word(w)] + rest) == rest
  {
    SpelledIs(w, keyword);
    Cons(Word(w), rest);
  }

  /** The bounds after BETWEEN. */
  lemma BoundsRead(a: Operand, lo: Term, hi: Term, negated: bool, conj: string, rest: seq<Token>, n: nat)
    requires WritableTerm(lo) && WritableTerm(hi) && Ends(rest) && Spelled(conj, "AND")
    ensures var tail, m := BetweenTail(lo, conj, hi, rest), n + Marks(lo);
            Terminated(tail) &&
            ParseBetween(a, negated, tail, n) ==
            Ok(Step(SqlParser.Between(a, TermOf(lo, n), TermOf(hi, m), negated), rest, m + Marks(hi)))
  {
    hide ParseOperand, ParseBetween, TermFront, WritableTerm, Spelled, SqlParser.Between, TermOf, IsKw, Ends,
      Terminated, Next, Word, Marks;
    var upper, m := TermFront(hi, rest), n + Marks(lo);
    TermReads(hi, rest, m);
    WordIsKw(conj, "AND", upper);
    WordEnds(conj, upper);
    TermReads(lo, [Word(conj)] + upper, n);
    BoundsAre(a, negated, TermFront(lo, [Word(conj)] + upper), n, Step(TermOf(lo, n), [Word(conj)] + upper, m),
              Step(TermOf(hi, m), rest, m + Marks(hi)));
  }

  lemma BetweenTest(a: Operand, lo: Term, hi: Term, negated: bool, w: string, conj: string, rest: seq<Token>, n: nat)
    requires WritableTerm(lo) && WritableTerm(hi) && Ends(rest)
    requires Spelled(w, "BETWEEN") && Spelled(conj, "AND")
    ensures var m := n + Marks(lo);
            Tests(a, negated, w, BetweenTail(lo, conj, hi, rest),
                  SqlParser.Between(a, TermOf(lo, n), TermOf(hi, m), negated), rest, n, m + Marks(hi))
  {
    SpelledIs(w, "BETWEEN");
    hide ParseBetween, BetweenTail, WritableTerm, Spelled, SqlParser.Between, TermOf, ToLower, Ends;
    TestWords();
    BoundsRead(a, lo, hi, negated, conj, rest, n);
    Cons(Word(w), BetweenTail(lo, conj, hi, rest));
  }

  lemma BetweenFront(c: Cond, rest: seq<Token>, n: nat)
    requires c.CBetween?
    ensures var m := n + Marks(c.a);
            Lists(c) &&
            Front(c, 2, rest) == TermFront(c.a, NotFront(c.no, Test(c.word, BetweenTail(c.lo, c.conj, c.hi, rest)))) &&
            Desugar(c, n) ==
            (SqlParser.Between(TermOf(c.a, n), TermOf(c.lo, m), TermOf(c.hi, m + Marks(c.lo)), c.no.Some?),
             m + Marks(c.lo) + Marks(c.hi))
  {
  }

  lemma BetweenReads(c: Cond, rest: seq<Token>, n: nat)
    requires c.CBetween? && LeadTerm(c.a) && WritableTerm(c.lo) && WritableTerm(c.hi) && Ends(rest)
    requires SpelledNot(c.no) && Spelled(c.word, "BETWEEN") && Spelled(c.conj, "AND")
    ensures Reads(Front(c, 2, rest), c, rest, n)
  {
    hide *;
    NotTheWord(c.word, "BETWEEN");
    BetweenFront(c, rest, n);
    BetweenTest(TermOf(c.a, n), c.lo, c.hi, c.no.Some?, c.word, c.conj, rest, n + Marks(c.a));
    TestReads(c, c.a, c.word, BetweenTail(c.lo, c.conj, c.hi, rest), c.no, rest, n);
  }

  /** After IS. */
  lemma NullTest(a: Operand, no: Option<string>, w: string, last: string, rest: seq<Token>, n: nat)
    requires Terminated(rest) && SpelledNot(no) && Spelled(w, "IS") && Spelled(last, "NULL")
    ensures Tests(a, false, w, NullTail(no, last, rest), IsNull(a, no.Some?), rest, n, n)
  {
    SpelledIs(w, "IS");
    SpelledIs(last, "NULL");
    SpelledNotIs(no);
    TestWords();
    hide Spelled;
    Cons(Word(last), rest);
    if no.Some? { Cons(Word(no.value), [Word(last)] + rest); }
    Cons(Word(w), NotFront(no, [Word(last)] + rest));
  }

  lemma NullFront(a: Term, no: Option<string>, w: string, last: string, rest: seq<Token>, n: nat)
    ensures var c := CIsNull(a, no, w, last);
            Lists(c) && Front(c, 2, rest) == TermFront(a, NotFront(None, Test(w, NullTail(no, last, rest)))) &&
            Desugar(c, n) == (IsNull(TermOf(a, n), no.Some?), n + Marks(a)) && SpelledNot(None)
  {
  }

  lemma IsNullReads(a: Term, no: Option<string>, w: string, last: string, rest: seq<Token>, n: nat)
    requires LeadTerm(a) && Terminated(rest) && SpelledNot(no) && Spelled(w, "IS") && Spelled(last, "NULL")
    ensures Reads(Front(CIsNull(a, no, w, last), 2, rest), CIsNull(a, no, w, last), rest, n)
  {
    hide *;
    NotTheWord(w, "IS");
    NullFront(a, no, w, last, rest, n);
    NullTest(TermOf(a, n), no, w, last, rest, n + Marks(a));
    TestReads(CIsNull(a, no, w, last), a, w, NullTail(no, last, rest), None, rest, n);
  }

  // ---------------------------------------------------------------- whole conditions

  /** What may follow a condition, AND and OR included. */
  predicate After(ts: seq<Token>) {
    Ends(ts) && !IsKw(ts, "ESCAPE")
  }

  lemma WordAfter(w: string, rest: seq<Token>)
    requires Terminated(rest) && !IEquals(w, "ESCAPE")
    ensures After([Word(w)] + rest)
  {
    WordEnds(w, rest);
  }

  lemma CloseAfter(rest: seq<Token>)
    requires Terminated(rest)
    ensures After([Sym(")")] + rest) && !IsKw([Sym(")")] + rest, "AND") && !IsKw([Sym(")")] + rest, "OR")
    ensures IsOp([Sym(")")] + rest, ")", 0) && Next([Sym(")")] + rest) == rest
  {
    Cons(Sym(")"), rest);
    SymEnds(")", rest);
  }

  function Result0(c: Cond, n: nat): Expr {
    Desugar(c, n).0
  }

  function Count(c: Cond, n: nat): nat {
    Desugar(c, n).1
  }

  /** Parsing what is printed at each level, up to where the loop over AND or OR takes over. */
  predicate NotLevel(c: Cond, rest: seq<Token>, n: nat)
    requires Lists(c)
  {
    Terminated(Front(c, 2, rest)) && ParseNot(Front(c, 2, rest), n) == Ok(Step(Result0(c, n), rest, Count(c, n)))
  }

  predicate AndLevel(c: Cond, rest: seq<Token>, n: nat)
    requires Lists(c) && Terminated(rest)
  {
    Terminated(Front(c, 1, rest)) && ParseAnd(Front(c, 1, rest), n) == AndTail(Result0(c, n), rest, Count(c, n))
  }

  predicate OrLevel(c: Cond, rest: seq<Token>, n: nat)
    requires Lists(c) && Terminated(rest)
  {
    Terminated(Front(c, 0, rest)) && ParseOr(Front(c, 0, rest), n) == OrTail(Result0(c, n), rest, Count(c, n))
  }

  lemma {:induction false} FrontStarts(c: Cond, level: nat, rest: seq<Token>)
    requires Writable(c) && Lists(c) && After(rest)
    ensures Terminated(Front(c, level, rest)) && !IsKw(Front(c, level, rest), "SELECT")
    decreases c, level
  {
    hide TermFront, ListFront, WritableTerm, Spelled;
    CloseAfter(rest);
    match c
    case COr(l, r, w) =>
      if level > 0 {
        FrontStarts(c, 0, [Sym(")")] + rest);
        Cons(Sym("("), Front(c, 0, [Sym(")")] + rest));
      } else {
        FrontStarts(r, 1, rest);
        JoinAfter(w, "OR", Front(r, 1, rest));
        FrontStarts(l, 0, [Word(w)] + Front(r, 1, rest));
      }
    case CAnd(l, r, w) =>
      if level > 1 {
        FrontStarts(c, 0, [Sym(")")] + rest);
        Cons(Sym("("), Front(c, 0, [Sym(")")] + rest));
      } else {
        FrontStarts(r, 2, rest);
        JoinAfter(w, "AND", Front(r, 2, rest));
        FrontStarts(l, 1, [Word(w)] + Front(r, 2, rest));
      }
    case CNot(a, w) =>
      FrontStarts(a, 2, rest);
      SpelledIs(w, "NOT");
      Differ("NOT", "SELECT");
      Cons(Word(w), Front(a, 2, rest));
    case CParen(a) =>
      FrontStarts(a, 0, [Sym(")")] + rest);
      Cons(Sym("("), Front(a, 0, [Sym(")")] + rest));
    case _ => PredicateStarts(c, level, rest);
  }

  /** AND or OR, however written, may follow an operand. */
  lemma JoinAfter(w: string, keyword: string, rest: seq<Token>)
    requires Terminated(rest) && Spelled(w, keyword) && (keyword == "AND" || keyword == "OR")
    ensures After([Word(w)] + rest)
    ensures ToLower(w) == ToLower(keyword)
  {
    SpelledIs(w, keyword);
    Differ("AND", "ESCAPE");
    Differ("OR", "ESCAPE");
    WordAfter(w, rest);
  }

  predicate IsPredicate(c: Cond) {
    !c.COr? && !c.CAnd? && !c.CNot? && !c.CParen?
  }

  /** The first operand of a predicate and the tokens after it. */
  lemma FirstTerm(c: Cond, level: nat, rest: seq<Token>) returns (a: Term, tail: seq<Token>)
    requires IsPredicate(c) && Writable(c) && Lists(c) && After(rest)
    ensures LeadTerm(a) && Ends(tail) && Front(c, level, rest) == TermFront(a, tail)
  {
    hide TermFront, ListFront, WritableTerm, ParseTest, AfterOperand, ParseOperand, ParseList, Spelled, SpelledNot;
    match c
    case CCompare(x, op, diamond, b) =>
      TermReads(b, rest, 0);
      SymEnds(OpToken(op, diamond).v, TermFront(b, rest));
      a, tail := x, [OpToken(op, diamond)] + TermFront(b, rest);
    case CIn(x, list, no, w) =>
      var items := ListFront(list, [Sym(")")] + rest);
      ListReads(list, rest, 0);
      Cons(Sym("("), items);
      NotTheWord(w, "IN");
      NotThen(Param(0), no, w, [Sym("(")] + items, 0);
      a, tail := x, NotFront(no, [Word(w)] + ([Sym("(")] + items));
    case CLike(x, b, no, w) =>
      TermReads(b, rest, 0);
      NotTheWord(w, "LIKE");
      NotThen(Param(0), no, w, TermFront(b, rest), 0);
      a, tail := x, NotFront(no, [Word(w)] + TermFront(b, rest));
    case CBetween(x, lo, hi, no, w, conj) =>
      TermReads(hi, rest, 0);
      WordEnds(conj, TermFront(hi, rest));
      TermReads(lo, [Word(conj)] + TermFront(hi, rest), 0);
      NotTheWord(w, "BETWEEN");
      NotThen(Param(0), no, w, TermFront(lo, [Word(conj)] + TermFront(hi, rest)), 0);
      a, tail := x, NotFront(no, [Word(w)] + TermFront(lo, [Word(conj)] + TermFront(hi, rest)));
    case CIsNull(x, no, w, last) =>
      Cons(Word(last), rest);
      if no.Some? { Cons(Word(no.value), [Word(last)] + rest); }
      WordEnds(w, NotFront(no, [Word(last)] + rest));
      a, tail := x, [Word(w)] + NotFront(no, [Word(last)] + rest);
  }

  lemma PredicateStarts(c: Cond, level: nat, rest: seq<Token>)
    requires IsPredicate(c) && Writable(c) && Lists(c) && After(rest)
    ensures Terminated(Front(c, level, rest)) && !IsKw(Front(c, level, rest), "SELECT")
  {
    hide Front, TermFront, WritableTerm;
    var a, tail := FirstTerm(c, level, rest);
    TermStarts(a, tail);
  }

  lemma PredicateReads(c: Cond, rest: seq<Token>, n: nat)
    requires IsPredicate(c) && Writable(c) && Lists(c) && After(rest)
    ensures NotLevel(c, rest, n)
  {
    hide Front, ParseNot, Desugar, WritableTerm;
    match c
    case CCompare(a, op, diamond, b) => CompareReads(a, op, diamond, b, rest, n);
    case CIn(a, list, no, w) => InReads(a, list, no, w, rest, n);
    case CLike(a, b, no, w) => LikeReads(a, b, no, w, rest, n);
    case CBetween(_, _, _, _, _, _) => BetweenReads(c, rest, n);
    case CIsNull(a, no, w, last) => IsNullReads(a, no, w, last, rest, n);
  }

  /** `( ... )` reads as what is inside. */
  lemma ParenReads(c: Cond, rest: seq<Token>, n: nat)
    requires Writable(c) && Lists(c) && Terminated(rest) && Terminated([Sym(")")] + rest) &&
             OrLevel(c, [Sym(")")] + rest, n)
    ensures var ts := [Sym("(")] + Front(c, 0, [Sym(")")] + rest);
            Terminated(ts) && ParseNot(ts, n) == Ok(Step(Result0(c, n), rest, Count(c, n)))
  {
    hide ParseOr, Front, Desugar;
    var inner := Front(c, 0, [Sym(")")] + rest);
    CloseAfter(rest);
    FrontStarts(c, 0, [Sym(")")] + rest);
    Cons(Sym("("), inner);
  }

  lemma ParenStandsFor(a: Cond, n: nat)
    ensures Desugar(CParen(a), n) == Desugar(a, n)
  {
  }

  lemma NotReads(a: Cond, w: string, rest: seq<Token>, n: nat)
    requires Lists(a) && NotLevel(a, rest, n) && Spelled(w, "NOT")
    ensures NotLevel(CNot(a, w), rest, n)
  {
    SpelledIs(w, "NOT");
    hide Spelled;
    Cons(Word(w), Front(a, 2, rest));
    assert IsKw([Word(w)] + Front(a, 2, rest), "NOT");
  }

  lemma AndFromNot(c: Cond, rest: seq<Token>, n: nat)
    requires Lists(c) && Terminated(rest) && NotLevel(c, rest, n) && Front(c, 1, rest) == Front(c, 2, rest)
    ensures AndLevel(c, rest, n)
  {
    hide Front, ParseNot, AndTail, Desugar;
  }

  lemma OrFromAnd(c: Cond, rest: seq<Token>, n: nat)
    requires Lists(c) && Terminated(rest) && AndLevel(c, rest, n) && Front(c, 0, rest) == Front(c, 1, rest)
    requires !IsKw(rest, "AND")
    ensures OrLevel(c, rest, n)
  {
    hide Front, ParseNot, ParseAnd, OrTail, Desugar;
    assert AndTail(Result0(c, n), rest, Count(c, n)) == Ok(Step(Result0(c, n), rest, Count(c, n)));
  }

  lemma AndReads(l: Cond, r: Cond, w: string, rest: seq<Token>, n: nat)
    requires Lists(l) && Lists(r) && Terminated(rest) && NotLevel(r, rest, Count(l, n)) && IEquals(w, "AND")
    requires Terminated([Word(w)] + Front(r, 2, rest)) && AndLevel(l, [Word(w)] + Front(r, 2, rest), n)
    ensures AndLevel(CAnd(l, r, w), rest, n)
  {
    hide ParseNot, ParseAnd;
    var tail := Front(r, 2, rest);
    Cons(Word(w), tail);
    var both := And(Result0(l, n), Result0(r, Count(l, n)));
    assert Desugar(CAnd(l, r, w), n) == (both, Count(r, Count(l, n)));
    assert AndTail(Result0(l, n), [Word(w)] + tail, Count(l, n)) == AndTail(both, rest, Count(r, Count(l, n)));
  }

  lemma OrReads(l: Cond, r: Cond, w: string, rest: seq<Token>, n: nat)
    requires Lists(l) && Lists(r) && Terminated(rest) && !IsKw(rest, "AND") && AndLevel(r, rest, Count(l, n))
    requires IEquals(w, "OR")
    requires Terminated([Word(w)] + Front(r, 1, rest)) && OrLevel(l, [Word(w)] + Front(r, 1, rest), n)
    ensures OrLevel(COr(l, r, w), rest, n)
  {
    hide ParseNot, ParseAnd, ParseOr;
    var tail, m := Front(r, 1, rest), Count(l, n);
    Cons(Word(w), tail);
    var x, y, k := Result0(l, n), Result0(r, m), Count(r, m);
    assert Desugar(COr(l, r, w), n) == (Or(x, y), k);
    assert AndTail(y, rest, k) == Ok(Step(y, rest, k));
    assert OrTail(x, [Word(w)] + tail, m) == OrTail(Or(x, y), rest, k);
  }

  function Rank(c: Cond, place: nat): nat {
    if c.COr? then (if place == 0 then 0 else if place == 2 then 1 else 2)
    else if c.CAnd? then (if place == 1 then 0 else if place == 0 then 1 else 2)
    else if place == 2 then 0 else if place == 1 then 1 else 2
  }

  lemma {:induction false} NotHolds(c: Cond, rest: seq<Token>, n: nat)
    requires Writable(c) && Lists(c) && After(rest)
    ensures NotLevel(c, rest, n)
    decreases c, Rank(c, 2)
  {
    hide ParseNot, ParseAnd, ParseOr, Desugar;
    CloseAfter(rest);
    match c
    case COr(_, _, _) =>
      OrHolds(c, [Sym(")")] + rest, n);
      ParenReads(c, rest, n);
    case CAnd(_, _, _) =>
      OrHolds(c, [Sym(")")] + rest, n);
      ParenReads(c, rest, n);
    case CNot(a, w) =>
      NotHolds(a, rest, n);
      NotReads(a, w, rest, n);
    case CParen(a) =>
      OrHolds(a, [Sym(")")] + rest, n);
      ParenReads(a, rest, n);
      ParenStandsFor(a, n);
    case _ => PredicateReads(c, rest, n);
  }

  lemma {:induction false} AndHolds(c: Cond, rest: seq<Token>, n: nat)
    requires Writable(c) && Lists(c) && After(rest)
    ensures AndLevel(c, rest, n)
    decreases c, Rank(c, 1)
  {
    hide ParseNot, ParseAnd, ParseOr, Desugar, NotLevel, AndLevel, OrLevel;
    if c.CAnd? {
      NotHolds(c.right, rest, Count(c.left, n));
      FrontStarts(c.right, 2, rest);
      JoinAfter(c.word, "AND", Front(c.right, 2, rest));
      AndHolds(c.left, [Word(c.word)] + Front(c.right, 2, rest), n);
      AndReads(c.left, c.right, c.word, rest, n);
    } else {
      NotHolds(c, rest, n);
      AndFromNot(c, rest, n);
    }
  }

  lemma {:induction false} OrHolds(c: Cond, rest: seq<Token>, n: nat)
    requires Writable(c) && Lists(c) && After(rest) && !IsKw(rest, "AND")
    ensures OrLevel(c, rest, n)
    decreases c, Rank(c, 0)
  {
    hide ParseNot, ParseAnd, ParseOr, Desugar, NotLevel, AndLevel, OrLevel;
    if c.COr? {
      AndHolds(c.right, rest, Count(c.left, n));
      FrontStarts(c.right, 1, rest);
      JoinAfter(c.word, "OR", Front(c.right, 1, rest));
      Differ("OR", "AND");
      OrHolds(c.left, [Word(c.word)] + Front(c.right, 1, rest), n);
      OrReads(c.left, c.right, c.word, rest, n);
    } else {
      AndHolds(c, rest, n);
      OrFromAnd(c, rest, n);
    }
  }

  // ---------------------------------------------------------------- the main result

  lemma {:induction false} PathAppend(more: seq<Segment>, a: seq<Token>, b: seq<Token>)
    ensures PathFront(more, a + b) == PathFront(more, a) + b
  {
    if more != [] {
      PathAppend(more[1..], a, b);
      Shift2(Sym("."), SegmentToken(more[0]), PathFront(more[1..], a), b);
    }
  }

  lemma Shift(t: Token, a: seq<Token>, b: seq<Token>)
    ensures [t] + (a + b) == ([t] + a) + b
  {
  }

  lemma Shift2(t: Token, u: Token, a: seq<Token>, b: seq<Token>)
    ensures [t] + ([u] + (a + b)) == ([t] + ([u] + a)) + b
  {
  }

  lemma TermAppend(t: Term, a: seq<Token>, b: seq<Token>)
    ensures TermFront(t, a + b) == TermFront(t, a) + b
  {
    match t
    case Path(first, more) =>
      PathAppend(more, a, b);
      Shift(SegmentToken(first), PathFront(more, a), b);
    case Mark => Shift(Token(ParamMark, "?"), a, b);
    case Value(lit) =>
      if lit.Signed? {
        Shift2(LitFront(lit, a)[0], Token(Number, lit.s), a, b);
      } else {
        Shift(LitFront(lit, a)[0], a, b);
      }
  }

  lemma {:induction false} ListAppend(list: seq<Term>, a: seq<Token>, b: seq<Token>)
    requires list != []
    ensures ListFront(list, a + b) == ListFront(list, a) + b
  {
    if |list| == 1 {
      TermAppend(list[0], a, b);
    } else {
      ListAppend(list[1..], a, b);
      Shift(Sym(","), ListFront(list[1..], a), b);
      TermAppend(list[0], [Sym(",")] + ListFront(list[1..], a), b);
    }
  }

  lemma NotAppend(no: Option<string>, a: seq<Token>, b: seq<Token>)
    ensures NotFront(no, a + b) == NotFront(no, a) + b
  {
    if no.Some? { Shift(Word(no.value), a, b); }
  }

  lemma PredicateAppend(c: Cond, level: nat, a: seq<Token>, b: seq<Token>)
    requires IsPredicate(c) && Lists(c)
    ensures Front(c, level, a + b) == Front(c, level, a) + b
  {
    hide TermFront, ListFront, NotFront;
    match c
    case CCompare(x, op, diamond, y) =>
      TermAppend(y, a, b);
      Shift(OpToken(op, diamond), TermFront(y, a), b);
      TermAppend(x, [OpToken(op, diamond)] + TermFront(y, a), b);
    case CIn(x, list, no, w) =>
      Shift(Sym(")"), a, b);
      ListAppend(list, [Sym(")")] + a, b);
      Shift2(Word(w), Sym("("), ListFront(list, [Sym(")")] + a), b);
      NotAppend(no, [Word(w)] + ([Sym("(")] + ListFront(list, [Sym(")")] + a)), b);
      TermAppend(x, NotFront(no, [Word(w)] + ([Sym("(")] + ListFront(list, [Sym(")")] + a))), b);
    case CLike(x, y, no, w) =>
      TermAppend(y, a, b);
      Shift(Word(w), TermFront(y, a), b);
      NotAppend(no, [Word(w)] + TermFront(y, a), b);
      TermAppend(x, NotFront(no, [Word(w)] + TermFront(y, a)), b);
    case CBetween(x, lo, hi, no, w, conj) =>
      TermAppend(hi, a, b);
      Shift(Word(conj), TermFront(hi, a), b);
      TermAppend(lo, [Word(conj)] + TermFront(hi, a), b);
      Shift(Word(w), TermFront(lo, [Word(conj)] + TermFront(hi, a)), b);
      NotAppend(no, [Word(w)] + TermFront(lo, [Word(conj)] + TermFront(hi, a)), b);
      TermAppend(x, NotFront(no, [Word(w)] + TermFront(lo, [Word(conj)] + TermFront(hi, a))), b);
    case CIsNull(x, no, w, last) =>
      Shift(Word(last), a, b);
      NotAppend(no, [Word(last)] + a, b);
      Shift(Word(w), NotFront(no, [Word(last)] + a), b);
      TermAppend(x, [Word(w)] + NotFront(no, [Word(last)] + a), b);
  }

  lemma {:induction false} FrontAppend(c: Cond, level: nat, a: seq<Token>, b: seq<Token>)
    requires Lists(c)
    ensures Front(c, level, a + b) == Front(c, level, a) + b
    decreases c, level
  {
    Shift(Sym(")"), a, b);
    match c
    case COr(l, r, w) =>
      if level > 0 {
        FrontAppend(c, 0, [Sym(")")] + a, b);
        Shift(Sym("("), Front(c, 0, [Sym(")")] + a), b);
      } else {
        FrontAppend(r, 1, a, b);
        Shift(Word(w), Front(r, 1, a), b);
        FrontAppend(l, 0, [Word(w)] + Front(r, 1, a), b);
      }
    case CAnd(l, r, w) =>
      if level > 1 {
        FrontAppend(c, 0, [Sym(")")] + a, b);
        Shift(Sym("("), Front(c, 0, [Sym(")")] + a), b);
      } else {
        FrontAppend(r, 2, a, b);
        Shift(Word(w), Front(r, 2, a), b);
        FrontAppend(l, 1, [Word(w)] + Front(r, 2, a), b);
      }
    case CNot(x, w) =>
      FrontAppend(x, 2, a, b);
      Shift(Word(w), Front(x, 2, a), b);
    case CParen(x) =>
      FrontAppend(x, 0, [Sym(")")] + a, b);
      Shift(Sym("("), Front(x, 0, [Sym(")")] + a), b);
    case _ => PredicateAppend(c, level, a, b);
  }

  /** The tokens of a condition, parenthesised where its operands need it. */
  function Print(c: Cond): seq<Token>
    requires Lists(c)
  {
    Front(c, 0, [])
  }

  /** The parser undoes the printer: in front of any tokens that cannot continue a condition it
      returns the condition, with BETWEEN spelled out and parameters numbered in the order of
      their marks, and stops exactly there. */
  lemma ParserInvertsPrinter(c: Cond, rest: seq<Token>, n: nat)
    requires Writable(c) && Stops(rest)
    ensures Lists(c) && Terminated(Print(c) + rest)
    ensures ParseOr(Print(c) + rest, n) == Ok(Step(Desugar(c, n).0, rest, Desugar(c, n).1))
  {
    hide ParseOr, Desugar, Front;
    WritableLists(c);
    OrHolds(c, rest, n);
    FrontAppend(c, 0, [], rest);
    assert [] + rest == rest;
  }
}
