/** The condition parser accepts nothing but conditions as they can be printed (src/sql_parser.cpp:205-405). */
module Grammar {
  import opened Wrappers
  import opened Text
  import opened Scanning
  import opened Sql
  import opened SqlTokenizer
  import opened SqlParser
  import opened SqlPrinter
  import S = Soql

  // ---------------------------------------------------------------- words and operands

  /** A text equal to a keyword in any case is a way to write it. */
  lemma KeywordSpelled(w: string, keyword: string)
    requires IEquals(w, keyword) && forall i :: 0 <= i < |keyword| ==> 'A' <= keyword[i] <= 'Z'
    ensures Spelled(w, keyword)
  {
    forall i | 0 <= i < |w| ensures w[i] == keyword[i] || LowerLetter(w[i], keyword[i]) {
      assert ToLower(w)[i] == ToLower(keyword)[i];
    }
  }

  /** Tokens as the tokenizer makes them: they end with END, and a parameter mark is `?`. */
  predicate Made(ts: seq<Token>) {
    Terminated(ts) && forall i :: 0 <= i < |ts| ==> Genuine(ts[i])
  }

  predicate Genuine(t: Token) {
    (t.t == End ==> t == END) && (t.t == ParamMark ==> t.v == "?")
  }

  lemma Split(ts: seq<Token>)
    requires Made(ts) && ts[0].t != End
    ensures ts == [ts[0]] + Next(ts) && Made(Next(ts))
  {
    assert forall i :: 0 <= i < |Next(ts)| ==> Next(ts)[i] == ts[i + 1];
  }

  lemma WordTaken(ts: seq<Token>, keyword: string) returns (w: string)
    requires Made(ts) && IsKw(ts, keyword) && forall i :: 0 <= i < |keyword| ==> 'A' <= keyword[i] <= 'Z'
    ensures Spelled(w, keyword) && ts == [Word(w)] + Next(ts) && Made(Next(ts))
  {
    w := ts[0].v;
    KeywordSpelled(w, keyword);
    Split(ts);
  }

  lemma SymTaken(ts: seq<Token>, op: string)
    requires Made(ts) && IsOp(ts, op, 0)
    ensures ts == [Sym(op)] + Next(ts) && Made(Next(ts))
  {
    Split(ts);
  }

  lemma LitTaken(ts: seq<Token>) returns (lit: SqlLit)
    requires Made(ts) && LiteralStart(ts)
    ensures var (l, rest) := ParseLiteral(ts);
            WritableLit(lit) && LitOf(lit) == l && ts == LitFront(lit, rest) && Made(rest)
  {
    var t, rest := ts[0], Next(ts);
    Split(ts);
    if t.t == Op {
      lit := Signed(t.v == "-", rest[0].v);
      Split(rest);
    } else if t.t == Number { lit := Digits(t.v); }
    else if t.t == String { lit := SqlLit.Text(t.v); }
    else if t.t == DateTok { lit := DateEscape(t.v); }
    else if t.t == TimeTok { lit := TimeEscape(t.v); }
    else if t.t == TsTok { lit := TsEscape(t.v); }
    else if IEquals(t.v, "NULL") { lit := NullWord(t.v); KeywordSpelled(t.v, "NULL"); }
    else if IEquals(t.v, "TRUE") { lit := TrueWord(t.v); KeywordSpelled(t.v, "TRUE"); }
    else { lit := FalseWord(t.v); KeywordSpelled(t.v, "FALSE"); }
  }

  function SegmentOf(t: Token): Segment {
    if t.t == Ident then Bare(t.v) else Quoted(t.v)
  }

  lemma {:induction false} PathTaken(ts: seq<Token>) returns (more: seq<Segment>)
    requires Made(ts)
    ensures var (names, rest) := PathTail(ts); Names(more) == names && ts == PathFront(more, rest) && Made(rest)
    decreases |ts|
  {
    more := [];
    if IsOp(ts, ".", 0) && IsName(Peek(ts, 1)) {
      var name := Next(ts);
      more := PathTaken(Next(name));
      SymTaken(ts, ".");
      Split(name);
      more := [SegmentOf(name[0])] + more;
    }
  }

  /** What was read as an operand is the operand as written. */
  predicate TermTakes(t: Term, ts: seq<Token>, n: nat, o: Step<Operand>) {
    WritableTerm(t) && TermOf(t, n) == o.value && o.params == n + Marks(t) && ts == TermFront(t, o.rest) &&
    Made(o.rest)
  }

  lemma TermTaken(ts: seq<Token>, n: nat) returns (t: Term)
    requires Made(ts) && ParseOperand(ts, n).Ok?
    ensures TermTakes(t, ts, n, ParseOperand(ts, n).value)
    ensures !IsKw(ts, "EXISTS") && !IsKw(ts, "NOT") ==> LeadTerm(t)
  {
    hide LitFront, PathFront, LiteralStart;
    Split(ts);
    if ts[0].t == ParamMark {
      t := Mark;
    } else if LiteralStart(ts) {
      var lit := LitTaken(ts);
      t := Value(lit);
    } else {
      var more := PathTaken(Next(ts));
      t := Path(SegmentOf(ts[0]), more);
      NotALiteral(ts);
    }
  }

  lemma NotALiteral(ts: seq<Token>)
    requires Terminated(ts) && !LiteralStart(ts)
    ensures !IsKw(ts, "NULL") && !IsKw(ts, "TRUE") && !IsKw(ts, "FALSE")
  {
  }

  lemma {:induction false} ListTaken(ts: seq<Token>, n: nat) returns (list: seq<Term>)
    requires Made(ts) && ParseList(ts, n).Ok?
    ensures var r := ParseList(ts, n).value;
            list != [] && (forall i :: 0 <= i < |list| ==> WritableTerm(list[i])) &&
            ListOf(list, n) == (r.value, r.params) && ts == ListFront(list, [Sym(")")] + r.rest) && Made(r.rest)
    decreases |ts|
  {
    hide ParseOperand, TermFront, WritableTerm, TermOf;
    var t := TermTaken(ts, n);
    var o := ParseOperand(ts, n).value;
    if IsOp(o.rest, ",", 0) {
      var more := ListTaken(Next(o.rest), o.params);
      SymTaken(o.rest, ",");
      list := [t] + more;
      assert list[1..] == more;
    } else {
      SymTaken(o.rest, ")");
      list := [t];
      assert list[1..] == [];
      assert [TermOf(t, n)] + [] == [TermOf(t, n)];
    }
  }

  // ---------------------------------------------------------------- predicates

  /** What was read as a condition is `c` as written at this place. */
  predicate Takes(c: Cond, level: nat, ts: seq<Token>, n: nat, e: Step<Expr>) {
    Writable(c) && Lists(c) && ts == Front(c, level, e.rest) && Desugar(c, n) == (e.value, e.params) &&
    Made(e.rest)
  }

  lemma RestMade(c: Cond, level: nat, ts: seq<Token>, n: nat, e: Step<Expr>)
    requires Takes(c, level, ts, n, e)
    ensures Made(e.rest)
  {
  }

  lemma CompareTaken(a: Term, ts: seq<Token>, n: nat, k: nat, e: Step<Expr>) returns (c: Cond)
    requires Made(ts) && LeadTerm(a) && CompareOp(ts[0]).Some?
    requires AfterOperand(TermOf(a, n), ts, n + Marks(a)) == Ok(e)
    ensures IsPredicate(c) && Takes(c, k, TermFront(a, ts), n, e)
  {
    hide ParseOperand, TermFront, WritableTerm, TermOf, LeadTerm;
    var b := TermTaken(Next(ts), n + Marks(a));
    c := CCompare(a, CompareOp(ts[0]).value, ts[0].v == "<>", b);
    Split(ts);
  }

  /** An optional NOT in front of a test. */
  lemma NotTaken(ts: seq<Token>) returns (no: Option<string>)
    requires Made(ts)
    ensures no.Some? == IsKw(ts, "NOT") && SpelledNot(no)
    ensures ts == NotFront(no, if no.Some? then Next(ts) else ts) && Made(if no.Some? then Next(ts) else ts)
  {
    no := None;
    if IsKw(ts, "NOT") {
      var w := WordTaken(ts, "NOT");
      no := Some(w);
    }
  }

  lemma InTaken(a: Term, no: Option<string>, w: string, ts: seq<Token>, n: nat, k: nat, e: Step<Expr>) returns (c: Cond)
    requires Made(ts) && LeadTerm(a) && SpelledNot(no) && Spelled(w, "IN")
    requires ParseIn(TermOf(a, n), no.Some?, ts, n + Marks(a)) == Ok(e)
    ensures IsPredicate(c) && Takes(c, k, TermFront(a, NotFront(no, [Word(w)] + ts)), n, e)
  {
    hide ParseList, TermFront, WritableTerm, TermOf, LeadTerm, ListFront, ListOf, Spelled, NotFront;
    SymTaken(ts, "(");
    var list := ListTaken(Next(ts), n + Marks(a));
    c := CIn(a, list, no, w);
  }

  lemma LikeTaken(a: Term, no: Option<string>, w: string, ts: seq<Token>, n: nat, k: nat, e: Step<Expr>)
    returns (c: Cond)
    requires Made(ts) && LeadTerm(a) && SpelledNot(no) && Spelled(w, "LIKE")
    requires ParseLike(TermOf(a, n), no.Some?, ts, n + Marks(a)) == Ok(e)
    ensures IsPredicate(c) && Takes(c, k, TermFront(a, NotFront(no, [Word(w)] + ts)), n, e)
  {
    hide ParseOperand, TermFront, WritableTerm, TermOf, LeadTerm, Spelled, NotFront;
    var b := TermTaken(ts, n + Marks(a));
    c := CLike(a, b, no, w);
  }

  lemma BetweenTaken(a: Term, no: Option<string>, w: string, ts: seq<Token>, n: nat, k: nat, e: Step<Expr>)
    returns (c: Cond)
    requires Made(ts) && LeadTerm(a) && SpelledNot(no) && Spelled(w, "BETWEEN")
    requires ParseBetween(TermOf(a, n), no.Some?, ts, n + Marks(a)) == Ok(e)
    ensures IsPredicate(c) && Takes(c, k, TermFront(a, NotFront(no, [Word(w)] + ts)), n, e)
  {
    hide ParseOperand, TermFront, WritableTerm, TermOf, LeadTerm, Spelled, NotFront;
    var lo := TermTaken(ts, n + Marks(a));
    var low := ParseOperand(ts, n + Marks(a)).value;
    var conj := WordTaken(low.rest, "AND");
    var hi := TermTaken(Next(low.rest), low.params);
    c := CBetween(a, lo, hi, no, w, conj);
  }

  lemma NullTaken(a: Term, w: string, ts: seq<Token>, n: nat, k: nat, e: Step<Expr>) returns (c: Cond)
    requires Made(ts) && LeadTerm(a) && Spelled(w, "IS")
    requires ParseIsNull(TermOf(a, n), ts, n + Marks(a)) == Ok(e)
    ensures IsPredicate(c) && Takes(c, k, TermFront(a, [Word(w)] + ts), n, e)
  {
    hide TermFront, WritableTerm, TermOf, LeadTerm, Spelled, NotFront;
    var no := NotTaken(ts);
    var last := WordTaken(if no.Some? then Next(ts) else ts, "NULL");
    c := CIsNull(a, no, w, last);
  }

  lemma TestTaken(a: Term, ts: seq<Token>, n: nat, k: nat, e: Step<Expr>) returns (c: Cond)
    requires Made(ts) && LeadTerm(a) && CompareOp(ts[0]).None?
    requires AfterOperand(TermOf(a, n), ts, n + Marks(a)) == Ok(e)
    ensures IsPredicate(c) && Takes(c, k, TermFront(a, ts), n, e)
  {
    hide ParseIn, ParseLike, ParseBetween, ParseIsNull, TermFront, LeadTerm, TermOf, Takes, NotFront, Spelled;
    var no := NotTaken(ts);
    var test := if no.Some? then Next(ts) else ts;
    if IsKw(test, "IN") {
      var w := WordTaken(test, "IN");
      c := InTaken(a, no, w, Next(test), n, k, e);
    } else if IsKw(test, "LIKE") {
      var w := WordTaken(test, "LIKE");
      c := LikeTaken(a, no, w, Next(test), n, k, e);
    } else if IsKw(test, "BETWEEN") {
      var w := WordTaken(test, "BETWEEN");
      c := BetweenTaken(a, no, w, Next(test), n, k, e);
    } else {
      var w := WordTaken(test, "IS");
      c := NullTaken(a, w, Next(test), n, k, e);
    }
  }

  // ---------------------------------------------------------------- whole conditions

  lemma ParenTaken(a: Cond, level: nat, ts: seq<Token>, n: nat, inner: Step<Expr>)
    requires Made(ts) && Made(inner.rest) && IsOp(ts, "(", 0) && IsOp(inner.rest, ")", 0)
    requires Takes(a, 0, Next(ts), n, inner)
    ensures Takes(CParen(a), level, ts, n, Step(inner.value, Next(inner.rest), inner.params))
  {
    hide Front, Desugar;
    SymTaken(ts, "(");
    SymTaken(inner.rest, ")");
    ParenStandsFor(a, n);
    ParenFront(a, level, Next(inner.rest));
  }

  lemma ParenFront(a: Cond, level: nat, rest: seq<Token>)
    requires Lists(a)
    ensures Front(CParen(a), level, rest) == [Sym("(")] + Front(a, 0, [Sym(")")] + rest)
  {
  }

  predicate Tight(c: Cond) {
    !c.COr? && !c.CAnd?
  }

  lemma {:induction false} PredicateTaken(ts: seq<Token>, n: nat, level: nat) returns (c: Cond)
    requires Made(ts) && ParsePredicate(ts, n).Ok? && !IsKw(ts, "NOT")
    ensures Tight(c) && Takes(c, level, ts, n, ParsePredicate(ts, n).value)
    decreases |ts|, 0
  {
    hide ParseOperand, AfterOperand, TermFront, LeadTerm, TermOf, Takes, ParseOr;
    var e := ParsePredicate(ts, n).value;
    if IsOp(ts, "(", 0) {
      var a := OrTaken(Next(ts), n);
      RestMade(a, 0, Next(ts), n, ParseOr(Next(ts), n).value);
      ParenTaken(a, level, ts, n, ParseOr(Next(ts), n).value);
      c := CParen(a);
    } else {
      var a := TermTaken(ts, n);
      var o := ParseOperand(ts, n).value;
      if CompareOp(o.rest[0]).Some? {
        c := CompareTaken(a, o.rest, n, level, e);
      } else {
        c := TestTaken(a, o.rest, n, level, e);
      }
    }
  }

  lemma NotWritten(a: Cond, w: string, level: nat, ts: seq<Token>, n: nat, inner: Step<Expr>)
    requires Spelled(w, "NOT") && Takes(a, 2, ts, n, inner)
    ensures Takes(CNot(a, w), level, [Word(w)] + ts, n, inner.(value := Not(inner.value)))
  {
    hide Spelled;
  }

  lemma {:induction false} NegationTaken(ts: seq<Token>, n: nat, level: nat) returns (c: Cond)
    requires Made(ts) && ParseNot(ts, n).Ok?
    ensures Tight(c) && Takes(c, level, ts, n, ParseNot(ts, n).value)
    decreases |ts|, 1
  {
    hide ParsePredicate, Takes, Spelled;
    if IsKw(ts, "NOT") {
      var w := WordTaken(ts, "NOT");
      var a := NegationTaken(Next(ts), n, 2);
      NotWritten(a, w, level, Next(ts), n, ParseNot(Next(ts), n).value);
      c := CNot(a, w);
    } else {
      c := PredicateTaken(ts, n, level);
    }
  }

  /** One more operand of AND. */
  lemma AndWritten(l: Cond, r: Cond, w: string, ts: seq<Token>, n: nat, left: Step<Expr>, right: Step<Expr>)
    requires Made(left.rest) && left.rest[0].t != End && left.rest == [Word(w)] + Next(left.rest) && Spelled(w, "AND")
    requires Takes(l, 1, ts, n, left) && Takes(r, 2, Next(left.rest), left.params, right)
    ensures Takes(CAnd(l, r, w), 1, ts, n, right.(value := And(left.value, right.value)))
  {
    hide Spelled;
  }

  lemma {:induction false} AndTailTaken(l: Cond, ts: seq<Token>, n: nat, left: Step<Expr>) returns (c: Cond)
    requires !l.COr? && Takes(l, 1, ts, n, left) && Made(left.rest)
    requires AndTail(left.value, left.rest, left.params).Ok?
    ensures !c.COr? && Takes(c, 1, ts, n, AndTail(left.value, left.rest, left.params).value)
    decreases |left.rest|, 2
  {
    hide ParseNot, Takes, Spelled;
    c := l;
    if IsKw(left.rest, "AND") {
      var w := WordTaken(left.rest, "AND");
      var r := NegationTaken(Next(left.rest), left.params, 2);
      var right := ParseNot(Next(left.rest), left.params).value;
      RestMade(r, 2, Next(left.rest), left.params, right);
      AndWritten(l, r, w, ts, n, left, right);
      c := AndTailTaken(CAnd(l, r, w), ts, n, right.(value := And(left.value, right.value)));
    }
  }

  lemma {:induction false} AndTaken(ts: seq<Token>, n: nat) returns (c: Cond)
    requires Made(ts) && ParseAnd(ts, n).Ok?
    ensures !c.COr? && Takes(c, 1, ts, n, ParseAnd(ts, n).value)
    decreases |ts|, 3
  {
    hide ParseNot, AndTail, Takes;
    var l := NegationTaken(ts, n, 1);
    RestMade(l, 1, ts, n, ParseNot(ts, n).value);
    c := AndTailTaken(l, ts, n, ParseNot(ts, n).value);
  }

  /** Where AND is not put in parentheses neither is what binds tighter. */
  lemma Looser(c: Cond, ts: seq<Token>, n: nat, e: Step<Expr>)
    requires !c.COr? && Takes(c, 1, ts, n, e)
    ensures Takes(c, 0, ts, n, e)
  {
    hide TermFront, ListFront, NotFront, Desugar, Writable, Lists;
  }

  lemma OrWritten(l: Cond, r: Cond, w: string, ts: seq<Token>, n: nat, left: Step<Expr>, right: Step<Expr>)
    requires Made(left.rest) && left.rest[0].t != End && left.rest == [Word(w)] + Next(left.rest) && Spelled(w, "OR")
    requires Takes(l, 0, ts, n, left) && Takes(r, 1, Next(left.rest), left.params, right)
    ensures Takes(COr(l, r, w), 0, ts, n, right.(value := Or(left.value, right.value)))
  {
    hide Spelled;
  }

  lemma {:induction false} OrTailTaken(l: Cond, ts: seq<Token>, n: nat, left: Step<Expr>) returns (c: Cond)
    requires Takes(l, 0, ts, n, left) && Made(left.rest)
    requires OrTail(left.value, left.rest, left.params).Ok?
    ensures Takes(c, 0, ts, n, OrTail(left.value, left.rest, left.params).value)
    decreases |left.rest|, 4
  {
    hide ParseAnd, Takes, Spelled;
    c := l;
    if IsKw(left.rest, "OR") {
      var w := WordTaken(left.rest, "OR");
      var r := AndTaken(Next(left.rest), left.params);
      var right := ParseAnd(Next(left.rest), left.params).value;
      RestMade(r, 1, Next(left.rest), left.params, right);
      OrWritten(l, r, w, ts, n, left, right);
      c := OrTailTaken(COr(l, r, w), ts, n, right.(value := Or(left.value, right.value)));
    }
  }

  lemma {:induction false} OrTaken(ts: seq<Token>, n: nat) returns (c: Cond)
    requires Made(ts) && ParseOr(ts, n).Ok?
    ensures Takes(c, 0, ts, n, ParseOr(ts, n).value)
    decreases |ts|, 5
  {
    hide ParseAnd, OrTail, Takes;
    var l := AndTaken(ts, n);
    RestMade(l, 1, ts, n, ParseAnd(ts, n).value);
    Looser(l, ts, n, ParseAnd(ts, n).value);
    c := OrTailTaken(l, ts, n, ParseAnd(ts, n).value);
  }

  // ---------------------------------------------------------------- the main result

  /** Whatever the parser accepts in front of some tokens is a condition as it may be written, printed
      there, and stands for what the parser made of it. */
  lemma OnlyPrintedAccepted(ts: seq<Token>, n: nat) returns (c: Cond)
    requires Made(ts) && ParseOr(ts, n).Ok?
    ensures var r := ParseOr(ts, n).value;
            Made(r.rest) && Writable(c) && Lists(c) && ts == Print(c) + r.rest && Desugar(c, n) == (r.value, r.params)
  {
    hide ParseOr, Front, Desugar;
    c := OrTaken(ts, n);
    var rest := ParseOr(ts, n).value.rest;
    FrontAppend(c, 0, [], rest);
    assert [] + rest == rest;
  }

  lemma EndStops()
    ensures Stops([END])
  {
  }

  /** The parser takes the tokens for one condition and nothing else. */
  ghost predicate ReadWhole(ts: seq<Token>, n: nat)
    requires Terminated(ts)
  {
    exists e, m :: ParseOr(ts, n) == Ok(Step(e, [END], m))
  }

  /** The tokens are those of a condition as it may be written. */
  ghost predicate Printed(ts: seq<Token>) {
    exists c :: Writable(c) && Lists(c) && ts == Print(c) + [END]
  }

  /** A token list is a whole condition exactly when it is one printed. */
  lemma GrammarIsPrinter(ts: seq<Token>, n: nat)
    requires Made(ts)
    ensures ReadWhole(ts, n) <==> Printed(ts)
  {
    hide ParseOr, Writable, Front, Desugar, Lists;
    if ReadWhole(ts, n) {
      var c := OnlyPrintedAccepted(ts, n);
      assert Printed(ts);
    }
    if Printed(ts) {
      var c :| Writable(c) && Lists(c) && ts == Print(c) + [END];
      EndStops();
      ParserInvertsPrinter(c, [END], n);
      assert ParseOr(ts, n) == Ok(Step(Desugar(c, n).0, [END], Desugar(c, n).1));
    }
  }

  // ---------------------------------------------------------------- texts

  lemma EscapeGenuine(s: string)
    requires Escape(s).Ok?
    ensures Escape(s).value.0.t != End && Genuine(Escape(s).value.0)
  {
    hide QuotedText, Run;
  }

  lemma SymbolGenuine(s: string)
    requires s != "" && ScanSymbol(s).Ok?
    ensures forall i :: 0 <= i < |ScanSymbol(s).value.0| ==>
              ScanSymbol(s).value.0[i].t != End && Genuine(ScanSymbol(s).value.0[i])
  {
    hide Escape;
    if s[0] == '{' { EscapeGenuine(s[1..]); }
  }

  lemma ScanGenuine(s: string)
    requires s != "" && Scan(s).Ok?
    ensures forall i :: 0 <= i < |Scan(s).value.0| ==>
              Scan(s).value.0[i].t != End && Genuine(Scan(s).value.0[i])
  {
    hide QuotedText, NumberLength, NumberStart, CommentEnd, Run, ScanSymbol;
    if ScanSymbol(s).Ok? { SymbolGenuine(s); }
  }

  lemma {:induction false} TokensMade(s: string)
    requires Tokenize(s).Ok?
    ensures Made(Tokenize(s).value)
    decreases |s|
  {
    hide Scan, Genuine;
    EndIsGenuine();
    var t := s[Run(s, IsSpace)..];
    if t != "" {
      ScanGenuine(t);
      var (ts, n) := Scan(t).value;
      TokensMade(t[n..]);
      var rest := Tokenize(t[n..]).value;
      forall i | 0 <= i < |ts + rest|
        ensures ((ts + rest)[i].t == End <==> i == |ts + rest| - 1) && Genuine((ts + rest)[i])
      {
        if i < |ts| { assert (ts + rest)[i] == ts[i]; } else { assert (ts + rest)[i] == rest[i - |ts|]; }
      }
    }
  }

  lemma EndIsGenuine()
    ensures Genuine(END)
  {
  }

  /** The text is a condition as it may be written, `c`, and nothing else. */
  predicate Spells(s: string, c: Cond) {
    Writable(c) && Lists(c) && Tokenize(s) == Ok(Print(c) + [END])
  }

  lemma OnlyEnd(rest: seq<Token>)
    requires Made(rest) && rest[0].t == End
    ensures rest == [END]
  {
  }

  /** A text is read as a condition exactly when its tokens are those of one, and as the tree that one
      stands for; every other text is a syntax error. */
  lemma TextsAccepted(s: string)
    ensures ParseText(s).Ok? <==> exists c :: Spells(s, c)
    ensures forall c :: Spells(s, c) ==> ParseText(s) == Ok(Desugar(c, 0))
    ensures ParseText(s).Err? ==> ParseText(s) == Err("42000")
  {
    hide Tokenize, ParseOr, Print, Writable, Desugar, Lists, Terminated;
    if Tokenize(s).Ok? {
      TokensMade(s);
      TokensTerminated(s);
      var ts := Tokenize(s).value;
      if ParseText(s).Ok? {
        var c := OnlyPrintedAccepted(ts, 0);
        assert Spells(s, c) by { OnlyEnd(ParseOr(ts, 0).value.rest); }
      }
      forall c | Spells(s, c) ensures ParseText(s) == Ok(Desugar(c, 0)) {
        EndStops();
        ParserInvertsPrinter(c, [END], 0);
      }
    }
  }
}
