/** The SQL condition parser (src/sql_parser.cpp): its grammar as functions on the tokens that are
    left, and the class that walks the token list. */
module SqlParser {
  import opened Wrappers
  import opened Text
  import opened Scanning
  import opened Sql
  import opened SqlTokenizer
  import S = Soql

  /** A token list as the tokenizer makes them: End is the last token and no other. */
  predicate Terminated(ts: seq<Token>) {
    ts != [] && forall i :: 0 <= i < |ts| ==> (ts[i].t == End <==> i == |ts| - 1)
  }

  lemma TailTerminated(ts: seq<Token>)
    requires Terminated(ts) && ts[0].t != End
    ensures Terminated(ts[1..])
  {
    forall i | 0 <= i < |ts[1..]| ensures ts[1..][i].t == End <==> i == |ts[1..]| - 1 {
      assert ts[1..][i] == ts[i + 1];
    }
  }

  // ---------------------------------------------------------------- looking ahead

  function Peek(ts: seq<Token>, k: nat): Token
    requires ts != []
  {
    if k < |ts| then ts[k] else ts[|ts| - 1]
  }

  predicate IsKw(ts: seq<Token>, kw: string)
    requires ts != []
  {
    ts[0].t == Ident && IEquals(ts[0].v, kw)
  }

  predicate IsOp(ts: seq<Token>, op: string, k: nat)
    requires ts != []
  {
    Peek(ts, k).t == Op && Peek(ts, k).v == op
  }

  predicate IsName(t: Token) {
    t.t == Ident || t.t == QIdent
  }

  predicate LiteralStart(ts: seq<Token>)
    requires ts != []
  {
    var k := ts[0].t;
    k == String || k == Number || k == DateTok || k == TimeTok || k == TsTok ||
    (k == Op && (ts[0].v == "-" || ts[0].v == "+") && Peek(ts, 1).t == Number) ||
    IsKw(ts, "NULL") || IsKw(ts, "TRUE") || IsKw(ts, "FALSE")
  }

  // ---------------------------------------------------------------- the grammar

  /** What a parsing step found, the tokens after it and the number of parameters so far. */
  datatype Step<+T> = Step(value: T, rest: seq<Token>, params: nat)

  predicate Advances<T>(r: Result<Step<T>>, ts: seq<Token>) {
    (r.Ok? ==> |r.value.rest| < |ts| && Terminated(r.value.rest)) && (r.Err? ==> r.state == "42000")
  }

  function Next(ts: seq<Token>): (rest: seq<Token>)
    requires Terminated(ts) && ts[0].t != End
    ensures Terminated(rest) && |rest| == |ts| - 1
  {
    TailTerminated(ts);
    ts[1..]
  }

  /** Requires a literal to start here, as every caller has checked. */
  function ParseLiteral(ts: seq<Token>): (r: (Lit, seq<Token>))
    requires Terminated(ts) && LiteralStart(ts)
    ensures |r.1| < |ts| && Terminated(r.1)
  {
    var t, rest := ts[0], Next(ts);
    if t.t == Op then (Lit(NumberLit, (if t.v == "-" then "-" else "") + rest[0].v), Next(rest))
    else if t.t == Number then (Lit(NumberLit, t.v), rest)
    else if t.t == String then (Lit(StringLit, t.v), rest)
    else if t.t == DateTok then (Lit(DateLit, t.v), rest)
    else if t.t == TimeTok then (Lit(TimeLit, t.v), rest)
    else if t.t == TsTok then (Lit(TimestampLit, t.v), rest)
    else if IEquals(t.v, "NULL") then (NULL, rest)
    else (Lit(BoolLit, if IEquals(t.v, "TRUE") then "true" else "false"), rest)
  }

  /** Further `.name` segments of a path. */
  function PathTail(ts: seq<Token>): (r: (seq<string>, seq<Token>))
    requires Terminated(ts)
    ensures |r.1| <= |ts| && Terminated(r.1)
    decreases |ts|
  {
    if IsOp(ts, ".", 0) && IsName(Peek(ts, 1)) then
      var name := Next(ts);
      var (tail, rest) := PathTail(Next(name));
      ([name[0].v] + tail, rest)
    else ([], ts)
  }

  function ParseOperand(ts: seq<Token>, n: nat): (r: Result<Step<Operand>>)
    requires Terminated(ts)
    ensures Advances(r, ts)
  {
    var o :-
      if ts[0].t == ParamMark then Ok(Step(Param(n), Next(ts), n + 1))
      else if LiteralStart(ts) then
        var (lit, rest) := ParseLiteral(ts);
        Ok(Step(Literal(lit), rest, n))
      else if IsName(ts[0]) then
        if ts[0].t == Ident && IsOp(ts, "(", 1) then Err("42000")
        else if IsKw(ts, "SELECT") then Err("42000")
        else
          var (tail, rest) := PathTail(Next(ts));
          Ok(Step(Column([ts[0].v] + tail), rest, n))
      else Err("42000");
    if IsOp(o.rest, "+", 0) || IsOp(o.rest, "-", 0) || IsOp(o.rest, "*", 0) then Err("42000") else Ok(o)
  }

  function CompareOp(t: Token): Option<S.CmpOp> {
    if t.t != Op then None
    else if t.v == "=" then Some(S.Eq)
    else if t.v == "!=" || t.v == "<>" then Some(S.Ne)
    else if t.v == "<" then Some(S.Lt)
    else if t.v == "<=" then Some(S.Le)
    else if t.v == ">" then Some(S.Gt)
    else if t.v == ">=" then Some(S.Ge)
    else None
  }

  /** Operands separated by commas, then `)`. */
  function ParseList(ts: seq<Token>, n: nat): (r: Result<Step<seq<Operand>>>)
    requires Terminated(ts)
    ensures Advances(r, ts) && (r.Ok? ==> r.value.value != [])
    decreases |ts|
  {
    var o :- ParseOperand(ts, n);
    if IsOp(o.rest, ",", 0) then
      var more :- ParseList(Next(o.rest), o.params);
      Ok(Step([o.value] + more.value, more.rest, more.params))
    else if IsOp(o.rest, ")", 0) then Ok(Step([o.value], Next(o.rest), o.params))
    else Err("42000")
  }

  function Between(a: Operand, lo: Operand, hi: Operand, negated: bool): Expr {
    var both := And(Compare(S.Ge, a, lo), Compare(S.Le, a, hi));
    if negated then Not(both) else both
  }

  /** After `IN`. */
  function ParseIn(a: Operand, negated: bool, ts: seq<Token>, n: nat): (r: Result<Step<Expr>>)
    requires Terminated(ts)
    ensures Advances(r, ts)
  {
    if !IsOp(ts, "(", 0) then Err("42000")
    else if IsKw(Next(ts), "SELECT") then Err("42000")
    else
      var list :- ParseList(Next(ts), n);
      Ok(Step(In(a, list.value, negated), list.rest, list.params))
  }

  /** After `LIKE`. */
  function ParseLike(a: Operand, negated: bool, ts: seq<Token>, n: nat): (r: Result<Step<Expr>>)
    requires Terminated(ts)
    ensures Advances(r, ts)
  {
    var b :- ParseOperand(ts, n);
    if IsKw(b.rest, "ESCAPE") then Err("42000") else Ok(Step(Like(a, b.value, negated), b.rest, b.params))
  }

  /** After `BETWEEN`. */
  function ParseBetween(a: Operand, negated: bool, ts: seq<Token>, n: nat): (r: Result<Step<Expr>>)
    requires Terminated(ts)
    ensures Advances(r, ts)
  {
    var lo :- ParseOperand(ts, n);
    if !IsKw(lo.rest, "AND") then Err("42000")
    else
      var hi :- ParseOperand(Next(lo.rest), lo.params);
      Ok(Step(Between(a, lo.value, hi.value, negated), hi.rest, hi.params))
  }

  /** After `IS`. */
  function ParseIsNull(a: Operand, ts: seq<Token>, n: nat): (r: Result<Step<Expr>>)
    requires Terminated(ts)
    ensures Advances(r, ts)
  {
    var isNot := IsKw(ts, "NOT");
    var last := if isNot then Next(ts) else ts;
    if IsKw(last, "NULL") then Ok(Step(IsNull(a, isNot), Next(last), n)) else Err("42000")
  }

  /** What may follow the first operand of a predicate, after an optional NOT. */
  function ParseTest(a: Operand, negated: bool, ts: seq<Token>, n: nat): (r: Result<Step<Expr>>)
    requires Terminated(ts)
    ensures Advances(r, ts)
  {
    if IsKw(ts, "IN") then ParseIn(a, negated, Next(ts), n)
    else if IsKw(ts, "LIKE") then ParseLike(a, negated, Next(ts), n)
    else if IsKw(ts, "BETWEEN") then ParseBetween(a, negated, Next(ts), n)
    else if negated then Err("42000")
    else if IsKw(ts, "IS") then ParseIsNull(a, Next(ts), n)
    else Err("42000")
  }

  /** The rest of a predicate whose first operand has been read. */
  function AfterOperand(a: Operand, ts: seq<Token>, n: nat): (r: Result<Step<Expr>>)
    requires Terminated(ts)
    ensures Advances(r, ts)
  {
    var op := CompareOp(ts[0]);
    if op.Some? then
      var b :- ParseOperand(Next(ts), n);
      Ok(Step(Compare(op.value, a, b.value), b.rest, b.params))
    else
      var negated := IsKw(ts, "NOT");
      ParseTest(a, negated, if negated then Next(ts) else ts, n)
  }

  function ParsePredicate(ts: seq<Token>, n: nat): (r: Result<Step<Expr>>)
    requires Terminated(ts)
    ensures Advances(r, ts)
    decreases |ts|, 0
  {
    if IsKw(ts, "EXISTS") then Err("42000")
    else if IsOp(ts, "(", 0) then
      if IsKw(Next(ts), "SELECT") then Err("42000")
      else
        var e :- ParseOr(Next(ts), n);
        if IsOp(e.rest, ")", 0) then Ok(Step(e.value, Next(e.rest), e.params)) else Err("42000")
    else
      var a :- ParseOperand(ts, n);
      AfterOperand(a.value, a.rest, a.params)
  }

  function ParseNot(ts: seq<Token>, n: nat): (r: Result<Step<Expr>>)
    requires Terminated(ts)
    ensures Advances(r, ts)
    decreases |ts|, 1
  {
    if IsKw(ts, "NOT") then
      var e :- ParseNot(Next(ts), n);
      Ok(Step(Not(e.value), e.rest, e.params))
    else ParsePredicate(ts, n)
  }

  /** The loop over `AND`, with the left operand so far. */
  function AndTail(l: Expr, ts: seq<Token>, n: nat): (r: Result<Step<Expr>>)
    requires Terminated(ts)
    ensures (r.Ok? ==> |r.value.rest| <= |ts| && Terminated(r.value.rest)) && (r.Err? ==> r.state == "42000")
    decreases |ts|, 2
  {
    if IsKw(ts, "AND") then
      var r :- ParseNot(Next(ts), n);
      AndTail(And(l, r.value), r.rest, r.params)
    else Ok(Step(l, ts, n))
  }

  function ParseAnd(ts: seq<Token>, n: nat): (r: Result<Step<Expr>>)
    requires Terminated(ts)
    ensures Advances(r, ts)
    decreases |ts|, 3
  {
    var l :- ParseNot(ts, n);
    AndTail(l.value, l.rest, l.params)
  }

  function OrTail(l: Expr, ts: seq<Token>, n: nat): (r: Result<Step<Expr>>)
    requires Terminated(ts)
    ensures (r.Ok? ==> |r.value.rest| <= |ts| && Terminated(r.value.rest)) && (r.Err? ==> r.state == "42000")
    decreases |ts|, 4
  {
    if IsKw(ts, "OR") then
      var r :- ParseAnd(Next(ts), n);
      OrTail(Or(l, r.value), r.rest, r.params)
    else Ok(Step(l, ts, n))
  }

  function ParseOr(ts: seq<Token>, n: nat): (r: Result<Step<Expr>>)
    requires Terminated(ts)
    ensures Advances(r, ts)
    decreases |ts|, 5
  {
    var l :- ParseAnd(ts, n);
    OrTail(l.value, l.rest, l.params)
  }

  // ---------------------------------------------------------------- whole texts

  lemma ScanWithoutEnd(s: string)
    requires s != "" && Scan(s).Ok?
    ensures forall i :: 0 <= i < |Scan(s).value.0| ==> Scan(s).value.0[i].t != End
  {
  }

  /** The tokenizer's lists end with End, and hold it nowhere else. */
  lemma {:induction false} TokensTerminated(s: string)
    requires Tokenize(s).Ok?
    ensures Terminated(Tokenize(s).value)
    decreases |s|
  {
    hide Scan;
    var t := s[Run(s, IsSpace)..];
    if t != "" {
      ScanWithoutEnd(t);
      var (ts, n) := Scan(t).value;
      TokensTerminated(t[n..]);
      var rest := Tokenize(t[n..]).value;
      forall i | 0 <= i < |ts + rest| ensures (ts + rest)[i].t == End <==> i == |ts + rest| - 1 {
        if i < |ts| { assert (ts + rest)[i] == ts[i]; } else { assert (ts + rest)[i] == rest[i - |ts|]; }
      }
    }
  }

  /** What the driver makes of the text after WHERE: a condition and its number of parameters. */
  function ParseText(s: string): Result<(Expr, nat)> {
    var ts :- Tokenize(s);
    TokensTerminated(s);
    var step :- ParseOr(ts, 0);
    if step.rest[0].t == End then Ok((step.value, step.params)) else Err("42000")
  }

  // ---------------------------------------------------------------- walking the tokens

  /** The parser object: the token list, the current token and the number of parameters so far. */
  class Parser {
    const toks: seq<Token>
    var p: nat
    var params: nat

    /** The current token exists: the parser never moves past End. */
    ghost predicate Valid()
      reads this
    {
      Terminated(toks) && p < |toks|
    }

    ghost function Rest(): seq<Token>
      requires Valid()
      reads this
    {
      toks[p..]
    }

    constructor (toks: seq<Token>)
      requires Terminated(toks)
      ensures Valid() && Rest() == toks && params == 0
    {
      this.toks, p, params := toks, 0, 0;
    }

    lemma RestTerminated()
      requires Valid()
      ensures Terminated(Rest()) && Rest()[0] == toks[p]
      ensures toks[p].t != End ==> p + 1 < |toks| && Next(Rest()) == toks[p + 1..]
    {
      forall i | 0 <= i < |Rest()| ensures Rest()[i].t == End <==> i == |Rest()| - 1 {
        assert Rest()[i] == toks[p + i];
      }
    }

    /** What a method found against what the grammar says; on success the parser stands where
        the grammar stops. */
    ghost predicate Parsed<T>(spec: Result<Step<T>>, r: Result<T>)
      reads this
    {
      Valid() &&
      match spec
      case Err(e) => r == Err(e)
      case Ok(step) => r == Ok(step.value) && Rest() == step.rest && params == step.params
    }

    method PeekAt(k: nat) returns (t: Token)
      requires Valid()
      ensures t == Peek(Rest(), k)
    {
      t := if p + k < |toks| then toks[p + k] else toks[|toks| - 1];
    }

    method NextToken() returns (t: Token)
      requires Valid() && Rest()[0].t != End
      modifies this`p
      ensures Valid() && t == old(Rest())[0]
      ensures Terminated(old(Rest())) && Rest() == Next(old(Rest())) && p == old(p) + 1
    {
      RestTerminated();
      t := toks[p];
      p := p + 1;
    }

    method AcceptKw(kw: string) returns (b: bool)
      requires Valid()
      modifies this`p
      ensures Valid() && Terminated(old(Rest())) && b == IsKw(old(Rest()), kw)
      ensures if b then Rest() == Next(old(Rest())) && p == old(p) + 1 else p == old(p)
    {
      RestTerminated();
      var t := PeekAt(0);
      b := t.t == Ident && IEquals(t.v, kw);
      if b { t := NextToken(); }
    }

    method AcceptOp(op: string) returns (b: bool)
      requires Valid()
      modifies this`p
      ensures Valid() && Terminated(old(Rest())) && b == IsOp(old(Rest()), op, 0)
      ensures if b then Rest() == Next(old(Rest())) && p == old(p) + 1 else p == old(p)
    {
      RestTerminated();
      var t := PeekAt(0);
      b := t.t == Op && t.v == op;
      if b { t := NextToken(); }
    }

    method ReadLiteral() returns (l: Lit)
      requires Valid() && Terminated(Rest()) && LiteralStart(Rest())
      modifies this`p
      ensures Valid() && (l, Rest()) == ParseLiteral(old(Rest())) && p > old(p)
    {
      RestTerminated();
      var t := NextToken();
      RestTerminated();
      if t.t == Op {
        var n := NextToken();
        l := Lit(NumberLit, (if t.v == "-" then "-" else "") + n.v);
      } else if t.t == Number { l := Lit(NumberLit, t.v); }
      else if t.t == String { l := Lit(StringLit, t.v); }
      else if t.t == DateTok { l := Lit(DateLit, t.v); }
      else if t.t == TimeTok { l := Lit(TimeLit, t.v); }
      else if t.t == TsTok { l := Lit(TimestampLit, t.v); }
      else if IEquals(t.v, "NULL") { l := NULL; }
      else { l := Lit(BoolLit, if IEquals(t.v, "TRUE") then "true" else "false"); }
    }

    /** The loop over `.name` after a path's first segment. */
    method ReadPathTail() returns (path: seq<string>)
      requires Valid() && Terminated(Rest())
      modifies this`p
      ensures Valid() && p >= old(p)
      ensures (path, Rest()) == PathTail(old(Rest()))
    {
      hide PathTail;
      path := [];
      ghost var spec := PathTail(Rest());
      assert [] + spec.0 == spec.0;
      while true
        invariant Valid() && p >= old(p) && Terminated(Rest())
        invariant spec == Prefixed(path, PathTail(Rest()))
        decreases |toks| - p
      {
        PathStep(path, Rest());
        var t := PeekAt(0);
        var u := PeekAt(1);
        if !(t.t == Op && t.v == "." && IsName(u)) { break; }
        t := NextToken();
        RestTerminated();
        var name := NextToken();
        RestTerminated();
        path := path + [name.v];
      }
    }

    method ReadOperand() returns (r: Result<Operand>)
      requires Valid() && Terminated(Rest())
      modifies this
      ensures Parsed(ParseOperand(old(Rest()), old(params)), r) && p >= old(p) && (r.Ok? ==> p > old(p))
    {
      hide PathTail, ParseLiteral;
      var o: Operand;
      var t := PeekAt(0);
      var u := PeekAt(1);
      if t.t == ParamMark {
        t := NextToken();
        o := Param(params);
        params := params + 1;
      } else if LiteralStart(toks[p..]) {
        var l := ReadLiteral();
        o := Literal(l);
      } else if IsName(t) {
        if t.t == Ident && u.t == Op && u.v == "(" { return Err("42000"); }
        if t.t == Ident && IEquals(t.v, "SELECT") { return Err("42000"); }
        t := NextToken();
        RestTerminated();
        var path := ReadPathTail();
        o := Column([t.v] + path);
      } else {
        return Err("42000");
      }
      t := PeekAt(0);
      if t.t == Op && (t.v == "+" || t.v == "-" || t.v == "*") { return Err("42000"); }
      r := Ok(o);
    }

    /** The loop over the operands of an IN list, then `)`. */
    method ReadList() returns (r: Result<seq<Operand>>)
      requires Valid() && Terminated(Rest())
      modifies this
      ensures Parsed(ParseList(old(Rest()), old(params)), r) && p >= old(p) && (r.Ok? ==> p > old(p))
    {
      hide ParseOperand;
      var list: seq<Operand> := [];
      ghost var spec := ParseList(Rest(), params);
      if spec.Ok? { assert [] + spec.value.value == spec.value.value; }
      while true
        invariant Valid() && p >= old(p) && Terminated(Rest())
        invariant spec == Gathered(list, ParseList(Rest(), params))
        decreases |toks| - p
      {
        ghost var here, n := Rest(), params;
        var o := ReadOperand();
        if o.Err? { return Err(o.state); }
        RestTerminated();
        ghost var after := Rest();
        var comma := AcceptOp(",");
        if !comma {
          var close := AcceptOp(")");
          if !close { return Err("42000"); }
          return Ok(list + [o.value]);
        }
        RestTerminated();
        GatheredTwice(list, o.value, ParseList(Rest(), params));
        list := list + [o.value];
      }
    }

    method ReadIn(a: Operand, negated: bool) returns (r: Result<Expr>)
      requires Valid() && Terminated(Rest())
      modifies this
      ensures Parsed(ParseIn(a, negated, old(Rest()), old(params)), r) && p >= old(p) && (r.Ok? ==> p > old(p))
    {
      hide ParseList;
      var b := AcceptOp("(");
      if !b { return Err("42000"); }
      RestTerminated();
      var t := PeekAt(0);
      if t.t == Ident && IEquals(t.v, "SELECT") { return Err("42000"); }
      var list := ReadList();
      if list.Err? { return Err(list.state); }
      return Ok(In(a, list.value, negated));
    }

    method ReadLike(a: Operand, negated: bool) returns (r: Result<Expr>)
      requires Valid() && Terminated(Rest())
      modifies this
      ensures Parsed(ParseLike(a, negated, old(Rest()), old(params)), r) && p >= old(p) && (r.Ok? ==> p > old(p))
    {
      hide ParseOperand;
      var o := ReadOperand();
      if o.Err? { return Err(o.state); }
      var t := PeekAt(0);
      if t.t == Ident && IEquals(t.v, "ESCAPE") { return Err("42000"); }
      return Ok(Like(a, o.value, negated));
    }

    method ReadBetween(a: Operand, negated: bool) returns (r: Result<Expr>)
      requires Valid() && Terminated(Rest())
      modifies this
      ensures Parsed(ParseBetween(a, negated, old(Rest()), old(params)), r) && p >= old(p) && (r.Ok? ==> p > old(p))
    {
      hide ParseOperand;
      var lo := ReadOperand();
      if lo.Err? { return Err(lo.state); }
      RestTerminated();
      var b := AcceptKw("AND");
      if !b { return Err("42000"); }
      RestTerminated();
      var hi := ReadOperand();
      if hi.Err? { return Err(hi.state); }
      return Ok(Between(a, lo.value, hi.value, negated));
    }

    method ReadIsNull(a: Operand) returns (r: Result<Expr>)
      requires Valid() && Terminated(Rest())
      modifies this
      ensures Parsed(ParseIsNull(a, old(Rest()), old(params)), r) && p >= old(p) && (r.Ok? ==> p > old(p))
    {
      hide ParseOperand;
      var isNot := AcceptKw("NOT");
      RestTerminated();
      var b := AcceptKw("NULL");
      if !b { return Err("42000"); }
      RestTerminated();
      return Ok(IsNull(a, isNot));
    }

    method ReadTest(a: Operand, negated: bool) returns (r: Result<Expr>)
      requires Valid() && Terminated(Rest())
      modifies this
      ensures Parsed(ParseTest(a, negated, old(Rest()), old(params)), r) && p >= old(p) && (r.Ok? ==> p > old(p))
    {
      hide ParseIn, ParseLike, ParseBetween, ParseIsNull;
      var b := AcceptKw("IN");
      RestTerminated();
      if b {
        r := ReadIn(a, negated);
        return;
      }
      b := AcceptKw("LIKE");
      RestTerminated();
      if b {
        r := ReadLike(a, negated);
        return;
      }
      b := AcceptKw("BETWEEN");
      RestTerminated();
      if b {
        r := ReadBetween(a, negated);
        return;
      }
      if negated { return Err("42000"); }
      b := AcceptKw("IS");
      RestTerminated();
      if b {
        r := ReadIsNull(a);
        return;
      }
      return Err("42000");
    }

    method ReadPredicate() returns (r: Result<Expr>)
      requires Valid() && Terminated(Rest())
      modifies this
      ensures Parsed(ParsePredicate(old(Rest()), old(params)), r) && p >= old(p) && (r.Ok? ==> p > old(p))
      decreases |toks| - p, 0
    {
      hide ParseOperand, ParseTest, ParseOr;
      var t := PeekAt(0);
      if t.t == Ident && IEquals(t.v, "EXISTS") { return Err("42000"); }
      var b := AcceptOp("(");
      if b {
        RestTerminated();
        t := PeekAt(0);
        if t.t == Ident && IEquals(t.v, "SELECT") { return Err("42000"); }
        r := ReadOr();
        if r.Err? { return; }
        RestTerminated();
        b := AcceptOp(")");
        if !b { return Err("42000"); }
        return;
      }
      var a := ReadOperand();
      if a.Err? { return Err(a.state); }
      RestTerminated();
      r := ReadAfterOperand(a.value);
    }

    method ReadAfterOperand(a: Operand) returns (r: Result<Expr>)
      requires Valid() && Terminated(Rest())
      modifies this
      ensures Parsed(AfterOperand(a, old(Rest()), old(params)), r) && p >= old(p) && (r.Ok? ==> p > old(p))
    {
      hide ParseOperand, ParseTest;
      var t := PeekAt(0);
      var op := CompareOp(t);
      if op.Some? {
        t := NextToken();
        RestTerminated();
        var b := ReadOperand();
        if b.Err? { return Err(b.state); }
        return Ok(Compare(op.value, a, b.value));
      }
      var negated := AcceptKw("NOT");
      RestTerminated();
      r := ReadTest(a, negated);
    }

    method ReadNot() returns (r: Result<Expr>)
      requires Valid() && Terminated(Rest())
      modifies this
      ensures Parsed(ParseNot(old(Rest()), old(params)), r) && p >= old(p) && (r.Ok? ==> p > old(p))
      decreases |toks| - p, 1
    {
      hide ParsePredicate;
      var b := AcceptKw("NOT");
      RestTerminated();
      if b {
        r := ReadNot();
        if r.Ok? { r := Ok(Not(r.value)); }
      } else {
        r := ReadPredicate();
      }
    }

    method ReadAnd() returns (r: Result<Expr>)
      requires Valid() && Terminated(Rest())
      modifies this
      ensures Parsed(ParseAnd(old(Rest()), old(params)), r) && p >= old(p) && (r.Ok? ==> p > old(p))
      decreases |toks| - p, 2
    {
      hide ParseNot;
      ghost var spec := ParseAnd(Rest(), params);
      r := ReadNot();
      if r.Err? { return; }
      var l := r.value;
      while true
        invariant Valid() && p > old(p) && spec == AndTail(l, Rest(), params) && Terminated(Rest())
        decreases |toks| - p
      {
        RestTerminated();
        var b := AcceptKw("AND");
        if !b { break; }
        RestTerminated();
        r := ReadNot();
        if r.Err? { return; }
        RestTerminated();
        l := And(l, r.value);
      }
      r := Ok(l);
    }

    method ReadOr() returns (r: Result<Expr>)
      requires Valid() && Terminated(Rest())
      modifies this
      ensures Parsed(ParseOr(old(Rest()), old(params)), r) && p >= old(p) && (r.Ok? ==> p > old(p))
      decreases |toks| - p, 3
    {
      hide ParseAnd;
      ghost var spec := ParseOr(Rest(), params);
      r := ReadAnd();
      if r.Err? { return; }
      var l := r.value;
      while true
        invariant Valid() && p > old(p) && spec == OrTail(l, Rest(), params) && Terminated(Rest())
        decreases |toks| - p
      {
        RestTerminated();
        var b := AcceptKw("OR");
        if !b { break; }
        RestTerminated();
        r := ReadAnd();
        if r.Err? { return; }
        RestTerminated();
        l := Or(l, r.value);
      }
      r := Ok(l);
    }
  }

  /** Path segments that `path` comes before. */
  function Prefixed(path: seq<string>, tail: (seq<string>, seq<Token>)): (seq<string>, seq<Token>) {
    (path + tail.0, tail.1)
  }

  lemma PathStep(path: seq<string>, ts: seq<Token>)
    requires Terminated(ts)
    ensures if IsOp(ts, ".", 0) && IsName(Peek(ts, 1))
            then Prefixed(path, PathTail(ts)) == Prefixed(path + [Next(ts)[0].v], PathTail(Next(Next(ts))))
            else Prefixed(path, PathTail(ts)) == (path, ts)
  {
    if IsOp(ts, ".", 0) && IsName(Peek(ts, 1)) {
      var name := Next(ts);
      var tail := PathTail(Next(name));
      assert path + ([name[0].v] + tail.0) == (path + [name[0].v]) + tail.0;
    } else {
      assert path + [] == path;
    }
  }

  /** A list that `list` comes before. */
  function Gathered(list: seq<Operand>, r: Result<Step<seq<Operand>>>): Result<Step<seq<Operand>>> {
    if r.Err? then r else Ok(Step(list + r.value.value, r.value.rest, r.value.params))
  }

  lemma GatheredTwice(list: seq<Operand>, o: Operand, r: Result<Step<seq<Operand>>>)
    ensures Gathered(list, Gathered([o], r)) == Gathered(list + [o], r)
  {
    if r.Ok? { assert list + ([o] + r.value.value) == (list + [o]) + r.value.value; }
  }
}
