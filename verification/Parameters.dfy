/** Binding `?` and writing the literal inline are the same (src/sql_parser.cpp, src/sql_plan.cpp). */
module Parameters {
  import opened Wrappers
  import opened Sql
  import opened SqlPlan
  import opened SqlMeaning
  import opened SqlProof
  import opened SqlTokenizer
  import opened SqlParser
  import P = SqlPrinter
  import S = Soql

  // ---------------------------------------------------------------- parameters replaced by literals

  function SubstOperand(o: Operand, params: seq<Lit>): Operand {
    if o.Param? && o.index < |params| then Literal(params[o.index]) else o
  }

  function SubstList(list: seq<Operand>, params: seq<Lit>): (r: seq<Operand>)
    ensures |r| == |list|
  {
    if list == [] then [] else [SubstOperand(list[0], params)] + SubstList(list[1..], params)
  }

  function Subst(e: Expr, params: seq<Lit>): Expr {
    match e
    case And(l, r) => And(Subst(l, params), Subst(r, params))
    case Or(l, r) => Or(Subst(l, params), Subst(r, params))
    case Not(a) => Not(Subst(a, params))
    case Compare(op, a, b) => Compare(op, SubstOperand(a, params), SubstOperand(b, params))
    case In(a, list, negated) => In(SubstOperand(a, params), SubstList(list, params), negated)
    case Like(a, b, negated) => Like(SubstOperand(a, params), SubstOperand(b, params), negated)
    case IsNull(a, negated) => IsNull(SubstOperand(a, params), negated)
  }

  predicate BoundNull(o: Operand, params: seq<Lit>) {
    o.Param? && o.index < |params| && params[o.index].kind == NullLit
  }

  /** No parameter under `<`, `<=`, `>` or `>=` is bound to NULL. */
  predicate NoNullOrdered(e: Expr, params: seq<Lit>) {
    match e
    case And(l, r) => NoNullOrdered(l, params) && NoNullOrdered(r, params)
    case Or(l, r) => NoNullOrdered(l, params) && NoNullOrdered(r, params)
    case Not(a) => NoNullOrdered(a, params)
    case Compare(op, a, b) => op == S.Eq || op == S.Ne || (!BoundNull(a, params) && !BoundNull(b, params))
    case _ => true
  }

  // ---------------------------------------------------------------- the compiled conditions agree

  /** When both compile, one with parameters to bind and one without, they decide the same or are
      the same condition once bound. */
  predicate Alike(env: Env, x: Result<Compiled>, y: Result<Compiled>, params: seq<Lit>) {
    x.Ok? && y.Ok? ==>
      if x.value.Decided? then y.value == x.value
      else y.value.Condition? && Bind(env, y.value.tree, []) == Bind(env, x.value.tree, params)
  }

  lemma OperandAlike(env: Env, o: Operand, col: Field, params: seq<Lit>)
    ensures var x, y := PieceOf(env, o, col), PieceOf(env, SubstOperand(o, params), col);
            x.Ok? && y.Ok? ==> BindPiece(env, y.value, []) == BindPiece(env, x.value, params)
  {
  }

  lemma {:induction false} ListAlike(env: Env, list: seq<Operand>, col: Field, params: seq<Lit>)
    ensures var x, y := PiecesOf(env, list, col), PiecesOf(env, SubstList(list, params), col);
            x.Ok? && y.Ok? ==> BindPieces(env, y.value, []) == BindPieces(env, x.value, params)
  {
    hide PieceOf, BindPiece;
    if list != [] {
      OperandAlike(env, list[0], col, params);
      ListAlike(env, list[1..], col, params);
      assert SubstList(list, params)[1..] == SubstList(list[1..], params);
      var x, y := PiecesOf(env, list, col), PiecesOf(env, SubstList(list, params), col);
      if x.Ok? && y.Ok? {
        assert x.value[1..] == PiecesOf(env, list[1..], col).value;
        assert y.value[1..] == PiecesOf(env, SubstList(list[1..], params), col).value;
      }
    }
  }

  lemma CompareAlike(env: Env, op: S.CmpOp, a: Operand, b: Operand, params: seq<Lit>)
    requires op == S.Eq || op == S.Ne || (!BoundNull(a, params) && !BoundNull(b, params))
    ensures Alike(env, CompileCompare(env, op, a, b),
                  CompileCompare(env, op, SubstOperand(a, params), SubstOperand(b, params)), params)
  {
    hide FoldCompare, SoqlValue;
    if a.Column? && env.resolve(a.path).Ok? {
      OperandAlike(env, b, env.resolve(a.path).value, params);
    } else if b.Column? && env.resolve(b.path).Ok? {
      OperandAlike(env, a, env.resolve(b.path).value, params);
    }
  }

  lemma JoinAlike(env: Env, isAnd: bool, l: Result<Compiled>, r: Result<Compiled>, l': Result<Compiled>,
                  r': Result<Compiled>, params: seq<Lit>)
    requires l.Ok? && r.Ok? && l'.Ok? && r'.Ok?
    requires Alike(env, l, l', params) && Alike(env, r, r', params)
    ensures Alike(env, Ok(CompileJoin(isAnd, l.value, r.value)), Ok(CompileJoin(isAnd, l'.value, r'.value)), params)
  {
  }

  lemma LikeAlike(env: Env, a: Operand, b: Operand, negated: bool, params: seq<Lit>)
    ensures Alike(env, Compile(env, Like(a, b, negated)), Compile(env, Subst(Like(a, b, negated), params)), params)
  {
    hide PieceOf, BindPiece;
    if a.Column? && env.resolve(a.path).Ok? {
      var col := env.resolve(a.path).value;
      OperandAlike(env, b, col, params);
      var p, q := PieceOf(env, b, col), PieceOf(env, SubstOperand(b, params), col);
      if p.Ok? && q.Ok? {
        var x, y := S.Like(col.soql, p.value), S.Like(col.soql, q.value);
        assert Bind(env, y, []) == Bind(env, x, params);
        assert Bind(env, S.Not(y), []) == Bind(env, S.Not(x), params);
      }
    }
  }

  lemma NullTestAlike(env: Env, a: Operand, negated: bool, params: seq<Lit>)
    ensures Alike(env, Compile(env, IsNull(a, negated)), Compile(env, Subst(IsNull(a, negated), params)), params)
  {
  }

  lemma {:induction false} CompiledAlike(env: Env, e: Expr, params: seq<Lit>)
    requires NoNullOrdered(e, params)
    ensures Alike(env, Compile(env, e), Compile(env, Subst(e, params)), params)
  {
    hide CompileCompare, CompileJoin, SubstList, PieceOf, PiecesOf, BindPiece, BindPieces, BoundNull;
    match e
    case And(l, r) =>
      CompiledAlike(env, l, params);
      CompiledAlike(env, r, params);
      BothAlike(env, true, l, r, params);
    case Or(l, r) =>
      CompiledAlike(env, l, params);
      CompiledAlike(env, r, params);
      BothAlike(env, false, l, r, params);
    case Not(a) => CompiledAlike(env, a, params);
    case Compare(op, a, b) => CompareAlike(env, op, a, b, params);
    case In(a, list, _) =>
      if a.Column? && env.resolve(a.path).Ok? { ListAlike(env, list, env.resolve(a.path).value, params); }
    case Like(a, b, negated) => LikeAlike(env, a, b, negated, params);
    case IsNull(a, negated) => NullTestAlike(env, a, negated, params);
  }

  lemma BothAlike(env: Env, isAnd: bool, l: Expr, r: Expr, params: seq<Lit>)
    requires Alike(env, Compile(env, l), Compile(env, Subst(l, params)), params)
    requires Alike(env, Compile(env, r), Compile(env, Subst(r, params)), params)
    ensures var e := if isAnd then And(l, r) else Or(l, r);
            Alike(env, Compile(env, e), Compile(env, Subst(e, params)), params)
  {
    hide CompileJoin, Alike;
    var e := if isAnd then And(l, r) else Or(l, r);
    var x, y := Compile(env, l), Compile(env, r);
    var x', y' := Compile(env, Subst(l, params)), Compile(env, Subst(r, params));
    if x.Ok? && y.Ok? && x'.Ok? && y'.Ok? {
      JoinAlike(env, isAnd, x, y, x', y', params);
    } else {
      NotAlike(env, Compile(env, e), Compile(env, Subst(e, params)), params);
    }
  }

  lemma NotAlike(env: Env, x: Result<Compiled>, y: Result<Compiled>, params: seq<Lit>)
    requires x.Err? || y.Err?
    ensures Alike(env, x, y, params)
  {
  }

  lemma {:induction false} SubstLists(e: Expr, params: seq<Lit>)
    requires Lists(e)
    ensures Lists(Subst(e, params))
  {
    match e
    case And(l, r) => SubstLists(l, params); SubstLists(r, params);
    case Or(l, r) => SubstLists(l, params); SubstLists(r, params);
    case Not(a) => SubstLists(a, params);
    case _ =>
  }

  /** Whenever a condition and the same condition with its bound literals written inline both
      compile, they fold to the same constant, or the filled template is the inline text, missing
      parameters and conversion errors included. */
  lemma BindingIsInline(env: Env, e: Expr, params: seq<Lit>)
    requires Lists(e) && NoNullOrdered(e, params)
    requires Render(env, e).Ok? && Render(env, Subst(e, params)).Ok?
    ensures var bound, inline := Render(env, e).value, Render(env, Subst(e, params)).value;
            if bound.Const? then inline == bound
            else inline.Text? && Fill(env, inline.parts, []) == Fill(env, bound.parts, params)
  {
    hide Render, Compile, Fill, Bind, Subst, NoNullOrdered, Lists, S.TreeText;
    SubstLists(e, params);
    RenderAgrees(env, e, params);
    RenderAgrees(env, Subst(e, params), []);
    CompiledAlike(env, e, params);
  }

  // ---------------------------------------------------------------- the n-th mark gets the n-th value

  /** The literals, as values, that written literals stand for. */
  function LitsOf(lits: seq<P.SqlLit>): (r: seq<Lit>)
    ensures |r| == |lits| && forall i :: 0 <= i < |lits| ==> r[i] == P.LitOf(lits[i])
  {
    seq(|lits|, i requires 0 <= i < |lits| => P.LitOf(lits[i]))
  }

  function InlineTerm(t: P.Term, lits: seq<P.SqlLit>, n: nat): P.Term {
    if t.Mark? && n < |lits| then P.Value(lits[n]) else t
  }

  function InlineList(list: seq<P.Term>, lits: seq<P.SqlLit>, n: nat): seq<P.Term> {
    if list == [] then []
    else [InlineTerm(list[0], lits, n)] + InlineList(list[1..], lits, n + P.Marks(list[0]))
  }

  function ListMarks(list: seq<P.Term>): nat {
    if list == [] then 0 else P.Marks(list[0]) + ListMarks(list[1..])
  }

  function MarksIn(c: P.Cond): nat {
    match c
    case COr(l, r, _) => MarksIn(l) + MarksIn(r)
    case CAnd(l, r, _) => MarksIn(l) + MarksIn(r)
    case CNot(a, _) => MarksIn(a)
    case CParen(a) => MarksIn(a)
    case CCompare(a, _, _, b) => P.Marks(a) + P.Marks(b)
    case CIn(a, list, _, _) => P.Marks(a) + ListMarks(list)
    case CLike(a, b, _, _) => P.Marks(a) + P.Marks(b)
    case CBetween(a, lo, hi, _, _, _) => P.Marks(a) + P.Marks(lo) + P.Marks(hi)
    case CIsNull(a, _, _, _) => P.Marks(a)
  }

  /** The written condition with its marks, the first of them number `n`, replaced from left to
      right by literals. */
  function Inline(c: P.Cond, lits: seq<P.SqlLit>, n: nat): P.Cond {
    match c
    case COr(l, r, w) => P.COr(Inline(l, lits, n), Inline(r, lits, n + MarksIn(l)), w)
    case CAnd(l, r, w) => P.CAnd(Inline(l, lits, n), Inline(r, lits, n + MarksIn(l)), w)
    case CNot(a, w) => P.CNot(Inline(a, lits, n), w)
    case CParen(a) => P.CParen(Inline(a, lits, n))
    case CCompare(a, op, diamond, b) =>
      P.CCompare(InlineTerm(a, lits, n), op, diamond, InlineTerm(b, lits, n + P.Marks(a)))
    case CIn(a, list, no, w) =>
      P.CIn(InlineTerm(a, lits, n), InlineList(list, lits, n + P.Marks(a)), no, w)
    case CLike(a, b, no, w) => P.CLike(InlineTerm(a, lits, n), InlineTerm(b, lits, n + P.Marks(a)), no, w)
    case CBetween(a, lo, hi, no, w, conj) =>
      var m := n + P.Marks(a);
      P.CBetween(InlineTerm(a, lits, n), InlineTerm(lo, lits, m), InlineTerm(hi, lits, m + P.Marks(lo)), no, w, conj)
    case CIsNull(a, no, w, last) => P.CIsNull(InlineTerm(a, lits, n), no, w, last)
  }

  lemma TermInlines(t: P.Term, lits: seq<P.SqlLit>, n: nat, m: nat)
    requires n + P.Marks(t) <= |lits|
    ensures P.TermOf(InlineTerm(t, lits, n), m) == SubstOperand(P.TermOf(t, n), LitsOf(lits))
    ensures P.Marks(InlineTerm(t, lits, n)) == 0
  {
  }

  lemma {:induction false} ListInlines(list: seq<P.Term>, lits: seq<P.SqlLit>, n: nat, m: nat)
    requires n + ListMarks(list) <= |lits|
    ensures P.ListOf(list, n).1 == n + ListMarks(list)
    ensures P.ListOf(InlineList(list, lits, n), m) == (SubstList(P.ListOf(list, n).0, LitsOf(lits)), m)
  {
    hide P.TermOf, LitsOf, SubstOperand, InlineTerm;
    if list != [] {
      var k := n + P.Marks(list[0]);
      TermInlines(list[0], lits, n, m);
      ListInlines(list[1..], lits, k, m);
      assert InlineList(list, lits, n)[1..] == InlineList(list[1..], lits, k);
      var os, more := P.ListOf(list, n).0, P.ListOf(list[1..], k).0;
      assert os == [P.TermOf(list[0], n)] + more;
      assert os[1..] == more;
    }
  }

  lemma BetweenSubst(a: Operand, lo: Operand, hi: Operand, negated: bool, params: seq<Lit>)
    ensures Subst(Between(a, lo, hi, negated), params) ==
            Between(SubstOperand(a, params), SubstOperand(lo, params), SubstOperand(hi, params), negated)
  {
    hide SubstOperand;
    var low, high := Compare(S.Ge, a, lo), Compare(S.Le, a, hi);
    assert Subst(And(low, high), params) == And(Subst(low, params), Subst(high, params));
    assert Subst(Not(And(low, high)), params) == Not(Subst(And(low, high), params));
  }

  lemma BetweenIs(c: P.Cond, n: nat)
    requires c.CBetween?
    ensures var m := n + P.Marks(c.a);
            P.Desugar(c, n) ==
            (Between(P.TermOf(c.a, n), P.TermOf(c.lo, m), P.TermOf(c.hi, m + P.Marks(c.lo)), c.no.Some?),
             n + MarksIn(c))
  {
    hide P.TermOf;
  }

  lemma BetweenInlines(c: P.Cond, lits: seq<P.SqlLit>, n: nat, m: nat)
    requires c.CBetween? && n + MarksIn(c) <= |lits|
    ensures P.Desugar(c, n).1 == n + MarksIn(c)
    ensures P.Desugar(Inline(c, lits, n), m) == (Subst(P.Desugar(c, n).0, LitsOf(lits)), m)
  {
    hide P.TermOf, LitsOf, Subst, P.Desugar, Between, InlineTerm;
    var k := n + P.Marks(c.a);
    TermInlines(c.a, lits, n, m);
    TermInlines(c.lo, lits, k, m);
    TermInlines(c.hi, lits, k + P.Marks(c.lo), m);
    BetweenIs(c, n);
    BetweenIs(Inline(c, lits, n), m);
    BetweenSubst(P.TermOf(c.a, n), P.TermOf(c.lo, k), P.TermOf(c.hi, k + P.Marks(c.lo)), c.no.Some?, LitsOf(lits));
  }

  lemma TestInlines(c: P.Cond, lits: seq<P.SqlLit>, n: nat, m: nat)
    requires P.IsPredicate(c) && !c.CBetween? && n + MarksIn(c) <= |lits|
    ensures P.Desugar(c, n).1 == n + MarksIn(c)
    ensures P.Desugar(Inline(c, lits, n), m) == (Subst(P.Desugar(c, n).0, LitsOf(lits)), m)
  {
    hide P.TermOf, LitsOf, P.ListOf, SubstOperand, SubstList, InlineTerm, InlineList, ListMarks;
    var k := n + P.Marks(c.a);
    TermInlines(c.a, lits, n, m);
    match c
    case CCompare(_, _, _, b) => TermInlines(b, lits, k, m);
    case CIn(_, list, _, _) => ListInlines(list, lits, k, m);
    case CLike(_, b, _, _) => TermInlines(b, lits, k, m);
    case CIsNull(_, _, _, _) =>
  }

  /** Replacing the marks of a written condition from left to right is substituting by parameter
      index after parsing: the n-th `?` receives the n-th value, wherever it stands. */
  lemma {:induction false} MarksInOrder(c: P.Cond, lits: seq<P.SqlLit>, n: nat, m: nat)
    requires n + MarksIn(c) <= |lits|
    ensures P.Desugar(c, n).1 == n + MarksIn(c)
    ensures P.Desugar(Inline(c, lits, n), m) == (Subst(P.Desugar(c, n).0, LitsOf(lits)), m)
  {
    hide P.TermOf, LitsOf;
    match c
    case COr(l, r, _) =>
      MarksInOrder(l, lits, n, m);
      MarksInOrder(r, lits, n + MarksIn(l), m);
    case CAnd(l, r, _) =>
      MarksInOrder(l, lits, n, m);
      MarksInOrder(r, lits, n + MarksIn(l), m);
    case CNot(a, _) => MarksInOrder(a, lits, n, m);
    case CParen(a) => MarksInOrder(a, lits, n, m);
    case CBetween(_, _, _, _, _, _) => BetweenInlines(c, lits, n, m);
    case _ => TestInlines(c, lits, n, m);
  }

  // ---------------------------------------------------------------- the whole front end

  /** The tokens of a written condition, as the parser sees them at the end of a statement. */
  function Statement(c: P.Cond): seq<Token>
    requires P.Lists(c)
  {
    P.Print(c) + [END]
  }

  lemma StatementParses(c: P.Cond)
    requires P.Writable(c)
    ensures P.Lists(c) && Terminated(Statement(c))
    ensures ParseOr(Statement(c), 0) == Ok(Step(P.Desugar(c, 0).0, [END], P.Desugar(c, 0).1))
  {
    P.ParserInvertsPrinter(c, [END], 0);
  }

  predicate AllWritable(lits: seq<P.SqlLit>) {
    forall i :: 0 <= i < |lits| ==> P.WritableLit(lits[i])
  }

  lemma {:induction false} InlineWritable(c: P.Cond, lits: seq<P.SqlLit>, n: nat)
    requires P.Writable(c) && AllWritable(lits)
    ensures P.Writable(Inline(c, lits, n))
  {
    hide P.WritableTerm, P.Spelled, P.SpelledNot, AllWritable, InlineTerm;
    match c
    case COr(l, r, _) => InlineWritable(l, lits, n); InlineWritable(r, lits, n + MarksIn(l));
    case CAnd(l, r, _) => InlineWritable(l, lits, n); InlineWritable(r, lits, n + MarksIn(l));
    case CNot(a, _) => InlineWritable(a, lits, n);
    case CParen(a) => InlineWritable(a, lits, n);
    case CCompare(a, _, _, b) => TermWritable(a, lits, n); TermWritable(b, lits, n + P.Marks(a));
    case CIn(a, list, _, _) => TermWritable(a, lits, n); ListWritable(list, lits, n + P.Marks(a));
    case CLike(a, b, _, _) => TermWritable(a, lits, n); TermWritable(b, lits, n + P.Marks(a));
    case CBetween(a, lo, hi, _, _, _) =>
      TermWritable(a, lits, n);
      TermWritable(lo, lits, n + P.Marks(a));
      TermWritable(hi, lits, n + P.Marks(a) + P.Marks(lo));
    case CIsNull(a, _, _, _) => TermWritable(a, lits, n);
  }

  lemma TermWritable(t: P.Term, lits: seq<P.SqlLit>, n: nat)
    requires P.WritableTerm(t) && AllWritable(lits)
    ensures P.WritableTerm(InlineTerm(t, lits, n)) && (P.LeadTerm(t) ==> P.LeadTerm(InlineTerm(t, lits, n)))
  {
  }

  lemma {:induction false} ListWritable(list: seq<P.Term>, lits: seq<P.SqlLit>, n: nat)
    requires (forall i :: 0 <= i < |list| ==> P.WritableTerm(list[i])) && AllWritable(lits)
    ensures var r := InlineList(list, lits, n);
            (r == [] <==> list == []) && forall i :: 0 <= i < |r| ==> P.WritableTerm(r[i])
  {
    hide P.WritableTerm;
    if list != [] {
      TermWritable(list[0], lits, n);
      ListWritable(list[1..], lits, n + P.Marks(list[0]));
    }
  }

  lemma {:induction false} DesugarLists(c: P.Cond, n: nat)
    requires P.Writable(c)
    ensures Lists(P.Desugar(c, n).0)
  {
    match c
    case COr(l, r, _) => DesugarLists(l, n); DesugarLists(r, P.Desugar(l, n).1);
    case CAnd(l, r, _) => DesugarLists(l, n); DesugarLists(r, P.Desugar(l, n).1);
    case CNot(a, _) => DesugarLists(a, n);
    case CParen(a) => DesugarLists(a, n);
    case CBetween(a, lo, hi, no, _, _) =>
      var x := P.Desugar(c, n).0;
      assert Lists(if no.Some? then x.arg.left else x.left);
    case _ =>
  }

  /** A statement prepared with marks and then bound sends the same text as the statement with the
      n-th literal written in place of the n-th mark, when both compile and no NULL is ordered. */
  lemma PreparedIsInline(env: Env, c: P.Cond, lits: seq<P.SqlLit>)
    requires P.Writable(c) && MarksIn(c) == |lits| && AllWritable(lits)
    ensures var c' := Inline(c, lits, 0);
            P.Lists(c) && P.Lists(c') && Terminated(Statement(c)) && Terminated(Statement(c')) &&
            var p, p' := ParseOr(Statement(c), 0), ParseOr(Statement(c'), 0);
            p.Ok? && p'.Ok? && p.value.params == |lits| && p'.value.params == 0 &&
            var e, e' := p.value.value, p'.value.value;
            (NoNullOrdered(e, LitsOf(lits)) && Render(env, e).Ok? && Render(env, e').Ok? ==>
               var bound, inline := Render(env, e).value, Render(env, e').value;
               if bound.Const? then inline == bound
               else inline.Text? && Fill(env, inline.parts, []) == Fill(env, bound.parts, LitsOf(lits)))
  {
    hide ParseOr, Render, Fill, P.Desugar, Lists, NoNullOrdered, Inline, P.Writable, Statement;
    StatementParses(c);
    InlineWritable(c, lits, 0);
    StatementParses(Inline(c, lits, 0));
    MarksInOrder(c, lits, 0, 0);
    DesugarLists(c, 0);
    var e := P.Desugar(c, 0).0;
    if NoNullOrdered(e, LitsOf(lits)) && Render(env, e).Ok? && Render(env, Subst(e, LitsOf(lits))).Ok? {
      BindingIsInline(env, e, LitsOf(lits));
    }
  }
}
