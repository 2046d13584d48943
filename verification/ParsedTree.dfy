/** What holds of every condition the parser returns, whatever text it was given: no IN list is
    empty, and the parameters are numbered in the order of their marks, a `?` before BETWEEN
    standing on both sides of the pair it stands for (src/sql_parser.cpp). */
module ParsedTree {
  import opened Wrappers
  import opened Sql
  import opened SqlMeaning
  import opened SqlTokenizer
  import opened SqlParser
  import S = Soql

  // ---------------------------------------------------------------- numbering

  /** The next number after an operand that takes its own number, if a parameter, from `n`. */
  function OperandEnd(o: Operand, n: nat): (r: Option<nat>)
    ensures r.Some? ==> n <= r.value
  {
    if !o.Param? then Some(n) else if o.index == n then Some(n + 1) else None
  }

  function ListEnd(list: seq<Operand>, n: nat): (r: Option<nat>)
    ensures r.Some? ==> n <= r.value
  {
    if list == [] then Some(n)
    else
      var m :- OperandEnd(list[0], n);
      ListEnd(list[1..], m)
  }

  function PairEnd(a: Operand, b: Operand, n: nat): (r: Option<nat>)
    ensures r.Some? ==> n <= r.value
  {
    var m :- OperandEnd(a, n);
    OperandEnd(b, m)
  }

  /** `? BETWEEN lo AND hi` */
  predicate MarkBetween(e: Expr) {
    e.And? && e.left.Compare? && e.right.Compare? && e.left.op == S.Ge && e.right.op == S.Le &&
    e.left.a.Param? && e.left.a == e.right.a
  }

  /** The next number after a condition whose parameters are numbered from `n`; None if they are
      numbered in some other way. */
  function NumberEnd(e: Expr, n: nat): (r: Option<nat>)
    ensures r.Some? ==> n <= r.value
  {
    match e
    case And(l, r) =>
      if MarkBetween(e) then
        var m :- PairEnd(l.a, l.b, n);
        OperandEnd(r.b, m)
      else
        var m :- NumberEnd(l, n);
        NumberEnd(r, m)
    case Or(l, r) =>
      var m :- NumberEnd(l, n);
      NumberEnd(r, m)
    case Not(a) => NumberEnd(a, n)
    case Compare(_, a, b) => PairEnd(a, b, n)
    case Like(a, b, _) => PairEnd(a, b, n)
    case In(a, list, _) =>
      var m :- OperandEnd(a, n);
      ListEnd(list, m)
    case IsNull(a, _) => OperandEnd(a, n)
  }

  predicate Shaped(e: Expr, n: nat, m: nat) {
    Lists(e) && NumberEnd(e, n) == Some(m)
  }

  predicate ShapedStep(r: Result<Step<Expr>>, n: nat) {
    r.Ok? ==> Shaped(r.value.value, n, r.value.params)
  }

  lemma JoinShaped(l: Expr, r: Expr, n: nat, m: nat, k: nat)
    requires Shaped(l, n, m) && Shaped(r, m, k)
    ensures Shaped(And(l, r), n, k) && Shaped(Or(l, r), n, k)
  {
  }

  lemma BetweenShaped(a: Operand, lo: Operand, hi: Operand, negated: bool, n: nat, m: nat, k: nat, j: nat)
    requires OperandEnd(a, n) == Some(m) && OperandEnd(lo, m) == Some(k) && OperandEnd(hi, k) == Some(j)
    ensures Shaped(Between(a, lo, hi, negated), n, j)
  {
    var l, r := Compare(S.Ge, a, lo), Compare(S.Le, a, hi);
    assert PairEnd(a, lo, n) == Some(k) && Lists(l) && Lists(r);
    if !a.Param? {
      assert PairEnd(a, hi, k) == Some(j);
      JoinShaped(l, r, n, k, j);
    } else {
      assert MarkBetween(And(l, r));
    }
    assert Shaped(And(l, r), n, j);
  }

  // ---------------------------------------------------------------- the parser

  lemma OperandShaped(ts: seq<Token>, n: nat)
    requires Terminated(ts)
    ensures var r := ParseOperand(ts, n); r.Ok? ==> OperandEnd(r.value.value, n) == Some(r.value.params)
  {
    hide LiteralStart, ParseLiteral, PathTail;
  }

  lemma {:induction false} ListShaped(ts: seq<Token>, n: nat)
    requires Terminated(ts)
    ensures var r := ParseList(ts, n); r.Ok? ==> ListEnd(r.value.value, n) == Some(r.value.params)
    decreases |ts|
  {
    hide ParseOperand;
    OperandShaped(ts, n);
    var o := ParseOperand(ts, n);
    if o.Ok? {
      assert ListEnd([], o.value.params) == Some(o.value.params);
      if IsOp(o.value.rest, ",", 0) {
        ListShaped(Next(o.value.rest), o.value.params);
        var more := ParseList(Next(o.value.rest), o.value.params);
        if more.Ok? {
          assert ([o.value.value] + more.value.value)[1..] == more.value.value;
        }
      }
    }
  }

  lemma TestShaped(a: Operand, negated: bool, ts: seq<Token>, n: nat, m: nat)
    requires Terminated(ts) && OperandEnd(a, n) == Some(m)
    ensures ShapedStep(ParseTest(a, negated, ts, m), n)
  {
    hide ParseOperand, ParseList, Between, Shaped;
    if IsKw(ts, "IN") {
      InShaped(a, negated, Next(ts), n, m);
    } else if IsKw(ts, "LIKE") {
      LikeShaped(a, negated, Next(ts), n, m);
    } else if IsKw(ts, "BETWEEN") {
      RangeShaped(a, negated, Next(ts), n, m);
    } else if !negated && IsKw(ts, "IS") {
      NullShaped(a, Next(ts), n, m);
    }
  }

  lemma InShaped(a: Operand, negated: bool, ts: seq<Token>, n: nat, m: nat)
    requires Terminated(ts) && OperandEnd(a, n) == Some(m)
    ensures ShapedStep(ParseIn(a, negated, ts, m), n)
  {
    hide ParseList;
    if IsOp(ts, "(", 0) { ListShaped(Next(ts), m); }
  }

  lemma LikeShaped(a: Operand, negated: bool, ts: seq<Token>, n: nat, m: nat)
    requires Terminated(ts) && OperandEnd(a, n) == Some(m)
    ensures ShapedStep(ParseLike(a, negated, ts, m), n)
  {
    hide ParseOperand;
    OperandShaped(ts, m);
  }

  lemma RangeShaped(a: Operand, negated: bool, ts: seq<Token>, n: nat, m: nat)
    requires Terminated(ts) && OperandEnd(a, n) == Some(m)
    ensures ShapedStep(ParseBetween(a, negated, ts, m), n)
  {
    hide ParseOperand, Shaped, Between;
    OperandShaped(ts, m);
    var lo := ParseOperand(ts, m);
    if lo.Ok? && IsKw(lo.value.rest, "AND") {
      OperandShaped(Next(lo.value.rest), lo.value.params);
      var hi := ParseOperand(Next(lo.value.rest), lo.value.params);
      if hi.Ok? {
        BetweenShaped(a, lo.value.value, hi.value.value, negated, n, m, lo.value.params, hi.value.params);
      }
    }
  }

  lemma NullShaped(a: Operand, ts: seq<Token>, n: nat, m: nat)
    requires Terminated(ts) && OperandEnd(a, n) == Some(m)
    ensures ShapedStep(ParseIsNull(a, ts, m), n)
  {
  }

  lemma AfterShaped(a: Operand, ts: seq<Token>, n: nat, m: nat)
    requires Terminated(ts) && OperandEnd(a, n) == Some(m)
    ensures ShapedStep(AfterOperand(a, ts, m), n)
  {
    hide ParseOperand, ParseTest, CompareOp;
    if CompareOp(ts[0]).Some? {
      CompareNotEnd(ts);
      OperandShaped(Next(ts), m);
    } else {
      var negated := IsKw(ts, "NOT");
      if negated { KeywordNotEnd(ts); }
      TestShaped(a, negated, if negated then Next(ts) else ts, n, m);
    }
  }

  lemma CompareNotEnd(ts: seq<Token>)
    requires ts != [] && CompareOp(ts[0]).Some?
    ensures ts[0].t != End
  {
  }

  lemma KeywordNotEnd(ts: seq<Token>)
    requires ts != [] && IsKw(ts, "NOT")
    ensures ts[0].t != End
  {
  }

  lemma {:induction false} PredicateShaped(ts: seq<Token>, n: nat)
    requires Terminated(ts)
    ensures ShapedStep(ParsePredicate(ts, n), n)
    decreases |ts|, 0
  {
    hide ParseOperand, AfterOperand, Shaped;
    if IsOp(ts, "(", 0) {
      OrShaped(Next(ts), n);
    } else {
      OperandShaped(ts, n);
      var a := ParseOperand(ts, n);
      if a.Ok? { AfterShaped(a.value.value, a.value.rest, n, a.value.params); }
    }
  }

  lemma {:induction false} NotShaped(ts: seq<Token>, n: nat)
    requires Terminated(ts)
    ensures ShapedStep(ParseNot(ts, n), n)
    decreases |ts|, 1
  {
    hide ParsePredicate;
    if IsKw(ts, "NOT") { NotShaped(Next(ts), n); } else { PredicateShaped(ts, n); }
  }

  lemma {:induction false} AndTailShaped(l: Expr, ts: seq<Token>, n: nat, m: nat)
    requires Terminated(ts) && Shaped(l, n, m)
    ensures ShapedStep(AndTail(l, ts, m), n)
    decreases |ts|, 2
  {
    hide ParseNot, Shaped;
    if IsKw(ts, "AND") {
      NotShaped(Next(ts), m);
      var r := ParseNot(Next(ts), m);
      if r.Ok? {
        JoinShaped(l, r.value.value, n, m, r.value.params);
        AndTailShaped(And(l, r.value.value), r.value.rest, n, r.value.params);
      }
    }
  }

  lemma {:induction false} AndShaped(ts: seq<Token>, n: nat)
    requires Terminated(ts)
    ensures ShapedStep(ParseAnd(ts, n), n)
    decreases |ts|, 3
  {
    hide ParseNot, AndTail, Shaped;
    NotShaped(ts, n);
    var l := ParseNot(ts, n);
    if l.Ok? { AndTailShaped(l.value.value, l.value.rest, n, l.value.params); }
  }

  lemma {:induction false} OrTailShaped(l: Expr, ts: seq<Token>, n: nat, m: nat)
    requires Terminated(ts) && Shaped(l, n, m)
    ensures ShapedStep(OrTail(l, ts, m), n)
    decreases |ts|, 4
  {
    hide ParseAnd, Shaped;
    if IsKw(ts, "OR") {
      AndShaped(Next(ts), m);
      var r := ParseAnd(Next(ts), m);
      if r.Ok? {
        JoinShaped(l, r.value.value, n, m, r.value.params);
        OrTailShaped(Or(l, r.value.value), r.value.rest, n, r.value.params);
      }
    }
  }

  /** Every condition read has non-empty lists and parameters numbered in the order of their marks. */
  lemma {:induction false} OrShaped(ts: seq<Token>, n: nat)
    requires Terminated(ts)
    ensures ShapedStep(ParseOr(ts, n), n)
    decreases |ts|, 5
  {
    hide ParseAnd, OrTail, Shaped;
    AndShaped(ts, n);
    var l := ParseAnd(ts, n);
    if l.Ok? { OrTailShaped(l.value.value, l.value.rest, n, l.value.params); }
  }
}
