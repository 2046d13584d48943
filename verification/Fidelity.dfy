/** When what the org is asked about a record is what the SQL condition says of it: exactly when a
    test compares no datetime with milliseconds, orders no bound NULL and has no NULL after LIKE
    (src/sql_plan.cpp:148-196 and :264-279). */
module Fidelity {
  import opened Sql
  import opened SqlPlan
  import opened SqlMeaning
  import opened SqlProof
  import DateTime
  import S = Soql

  predicate ExactOperand(env: Env, path: seq<string>, op: S.CmpOp, o: Operand, params: seq<Lit>) {
    var lit := LitOf(o, params);
    (lit.kind != NullLit || op == S.Eq || op == S.Ne) &&
    (env.resolve(path).Ok? ==> WholeSecond(lit, env.resolve(path).value.sfType))
  }

  predicate WholeSeconds(list: seq<Operand>, params: seq<Lit>, t: string) {
    forall i :: 0 <= i < |list| ==> WholeSecond(LitOf(list[i], params), t)
  }

  /** The guard of a single test, to be looked at before the call. */
  predicate ExactTest(env: Env, e: Expr, params: seq<Lit>) {
    match e
    case Compare(op, a, b) =>
      if a.Column? then ExactOperand(env, a.path, op, b, params)
      else b.Column? ==> ExactOperand(env, b.path, Flip(op), a, params)
    case Like(_, b, _) => LitOf(b, params).kind != NullLit
    case In(a, list, _) =>
      a.Column? && env.resolve(a.path).Ok? ==>
        WholeSeconds(list, params, env.resolve(a.path).value.sfType)
    case _ => true
  }

  /** The guard of a condition: every test that is sent meets its own. */
  predicate Exact(env: Env, e: Expr, params: seq<Lit>) {
    Folded(env, e) ||
    match e
    case And(l, r) => Exact(env, l, params) && Exact(env, r, params)
    case Or(l, r) => Exact(env, l, params) && Exact(env, r, params)
    case Not(a) => Exact(env, a, params)
    case _ => ExactTest(env, e, params)
  }

  predicate IsTest(e: Expr) {
    !e.And? && !e.Or? && !e.Not?
  }

  /** On this record the org is asked what the condition says. */
  predicate Faithful(env: Env, org: Org, e: Expr, params: seq<Lit>, rec: Record) {
    SentMeaning(env, org, e, params, rec) == Meaning(env, org, e, params, rec)
  }

  // ---------------------------------------------------------------- the guard suffices

  lemma FoldedComparison(env: Env, org: Org, op: S.CmpOp, a: Operand, b: Operand, params: seq<Lit>, rec: Record)
    requires CompileCompare(env, op, a, b).Ok? && CompileCompare(env, op, a, b).value.Decided?
    ensures Meaning(env, org, Compare(op, a, b), params, rec) == CompileCompare(env, op, a, b).value.value
  {
    hide Holds, LitVal, LitHolds, FoldCompare;
    var swap := !a.Column? && b.Column?;
    var x, y, o := if swap then b else a, if swap then a else b, if swap then Flip(op) else op;
    if !x.Column? {
      FoldKept(env, a.lit, op, b.lit);
    } else {
      var col := env.resolve(x.path).value;
      NullNotOrdered(org, y.lit, col.sfType, o, rec.at(col.soql));
      FlipKept(op, rec.at(col.soql), LitVal(org, y.lit, col.sfType));
    }
  }

  /** A condition that folds to a constant has that value on every record. */
  lemma {:induction false} FoldedMeans(env: Env, org: Org, e: Expr, params: seq<Lit>, rec: Record)
    requires Folded(env, e)
    ensures Meaning(env, org, e, params, rec) == Compile(env, e).value.value
  {
    hide CompileCompare, ColumnCompare, LitHolds, LitVal, LikeHolds, Same, PieceOf, PiecesOf;
    match e
    case And(l, r) =>
      if Folded(env, l) { FoldedMeans(env, org, l, params, rec); }
      if Folded(env, r) { FoldedMeans(env, org, r, params, rec); }
    case Or(l, r) =>
      if Folded(env, l) { FoldedMeans(env, org, l, params, rec); }
      if Folded(env, r) { FoldedMeans(env, org, r, params, rec); }
    case Not(a) => FoldedMeans(env, org, a, params, rec);
    case Compare(op, a, b) => FoldedComparison(env, org, op, a, b, params, rec);
    case _ =>
  }

  lemma OperandFaithful(env: Env, org: Org, path: seq<string>, op: S.CmpOp, o: Operand, params: seq<Lit>, rec: Record)
    requires ExactOperand(env, path, op, o, params)
    ensures SentCompare(env, org, path, op, o, params, rec) ==
            ColumnCompare(env, org, path, op, LitOf(o, params), rec, true)
  {
    hide LitVal, SentVal, WholeSecond, Holds;
    if env.resolve(path).Ok? {
      SentWhole(org, LitOf(o, params), env.resolve(path).value.sfType);
    }
  }

  lemma FlippedCompare(env: Env, org: Org, path: seq<string>, op: S.CmpOp, lit: Lit, rec: Record)
    ensures ColumnCompare(env, org, path, Flip(op), lit, rec, true) ==
            ColumnCompare(env, org, path, op, lit, rec, false)
  {
    hide LitVal, Holds;
    if env.resolve(path).Ok? {
      var col := env.resolve(path).value;
      FlipKept(op, rec.at(col.soql), LitVal(org, lit, col.sfType));
    }
  }

  lemma NullIsMissing(org: Org, lit: Lit, t: string)
    requires lit.kind == NullLit
    ensures LitVal(org, lit, t) == Missing
  {
  }

  lemma PatternFaithful(org: Org, val: Val, lit: Lit, t: string)
    ensures SentLike(org, val, lit, t) == LikeHolds(org, val, LitVal(org, lit, t)) <==>
            !(lit.kind == NullLit && val.Words? && org.like("null", val.s))
  {
    if lit.kind == NullLit { NullIsMissing(org, lit, t); }
    hide LitVal;
  }

  lemma ListFaithful(org: Org, list: seq<Operand>, params: seq<Lit>, t: string)
    requires WholeSeconds(list, params, t)
    ensures forall i :: 0 <= i < |list| ==>
              SentVal(org, LitOf(list[i], params), t) == LitVal(org, LitOf(list[i], params), t)
  {
    hide LitVal, SentVal, WholeSecond, LitOf;
    forall i | 0 <= i < |list|
      ensures SentVal(org, LitOf(list[i], params), t) == LitVal(org, LitOf(list[i], params), t)
    {
      SentWhole(org, LitOf(list[i], params), t);
    }
  }

  lemma TestFaithful(env: Env, org: Org, e: Expr, params: seq<Lit>, rec: Record)
    requires IsTest(e) && ExactTest(env, e, params)
    ensures Faithful(env, org, e, params, rec)
  {
    hide ColumnCompare, SentCompare, LitHolds, LitVal, SentVal, SentLike, LikeHolds, Same, ExactOperand, WholeSeconds,
         LitOf;
    match e
    case Compare(op, a, b) =>
      if a.Column? {
        OperandFaithful(env, org, a.path, op, b, params, rec);
      } else if b.Column? {
        OperandFaithful(env, org, b.path, Flip(op), a, params, rec);
        FlippedCompare(env, org, b.path, op, LitOf(a, params), rec);
      }
    case Like(a, b, _) =>
      if a.Column? && env.resolve(a.path).Ok? {
        var col := env.resolve(a.path).value;
        PatternFaithful(org, rec.at(col.soql), LitOf(b, params), col.sfType);
      }
    case In(a, list, _) =>
      if a.Column? && env.resolve(a.path).Ok? {
        ListFaithful(org, list, params, env.resolve(a.path).value.sfType);
      }
    case _ =>
  }

  /** A condition that meets the guard asks the org, about any record, what the SQL says of it. */
  lemma {:induction false} ExactFaithful(env: Env, org: Org, e: Expr, params: seq<Lit>, rec: Record)
    requires Compile(env, e).Ok? && Exact(env, e, params)
    ensures Faithful(env, org, e, params, rec)
  {
    hide ExactTest, CompileCompare, CompileJoin, ColumnCompare, SentCompare, LitHolds, LitVal, SentLike, LikeHolds,
         Same;
    if Folded(env, e) {
      FoldedMeans(env, org, e, params, rec);
      CompileKept(env, org, e, params, rec);
    } else {
      match e
      case And(l, r) =>
        ExactFaithful(env, org, l, params, rec);
        ExactFaithful(env, org, r, params, rec);
      case Or(l, r) =>
        ExactFaithful(env, org, l, params, rec);
        ExactFaithful(env, org, r, params, rec);
      case Not(a) => ExactFaithful(env, org, a, params, rec);
      case _ => TestFaithful(env, org, e, params, rec);
    }
  }

  // ---------------------------------------------------------------- the guard is needed

  lemma {:induction false} LastDecides(p: seq<int>, a: int, b: int)
    requires a < b
    ensures LexLess(p + [a], p + [b]) && !LexLess(p + [b], p + [a])
    ensures !LexLess(p + [a], p + [a]) && !LexLess(p + [b], p + [b])
  {
    if p != [] {
      LastDecides(p[1..], a, b);
      assert (p + [a])[1..] == p[1..] + [a] && (p + [b])[1..] == p[1..] + [b];
    } else {
      assert [a][1..] == [] && [b][1..] == [];
    }
  }

  /** A value that tells a datetime from the same one without its milliseconds. */
  function Telling(op: S.CmpOp, sent: Val, v: Val): Val {
    if op == S.Le || op == S.Gt then v else sent
  }

  lemma MillisSeen(op: S.CmpOp, v: Val, sent: Val)
    requires v.MomentVal? && v.millis > 0
    requires sent == MomentVal(v.year, v.month, v.day, v.hour, v.minute, v.second, 0)
    ensures Holds(op, Telling(op, sent, v), sent) != Holds(op, Telling(op, sent, v), v)
  {
    var p := [v.year, v.month, v.day, v.hour, v.minute, v.second];
    LastDecides(p, 0, v.millis);
    assert p + [0] == [v.year, v.month, v.day, v.hour, v.minute, v.second, 0];
    assert p + [v.millis] == [v.year, v.month, v.day, v.hour, v.minute, v.second, v.millis];
    hide LexLess;
  }

  lemma MomentSent(org: Org, lit: Lit, t: string)
    requires !WholeSecond(lit, t)
    ensures var v := LitVal(org, lit, t);
            v.MomentVal? && v.millis > 0 &&
            SentVal(org, lit, t) == MomentVal(v.year, v.month, v.day, v.hour, v.minute, v.second, 0)
  {
    DateTime.ParsedInstant(lit.text);
    hide DateTime.Parse;
  }

  /** A record on which a comparison that fails the guard is answered wrongly. */
  lemma OperandNeeded(env: Env, org: Org, path: seq<string>, op: S.CmpOp, o: Operand, params: seq<Lit>) returns (x: Val)
    requires env.resolve(path).Ok? && !ExactOperand(env, path, op, o, params)
    requires LitOf(o, params).kind == NullLit && op != S.Eq && op != S.Ne ==> o.Param?
    ensures SentCompare(env, org, path, op, o, params, Record(_ => x)) !=
            ColumnCompare(env, org, path, op, LitOf(o, params), Record(_ => x), true)
  {
    var col, lit := env.resolve(path).value, LitOf(o, params);
    if lit.kind == NullLit {
      x := Flag(true);
      NullIsMissing(org, lit, col.sfType);
      hide LitVal;
    } else {
      MomentSent(org, lit, col.sfType);
      var v, sent := LitVal(org, lit, col.sfType), SentVal(org, lit, col.sfType);
      MillisSeen(op, v, sent);
      x := Telling(op, sent, v);
      hide LitVal, SentVal, Holds, WholeSecond, Telling;
    }
  }

  lemma ListNeeded(env: Env, org: Org, list: seq<Operand>, params: seq<Lit>, t: string) returns (x: Val)
    requires !WholeSeconds(list, params, t)
    ensures exists i :: 0 <= i < |list| && Same(x, LitVal(org, LitOf(list[i], params), t))
    ensures !exists i :: 0 <= i < |list| && Same(x, SentVal(org, LitOf(list[i], params), t))
  {
    hide WholeSecond, LitVal, LitOf;
    var k :| 0 <= k < |list| && !WholeSecond(LitOf(list[k], params), t);
    MomentSent(org, LitOf(list[k], params), t);
    x := LitVal(org, LitOf(list[k], params), t);
  }

  lemma OperandSent(env: Env, op: S.CmpOp, a: Operand, b: Operand, params: seq<Lit>)
    requires CompileCompare(env, op, a, b).Ok? && CompileCompare(env, op, a, b).value.Condition?
    ensures var x, y, o := if a.Column? then a else b, if a.Column? then b else a, if a.Column? then op else Flip(op);
            x.Column? && env.resolve(x.path).Ok? &&
            (y.Literal? && y.lit.kind == NullLit ==> o == S.Eq || o == S.Ne) && (y.Param? || y.Literal?)
  {
  }

  /** A record on which a test that fails its guard is answered wrongly. */
  lemma TestNeeded(env: Env, org: Org, e: Expr, params: seq<Lit>) returns (x: Val)
    requires IsTest(e) && Compile(env, e).Ok? && !Folded(env, e) && !ExactTest(env, e, params)
    requires e.Like? ==> org.like("null", "null")
    ensures !Faithful(env, org, e, params, Record(_ => x))
  {
    hide ColumnCompare, SentCompare, LitHolds, LitVal, SentVal, SentLike, LikeHolds, Same, ExactOperand, WholeSeconds;
    match e
    case Compare(op, a, b) =>
      OperandSent(env, op, a, b, params);
      if a.Column? {
        x := OperandNeeded(env, org, a.path, op, b, params);
      } else {
        x := OperandNeeded(env, org, b.path, Flip(op), a, params);
        FlippedCompare(env, org, b.path, op, LitOf(a, params), Record(_ => x));
      }
    case Like(a, b, _) =>
      x := Words("null");
      PatternFaithful(org, x, LitOf(b, params), env.resolve(a.path).value.sfType);
    case In(a, list, _) =>
      x := ListNeeded(env, org, list, params, env.resolve(a.path).value.sfType);
    case _ =>
  }

  /** A test that is sent is answered as the SQL says, for every record, exactly when it meets its
      guard. (LIKE takes the word `null` as a pattern for itself.) */
  lemma TestExact(env: Env, org: Org, e: Expr, params: seq<Lit>)
    requires IsTest(e) && Compile(env, e).Ok? && !Folded(env, e)
    requires e.Like? ==> org.like("null", "null")
    ensures ExactTest(env, e, params) <==> forall rec :: Faithful(env, org, e, params, rec)
  {
    hide ExactTest, Faithful, Compile;
    if ExactTest(env, e, params) {
      forall rec ensures Faithful(env, org, e, params, rec) {
        TestFaithful(env, org, e, params, rec);
      }
    } else {
      var x := TestNeeded(env, org, e, params);
    }
  }
}
