/** Which error a condition that does not compile, or values that do not fit its marks, are refused with
    (src/sql_plan.cpp:232-410). */
module Faults {
  import opened Wrappers
  import opened Sql
  import opened SqlPlan
  import opened SqlMeaning
  import opened SqlProof
  import opened Literals
  import S = Soql

  /** What is wrong with a literal for a field of type `t`: no number or truth value, or no date or time. */
  function LiteralFault(env: Env, lit: Lit, t: string): Option<string> {
    if Accepted(env, lit, t) then None
    else
      match ClassOf(t)
      case Numbers => Some("22018")
      case Flags => Some("22018")
      case _ => Some("22007")
  }

  lemma LiteralRefused(env: Env, lit: Lit, t: string)
    ensures match SoqlValue(env, lit, t)
            case Ok(_) => LiteralFault(env, lit, t) == None
            case Err(e) => LiteralFault(env, lit, t) == Some(e)
  {
    LiteralAccepted(env, lit, t);
    hide Accepted;
    if lit.kind != NullLit {
      hide SoqlValue;
      match ClassOf(t)
      case Numbers => NumberSent(env, lit, t);
      case Flags => FlagSent(env, lit);
      case Days => DaySent(env, lit);
      case Moments => MomentSent(env, lit);
      case Clocks => ClockSent(env, lit);
      case Texts => TextSent(env, lit, t);
    }
  }

  /** One fault before another. */
  function Either(first: Option<string>, second: Option<string>): Option<string> {
    if first.Some? then first else second
  }

  // ---------------------------------------------------------------- conditions that do not compile

  function OperandFault(env: Env, o: Operand, t: string): Option<string> {
    match o
    case Column(_) => Some("42000")
    case Param(_) => None
    case Literal(lit) => LiteralFault(env, lit, t)
  }

  function OperandsFault(env: Env, list: seq<Operand>, t: string): Option<string> {
    if list == [] then None else Either(OperandFault(env, list[0], t), OperandsFault(env, list[1..], t))
  }

  /** The column first, then what it is compared with from left to right. */
  function ColumnFault(env: Env, path: seq<string>, list: seq<Operand>): Option<string> {
    var col := env.resolve(path);
    if col.Err? then Some(col.state) else OperandsFault(env, list, col.value.sfType)
  }

  /** The first fault of a condition, read from left to right. */
  function Fault(env: Env, e: Expr): Option<string> {
    match e
    case And(l, r) => Either(Fault(env, l), Fault(env, r))
    case Or(l, r) => Either(Fault(env, l), Fault(env, r))
    case Not(a) => Fault(env, a)
    case Compare(_, a, b) =>
      if a.Column? then ColumnFault(env, a.path, [b])
      else if b.Column? then ColumnFault(env, b.path, [a])
      else if a.Literal? && b.Literal? then None
      else Some("42000")
    case Like(a, b, _) => if a.Column? then ColumnFault(env, a.path, [b]) else Some("42000")
    case In(a, list, _) => if a.Column? then ColumnFault(env, a.path, list) else Some("42000")
    case IsNull(a, _) =>
      match a
      case Literal(_) => None
      case Param(_) => Some("42000")
      case Column(path) => ColumnFault(env, path, [])
  }

  predicate FailsWith<T>(r: Result<T>, fault: Option<string>) {
    if r.Ok? then fault == None else fault == Some(r.state)
  }

  lemma PieceFails(env: Env, o: Operand, col: Field)
    ensures FailsWith(PieceOf(env, o, col), OperandFault(env, o, col.sfType))
  {
    hide SoqlValue, LiteralFault;
    if o.Literal? { LiteralRefused(env, o.lit, col.sfType); }
  }

  lemma {:induction false} PiecesFail(env: Env, list: seq<Operand>, col: Field)
    ensures FailsWith(PiecesOf(env, list, col), OperandsFault(env, list, col.sfType))
  {
    hide PieceOf, OperandFault;
    if list != [] {
      PieceFails(env, list[0], col);
      PiecesFail(env, list[1..], col);
    }
  }

  lemma OneOperand(env: Env, o: Operand, t: string)
    ensures OperandsFault(env, [o], t) == OperandFault(env, o, t)
  {
    assert [o][1..] == [];
  }

  lemma CompareFails(env: Env, op: S.CmpOp, a: Operand, b: Operand)
    ensures FailsWith(CompileCompare(env, op, a, b), Fault(env, Compare(op, a, b)))
  {
    hide PieceOf, FoldCompare, OperandFault, OperandsFault;
    var swap := !a.Column? && b.Column?;
    var x, y := if swap then b else a, if swap then a else b;
    if x.Column? && env.resolve(x.path).Ok? {
      var col := env.resolve(x.path).value;
      PieceFails(env, y, col);
      OneOperand(env, y, col.sfType);
      NullIsAccepted(env, y, col.sfType);
    }
  }

  lemma NullIsAccepted(env: Env, o: Operand, t: string)
    ensures o.Literal? && o.lit.kind == NullLit ==> OperandFault(env, o, t) == None
  {
  }

  /** A condition compiles exactly when it has no fault, and is otherwise refused with its first. */
  lemma {:induction false} CompileFails(env: Env, e: Expr)
    ensures FailsWith(Compile(env, e), Fault(env, e))
  {
    hide PieceOf, PiecesOf, CompileCompare, CompileJoin, OperandFault, OperandsFault;
    match e
    case And(l, r) =>
      CompileFails(env, l);
      CompileFails(env, r);
    case Or(l, r) =>
      CompileFails(env, l);
      CompileFails(env, r);
    case Not(a) => CompileFails(env, a);
    case Compare(op, a, b) => CompareFails(env, op, a, b);
    case Like(a, b, _) =>
      if a.Column? && env.resolve(a.path).Ok? {
        PieceFails(env, b, env.resolve(a.path).value);
        OneOperand(env, b, env.resolve(a.path).value.sfType);
      }
    case In(a, list, _) =>
      if a.Column? && env.resolve(a.path).Ok? { PiecesFail(env, list, env.resolve(a.path).value); }
    case IsNull(a, _) => NoOperands(env);
  }

  lemma NoOperands(env: Env)
    ensures forall t :: OperandsFault(env, [], t) == None
  {
  }

  // ---------------------------------------------------------------- values that do not fit

  function ValueFault(env: Env, o: Operand, params: seq<Lit>, t: string): Option<string> {
    if !o.Param? then None
    else if o.index >= |params| then Some("07002")
    else LiteralFault(env, params[o.index], t)
  }

  function ValuesFault(env: Env, list: seq<Operand>, params: seq<Lit>, t: string): Option<string> {
    if list == [] then None else Either(ValueFault(env, list[0], params, t), ValuesFault(env, list[1..], params, t))
  }

  function BoundFault(env: Env, path: seq<string>, list: seq<Operand>, params: seq<Lit>): Option<string> {
    if env.resolve(path).Err? then None else ValuesFault(env, list, params, env.resolve(path).value.sfType)
  }

  /** The first parameter that is sent and has no value, or none its column takes. */
  function BindingFault(env: Env, e: Expr, params: seq<Lit>): Option<string> {
    if Folded(env, e) then None
    else
      match e
      case And(l, r) => Either(BindingFault(env, l, params), BindingFault(env, r, params))
      case Or(l, r) => Either(BindingFault(env, l, params), BindingFault(env, r, params))
      case Not(a) => BindingFault(env, a, params)
      case Compare(_, a, b) =>
        if a.Column? then BoundFault(env, a.path, [b], params)
        else if b.Column? then BoundFault(env, b.path, [a], params)
        else None
      case Like(a, b, _) => if a.Column? then BoundFault(env, a.path, [b], params) else None
      case In(a, list, _) => if a.Column? then BoundFault(env, a.path, list, params) else None
      case IsNull(_, _) => None
  }

  predicate BindFailsWith(env: Env, c: Compiled, params: seq<Lit>, fault: Option<string>) {
    if c.Decided? then fault == None else FailsWith(Bind(env, c.tree, params), fault)
  }

  lemma PieceBindFails(env: Env, o: Operand, col: Field, params: seq<Lit>)
    requires PieceOf(env, o, col).Ok?
    ensures FailsWith(BindPiece(env, PieceOf(env, o, col).value, params), ValueFault(env, o, params, col.sfType))
  {
    hide SoqlValue, LiteralFault;
    if o.Param? && o.index < |params| { LiteralRefused(env, params[o.index], col.sfType); }
  }

  lemma {:induction false} PiecesBindFail(env: Env, list: seq<Operand>, col: Field, params: seq<Lit>)
    requires PiecesOf(env, list, col).Ok?
    ensures FailsWith(BindPieces(env, PiecesOf(env, list, col).value, params),
                      ValuesFault(env, list, params, col.sfType))
  {
    hide PieceOf, BindPiece, ValueFault;
    if list != [] {
      PieceBindFails(env, list[0], col, params);
      PiecesBindFail(env, list[1..], col, params);
      var p, ps := PieceOf(env, list[0], col).value, PiecesOf(env, list[1..], col).value;
      assert ([p] + ps)[0] == p && ([p] + ps)[1..] == ps;
    }
  }

  lemma OneValue(env: Env, o: Operand, params: seq<Lit>, t: string)
    ensures ValuesFault(env, [o], params, t) == ValueFault(env, o, params, t)
  {
    assert [o][1..] == [];
  }

  lemma CompareBindFails(env: Env, op: S.CmpOp, a: Operand, b: Operand, params: seq<Lit>)
    requires CompileCompare(env, op, a, b).Ok? && CompileCompare(env, op, a, b).value.Condition?
    ensures BindFailsWith(env, CompileCompare(env, op, a, b).value, params,
                          BindingFault(env, Compare(op, a, b), params))
  {
    hide FoldCompare, PieceOf, BindPiece, ValueFault, ValuesFault;
    var swap := !a.Column? && b.Column?;
    var x, y := if swap then b else a, if swap then a else b;
    PieceBindFails(env, y, env.resolve(x.path).value, params);
    OneValue(env, y, params, env.resolve(x.path).value.sfType);
  }

  lemma LikeBindFails(env: Env, e: Expr, params: seq<Lit>)
    requires e.Like? && Compile(env, e).Ok?
    ensures BindFailsWith(env, Compile(env, e).value, params, BindingFault(env, e, params))
  {
    hide PieceOf, BindPiece, ValueFault, ValuesFault;
    var col := env.resolve(e.a.path).value;
    PieceBindFails(env, e.b, col, params);
    OneValue(env, e.b, params, col.sfType);
    var like := S.Like(col.soql, PieceOf(env, e.b, col).value);
    assert FailsWith(Bind(env, S.Not(like), params), BindingFault(env, e, params));
  }

  lemma JoinBindFails(env: Env, isAnd: bool, x: Compiled, y: Compiled, params: seq<Lit>, f: Option<string>,
                      g: Option<string>)
    requires CompileJoin(isAnd, x, y).Condition? && BindFailsWith(env, x, params, f) && BindFailsWith(env, y, params, g)
    ensures BindFailsWith(env, CompileJoin(isAnd, x, y), params, Either(f, g))
  {
  }

  lemma NullBinds(env: Env, v: S.Value, params: seq<Lit>)
    ensures BindPiece(env, Known(v), params).Ok?
  {
  }

  /** Values can be bound to a compiled condition exactly when none is at fault, and are otherwise
      refused with the first fault from left to right. */
  lemma {:induction false} BindFails(env: Env, e: Expr, params: seq<Lit>)
    requires Compile(env, e).Ok?
    ensures BindFailsWith(env, Compile(env, e).value, params, BindingFault(env, e, params))
  {
    hide PieceOf, PiecesOf, CompileCompare, CompileJoin, BindPiece, BindPieces, ValueFault, ValuesFault;
    if !Folded(env, e) {
      match e
      case And(l, r) =>
        BindFails(env, l, params);
        BindFails(env, r, params);
        JoinBindFails(env, true, Compile(env, l).value, Compile(env, r).value, params, BindingFault(env, l, params),
                      BindingFault(env, r, params));
      case Or(l, r) =>
        BindFails(env, l, params);
        BindFails(env, r, params);
        JoinBindFails(env, false, Compile(env, l).value, Compile(env, r).value, params, BindingFault(env, l, params),
                      BindingFault(env, r, params));
      case Not(a) => BindFails(env, a, params);
      case Compare(op, a, b) => CompareBindFails(env, op, a, b, params);
      case Like(_, _, _) => LikeBindFails(env, e, params);
      case In(a, list, _) => PiecesBindFail(env, list, env.resolve(a.path).value, params);
      case IsNull(_, _) => NullBinds(env, S.Null, params);
    }
  }

  /** The errors of a whole condition: of rendering it, and of filling its template with values. */
  lemma RenderFails(env: Env, e: Expr, params: seq<Lit>)
    requires Lists(e)
    ensures FailsWith(Render(env, e), Fault(env, e))
    ensures Render(env, e).Ok? && Render(env, e).value.Text? ==>
              FailsWith(Fill(env, Render(env, e).value.parts, params), BindingFault(env, e, params))
  {
    hide Render, Compile, Fault, BindingFault, Fill, Bind, S.TreeText;
    RenderAgrees(env, e, params);
    CompileFails(env, e);
    if Compile(env, e).Ok? { BindFails(env, e, params); }
  }
}
