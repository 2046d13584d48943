/** Compiling a condition keeps its meaning: the driver's two-valued reading of the SQL against
    the org's evaluation of the SOQL (src/sql_plan.cpp, tests/mock_salesforce.py). */
module SqlMeaning {
  import opened Wrappers
  import opened Text
  import opened Sql
  import opened SqlPlan
  import DateTime
  import S = Soql

  // ---------------------------------------------------------------- values

  datatype Val =
    | Missing
    | Number(x: real)
    | Flag(b: bool)
    | Words(s: string)
    | DayVal(year: int, month: int, day: int)
    | MomentVal(year: int, month: int, day: int, hour: int, minute: int, second: int, millis: int)
    | ClockVal(hour: int, minute: int, second: int, millis: int)

  /** Text compares without regard to case. */
  function Normal(v: Val): Val {
    if v.Words? then Words(ToLower(v.s)) else v
  }

  predicate Same(a: Val, b: Val) {
    Normal(a) == Normal(b)
  }

  predicate LexLess(a: seq<int>, b: seq<int>) {
    a != [] && b != [] && (a[0] < b[0] || (a[0] == b[0] && LexLess(a[1..], b[1..])))
  }

  predicate Less(a: Val, b: Val) {
    match (a, b)
    case (Number(x), Number(y)) => x < y
    case (Flag(x), Flag(y)) => !x && y
    case (Words(x), Words(y)) => TextLess(ToLower(x), ToLower(y))
    case (DayVal(y, m, d), DayVal(y', m', d')) => LexLess([y, m, d], [y', m', d'])
    case (MomentVal(y, m, d, h, i, s, ms), MomentVal(y', m', d', h', i', s', ms')) =>
      LexLess([y, m, d, h, i, s, ms], [y', m', d', h', i', s', ms'])
    case (ClockVal(h, i, s, ms), ClockVal(h', i', s', ms')) => LexLess([h, i, s, ms], [h', i', s', ms'])
    case _ => false
  }

  /** The six comparisons of two values that are there. */
  predicate Ordered(op: S.CmpOp, a: Val, b: Val) {
    match op
    case Eq => Same(a, b)
    case Ne => !Same(a, b)
    case Lt => Less(a, b)
    case Le => Less(a, b) || Same(a, b)
    case Gt => Less(b, a)
    case Ge => Less(b, a) || Same(a, b)
  }

  // ---------------------------------------------------------------- the org's evaluation

  /** What a record holds for each field path. */
  datatype Record = Record(at: string -> Val)

  /** How the org reads a numeric literal and matches a LIKE pattern. */
  datatype Org = Org(number: string -> real, like: (string, string) -> bool)

  function NatAt(t: string, i: nat, n: nat): nat {
    if S.DigitsAt(t, i, n) then Value(t[i..i + n]) else 0
  }

  function Denote(org: Org, v: S.Value): Val {
    match v
    case Null => Missing
    case True => Flag(true)
    case False => Flag(false)
    case Str(s) => Words(s)
    case Num(t) => Number(org.number(t))
    case Day(t) => DayVal(NatAt(t, 0, 4), NatAt(t, 5, 2), NatAt(t, 8, 2))
    case Moment(t) =>
      MomentVal(NatAt(t, 0, 4), NatAt(t, 5, 2), NatAt(t, 8, 2), NatAt(t, 11, 2), NatAt(t, 14, 2), NatAt(t, 17, 2),
                DateTime.FractionPart(t, 19).0)
    case Clock(t) => ClockVal(NatAt(t, 0, 2), NatAt(t, 3, 2), NatAt(t, 6, 2), NatAt(t, 9, 3))
  }

  predicate EvalCompare(op: S.CmpOp, val: Val, target: Val) {
    if target.Missing? then (if op == S.Eq then val.Missing? else !val.Missing?)
    else if val.Missing? then op == S.Ne
    else Ordered(op, val, target)
  }

  predicate LikeHolds(org: Org, val: Val, pattern: Val) {
    val.Words? && pattern.Words? && org.like(pattern.s, val.s)
  }

  /** For the org a NULL after LIKE is the pattern that spells it. */
  predicate EvalLike(org: Org, val: Val, pattern: Val) {
    LikeHolds(org, val, if pattern.Missing? then Words("null") else pattern)
  }

  predicate Eval(org: Org, node: S.Node, rec: Record) {
    match node
    case AndNode(l, r) => Eval(org, l, rec) && Eval(org, r, rec)
    case OrNode(l, r) => Eval(org, l, rec) || Eval(org, r, rec)
    case NotNode(a) => !Eval(org, a, rec)
    case CmpNode(f, op, v) => EvalCompare(op, rec.at(f), Denote(org, v))
    case LikeNode(f, v) => EvalLike(org, rec.at(f), Denote(org, v))
    case InNode(f, vs) => exists i :: 0 <= i < |vs| && Same(rec.at(f), Denote(org, vs[i]))
  }

  // ---------------------------------------------------------------- the driver's reading of SQL

  /** What the Salesforce types of fields hold. */
  datatype Class = Numbers | Flags | Days | Moments | Clocks | Texts

  function ClassOf(t: string): Class {
    if t == "int" || t == "long" || t == "double" || t == "currency" || t == "percent" then Numbers
    else if t == "boolean" then Flags
    else if t == "date" then Days
    else if t == "datetime" then Moments
    else if t == "time" then Clocks
    else Texts
  }

  /** The value a literal stands for when compared with a field of type `t`: against a date a
      timestamp stands for its day, against a time for its time of day. */
  function LitVal(org: Org, lit: Lit, t: string): Val {
    if lit.kind == NullLit then Missing
    else
      var word := Trim(lit.text);
      match ClassOf(t)
      case Numbers =>
        if lit.kind == BoolLit then Number(org.number(if word == "true" then "1" else "0"))
        else Number(org.number(word))
      case Flags => Flag(IEquals(word, "true") || word == "1")
      case Texts => Words(lit.text)
      case c =>
        match DateTime.Parse(lit.text)
        case None => Missing
        case Some(p) =>
          if c == Days then DayVal(p.year, p.month, p.day)
          else if c == Moments then MomentVal(p.year, p.month, p.day, p.hour, p.minute, p.second, p.millis)
          else ClockVal(p.hour, p.minute, p.second, p.millis)
  }

  /** Equality takes two missing values as equal; an ordering with a missing value does not hold. */
  predicate Holds(op: S.CmpOp, a: Val, b: Val) {
    match op
    case Eq => Same(a, b)
    case Ne => !Same(a, b)
    case _ => !a.Missing? && !b.Missing? && Ordered(op, a, b)
  }

  /** Two texts compare by their bytes. */
  predicate TextHolds(op: S.CmpOp, a: string, b: string) {
    match op
    case Eq => a == b
    case Ne => a != b
    case Lt => TextLess(a, b)
    case Le => TextLess(a, b) || a == b
    case Gt => TextLess(b, a)
    case Ge => TextLess(b, a) || a == b
  }

  predicate ReadsNumber(env: Env, lit: Lit) {
    lit.text != "" && env.isNumber(lit.text)
  }

  /** Comparing two literals: two numbers by value, other texts as such; never with NULL. */
  predicate LitHolds(env: Env, a: Lit, op: S.CmpOp, b: Lit) {
    a.kind != NullLit && b.kind != NullLit &&
    if ReadsNumber(env, a) && ReadsNumber(env, b)
    then Ordered(op, Number(env.number(a.text)), Number(env.number(b.text)))
    else TextHolds(op, a.text, b.text)
  }

  function LitOf(o: Operand, params: seq<Lit>): Lit {
    match o
    case Literal(lit) => lit
    case Param(i) => if i < |params| then params[i] else NULL
    case Column(_) => NULL
  }

  /** The meaning of a condition on a record, with parameters bound. `col` is what a column name
      stands for; conditions the compiler rejects have no intended meaning. */
  predicate Meaning(env: Env, org: Org, e: Expr, params: seq<Lit>, rec: Record) {
    match e
    case And(l, r) => Meaning(env, org, l, params, rec) && Meaning(env, org, r, params, rec)
    case Or(l, r) => Meaning(env, org, l, params, rec) || Meaning(env, org, r, params, rec)
    case Not(a) => !Meaning(env, org, a, params, rec)
    case Compare(op, a, b) =>
      if a.Column? then ColumnCompare(env, org, a.path, op, LitOf(b, params), rec, true)
      else if b.Column? then ColumnCompare(env, org, b.path, op, LitOf(a, params), rec, false)
      else LitHolds(env, LitOf(a, params), op, LitOf(b, params))
    case IsNull(a, negated) =>
      (if a.Column? then env.resolve(a.path).Ok? && rec.at(env.resolve(a.path).value.soql).Missing?
       else LitOf(a, params).kind == NullLit) != negated
    case Like(a, b, negated) =>
      a.Column? && env.resolve(a.path).Ok? &&
      var col := env.resolve(a.path).value;
      LikeHolds(org, rec.at(col.soql), LitVal(org, LitOf(b, params), col.sfType)) != negated
    case In(a, list, negated) =>
      a.Column? && env.resolve(a.path).Ok? &&
      var col := env.resolve(a.path).value;
      (exists i :: 0 <= i < |list| &&
                   Same(rec.at(col.soql), LitVal(org, LitOf(list[i], params), col.sfType))) != negated
  }

  /** A column against a literal; the column is the left operand or the right one. */
  predicate ColumnCompare(env: Env, org: Org, path: seq<string>, op: S.CmpOp, lit: Lit, rec: Record, left: bool) {
    env.resolve(path).Ok? &&
    var col := env.resolve(path).value;
    var x, y := rec.at(col.soql), LitVal(org, lit, col.sfType);
    if left then Holds(op, x, y) else Holds(op, y, x)
  }

  // ---------------------------------------------------------------- what the org is asked

  /** What is sent of a literal: a datetime without its milliseconds. */
  function SentVal(org: Org, lit: Lit, t: string): Val {
    match LitVal(org, lit, t)
    case MomentVal(y, m, d, h, i, s, _) => MomentVal(y, m, d, h, i, s, 0)
    case v => v
  }

  /** A column against an operand as the org is asked: whether the field has a value, when the
      operand is a parameter with NULL bound to it and the operator orders. */
  predicate SentCompare(env: Env, org: Org, path: seq<string>, op: S.CmpOp, o: Operand, params: seq<Lit>, rec: Record) {
    env.resolve(path).Ok? &&
    var col := env.resolve(path).value;
    var lit := LitOf(o, params);
    if lit.kind == NullLit && op != S.Eq && op != S.Ne then o.Param? && !rec.at(col.soql).Missing?
    else Holds(op, rec.at(col.soql), SentVal(org, lit, col.sfType))
  }

  predicate SentLike(org: Org, val: Val, lit: Lit, t: string) {
    LikeHolds(org, val, if lit.kind == NullLit then Words("null") else LitVal(org, lit, t))
  }

  /** What the org is asked about a record when a condition is sent: its meaning, save in a
      comparison with a datetime that has milliseconds, in one that orders a bound NULL, and
      after LIKE in place of a pattern. */
  predicate SentMeaning(env: Env, org: Org, e: Expr, params: seq<Lit>, rec: Record) {
    match e
    case And(l, r) => SentMeaning(env, org, l, params, rec) && SentMeaning(env, org, r, params, rec)
    case Or(l, r) => SentMeaning(env, org, l, params, rec) || SentMeaning(env, org, r, params, rec)
    case Not(a) => !SentMeaning(env, org, a, params, rec)
    case Compare(op, a, b) =>
      if a.Column? then SentCompare(env, org, a.path, op, b, params, rec)
      else if b.Column? then SentCompare(env, org, b.path, Flip(op), a, params, rec)
      else LitHolds(env, LitOf(a, params), op, LitOf(b, params))
    case IsNull(_, _) => Meaning(env, org, e, params, rec)
    case Like(a, b, negated) =>
      a.Column? && env.resolve(a.path).Ok? &&
      var col := env.resolve(a.path).value;
      SentLike(org, rec.at(col.soql), LitOf(b, params), col.sfType) != negated
    case In(a, list, negated) =>
      a.Column? && env.resolve(a.path).Ok? &&
      var col := env.resolve(a.path).value;
      (exists i :: 0 <= i < |list| &&
                   Same(rec.at(col.soql), SentVal(org, LitOf(list[i], params), col.sfType))) != negated
  }

  // ---------------------------------------------------------------- the compiled tree

  datatype Piece = Known(v: S.Value) | Slot(slot: ParamSlot)

  datatype Compiled = Decided(value: bool) | Condition(tree: S.Tree<Piece>)

  function PieceOf(env: Env, o: Operand, col: Field): Result<Piece> {
    match o
    case Column(_) => Err("42000")
    case Param(i) => Ok(Slot(ParamSlot(i, col)))
    case Literal(lit) =>
      var v :- SoqlValue(env, lit, col.sfType);
      Ok(Known(v))
  }

  function PiecesOf(env: Env, list: seq<Operand>, col: Field): Result<seq<Piece>> {
    if list == [] then Ok([])
    else
      var p :- PieceOf(env, list[0], col);
      var ps :- PiecesOf(env, list[1..], col);
      Ok([p] + ps)
  }

  function CompileCompare(env: Env, op0: S.CmpOp, a0: Operand, b0: Operand): Result<Compiled> {
    var swap := !a0.Column? && b0.Column?;
    var a, b, op := if swap then b0 else a0, if swap then a0 else b0, if swap then Flip(op0) else op0;
    if !a.Column? then
      if a.Param? || b.Param? then Err("42000") else Ok(Decided(FoldCompare(env, a.lit, op, b.lit)))
    else
      var col :- env.resolve(a.path);
      if b.Literal? && b.lit.kind == NullLit && op != S.Eq && op != S.Ne then Ok(Decided(false))
      else
        var p :- PieceOf(env, b, col);
        Ok(Condition(S.Compare(col.soql, op, p)))
  }

  function CompileJoin(isAnd: bool, l: Compiled, r: Compiled): Compiled {
    if l.Decided? && r.Decided? then Decided(if isAnd then l.value && r.value else l.value || r.value)
    else if l.Decided? then (if l.value == isAnd then r else l)
    else if r.Decided? then (if r.value == isAnd then l else r)
    else Condition(if isAnd then S.And(l.tree, r.tree) else S.Or(l.tree, r.tree))
  }

  /** The condition the template stands for. */
  function Compile(env: Env, e: Expr): Result<Compiled> {
    match e
    case And(l, r) =>
      var x :- Compile(env, l);
      var y :- Compile(env, r);
      Ok(CompileJoin(true, x, y))
    case Or(l, r) =>
      var x :- Compile(env, l);
      var y :- Compile(env, r);
      Ok(CompileJoin(false, x, y))
    case Not(a) =>
      var x :- Compile(env, a);
      Ok(match x case Decided(v) => Decided(!v) case Condition(t) => Condition(S.Not(t)))
    case Compare(op, a, b) => CompileCompare(env, op, a, b)
    case IsNull(a, negated) =>
      if a.Literal? then Ok(Decided((a.lit.kind == NullLit) != negated))
      else if a.Param? then Err("42000")
      else
        var col :- env.resolve(a.path);
        Ok(Condition(S.Compare(col.soql, if negated then S.Ne else S.Eq, Known(S.Null))))
    case Like(a, b, negated) =>
      if !a.Column? then Err("42000")
      else
        var col :- env.resolve(a.path);
        var p :- PieceOf(env, b, col);
        var like := S.Like(col.soql, p);
        Ok(Condition(if negated then S.Not(like) else like))
    case In(a, list, negated) =>
      if !a.Column? then Err("42000")
      else
        var col :- env.resolve(a.path);
        var ps :- PiecesOf(env, list, col);
        Ok(Condition(if negated then S.NotIn(col.soql, ps) else S.In(col.soql, ps)))
  }

  predicate Folded(env: Env, e: Expr) {
    Compile(env, e).Ok? && Compile(env, e).value.Decided?
  }

  function BindPiece(env: Env, p: Piece, params: seq<Lit>): Result<S.Value> {
    match p
    case Known(v) => Ok(v)
    case Slot(slot) =>
      if slot.index >= |params| then Err("07002")
      else SoqlValue(env, params[slot.index], slot.field.sfType)
  }

  function BindPieces(env: Env, ps: seq<Piece>, params: seq<Lit>): (r: Result<seq<S.Value>>)
    ensures r.Ok? ==> |r.value| == |ps|
  {
    if ps == [] then Ok([])
    else
      var v :- BindPiece(env, ps[0], params);
      var vs :- BindPieces(env, ps[1..], params);
      Ok([v] + vs)
  }

  function Bind(env: Env, t: S.Tree<Piece>, params: seq<Lit>): (r: Result<S.Tree<S.Value>>)
    ensures r.Ok? && S.Listed(t) ==> S.Listed(r.value)
  {
    match t
    case And(l, r) =>
      var x :- Bind(env, l, params);
      var y :- Bind(env, r, params);
      Ok(S.And(x, y))
    case Or(l, r) =>
      var x :- Bind(env, l, params);
      var y :- Bind(env, r, params);
      Ok(S.Or(x, y))
    case Not(a) =>
      var x :- Bind(env, a, params);
      Ok(S.Not(x))
    case Compare(f, op, p) =>
      var v :- BindPiece(env, p, params);
      Ok(S.Compare(f, op, v))
    case Like(f, p) =>
      var v :- BindPiece(env, p, params);
      Ok(S.Like(f, v))
    case In(f, ps) =>
      var vs :- BindPieces(env, ps, params);
      Ok(S.In(f, vs))
    case NotIn(f, ps) =>
      var vs :- BindPieces(env, ps, params);
      Ok(S.NotIn(f, vs))
  }

  /** IN lists are never empty, as the parser guarantees. */
  predicate Lists(e: Expr) {
    match e
    case And(l, r) => Lists(l) && Lists(r)
    case Or(l, r) => Lists(l) && Lists(r)
    case Not(a) => Lists(a)
    case In(_, list, _) => list != []
    case _ => true
  }
}
