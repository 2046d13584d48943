/** From a WHERE condition to a SOQL template and its text (src/sql_plan.cpp). */
module SqlPlan {
  import opened Wrappers
  import opened Text
  import opened Sql
  import DateTime
  import S = Soql

  // ---------------------------------------------------------------- what the compiler is given

  /** A resolved column: its SOQL path and the Salesforce type of its field. */
  datatype Field = Field(soql: string, sfType: string)

  /** Name resolution against the org's metadata, and the C library's number reader. */
  datatype Env = Env(resolve: seq<string> -> Result<Field>, isNumber: string -> bool, number: string -> real)

  datatype ParamSlot = ParamSlot(index: nat, field: Field)

  datatype Part = Chars(s: string) | Hole(slot: ParamSlot)

  datatype Frag = Const(value: bool) | Text(parts: seq<Part>)

  // ---------------------------------------------------------------- literals

  predicate NumericType(t: string) {
    t == "int" || t == "long" || t == "double" || t == "currency" || t == "percent"
  }

  /** Two texts, each followed by a separator. */
  function Segmented(a: string, x: char, b: string, y: char): string {
    a + [x] + b + [y]
  }

  function MomentText(p: DateTime.Parts): string {
    Segmented(DateTime.FormatDate(p), 'T', DateTime.FormatTime(p), 'Z')
  }

  function ClockText(p: DateTime.Parts): string {
    Segmented(DateTime.FormatTime(p), '.', DateTime.Pad(p.millis, 3), 'Z')
  }

  /** The SOQL value of a literal compared with a field of type `t`. */
  function SoqlValue(env: Env, lit: Lit, t: string): Result<S.Value> {
    if lit.kind == NullLit then Ok(S.Null)
    else if t == "boolean" then
      var v := ToLower(Trim(lit.text));
      if v == "true" || v == "1" then Ok(S.True)
      else if v == "false" || v == "0" then Ok(S.False)
      else Err("22018")
    else if NumericType(t) then
      var v := Trim(lit.text);
      if lit.kind == BoolLit then Ok(S.Num(if v == "true" then "1" else "0"))
      else if v == "" || !env.isNumber(v) then Err("22018")
      else Ok(S.Num(v))
    else if t == "date" || t == "datetime" || t == "time" then
      match DateTime.Parse(lit.text)
      case None => Err("22007")
      case Some(p) =>
        if t == "date" then (if p.hasDate then Ok(S.Day(DateTime.FormatDate(p))) else Err("22007"))
        else if t == "datetime" then (if p.hasDate then Ok(S.Moment(MomentText(p))) else Err("22007"))
        else if p.hasTime then Ok(S.Clock(ClockText(p))) else Err("22007")
    else Ok(S.Str(lit.text))
  }

  function SoqlLiteral(env: Env, lit: Lit, t: string): Result<string> {
    var v :- SoqlValue(env, lit, t);
    Ok(S.ValueText(v))
  }

  // ---------------------------------------------------------------- constant folding

  function FoldCompare(env: Env, a: Lit, op: S.CmpOp, b: Lit): bool {
    if a.kind == NullLit || b.kind == NullLit then false
    else
      var numeric := a.text != "" && b.text != "" && env.isNumber(a.text) && env.isNumber(b.text);
      var cmp :=
        if numeric then
          var x, y := env.number(a.text), env.number(b.text);
          if x < y then -1 else if x > y then 1 else 0
        else TextCompare(a.text, b.text);
      match op
      case Eq => cmp == 0
      case Ne => cmp != 0
      case Lt => cmp < 0
      case Le => cmp <= 0
      case Gt => cmp > 0
      case Ge => cmp >= 0
  }

  function Flip(op: S.CmpOp): S.CmpOp {
    match op
    case Lt => S.Gt
    case Gt => S.Lt
    case Le => S.Ge
    case Ge => S.Le
    case _ => op
  }

  // ---------------------------------------------------------------- rendering

  function ValuePart(env: Env, o: Operand, col: Field): Result<Part> {
    match o
    case Column(_) => Err("42000")
    case Param(i) => Ok(Hole(ParamSlot(i, col)))
    case Literal(lit) =>
      var s :- SoqlLiteral(env, lit, col.sfType);
      Ok(Chars(s))
  }

  function ValueParts(env: Env, list: seq<Operand>, col: Field): Result<seq<Part>> {
    if list == [] then Ok([])
    else
      var p :- ValuePart(env, list[0], col);
      var ps :- ValueParts(env, list[1..], col);
      Ok([p] + (if ps == [] then [] else [Chars(",")] + ps))
  }

  function RenderCompare(env: Env, op0: S.CmpOp, a0: Operand, b0: Operand): Result<Frag> {
    var swap := !a0.Column? && b0.Column?;
    var a, b, op := if swap then b0 else a0, if swap then a0 else b0, if swap then Flip(op0) else op0;
    if !a.Column? then
      if a.Param? || b.Param? then Err("42000") else Ok(Const(FoldCompare(env, a.lit, op, b.lit)))
    else
      var col :- env.resolve(a.path);
      if b.Literal? && b.lit.kind == NullLit then
        if op == S.Eq || op == S.Ne then Ok(Text([Chars(col.soql + " " + S.OpText(op) + " null")]))
        else Ok(Const(false))
      else
        var v :- ValuePart(env, b, col);
        Ok(Text([Chars(col.soql + " " + S.OpText(op) + " "), v]))
  }

  function Render(env: Env, e: Expr): Result<Frag> {
    match e
    case And(_, _) =>
      var l :- Render(env, e.left);
      var r :- Render(env, e.right);
      Ok(Join(true, l, r))
    case Or(_, _) =>
      var l :- Render(env, e.left);
      var r :- Render(env, e.right);
      Ok(Join(false, l, r))
    case Not(arg) =>
      var f :- Render(env, arg);
      Ok(match f
         case Const(v) => Const(!v)
         case Text(parts) => Text([Chars("(NOT ")] + parts + [Chars(")")]))
    case Compare(op, a, b) => RenderCompare(env, op, a, b)
    case IsNull(a, negated) =>
      if a.Literal? then Ok(Const((a.lit.kind == NullLit) != negated))
      else if a.Param? then Err("42000")
      else
        var col :- env.resolve(a.path);
        Ok(Text([Chars(col.soql + (if negated then " != null" else " = null"))]))
    case Like(a, b, negated) =>
      if !a.Column? then Err("42000")
      else
        var col :- env.resolve(a.path);
        var v :- ValuePart(env, b, col);
        Ok(Text([Chars((if negated then "(NOT " else "") + col.soql + " LIKE "), v] +
                (if negated then [Chars(")")] else [])))
    case In(a, list, negated) =>
      if !a.Column? then Err("42000")
      else
        var col :- env.resolve(a.path);
        var vs :- ValueParts(env, list, col);
        Ok(Text([Chars(col.soql + (if negated then " NOT IN (" else " IN ("))] + vs + [Chars(")")]))
  }

  /** AND (`isAnd`) or OR of two rendered conditions; a constant side decides or disappears. */
  function Join(isAnd: bool, l: Frag, r: Frag): Frag {
    if l.Const? && r.Const? then Const(if isAnd then l.value && r.value else l.value || r.value)
    else if l.Const? then (if l.value == isAnd then r else Const(l.value))
    else if r.Const? then (if r.value == isAnd then l else Const(r.value))
    else Text([Chars("(")] + l.parts + [Chars(if isAnd then " AND " else " OR ")] + r.parts + [Chars(")")])
  }

  // ---------------------------------------------------------------- filling the template

  function PartText(env: Env, part: Part, params: seq<Lit>): Result<string> {
    match part
    case Chars(s) => Ok(s)
    case Hole(slot) =>
      if slot.index >= |params| then Err("07002")
      else SoqlLiteral(env, params[slot.index], slot.field.sfType)
  }

  function Fill(env: Env, parts: seq<Part>, params: seq<Lit>): Result<string> {
    if parts == [] then Ok("")
    else
      var s :- PartText(env, parts[0], params);
      var rest :- Fill(env, parts[1..], params);
      Ok(s + rest)
  }

  lemma {:induction false} FillBoth(env: Env, a: seq<Part>, b: seq<Part>, params: seq<Lit>)
    ensures Fill(env, a + b, params) ==
            (match Fill(env, a, params)
             case Err(e) => Err(e)
             case Ok(s) => match Fill(env, b, params)
                           case Err(e) => Err(e)
                           case Ok(t) => Ok(s + t))
  {
    if a == [] {
      assert a + b == b;
      match Fill(env, b, params) case Ok(t) => assert "" + t == t; case Err(_) =>
    } else {
      FillBoth(env, a[1..], b, params);
      assert (a + b)[0] == a[0] && (a + b)[1..] == a[1..] + b;
      match (PartText(env, a[0], params), Fill(env, a[1..], params), Fill(env, b, params))
      case (Ok(x), Ok(y), Ok(z)) => assert x + (y + z) == (x + y) + z;
      case _ =>
    }
  }

  lemma FillStep(env: Env, parts: seq<Part>, k: nat, params: seq<Lit>)
    requires k < |parts| && Fill(env, parts[..k], params).Ok?
    ensures var t := PartText(env, parts[k], params);
            if t.Ok? then Fill(env, parts[..k + 1], params) == Ok(Fill(env, parts[..k], params).value + t.value)
            else Fill(env, parts, params) == Err(t.state)
  {
    assert parts[..k + 1] == parts[..k] + [parts[k]];
    FillBoth(env, parts[..k], [parts[k]], params);
    FillBoth(env, parts[..k + 1], parts[k + 1..], params);
    assert parts == parts[..k + 1] + parts[k + 1..];
    FillOne(env, parts[k], params);
  }

  /** The query text: the template with its holes filled, then the row limit and the offset. */
  method RenderSoql(env: Env, parts: seq<Part>, params: seq<Lit>, planLimit: Option<nat>, offset: Option<nat>,
                    maxRows: nat) returns (r: Result<string>)
    ensures match Fill(env, parts, params)
            case Err(e) => r == Err(e)
            case Ok(s) =>
              var limit := if maxRows > 0 && (planLimit.None? || maxRows < planLimit.value) then Some(maxRows)
                           else planLimit;
              r == Ok(s + (if limit.Some? then " LIMIT " + Decimal(limit.value) else "") +
                      (if offset.Some? then " OFFSET " + Decimal(offset.value) else ""))
  {
    var s := "";
    var k := 0;
    while k < |parts|
      invariant 0 <= k <= |parts| && Fill(env, parts[..k], params) == Ok(s)
    {
      FillStep(env, parts, k, params);
      match parts[k] {
        case Chars(t) =>
          s := s + t;
        case Hole(slot) =>
          if slot.index >= |params| { return Err("07002"); }
          var t := SoqlLiteral(env, params[slot.index], slot.field.sfType);
          if t.Err? { return t; }
          s := s + t.value;
      }
      k := k + 1;
    }
    assert parts[..k] == parts;
    var limit := planLimit;
    if maxRows > 0 && (limit.None? || maxRows < limit.value) { limit := Some(maxRows); }
    if limit.Some? { s := s + (" LIMIT " + Decimal(limit.value)); } else { s := s + ""; }
    if offset.Some? { s := s + (" OFFSET " + Decimal(offset.value)); } else { s := s + ""; }
    r := Ok(s);
  }

  lemma FillOne(env: Env, part: Part, params: seq<Lit>)
    ensures Fill(env, [part], params) == PartText(env, part, params)
  {
    match PartText(env, part, params) case Ok(s) => assert s + "" == s; case Err(_) =>
  }
}
