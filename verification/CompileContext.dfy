/** The compiler's state while it renders a condition (src/sql_plan.cpp): the table of parameters,
    which describes each `?` to the application, grows as the fragments are produced. */
module CompileContext {
  import opened Wrappers
  import opened Sql
  import opened SqlPlan
  import S = Soql

  /** The table after a parameter has been met: long enough for its index, its entry filled. */
  function Noted(table: seq<Option<ParamSlot>>, slot: ParamSlot): seq<Option<ParamSlot>> {
    var longer := if |table| <= slot.index then table + seq(slot.index + 1 - |table|, _ => None) else table;
    longer[slot.index := Some(slot)]
  }

  function NotedAll(table: seq<Option<ParamSlot>>, slots: seq<ParamSlot>): seq<Option<ParamSlot>>
    decreases slots
  {
    if slots == [] then table else NotedAll(Noted(table, slots[0]), slots[1..])
  }

  /** The parameters of an operand compared with column `col`. */
  function OperandSlots(o: Operand, col: Field): seq<ParamSlot> {
    if o.Param? then [ParamSlot(o.index, col)] else []
  }

  function ListSlots(list: seq<Operand>, col: Field): seq<ParamSlot> {
    if list == [] then [] else OperandSlots(list[0], col) + ListSlots(list[1..], col)
  }

  function ColumnSlots(env: Env, c: Operand, list: seq<Operand>): seq<ParamSlot> {
    if c.Column? && env.resolve(c.path).Ok? then ListSlots(list, env.resolve(c.path).value) else []
  }

  /** The parameters of a condition in the order the compiler meets them, folded away or not. */
  function Slots(env: Env, e: Expr): seq<ParamSlot> {
    match e
    case And(l, r) => Slots(env, l) + Slots(env, r)
    case Or(l, r) => Slots(env, l) + Slots(env, r)
    case Not(a) => Slots(env, a)
    case Compare(_, a, b) => if a.Column? then ColumnSlots(env, a, [b]) else ColumnSlots(env, b, [a])
    case Like(a, b, _) => ColumnSlots(env, a, [b])
    case In(a, list, _) => ColumnSlots(env, a, list)
    case IsNull(_, _) => []
  }

  lemma {:induction false} NotedBoth(table: seq<Option<ParamSlot>>, a: seq<ParamSlot>, b: seq<ParamSlot>)
    ensures NotedAll(table, a + b) == NotedAll(NotedAll(table, a), b)
    decreases a
  {
    if a == [] {
      assert a + b == b;
    } else {
      NotedBoth(Noted(table, a[0]), a[1..], b);
      assert (a + b)[1..] == a[1..] + b;
    }
  }

  lemma NotedOne(table: seq<Option<ParamSlot>>, slot: ParamSlot)
    ensures NotedAll(table, [slot]) == Noted(table, slot)
  {
    assert NotedAll(Noted(table, slot), []) == Noted(table, slot);
  }

  /** Two fragments around `mid`, in parentheses. */
  function Around(l: seq<Part>, mid: string, r: seq<Part>): seq<Part> {
    [Chars("(")] + l + [Chars(mid)] + r + [Chars(")")]
  }

  class Ctx {
    const env: Env
    var params: seq<Option<ParamSlot>>

    constructor (env: Env)
      ensures this.env == env && params == []
    {
      this.env := env;
      params := [];
    }

    method ReadValue(o: Operand, col: Field) returns (r: Result<Part>)
      modifies this
      ensures r == ValuePart(env, o, col)
      ensures params == NotedAll(old(params), OperandSlots(o, col))
    {
      match o {
        case Column(_) =>
          r := Err("42000");
        case Param(i) =>
          var slot := ParamSlot(i, col);
          NotedOne(params, slot);
          if |params| <= i { params := params + seq(i + 1 - |params|, _ => None); }
          params := params[i := Some(slot)];
          r := Ok(Hole(slot));
        case Literal(lit) =>
          var s := SoqlLiteral(env, lit, col.sfType);
          r := if s.Ok? then Ok(Chars(s.value)) else Err(s.state);
      }
    }

    /** The values of an IN list, separated by commas. */
    method ReadValues(list: seq<Operand>, col: Field) returns (r: Result<seq<Part>>)
      modifies this
      ensures r == ValueParts(env, list, col)
      ensures r.Ok? ==> params == NotedAll(old(params), ListSlots(list, col))
    {
      hide ValuePart, OperandSlots;
      var parts: seq<Part>, i := [], 0;
      assert list[0..] == list;
      GatheredAll(ValueParts(env, list, col));
      while i < |list|
        invariant i <= |list| && (i == 0 ==> parts == [])
        invariant ValueParts(env, list, col) == Gathered(i, parts, ValueParts(env, list[i..], col))
        invariant NotedAll(params, ListSlots(list[i..], col)) == NotedAll(old(params), ListSlots(list, col))
      {
        assert list[i..][1..] == list[i + 1..];
        NotedBoth(params, OperandSlots(list[i], col), ListSlots(list[i + 1..], col));
        var p := ReadValue(list[i], col);
        if p.Err? { return Err(p.state); }
        GatheredStep(i, parts, p.value, ValueParts(env, list[i + 1..], col));
        if i > 0 { parts := parts + [Chars(",")]; }
        parts := parts + [p.value];
        i := i + 1;
      }
      assert list[i..] == [] && parts + [] == parts;
      r := Ok(parts);
    }

    method RenderCondition(e: Expr) returns (r: Result<Frag>)
      modifies this
      ensures r == Render(env, e)
      ensures r.Ok? ==> params == NotedAll(old(params), Slots(env, e))
      decreases e, 1
    {
      match e {
        case And(_, _) =>
          r := RenderBoth(e);
        case Or(_, _) =>
          r := RenderBoth(e);
        case Not(arg) =>
          r := RenderCondition(arg);
          if r.Ok? {
            if r.value.Const? { r := Ok(Const(!r.value.value)); }
            else { r := Ok(Text([Chars("(NOT ")] + r.value.parts + [Chars(")")])); }
          }
        case Compare(op, a, b) =>
          r := ReadCompare(op, a, b);
        case _ =>
          r := ReadTest(e);
      }
    }

    method RenderBoth(e: Expr) returns (r: Result<Frag>)
      requires e.And? || e.Or?
      modifies this
      ensures r == Render(env, e)
      ensures r.Ok? ==> params == NotedAll(old(params), Slots(env, e))
      decreases e, 0
    {
      NotedBoth(params, Slots(env, e.left), Slots(env, e.right));
      var isAnd := e.And?;
      r := RenderCondition(e.left);
      if r.Err? { return; }
      var l := r.value;
      r := RenderCondition(e.right);
      if r.Err? { return; }
      if l.Const? && r.value.Const? {
        r := Ok(Const(if isAnd then l.value && r.value.value else l.value || r.value.value));
      } else if l.Const? {
        if l.value != isAnd { r := Ok(Const(l.value)); }
      } else if r.value.Const? {
        r := Ok(if r.value.value == isAnd then l else Const(r.value.value));
      } else {
        r := Ok(Text(Around(l.parts, if isAnd then " AND " else " OR ", r.value.parts)));
      }
    }

    method ReadCompare(op0: S.CmpOp, a0: Operand, b0: Operand) returns (r: Result<Frag>)
      modifies this
      ensures r == RenderCompare(env, op0, a0, b0)
      ensures r.Ok? ==> params == NotedAll(old(params), Slots(env, Compare(op0, a0, b0)))
    {
      hide ValuePart, FoldCompare;
      var a, b, op := a0, b0, op0;
      if !a.Column? && b.Column? { a, b, op := b, a, Flip(op); }
      if !a.Column? {
        if a.Param? || b.Param? { return Err("42000"); }
        return Ok(Const(FoldCompare(env, a.lit, op, b.lit)));
      }
      var col := env.resolve(a.path);
      if col.Err? { return Err(col.state); }
      OneListed(b, col.value);
      if b.Literal? && b.lit.kind == NullLit {
        if op == S.Eq || op == S.Ne { return Ok(Text([Chars(col.value.soql + " " + S.OpText(op) + " null")])); }
        return Ok(Const(false));
      }
      var v := ReadValue(b, col.value);
      if v.Err? { return Err(v.state); }
      return Ok(Text([Chars(col.value.soql + " " + S.OpText(op) + " "), v.value]));
    }

    /** IS NULL, LIKE and IN. */
    method ReadTest(e: Expr) returns (r: Result<Frag>)
      requires e.IsNull? || e.Like? || e.In?
      modifies this
      ensures r == Render(env, e)
      ensures r.Ok? ==> params == NotedAll(old(params), Slots(env, e))
    {
      hide ValuePart, ValueParts;
      if e.IsNull? && e.a.Literal? { return Ok(Const((e.a.lit.kind == NullLit) != e.negated)); }
      if !e.a.Column? { return Err("42000"); }
      var col := env.resolve(e.a.path);
      if col.Err? { return Err(col.state); }
      var f := col.value.soql;
      if e.IsNull? {
        r := Ok(Text([Chars(f + (if e.negated then " != null" else " = null"))]));
      } else if e.Like? {
        OneListed(e.b, col.value);
        var v := ReadValue(e.b, col.value);
        if v.Err? { return Err(v.state); }
        r := Ok(Text([Chars((if e.negated then "(NOT " else "") + f + " LIKE "), v.value] +
                     (if e.negated then [Chars(")")] else [])));
      } else {
        var vs := ReadValues(e.list, col.value);
        if vs.Err? { return Err(vs.state); }
        r := Ok(Text([Chars(f + (if e.negated then " NOT IN (" else " IN ("))] + vs.value + [Chars(")")]));
      }
    }
  }

  lemma OneListed(o: Operand, col: Field)
    ensures ListSlots([o], col) == OperandSlots(o, col)
  {
  }

  /** Values that `parts`, the first `i` of a list, come before. */
  function Gathered(i: nat, parts: seq<Part>, rest: Result<seq<Part>>): Result<seq<Part>> {
    if rest.Err? then rest
    else Ok(parts + (if i > 0 && rest.value != [] then [Chars(",")] + rest.value else rest.value))
  }

  lemma GatheredAll(rest: Result<seq<Part>>)
    ensures Gathered(0, [], rest) == rest
  {
    if rest.Ok? { assert [] + rest.value == rest.value; }
  }

  lemma GatheredStep(i: nat, parts: seq<Part>, p: Part, rest: Result<seq<Part>>)
    ensures rest.Ok? ==>
              Gathered(i, parts, Ok([p] + (if rest.value == [] then [] else [Chars(",")] + rest.value))) ==
              Gathered(i + 1, (if i > 0 then parts + [Chars(",")] else parts) + [p], rest)
  {
    if rest.Ok? {
      var tail := if rest.value == [] then [] else [Chars(",")] + rest.value;
      assert parts + ([p] + tail) == (parts + [p]) + tail;
      assert parts + ([Chars(",")] + ([p] + tail)) == ((parts + [Chars(",")]) + [p]) + tail;
      assert (parts + [p]) + [] == parts + [p];
      assert ((parts + [Chars(",")]) + [p]) + [] == (parts + [Chars(",")]) + [p];
    }
  }
}
