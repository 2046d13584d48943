/** What the compiler's table of parameters says of the template it belongs to: it describes every
    hole, save where a `?` before BETWEEN is compared with two different columns
    (src/sql_plan.cpp:110-120, src/sql_parser.cpp:372-382). */
module ParameterTable {
  import opened Wrappers
  import opened Sql
  import opened SqlPlan
  import opened CompileContext
  import opened ParsedTree
  import S = Soql

  // ---------------------------------------------------------------- holes and slots

  /** A slot is among those of a fragment. */
  predicate HoleIn(slot: ParamSlot, frag: Frag) {
    frag.Text? && Hole(slot) in frag.parts
  }

  lemma {:induction false} ListHoles(env: Env, list: seq<Operand>, col: Field, slot: ParamSlot)
    requires ValueParts(env, list, col).Ok? && Hole(slot) in ValueParts(env, list, col).value
    ensures slot in ListSlots(list, col)
  {
    if list != [] {
      var rest := ValueParts(env, list[1..], col).value;
      if Hole(slot) in rest { ListHoles(env, list[1..], col, slot); }
    }
  }

  lemma {:induction false} HolesMet(env: Env, e: Expr, slot: ParamSlot)
    requires Render(env, e).Ok? && HoleIn(slot, Render(env, e).value)
    ensures slot in Slots(env, e)
  {
    hide FoldCompare, SoqlLiteral;
    match e
    case And(l, r) =>
      JoinHoles(true, Render(env, l).value, Render(env, r).value, slot);
      if HoleIn(slot, Render(env, l).value) { HolesMet(env, l, slot); } else { HolesMet(env, r, slot); }
    case Or(l, r) =>
      JoinHoles(false, Render(env, l).value, Render(env, r).value, slot);
      if HoleIn(slot, Render(env, l).value) { HolesMet(env, l, slot); } else { HolesMet(env, r, slot); }
    case Not(a) => HolesMet(env, a, slot);
    case In(a, list, _) => ListHoles(env, list, env.resolve(a.path).value, slot);
    case _ =>
  }

  lemma JoinHoles(isAnd: bool, l: Frag, r: Frag, slot: ParamSlot)
    requires HoleIn(slot, Join(isAnd, l, r))
    ensures HoleIn(slot, l) || HoleIn(slot, r)
  {
  }

  /** The table holds, at each index, the last parameter met with that index, or nothing. */
  lemma {:induction false} TableHoldsLast(table: seq<Option<ParamSlot>>, slots: seq<ParamSlot>, k: nat)
    requires k < |slots| && forall j :: k < j < |slots| ==> slots[j].index != slots[k].index
    ensures slots[k].index < |NotedAll(table, slots)|
    ensures NotedAll(table, slots)[slots[k].index] == Some(slots[k])
    decreases slots
  {
    if k > 0 {
      TableHoldsLast(Noted(table, slots[0]), slots[1..], k - 1);
    } else {
      EntryStays(Noted(table, slots[0]), slots[1..], slots[0].index);
    }
  }

  lemma {:induction false} EntryStays(table: seq<Option<ParamSlot>>, slots: seq<ParamSlot>, i: nat)
    requires i < |table| && forall j :: 0 <= j < |slots| ==> slots[j].index != i
    ensures i < |NotedAll(table, slots)| && NotedAll(table, slots)[i] == table[i]
    decreases slots
  {
    if slots != [] { EntryStays(Noted(table, slots[0]), slots[1..], i); }
  }

  /** The table gives the hole its own column. */
  predicate Described(table: seq<Option<ParamSlot>>, slot: ParamSlot) {
    slot.index < |table| && table[slot.index] == Some(slot)
  }

  lemma {:induction false} LastOf(slots: seq<ParamSlot>, i: nat) returns (k: nat)
    requires exists j :: 0 <= j < |slots| && slots[j].index == i
    ensures k < |slots| && slots[k].index == i
    ensures forall j :: k < j < |slots| ==> slots[j].index != i
  {
    k := |slots| - 1;
    while slots[k].index != i
      invariant k < |slots| && forall j :: k < j < |slots| ==> slots[j].index != i
      decreases k
    {
      k := k - 1;
    }
  }

  // ---------------------------------------------------------------- numbers

  predicate Numbered(slots: seq<ParamSlot>, n: nat, m: nat) {
    forall i :: 0 <= i < |slots| ==> n <= slots[i].index < m
  }

  lemma NumberedBoth(a: seq<ParamSlot>, b: seq<ParamSlot>, n: nat, m: nat, k: nat)
    requires Numbered(a, n, m) && Numbered(b, m, k) && n <= m <= k
    ensures Numbered(a + b, n, k)
  {
  }

  lemma OperandNumbered(o: Operand, col: Field, n: nat)
    requires OperandEnd(o, n).Some?
    ensures Numbered(OperandSlots(o, col), n, OperandEnd(o, n).value)
  {
  }

  lemma {:induction false} ListNumbered(list: seq<Operand>, col: Field, n: nat)
    requires ListEnd(list, n).Some?
    ensures Numbered(ListSlots(list, col), n, ListEnd(list, n).value)
  {
    if list != [] {
      var m := OperandEnd(list[0], n).value;
      OperandNumbered(list[0], col, n);
      ListNumbered(list[1..], col, m);
      NumberedBoth(OperandSlots(list[0], col), ListSlots(list[1..], col), n, m, ListEnd(list, n).value);
    }
  }

  lemma PairNumbered(env: Env, a: Operand, b: Operand, n: nat)
    requires PairEnd(a, b, n).Some?
    ensures Numbered(ColumnSlots(env, a, [b]), n, PairEnd(a, b, n).value)
    ensures Numbered(ColumnSlots(env, b, [a]), n, PairEnd(a, b, n).value)
  {
    if a.Column? && env.resolve(a.path).Ok? { OneListed(b, env.resolve(a.path).value); }
    if b.Column? && env.resolve(b.path).Ok? { OneListed(a, env.resolve(b.path).value); }
  }

  lemma BetweenSlots(env: Env, e: Expr, n: nat)
    requires MarkBetween(e) && NumberEnd(e, n).Some?
    ensures Numbered(Slots(env, e), n, NumberEnd(e, n).value)
  {
    hide ColumnSlots;
    var a, lo, hi := e.left.a, e.left.b, e.right.b;
    PairNumbered(env, a, lo, n);
    MarkNumbered(env, a, hi, n);
    assert Slots(env, e) == ColumnSlots(env, lo, [a]) + ColumnSlots(env, hi, [a]);
  }

  lemma MarkNumbered(env: Env, a: Operand, c: Operand, n: nat)
    requires OperandEnd(a, n).Some?
    ensures Numbered(ColumnSlots(env, c, [a]), n, OperandEnd(a, n).value)
  {
    if c.Column? && env.resolve(c.path).Ok? { OneListed(a, env.resolve(c.path).value); }
  }

  /** The parameters a condition notes have its numbers. */
  lemma {:induction false} SlotsNumbered(env: Env, e: Expr, n: nat)
    requires NumberEnd(e, n).Some?
    ensures Numbered(Slots(env, e), n, NumberEnd(e, n).value)
  {
    hide Numbered, ColumnSlots;
    match e
    case And(l, r) =>
      if MarkBetween(e) {
        BetweenSlots(env, e, n);
      } else {
        SlotsNumbered(env, l, n);
        SlotsNumbered(env, r, NumberEnd(l, n).value);
        NumberedBoth(Slots(env, l), Slots(env, r), n, NumberEnd(l, n).value, NumberEnd(e, n).value);
      }
    case Or(l, r) =>
      SlotsNumbered(env, l, n);
      SlotsNumbered(env, r, NumberEnd(l, n).value);
      NumberedBoth(Slots(env, l), Slots(env, r), n, NumberEnd(l, n).value, NumberEnd(e, n).value);
    case Not(a) => SlotsNumbered(env, a, n);
    case Compare(_, a, b) => PairNumbered(env, a, b, n);
    case Like(a, b, _) => PairNumbered(env, a, b, n);
    case In(a, list, _) => InNumbered(env, a, list, n);
    case IsNull(_, _) => NoneNumbered(n, NumberEnd(e, n).value);
  }

  lemma InNumbered(env: Env, a: Operand, list: seq<Operand>, n: nat)
    requires OperandEnd(a, n).Some? && ListEnd(list, OperandEnd(a, n).value).Some?
    ensures Numbered(ColumnSlots(env, a, list), n, ListEnd(list, OperandEnd(a, n).value).value)
  {
    if a.Column? && env.resolve(a.path).Ok? { ListNumbered(list, env.resolve(a.path).value, n); }
  }

  lemma NoneNumbered(n: nat, m: nat)
    ensures Numbered([], n, m)
  {
  }

  // ---------------------------------------------------------------- one column for each mark

  predicate FoldedAway(env: Env, e: Expr) {
    Render(env, e).Ok? && Render(env, e).value.Const?
  }

  /** Every `? BETWEEN lo AND hi` that is sent has two columns that resolve alike. */
  predicate BoundsAgree(env: Env, e: Expr) {
    FoldedAway(env, e) ||
    if MarkBetween(e) then
      e.left.b.Column? && e.right.b.Column? ==> env.resolve(e.left.b.path) == env.resolve(e.right.b.path)
    else
      match e
      case And(l, r) => BoundsAgree(env, l) && BoundsAgree(env, r)
      case Or(l, r) => BoundsAgree(env, l) && BoundsAgree(env, r)
      case Not(a) => BoundsAgree(env, a)
      case _ => true
  }

  lemma {:induction false} ListFields(list: seq<Operand>, col: Field, slot: ParamSlot)
    requires slot in ListSlots(list, col)
    ensures slot.field == col
  {
    if slot !in OperandSlots(list[0], col) { ListFields(list[1..], col, slot); }
  }

  lemma ColumnFields(env: Env, c: Operand, list: seq<Operand>, s: ParamSlot, t: ParamSlot)
    requires s in ColumnSlots(env, c, list) && t in ColumnSlots(env, c, list) && s.index == t.index
    ensures s == t
  {
    ListFields(list, env.resolve(c.path).value, s);
    ListFields(list, env.resolve(c.path).value, t);
  }

  /** The two holes a `? BETWEEN lo AND hi` becomes. */
  lemma BetweenHoles(env: Env, e: Expr) returns (lo: ParamSlot, hi: ParamSlot)
    requires MarkBetween(e) && Render(env, e).Ok?
    ensures e.left.b.Column? && e.right.b.Column?
    ensures env.resolve(e.left.b.path) == Ok(lo.field) && env.resolve(e.right.b.path) == Ok(hi.field)
    ensures lo.index == hi.index == e.left.a.index
    ensures HoleIn(lo, Render(env, e).value) && HoleIn(hi, Render(env, e).value)
    ensures Slots(env, e) == [lo, hi]
  {
    lo := MarkHole(env, S.Ge, e.left.a, e.left.b);
    hi := MarkHole(env, S.Le, e.right.a, e.right.b);
    hide RenderCompare, ColumnSlots;
    var l, r := Render(env, e.left).value, Render(env, e.right).value;
    JoinKeepsHole(true, l, r, lo);
    JoinKeepsHole(true, l, r, hi);
  }

  lemma MarkHole(env: Env, op: S.CmpOp, a: Operand, c: Operand) returns (slot: ParamSlot)
    requires a.Param? && Render(env, Compare(op, a, c)).Ok?
    ensures c.Column? && env.resolve(c.path) == Ok(slot.field) && slot.index == a.index
    ensures HoleIn(slot, Render(env, Compare(op, a, c)).value)
    ensures Slots(env, Compare(op, a, c)) == [slot]
  {
    hide S.OpText;
    slot := ParamSlot(a.index, env.resolve(c.path).value);
    OneListed(a, slot.field);
    assert Render(env, Compare(op, a, c)).value.parts[1] == Hole(slot);
  }

  /** A hole of either side is a hole of the whole, unless the whole is a constant. */
  lemma JoinKeepsHole(isAnd: bool, l: Frag, r: Frag, slot: ParamSlot)
    requires HoleIn(slot, l) || HoleIn(slot, r)
    requires Join(isAnd, l, r).Text?
    ensures HoleIn(slot, Join(isAnd, l, r))
  {
  }

  lemma SideOf(env: Env, l: Expr, r: Expr, n: nat, m: nat, k: nat, s: ParamSlot, t: ParamSlot)
    requires NumberEnd(l, n) == Some(m) && NumberEnd(r, m) == Some(k)
    requires s.index == t.index && t in Slots(env, l) + Slots(env, r)
    ensures s in Slots(env, l) ==> t in Slots(env, l)
    ensures s in Slots(env, r) ==> t in Slots(env, r)
  {
    SlotsNumbered(env, l, n);
    SlotsNumbered(env, r, m);
    hide Slots, NumberEnd;
  }

  /** Where the columns agree, a hole is the only parameter with its index. */
  lemma {:induction false} HoleUnique(env: Env, e: Expr, n: nat, s: ParamSlot, t: ParamSlot)
    requires NumberEnd(e, n).Some? && Render(env, e).Ok? && BoundsAgree(env, e)
    requires HoleIn(s, Render(env, e).value) && t in Slots(env, e) && s.index == t.index
    ensures s == t
    decreases e, 1
  {
    hide HoleIn, ColumnSlots, Join, RenderCompare, ValuePart, ValueParts;
    NotFolded(env, e, s);
    HolesMet(env, e, s);
    if MarkBetween(e) {
      var lo, hi := BetweenHoles(env, e);
    } else {
      match e
      case And(l, r) => JoinUnique(env, e, n, s, t);
      case Or(l, r) => JoinUnique(env, e, n, s, t);
      case Not(a) =>
        NotHoles(env, a, s);
        HoleUnique(env, a, n, s, t);
      case Compare(_, a, b) =>
        if a.Column? { ColumnFields(env, a, [b], s, t); } else { ColumnFields(env, b, [a], s, t); }
      case Like(a, b, _) => ColumnFields(env, a, [b], s, t);
      case In(a, list, _) => ColumnFields(env, a, list, s, t);
      case IsNull(_, _) =>
    }
  }

  lemma NotFolded(env: Env, e: Expr, s: ParamSlot)
    requires Render(env, e).Ok? && HoleIn(s, Render(env, e).value)
    ensures !FoldedAway(env, e)
  {
  }

  lemma NotHoles(env: Env, a: Expr, s: ParamSlot)
    requires Render(env, Not(a)).Ok?
    ensures Render(env, a).Ok? && (HoleIn(s, Render(env, Not(a)).value) <==> HoleIn(s, Render(env, a).value))
  {
    hide RenderCompare;
  }

  lemma {:induction false} JoinUnique(env: Env, e: Expr, n: nat, s: ParamSlot, t: ParamSlot)
    requires e.And? || e.Or?
    requires NumberEnd(e.left, n).Some? && NumberEnd(e.right, NumberEnd(e.left, n).value).Some?
    requires Render(env, e.left).Ok? && Render(env, e.right).Ok? && BoundsAgree(env, e.left) &&
             BoundsAgree(env, e.right)
    requires HoleIn(s, Join(e.And?, Render(env, e.left).value, Render(env, e.right).value))
    requires t in Slots(env, e.left) + Slots(env, e.right) && s.index == t.index
    ensures s == t
    decreases e, 0
  {
    hide HoleIn, Join, BoundsAgree, NumberEnd, Slots, Render;
    var l, r := e.left, e.right;
    JoinHoles(e.And?, Render(env, l).value, Render(env, r).value, s);
    var m := NumberEnd(l, n).value;
    SideOf(env, l, r, n, m, NumberEnd(r, m).value, s, t);
    if HoleIn(s, Render(env, l).value) {
      HolesMet(env, l, s);
      HoleUnique(env, l, n, s, t);
    } else {
      HolesMet(env, r, s);
      HoleUnique(env, r, m, s, t);
    }
  }

  /** Where they do not, two holes share an index. */
  lemma {:induction false} HolesShare(env: Env, e: Expr) returns (s: ParamSlot, t: ParamSlot)
    requires Render(env, e).Ok? && !BoundsAgree(env, e)
    ensures HoleIn(s, Render(env, e).value) && HoleIn(t, Render(env, e).value)
    ensures s.index == t.index && s != t
  {
    hide HoleIn, RenderCompare, ValuePart, ValueParts;
    if MarkBetween(e) {
      s, t := BetweenHoles(env, e);
    } else {
      match e
      case And(l, r) =>
        if !BoundsAgree(env, l) { s, t := HolesShare(env, l); } else { s, t := HolesShare(env, r); }
        JoinKeepsHole(true, Render(env, l).value, Render(env, r).value, s);
        JoinKeepsHole(true, Render(env, l).value, Render(env, r).value, t);
      case Or(l, r) =>
        if !BoundsAgree(env, l) { s, t := HolesShare(env, l); } else { s, t := HolesShare(env, r); }
        JoinKeepsHole(false, Render(env, l).value, Render(env, r).value, s);
        JoinKeepsHole(false, Render(env, l).value, Render(env, r).value, t);
      case Not(a) =>
        s, t := HolesShare(env, a);
        NotHoles(env, a, s);
        NotHoles(env, a, t);
      case _ =>
    }
  }

  // ---------------------------------------------------------------- the table

  ghost predicate AllDescribed(env: Env, e: Expr)
    requires Render(env, e).Ok?
  {
    forall slot :: HoleIn(slot, Render(env, e).value) ==> Described(NotedAll([], Slots(env, e)), slot)
  }

  /** No two holes have one parameter and different columns. */
  ghost predicate OneColumnEach(env: Env, e: Expr)
    requires Render(env, e).Ok?
  {
    forall s, t :: HoleIn(s, Render(env, e).value) && HoleIn(t, Render(env, e).value) && s.index == t.index ==> s == t
  }

  lemma HoleDescribed(env: Env, e: Expr, n: nat, slot: ParamSlot)
    requires NumberEnd(e, n).Some? && Render(env, e).Ok? && BoundsAgree(env, e)
    requires HoleIn(slot, Render(env, e).value)
    ensures Described(NotedAll([], Slots(env, e)), slot)
  {
    hide HoleIn, BoundsAgree, Render, Slots;
    HolesMet(env, e, slot);
    var slots := Slots(env, e);
    var j :| 0 <= j < |slots| && slots[j] == slot;
    var k := LastOf(slots, slot.index);
    HoleUnique(env, e, n, slot, slots[k]);
    TableHoldsLast([], slots, k);
  }

  /** The table describes every hole of the template exactly when every `? BETWEEN lo AND hi` that
      is sent has columns that resolve alike; in other words, when no parameter stands in two
      holes for different columns. */
  lemma TableDescribes(env: Env, e: Expr, n: nat)
    requires NumberEnd(e, n).Some? && Render(env, e).Ok?
    ensures AllDescribed(env, e) <==> BoundsAgree(env, e)
    ensures OneColumnEach(env, e) <==> BoundsAgree(env, e)
  {
    hide HoleIn, BoundsAgree, Render, Slots;
    if BoundsAgree(env, e) {
      forall slot | HoleIn(slot, Render(env, e).value) ensures Described(NotedAll([], Slots(env, e)), slot) {
        HoleDescribed(env, e, n, slot);
      }
      forall s, t | HoleIn(s, Render(env, e).value) && HoleIn(t, Render(env, e).value) && s.index == t.index
        ensures s == t
      {
        HolesMet(env, e, t);
        HoleUnique(env, e, n, s, t);
      }
    } else {
      var s, t := HolesShare(env, e);
    }
  }

  /** `? BETWEEN a AND b` on its own. */
  lemma SharedMark(env: Env, a: seq<string>, b: seq<string>)
    requires env.resolve(a).Ok? && env.resolve(b).Ok?
    ensures var e := And(Compare(S.Ge, Param(0), Column(a)), Compare(S.Le, Param(0), Column(b)));
            Render(env, e).Ok? && (AllDescribed(env, e) <==> env.resolve(a) == env.resolve(b))
  {
    var e := And(Compare(S.Ge, Param(0), Column(a)), Compare(S.Le, Param(0), Column(b)));
    assert NumberEnd(e, 0).Some?;
    assert RenderCompare(env, S.Ge, Param(0), Column(a)).Ok? && RenderCompare(env, S.Le, Param(0), Column(b)).Ok?;
    var lo, hi := BetweenHoles(env, e);
    NotFolded(env, e, lo);
    TableDescribes(env, e, 0);
    hide AllDescribed, Render;
  }
}
