/** The select list of a query plan (src/sql_plan.cpp, `build_plan`): result columns in the order of
    the items, and the fields to ask the org for, each once. */
module SelectList {
  import opened Wrappers
  import opened Text
  import SqlPlan

  datatype Item = Star | Column(path: seq<string>, alias: string) | CountStar(alias: string) | Literal(alias: string)

  /** A result column: a field and the path its cells are read from, a count, or a constant. */
  datatype ResultColumn =
    FieldColumn(name: string, soql: string) | CountColumn(name: string) | ConstColumn(name: string)

  datatype Select = Select(columns: seq<ResultColumn>, fields: seq<string>, hasCount: bool)

  predicate Selects(fields: seq<string>, f: string) {
    exists i :: 0 <= i < |fields| && IEquals(fields[i], f)
  }

  function AddField(fields: seq<string>, f: string): seq<string> {
    if Selects(fields, f) then fields else fields + [f]
  }

  function AddColumn(s: Select, name: string, soql: string): Select {
    s.(columns := s.columns + [FieldColumn(name, soql)], fields := AddField(s.fields, soql))
  }

  /** All fields of the object, as `*` adds them. */
  function AddStar(s: Select, star: seq<string>): Select {
    if star == [] then s
    else
      var n := |star| - 1;
      AddColumn(AddStar(s, star[..n]), star[n], star[n])
  }

  function NameOr(alias: string, n: nat): string {
    if alias == "" then "EXPR_" + Decimal(n) else alias
  }

  function AddItem(env: SqlPlan.Env, star: seq<string>, s: Select, item: Item, n: nat): Result<Select> {
    match item
    case Star => Ok(AddStar(s, star))
    case Column(path, alias) =>
      var col :- env.resolve(path);
      Ok(AddColumn(s, if alias == "" then col.soql else alias, col.soql))
    case CountStar(alias) => Ok(s.(columns := s.columns + [CountColumn(NameOr(alias, n))], hasCount := true))
    case Literal(alias) => Ok(s.(columns := s.columns + [ConstColumn(NameOr(alias, n))]))
  }

  /** The first `n` items. */
  function Items(env: SqlPlan.Env, star: seq<string>, items: seq<Item>, n: nat): Result<Select>
    requires n <= |items|
  {
    if n == 0 then Ok(Select([], [], false))
    else
      var s :- Items(env, star, items, n - 1);
      AddItem(env, star, s, items[n - 1], n - 1)
  }

  /** The whole list: a count must stand alone, and a query that needs no field asks for Id. */
  function Build(env: SqlPlan.Env, star: seq<string>, items: seq<Item>): Result<Select> {
    var s :- Items(env, star, items, |items|);
    if s.hasCount && |items| != 1 then Err("42000")
    else Ok(s.(fields := if !s.hasCount && s.fields == [] then ["Id"] else s.fields))
  }

  method BuildSelect(env: SqlPlan.Env, star: seq<string>, items: seq<Item>) returns (r: Result<Select>)
    ensures r == Build(env, star, items)
  {
    hide AddField;
    var s := Select([], [], false);
    var i := 0;
    while i < |items|
      invariant i <= |items| && Items(env, star, items, i) == Ok(s)
    {
      var step := AddItem(env, star, s, items[i], i);
      if step.Err? {
        FailureStays(env, star, items, i + 1, |items|);
        return Err(step.state);
      }
      s := step.value;
      i := i + 1;
    }
    if s.hasCount && |items| != 1 { return Err("42000"); }
    if !s.hasCount && s.fields == [] { s := s.(fields := ["Id"]); }
    r := Ok(s);
  }

  lemma {:induction false} FailureStays(env: SqlPlan.Env, star: seq<string>, items: seq<Item>, n: nat, m: nat)
    requires n <= m <= |items| && Items(env, star, items, n).Err?
    ensures Items(env, star, items, m) == Err(Items(env, star, items, n).state)
    decreases m
  {
    if n < m { FailureStays(env, star, items, n, m - 1); }
  }

  // ---------------------------------------------------------------- what is asked for

  predicate Distinct(fields: seq<string>) {
    forall i, j :: 0 <= i < j < |fields| ==> !IEquals(fields[i], fields[j])
  }

  /** No field twice in any spelling, every field column's path among the fields, and every field
      the path of some column. */
  predicate Exact(s: Select) {
    Distinct(s.fields) &&
    (forall c :: c in s.columns && c.FieldColumn? ==> Selects(s.fields, c.soql)) &&
    (forall f :: f in s.fields ==>
       exists i :: 0 <= i < |s.columns| && s.columns[i].FieldColumn? && s.columns[i].soql == f)
  }

  lemma AddColumnExact(s: Select, name: string, soql: string)
    requires Exact(s)
    ensures Exact(AddColumn(s, name, soql))
  {
    var t := AddColumn(s, name, soql);
    forall f | Selects(s.fields, f) || f == soql ensures Selects(t.fields, f) { AddedIsSelected(s.fields, soql, f); }
    AddedDistinct(s.fields, soql);
    forall f | f in t.fields
      ensures exists i :: 0 <= i < |t.columns| && t.columns[i].FieldColumn? && t.columns[i].soql == f
    {
      if f in s.fields {
        var i :| 0 <= i < |s.columns| && s.columns[i].FieldColumn? && s.columns[i].soql == f;
        assert t.columns[i] == s.columns[i];
      } else {
        assert t.columns[|s.columns|] == FieldColumn(name, soql);
      }
    }
  }

  lemma AddedDistinct(fields: seq<string>, f: string)
    requires Distinct(fields)
    ensures Distinct(AddField(fields, f))
  {
    hide IEquals;
  }

  lemma AddedIsSelected(fields: seq<string>, f: string, g: string)
    requires Selects(fields, g) || g == f
    ensures Selects(AddField(fields, f), g)
  {
    var r := AddField(fields, f);
    if Selects(fields, g) {
      var i :| 0 <= i < |fields| && IEquals(fields[i], g);
      assert r[i] == fields[i];
    } else {
      assert r[|fields|] == f;
    }
  }

  lemma {:induction false} AddStarExact(s: Select, star: seq<string>)
    requires Exact(s)
    ensures Exact(AddStar(s, star)) && AddStar(s, star).hasCount == s.hasCount
  {
    hide Exact;
    if star != [] {
      var n := |star| - 1;
      AddStarExact(s, star[..n]);
      AddColumnExact(AddStar(s, star[..n]), star[n], star[n]);
    }
  }

  lemma OtherColumnExact(s: Select, c: ResultColumn, hasCount: bool)
    requires Exact(s) && !c.FieldColumn?
    ensures Exact(s.(columns := s.columns + [c], hasCount := hasCount))
  {
    var t := s.(columns := s.columns + [c], hasCount := hasCount);
    forall f | f in t.fields
      ensures exists i :: 0 <= i < |t.columns| && t.columns[i].FieldColumn? && t.columns[i].soql == f
    {
      var i :| 0 <= i < |s.columns| && s.columns[i].FieldColumn? && s.columns[i].soql == f;
      assert t.columns[i] == s.columns[i];
    }
  }

  lemma {:induction false} ItemsExact(env: SqlPlan.Env, star: seq<string>, items: seq<Item>, n: nat)
    requires n <= |items| && Items(env, star, items, n).Ok?
    ensures Exact(Items(env, star, items, n).value)
  {
    hide Exact, AddColumn, AddStar, NameOr;
    if n == 0 {
      NothingExact();
    } else {
      ItemsExact(env, star, items, n - 1);
      var s, item := Items(env, star, items, n - 1).value, items[n - 1];
      match item
      case Star => AddStarExact(s, star);
      case Column(path, alias) =>
        var soql := env.resolve(path).value.soql;
        AddColumnExact(s, if alias == "" then soql else alias, soql);
      case CountStar(alias) => OtherColumnExact(s, CountColumn(NameOr(alias, n - 1)), true);
      case Literal(alias) => OtherColumnExact(s, ConstColumn(NameOr(alias, n - 1)), s.hasCount);
    }
  }

  lemma NothingExact()
    ensures Exact(Select([], [], false))
  {
  }

  /** The query asks for every field a column reads, for no field twice, and for nothing else but
      Id when no column reads a field; and a count is the only column of its plan. */
  lemma AsksForItsColumns(env: SqlPlan.Env, star: seq<string>, items: seq<Item>)
    requires Build(env, star, items).Ok?
    ensures var s := Build(env, star, items).value;
            Distinct(s.fields) && (!s.hasCount ==> s.fields != []) &&
            (forall c :: c in s.columns && c.FieldColumn? ==> Selects(s.fields, c.soql)) &&
            (s.fields == ["Id"] || Exact(s)) &&
            (s.hasCount ==> |s.columns| == 1 && s.columns[0].CountColumn?)
  {
    hide Items, AddItem, AddField, IEquals;
    var s := Items(env, star, items, |items|).value;
    ItemsExact(env, star, items, |items|);
    if s.fields == [] { NoFields(s); }
    if s.hasCount { CountAlone(env, star, items); }
  }

  lemma NoFields(s: Select)
    requires Exact(s) && s.fields == []
    ensures forall c :: c in s.columns ==> !c.FieldColumn?
    ensures Distinct(["Id"])
  {
    assert forall f :: !Selects(s.fields, f);
  }

  lemma CountAlone(env: SqlPlan.Env, star: seq<string>, items: seq<Item>)
    requires Build(env, star, items).Ok? && Build(env, star, items).value.hasCount
    ensures var s := Build(env, star, items).value; |s.columns| == 1 && s.columns[0].CountColumn?
  {
    hide AddField, NameOr;
    assert Items(env, star, items, 1) == AddItem(env, star, Select([], [], false), items[0], 0);
    if items[0].Star? {
      NothingExact();
      AddStarExact(Select([], [], false), star);
    }
  }

  // ---------------------------------------------------------------- the result columns

  function StarColumns(star: seq<string>): (r: seq<ResultColumn>)
    ensures |r| == |star| && forall i :: 0 <= i < |star| ==> r[i] == FieldColumn(star[i], star[i])
  {
    seq(|star|, i requires 0 <= i < |star| => FieldColumn(star[i], star[i]))
  }

  /** The columns one item stands for: every field of the object for `*`, otherwise one, under its
      alias or, without one, under its field's path or the number of the item. */
  function ItemColumns(env: SqlPlan.Env, star: seq<string>, item: Item, n: nat): seq<ResultColumn> {
    match item
    case Star => StarColumns(star)
    case Column(path, alias) =>
      if env.resolve(path).Err? then []
      else
        var soql := env.resolve(path).value.soql;
        [FieldColumn(if alias != "" then alias else soql, soql)]
    case CountStar(alias) => [CountColumn(if alias != "" then alias else "EXPR_" + Decimal(n))]
    case Literal(alias) => [ConstColumn(if alias != "" then alias else "EXPR_" + Decimal(n))]
  }

  function AllColumns(env: SqlPlan.Env, star: seq<string>, items: seq<Item>, n: nat): seq<ResultColumn>
    requires n <= |items|
  {
    if n == 0 then [] else AllColumns(env, star, items, n - 1) + ItemColumns(env, star, items[n - 1], n - 1)
  }

  lemma {:induction false} StarInOrder(s: Select, star: seq<string>)
    ensures AddStar(s, star).columns == s.columns + StarColumns(star)
  {
    hide AddField;
    if star == [] {
      assert s.columns + StarColumns(star) == s.columns;
    } else {
      var n := |star| - 1;
      StarInOrder(s, star[..n]);
      assert StarColumns(star) == StarColumns(star[..n]) + [FieldColumn(star[n], star[n])];
    }
  }

  lemma {:induction false} ItemsInOrder(env: SqlPlan.Env, star: seq<string>, items: seq<Item>, n: nat)
    requires n <= |items| && Items(env, star, items, n).Ok?
    ensures Items(env, star, items, n).value.columns == AllColumns(env, star, items, n)
  {
    hide AddField;
    if n > 0 {
      ItemsInOrder(env, star, items, n - 1);
      if items[n - 1].Star? {
        StarInOrder(Items(env, star, items, n - 1).value, star);
      }
    }
  }

  lemma {:induction false} ItemsFail(env: SqlPlan.Env, star: seq<string>, items: seq<Item>, n: nat)
    requires n <= |items|
    ensures Items(env, star, items, n).Ok? <==>
            forall i :: 0 <= i < n && items[i].Column? ==> env.resolve(items[i].path).Ok?
  {
    hide AddColumn, AddStar, NameOr;
    if n > 0 { ItemsFail(env, star, items, n - 1); }
  }

  lemma {:induction false} CountSeen(env: SqlPlan.Env, star: seq<string>, items: seq<Item>, n: nat)
    requires n <= |items| && Items(env, star, items, n).Ok?
    ensures Items(env, star, items, n).value.hasCount <==> exists i :: 0 <= i < n && items[i].CountStar?
  {
    hide AddField, NameOr;
    if n > 0 {
      CountSeen(env, star, items, n - 1);
      if items[n - 1].Star? { StarCounts(Items(env, star, items, n - 1).value, star); }
      if items[n - 1].CountStar? { assert items[n - 1].CountStar?; }
    }
  }

  lemma {:induction false} StarCounts(s: Select, star: seq<string>)
    ensures AddStar(s, star).hasCount == s.hasCount
  {
    if star != [] { StarCounts(s, star[..|star| - 1]); }
  }

  /** The first column that does not resolve. */
  predicate Fails(env: SqlPlan.Env, items: seq<Item>, k: nat) {
    k < |items| && items[k].Column? && env.resolve(items[k].path).Err? &&
    forall i :: 0 <= i < k && items[i].Column? ==> env.resolve(items[i].path).Ok?
  }

  lemma {:induction false} FirstFailure(env: SqlPlan.Env, star: seq<string>, items: seq<Item>, n: nat, k: nat)
    requires k < n <= |items| && Fails(env, items, k)
    ensures Items(env, star, items, n) == Err(env.resolve(items[k].path).state)
  {
    hide AddColumn, AddStar, NameOr;
    if k < n - 1 { FirstFailure(env, star, items, n - 1, k); } else { ItemsFail(env, star, items, k); }
  }

  /** A select list is refused exactly when a column does not resolve, with the error of the first such,
      or a count does not stand alone; otherwise the result has the columns of its items, in their
      order. */
  lemma ColumnsInOrder(env: SqlPlan.Env, star: seq<string>, items: seq<Item>)
    ensures Build(env, star, items).Ok? <==>
            (forall i :: 0 <= i < |items| && items[i].Column? ==> env.resolve(items[i].path).Ok?) &&
            ((exists i :: 0 <= i < |items| && items[i].CountStar?) ==> |items| == 1)
    ensures Build(env, star, items).Err? ==>
              (exists k :: 0 <= k < |items| && Fails(env, items, k)) || Build(env, star, items) == Err("42000")
    ensures forall k: nat :: Fails(env, items, k) ==> Build(env, star, items) == Err(env.resolve(items[k].path).state)
    ensures Build(env, star, items).Ok? ==>
              Build(env, star, items).value.columns == AllColumns(env, star, items, |items|)
  {
    hide Items, AllColumns;
    ItemsFail(env, star, items, |items|);
    forall k: nat | Fails(env, items, k)
      ensures Items(env, star, items, |items|) == Err(env.resolve(items[k].path).state)
    {
      FirstFailure(env, star, items, |items|, k);
    }
    if Items(env, star, items, |items|).Ok? {
      ItemsInOrder(env, star, items, |items|);
      CountSeen(env, star, items, |items|);
    } else {
      var k := FailureFound(env, items, |items|);
    }
  }

  lemma {:induction false} FailureFound(env: SqlPlan.Env, items: seq<Item>, n: nat) returns (k: nat)
    requires n <= |items| && exists i :: 0 <= i < n && items[i].Column? && env.resolve(items[i].path).Err?
    ensures Fails(env, items, k)
  {
    k := n - 1;
    if exists i :: 0 <= i < n - 1 && items[i].Column? && env.resolve(items[i].path).Err? {
      k := FailureFound(env, items, n - 1);
    }
  }

  // ---------------------------------------------------------------- the order of the fields

  /** The fields of the columns, each where it is first read. */
  function FirstFields(cols: seq<ResultColumn>): seq<string> {
    if cols == [] then []
    else
      var n := |cols| - 1;
      FirstFields(cols[..n]) + if FirstRead(cols, n) then [cols[n].soql] else []
  }

  /** Column `n` reads a field that no column before it reads, in any spelling. */
  predicate FirstRead(cols: seq<ResultColumn>, n: nat)
    requires n < |cols|
  {
    cols[n].FieldColumn? && forall i :: 0 <= i < n && cols[i].FieldColumn? ==> !IEquals(cols[i].soql, cols[n].soql)
  }

  predicate InOrder(s: Select) {
    Exact(s) && s.fields == FirstFields(s.columns)
  }

  lemma ColumnAsked(s: Select, name: string, soql: string)
    requires InOrder(s)
    ensures InOrder(AddColumn(s, name, soql))
  {
    var t := AddColumn(s, name, soql);
    var n := |s.columns|;
    assert t.columns[..n] == s.columns;
    AddColumnExact(s, name, soql);
    hide FirstFields;
    assert FirstFields(t.columns) == s.fields + if FirstRead(t.columns, n) then [soql] else [] by {
      LastField(t.columns);
    }
    if Selects(s.fields, soql) {
      var k :| 0 <= k < |s.fields| && IEquals(s.fields[k], soql);
      assert s.fields[k] in s.fields;
      var i :| 0 <= i < n && s.columns[i].FieldColumn? && s.columns[i].soql == s.fields[k];
      assert t.columns[i] == s.columns[i];
    } else {
      forall i | 0 <= i < n && t.columns[i].FieldColumn? ensures !IEquals(t.columns[i].soql, soql) {
        assert s.columns[i] in s.columns;
      }
    }
    assert s.fields + [] == s.fields;
  }

  lemma LastField(cols: seq<ResultColumn>)
    requires cols != []
    ensures var n := |cols| - 1;
            FirstFields(cols) == FirstFields(cols[..n]) + if FirstRead(cols, n) then [cols[n].soql] else []
  {
  }

  lemma {:induction false} StarAsked(s: Select, star: seq<string>)
    requires InOrder(s)
    ensures InOrder(AddStar(s, star))
  {
    hide InOrder;
    if star != [] {
      var n := |star| - 1;
      StarAsked(s, star[..n]);
      ColumnAsked(AddStar(s, star[..n]), star[n], star[n]);
    }
  }

  lemma OtherAsked(s: Select, c: ResultColumn, hasCount: bool)
    requires InOrder(s) && !c.FieldColumn?
    ensures InOrder(s.(columns := s.columns + [c], hasCount := hasCount))
  {
    hide Exact;
    OtherColumnExact(s, c, hasCount);
    assert (s.columns + [c])[..|s.columns|] == s.columns;
    assert s.fields + [] == s.fields;
  }

  lemma {:induction false} ItemsAsked(env: SqlPlan.Env, star: seq<string>, items: seq<Item>, n: nat)
    requires n <= |items| && Items(env, star, items, n).Ok?
    ensures InOrder(Items(env, star, items, n).value)
  {
    hide InOrder, AddColumn, AddStar, NameOr;
    if n == 0 {
      NothingAsked();
    } else {
      ItemsAsked(env, star, items, n - 1);
      var s, item := Items(env, star, items, n - 1).value, items[n - 1];
      match item
      case Star => StarAsked(s, star);
      case Column(path, alias) =>
        var soql := env.resolve(path).value.soql;
        ColumnAsked(s, if alias == "" then soql else alias, soql);
      case CountStar(alias) => OtherAsked(s, CountColumn(NameOr(alias, n - 1)), true);
      case Literal(alias) => OtherAsked(s, ConstColumn(NameOr(alias, n - 1)), s.hasCount);
    }
  }

  lemma NothingAsked()
    ensures InOrder(Select([], [], false))
  {
    NothingExact();
  }

  /** The fields are asked for in the order in which the columns first read them, and Id where nothing
      else is. */
  lemma FieldsInOrder(env: SqlPlan.Env, star: seq<string>, items: seq<Item>)
    requires Build(env, star, items).Ok?
    ensures var s := Build(env, star, items).value;
            s.fields ==
            if FirstFields(s.columns) == [] && !exists i :: 0 <= i < |items| && items[i].CountStar? then ["Id"]
            else FirstFields(s.columns)
  {
    hide Items, FirstFields, Exact;
    ItemsAsked(env, star, items, |items|);
    CountSeen(env, star, items, |items|);
  }
}
