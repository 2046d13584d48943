/** Environments, connections and statements, and what every call on them keeps
    (src/odbc_impl.cpp, src/handles.h). Handles are never given out twice here, so that a freed one
    can be told from a live one. */
module Handles {
  import opened Wrappers
  import C = Cursor

  type Handle = nat

  datatype Rc = Success | NoData | Error(state: string) | InvalidHandle

  // ---------------------------------------------------------------- statements

  datatype Kind = Rows | Count | Constant

  datatype PlanData = Plan(columns: seq<C.ColumnInfo>, kind: Kind, alwaysEmpty: bool, paramCount: nat)

  /** `build_plan` lets COUNT(*) be the only item. */
  type Plan = p: PlanData | p.kind == Count ==> |p.columns| == 1
    witness Plan([], Rows, false, 0)

  /** An open cursor: its columns, and for every later `next` a row or the error it raises. */
  datatype Cursor = Cursor(width: nat, supply: seq<Result<C.Row>>)

  datatype Stmt = Stmt(conn: Handle, plan: Option<Plan>, cursor: Option<Cursor>, rowset: seq<C.Row>, positioned: bool,
                       getdata: nat, rowNumber: nat, rowArraySize: nat, boundParams: nat)

  function NewStmt(c: Handle): Stmt {
    Stmt(c, None, None, [], false, 0, 0, 1, 0)
  }

  function Closed(s: Stmt): Stmt {
    s.(cursor := None, rowset := [], positioned := false, getdata := 0, rowNumber := 0)
  }

  function Opened(s: Stmt, cur: Cursor): Stmt {
    Closed(s).(cursor := Some(cur), getdata := cur.width + 1)
  }

  function Prepared(s: Stmt, outcome: Result<Plan>): (Rc, Stmt) {
    var t := Closed(s).(plan := None);
    match outcome
    case Err(e) => (Error(e), t)
    case Ok(p) => (Success, t.(plan := Some(p)))
  }

  function ConstRow(cols: seq<C.ColumnInfo>): (r: C.Row)
    ensures |r| == |cols|
  {
    seq(|cols|, i requires 0 <= i < |cols| => cols[i].constValue)
  }

  /** What the server says to a query: its records, some of them behind page requests that fail,
      or just their number. */
  datatype Answer = Answer(records: seq<Result<C.Json>>, total: C.Cell)

  function Supply(cols: seq<C.ColumnInfo>, records: seq<Result<C.Json>>): (r: seq<Result<C.Row>>)
    ensures |r| == |records|
  {
    seq(|records|, i requires 0 <= i < |records| =>
      match records[i]
      case Err(e) => Err(e)
      case Ok(rec) => Ok(C.RowOf(cols, rec)))
  }

  /** The first of the parameters from `i` to `n` that is not bound or cannot be read; `failures` holds
      what reading each bound value fails with. */
  function ParamError(bound: nat, failures: seq<Option<string>>, i: nat, n: nat): Option<string>
    decreases n - i
  {
    if i >= n then None
    else if i >= bound then Some("07002")
    else if i < |failures| && failures[i].Some? then failures[i]
    else ParamError(bound, failures, i + 1, n)
  }

  function Executed(s: Stmt, failures: seq<Option<string>>, answer: Result<Answer>): (Rc, Stmt) {
    if s.plan.None? then (Error("HY010"), s)
    else
      var p := s.plan.value;
      var failure := ParamError(s.boundParams, failures, 0, p.paramCount);
      if failure.Some? then (Error(failure.value), Closed(s))
      else if p.kind == Constant then (Success, Opened(s, Cursor(|p.columns|, [Ok(ConstRow(p.columns))])))
      else if p.alwaysEmpty then (Success, Opened(s, Cursor(|p.columns|, [])))
      else if answer.Err? then (Error(answer.state), Closed(s))
      else if p.kind == Count then (Success, Opened(s, Cursor(|p.columns|, [Ok([answer.value.total])])))
      else (Success, Opened(s, Cursor(|p.columns|, Supply(p.columns, answer.value.records))))
  }

  /** A catalog result: rows built to its columns, or an error before anything is opened. */
  datatype CatalogData = Catalog(width: nat, rows: seq<C.Row>)
  type Catalog = c: CatalogData | C.Rectangular(c.rows, c.width) witness Catalog(0, [])

  function Given(rows: seq<C.Row>): (r: seq<Result<C.Row>>)
    ensures |r| == |rows| && forall i :: 0 <= i < |rows| ==> r[i] == Ok(rows[i])
  {
    seq(|rows|, i requires 0 <= i < |rows| => Ok(rows[i]))
  }

  function Catalogued(s: Stmt, outcome: Result<Catalog>): (Rc, Stmt) {
    match outcome
    case Err(e) => (Error(e), s)
    case Ok(c) => (Success, Opened(s.(plan := None), Cursor(c.width, Given(c.rows))))
  }

  /** Up to `n` rows, the error that stopped them if one did, and what is left. */
  function Pull(supply: seq<Result<C.Row>>, n: nat): (seq<C.Row>, Option<string>, seq<Result<C.Row>>)
    decreases n
  {
    if n == 0 || supply == [] then ([], None, supply)
    else if supply[0].Err? then ([], Some(supply[0].state), supply[1..])
    else
      var (rows, err, rest) := Pull(supply[1..], n - 1);
      ([supply[0].value] + rows, err, rest)
  }

  function Fetched(s: Stmt): (Rc, Stmt) {
    if s.cursor.None? then (Error("24000"), s)
    else
      var cur := s.cursor.value;
      var (rows, err, rest) := Pull(cur.supply, s.rowArraySize);
      var t := s.(cursor := Some(cur.(supply := rest)), rowset := rows, positioned := false);
      if err.Some? then (Error(err.value), t)
      else if rows == [] then (NoData, t)
      else (Success, t.(positioned := true, rowNumber := s.rowNumber + |rows|, getdata := cur.width + 1))
  }

  /** The cell SQLGetData reads. */
  function CellAt(s: Stmt, col: nat): Result<C.Cell>
    requires StmtOk(s)
  {
    if s.cursor.None? || !s.positioned || s.rowset == [] then Err("24000")
    else if col == 0 || col > s.cursor.value.width then Err("07009")
    else Ok(s.rowset[0][col - 1])
  }

  /** A current row implies an open cursor and a rowset of rows with one cell per column, and every
      row still to come has that many. */
  predicate StmtOk(s: Stmt) {
    s.rowArraySize > 0 &&
    (s.cursor.Some? ==>
       var cur := s.cursor.value;
       s.getdata == cur.width + 1 && C.Rectangular(s.rowset, cur.width) &&
       forall i :: 0 <= i < |cur.supply| && cur.supply[i].Ok? ==> |cur.supply[i].value| == cur.width) &&
    (s.cursor.None? ==> s.rowset == [] && s.getdata == 0) &&
    (s.positioned ==> s.cursor.Some? && s.rowset != [])
  }

  lemma SupplyWidth(cols: seq<C.ColumnInfo>, records: seq<Result<C.Json>>, i: nat)
    requires i < |records| && Supply(cols, records)[i].Ok?
    ensures |Supply(cols, records)[i].value| == |cols|
  {
  }

  lemma ExecutedOk(s: Stmt, failures: seq<Option<string>>, answer: Result<Answer>)
    requires StmtOk(s)
    ensures StmtOk(Executed(s, failures, answer).1)
  {
    if answer.Ok? && s.plan.Some? {
      var cols := s.plan.value.columns;
      forall i | 0 <= i < |answer.value.records| && Supply(cols, answer.value.records)[i].Ok?
        ensures |Supply(cols, answer.value.records)[i].value| == |cols|
      {
        SupplyWidth(cols, answer.value.records, i);
      }
    }
  }

  lemma {:induction false} PullKeepsWidth(supply: seq<Result<C.Row>>, n: nat, width: nat)
    requires forall i :: 0 <= i < |supply| && supply[i].Ok? ==> |supply[i].value| == width
    ensures var (rows, err, rest) := Pull(supply, n);
            C.Rectangular(rows, width) && |rows| <= n && |rest| <= |supply| &&
            (forall i :: 0 <= i < |rest| && rest[i].Ok? ==> |rest[i].value| == width)
    decreases n
  {
    if n > 0 && supply != [] && supply[0].Ok? { PullKeepsWidth(supply[1..], n - 1, width); }
  }

  lemma FetchedOk(s: Stmt)
    requires StmtOk(s)
    ensures StmtOk(Fetched(s).1)
  {
    if s.cursor.Some? { PullKeepsWidth(s.cursor.value.supply, s.rowArraySize, s.cursor.value.width); }
  }

  // ---------------------------------------------------------------- the tree of handles

  datatype Conn = Conn(env: Handle, stmts: seq<Handle>, connected: bool)

  /** Every live environment with its connections, every live connection, every live statement,
      and the next handle to give out. */
  datatype Tables = Tables(envs: map<Handle, seq<Handle>>, conns: map<Handle, Conn>, stmts: map<Handle, Stmt>,
                           next: Handle)

  /** `erase(remove(...))` */
  function Without(list: seq<Handle>, h: Handle): (r: seq<Handle>)
    ensures forall x :: x in r <==> x in list && x != h
  {
    if list == [] then []
    else
      var rest := Without(list[1..], h);
      if list[0] == h then rest else [list[0]] + rest
  }

  predicate Distinct(list: seq<Handle>) {
    forall i, j :: 0 <= i < j < |list| ==> list[i] != list[j]
  }

  lemma {:induction false} WithoutDistinct(list: seq<Handle>, h: Handle)
    requires Distinct(list)
    ensures Distinct(Without(list, h))
  {
    if list != [] {
      forall i, j | 0 <= i < j < |list[1..]| ensures list[1..][i] != list[1..][j] {
        assert list[i + 1] != list[j + 1];
      }
      WithoutDistinct(list[1..], h);
      assert list[0] !in list[1..];
    }
  }

  lemma AppendDistinct(list: seq<Handle>, h: Handle)
    requires Distinct(list) && h !in list
    ensures Distinct(list + [h])
  {
  }

  datatype Op =
    | AllocEnv
    | AllocConn(env: Handle)
    | AllocStmt(conn: Handle)
    | FreeEnv(env: Handle)
    | FreeConn(conn: Handle)
    | FreeStmt(stmt: Handle)
    | Connect(conn: Handle, outcome: Result<()>)
    | Disconnect(conn: Handle)
    | Prepare(stmt: Handle, plan: Result<Plan>)
    | Execute(stmt: Handle, failures: seq<Option<string>>, answer: Result<Answer>)
    | ExecDirect(stmt: Handle, plan: Result<Plan>, failures: seq<Option<string>>, answer: Result<Answer>)
    | OpenCatalog(stmt: Handle, catalog: Result<Catalog>)
    | Fetch(stmt: Handle)
    | CloseCursor(stmt: Handle)
    | FreeStmtClose(stmt: Handle)
    | SetRowArraySize(stmt: Handle, size: nat)
    | BindParams(stmt: Handle, count: nat)

  function StmtStep(s: Stmt, op: Op): (Rc, Stmt) {
    match op
    case Prepare(_, plan) => Prepared(s, plan)
    case Execute(_, failures, answer) => Executed(s, failures, answer)
    case ExecDirect(_, plan, failures, answer) =>
      var (rc, t) := Prepared(s, plan);
      if rc == Success then Executed(t, failures, answer) else (rc, t)
    case OpenCatalog(_, catalog) => Catalogued(s, catalog)
    case Fetch(_) => Fetched(s)
    case CloseCursor(_) => if s.cursor.None? then (Error("24000"), s) else (Success, Closed(s))
    case FreeStmtClose(_) => (Success, Closed(s))
    case SetRowArraySize(_, size) =>
      if size == 0 then (Error("HY024"), s) else (Success, s.(rowArraySize := size))
    case BindParams(_, count) => (Success, s.(boundParams := count))
    case _ => (Success, s)
  }

  predicate OnStmt(op: Op) {
    op.Prepare? || op.Execute? || op.ExecDirect? || op.OpenCatalog? || op.Fetch? || op.CloseCursor? ||
    op.FreeStmtClose? || op.SetRowArraySize? || op.BindParams?
  }

  /** One call: its return code and the handles after it. */
  function Apply(t: Tables, op: Op): (Rc, Tables) {
    if OnStmt(op) then
      if op.stmt !in t.stmts then (InvalidHandle, t)
      else
        var (rc, s) := StmtStep(t.stmts[op.stmt], op);
        (rc, t.(stmts := t.stmts[op.stmt := s]))
    else
      match op
      case AllocEnv => (Success, t.(envs := t.envs[t.next := []], next := t.next + 1))
      case AllocConn(e) => AllocatedConn(t, e)
      case AllocStmt(c) => AllocatedStmt(t, c)
      case FreeEnv(e) =>
        if e !in t.envs then (InvalidHandle, t)
        else if t.envs[e] != [] then (Error("HY010"), t)
        else (Success, t.(envs := t.envs - {e}))
      case FreeConn(c) => FreedConn(t, c)
      case FreeStmt(s) => FreedStmt(t, s)
      case Connect(c, outcome) =>
        if c !in t.conns then (InvalidHandle, t)
        else if t.conns[c].connected then (Error("08002"), t)
        else if outcome.Err? then (Error(outcome.state), t)
        else (Success, t.(conns := t.conns[c := t.conns[c].(connected := true)]))
      case Disconnect(c) => Disconnected(t, c)
      case _ => (Success, t)
  }

  function AllocatedConn(t: Tables, e: Handle): (Rc, Tables) {
    if e !in t.envs then (InvalidHandle, t)
    else
      (Success, t.(envs := t.envs[e := t.envs[e] + [t.next]],
                   conns := t.conns[t.next := Conn(e, [], false)],
                   next := t.next + 1))
  }

  function AllocatedStmt(t: Tables, c: Handle): (Rc, Tables) {
    if c !in t.conns then (InvalidHandle, t)
    else if !t.conns[c].connected then (Error("08003"), t)
    else
      (Success, t.(conns := t.conns[c := t.conns[c].(stmts := t.conns[c].stmts + [t.next])],
                   stmts := t.stmts[t.next := NewStmt(c)],
                   next := t.next + 1))
  }

  function FreedConn(t: Tables, c: Handle): (Rc, Tables) {
    if c !in t.conns then (InvalidHandle, t)
    else if t.conns[c].connected then (Error("HY010"), t)
    else
      var e := t.conns[c].env;
      (Success, t.(envs := if e in t.envs then t.envs[e := Without(t.envs[e], c)] else t.envs,
                   conns := t.conns - {c}))
  }

  function FreedStmt(t: Tables, s: Handle): (Rc, Tables) {
    if s !in t.stmts then (InvalidHandle, t)
    else
      var c := t.stmts[s].conn;
      (Success, t.(conns := if c in t.conns then t.conns[c := t.conns[c].(stmts := Without(t.conns[c].stmts, s))]
                             else t.conns,
                   stmts := t.stmts - {s}))
  }

  function Members(list: seq<Handle>): set<Handle> {
    set h | h in list
  }

  function Disconnected(t: Tables, c: Handle): (Rc, Tables) {
    if c !in t.conns then (InvalidHandle, t)
    else if !t.conns[c].connected then (Error("08003"), t)
    else
      (Success, t.(conns := t.conns[c := t.conns[c].(stmts := [], connected := false)],
                   stmts := t.stmts - Members(t.conns[c].stmts)))
  }

  // ---------------------------------------------------------------- what is always true

  predicate Live(t: Tables, h: Handle) {
    h in t.envs || h in t.conns || h in t.stmts
  }

  /** Each handle is of one kind and was given out. */
  predicate Known(envs: set<Handle>, conns: set<Handle>, stmts: set<Handle>, next: Handle) {
    envs !! conns && envs !! stmts && conns !! stmts &&
    (forall h :: h in envs ==> h < next) && (forall h :: h in conns ==> h < next) &&
    (forall h :: h in stmts ==> h < next)
  }

  /** Environments list their live connections, each once. */
  predicate ConnsListed(envs: map<Handle, seq<Handle>>, conns: map<Handle, Conn>) {
    forall e :: e in envs ==> Distinct(envs[e]) && forall c :: c in envs[e] ==> c in conns && conns[c].env == e
  }

  /** Every live connection is listed by its environment. */
  predicate ConnsOwned(envs: map<Handle, seq<Handle>>, conns: map<Handle, Conn>) {
    forall c :: c in conns ==> conns[c].env in envs && c in envs[conns[c].env]
  }

  /** Connections list their live statements, each once, and none without a session. */
  predicate StmtsListed(conns: map<Handle, Conn>, stmts: map<Handle, Stmt>) {
    forall c :: c in conns ==>
      Distinct(conns[c].stmts) && (!conns[c].connected ==> conns[c].stmts == []) &&
      forall s :: s in conns[c].stmts ==> s in stmts && stmts[s].conn == c
  }

  /** Every live statement is listed by its connection. */
  predicate StmtsOwned(conns: map<Handle, Conn>, stmts: map<Handle, Stmt>) {
    forall s :: s in stmts ==> stmts[s].conn in conns && s in conns[stmts[s].conn].stmts
  }

  predicate EnvsOk(envs: map<Handle, seq<Handle>>, conns: map<Handle, Conn>) {
    ConnsListed(envs, conns) && ConnsOwned(envs, conns)
  }

  predicate ConnsOk(conns: map<Handle, Conn>, stmts: map<Handle, Stmt>) {
    StmtsListed(conns, stmts) && StmtsOwned(conns, stmts)
  }

  predicate StmtsOk(stmts: map<Handle, Stmt>) {
    forall s :: s in stmts ==> StmtOk(stmts[s])
  }

  predicate WellFormed(t: Tables) {
    Known(t.envs.Keys, t.conns.Keys, t.stmts.Keys, t.next) && EnvsOk(t.envs, t.conns) && ConnsOk(t.conns, t.stmts) &&
    StmtsOk(t.stmts)
  }

  lemma StmtStepKeeps(s: Stmt, op: Op)
    requires StmtOk(s)
    ensures StmtOk(StmtStep(s, op).1) && StmtStep(s, op).1.conn == s.conn
  {
    hide Pull, Supply;
    match op
    case Execute(_, failures, answer) => ExecutedOk(s, failures, answer);
    case ExecDirect(_, plan, failures, answer) =>
      if plan.Ok? { ExecutedOk(Prepared(s, plan).1, failures, answer); }
    case Fetch(_) => FetchedOk(s);
    case _ =>
  }

  lemma NextUnused(e: set<Handle>, c: set<Handle>, s: set<Handle>, n: Handle)
    requires Known(e, c, s, n)
    ensures n !in e && n !in c && n !in s
  {
  }

  lemma KnownMore(e: set<Handle>, c: set<Handle>, s: set<Handle>, n: Handle)
    requires Known(e, c, s, n)
    ensures Known(e + {n}, c, s, n + 1) && Known(e, c + {n}, s, n + 1) && Known(e, c, s + {n}, n + 1)
  {
  }

  lemma KnownLess(e: set<Handle>, c: set<Handle>, s: set<Handle>, n: Handle, e': set<Handle>, c': set<Handle>,
                  s': set<Handle>)
    requires Known(e, c, s, n) && e' <= e && c' <= c && s' <= s
    ensures Known(e', c', s', n)
  {
  }

  lemma StmtChanges(conns: map<Handle, Conn>, stmts: map<Handle, Stmt>, h: Handle, s: Stmt)
    requires ConnsOk(conns, stmts) && h in stmts && s.conn == stmts[h].conn
    ensures ConnsOk(conns, stmts[h := s]) && stmts[h := s].Keys == stmts.Keys
  {
    hide Distinct;
  }

  lemma OnStmtKeeps(t: Tables, op: Op)
    requires WellFormed(t) && OnStmt(op)
    ensures WellFormed(Apply(t, op).1)
  {
    hide StmtOk, StmtStep, ConnsOk, EnvsOk, Known;
    if op.stmt in t.stmts {
      StmtStepKeeps(t.stmts[op.stmt], op);
      StmtChanges(t.conns, t.stmts, op.stmt, StmtStep(t.stmts[op.stmt], op).1);
    }
  }

  lemma ConnChanges(envs: map<Handle, seq<Handle>>, conns: map<Handle, Conn>, c: Handle, conn: Conn)
    requires EnvsOk(envs, conns) && c in conns && conn.env == conns[c].env
    ensures EnvsOk(envs, conns[c := conn]) && conns[c := conn].Keys == conns.Keys
  {
    hide Distinct;
  }

  lemma AllocEnvKeeps(t: Tables)
    requires WellFormed(t)
    ensures WellFormed(Apply(t, AllocEnv).1)
  {
    hide StmtsOk, ConnsOk, Known, Distinct;
    NothingDistinct();
    NextUnused(t.envs.Keys, t.conns.Keys, t.stmts.Keys, t.next);
    KnownMore(t.envs.Keys, t.conns.Keys, t.stmts.Keys, t.next);
    assert t.envs[t.next := []].Keys == t.envs.Keys + {t.next};
  }

  lemma NothingDistinct()
    ensures Distinct([])
  {
  }

  lemma ConnAdded(envs: map<Handle, seq<Handle>>, conns: map<Handle, Conn>, e: Handle, c: Handle)
    requires EnvsOk(envs, conns) && e in envs && c !in conns
    ensures EnvsOk(envs[e := envs[e] + [c]], conns[c := Conn(e, [], false)])
  {
    hide Distinct;
    AppendDistinct(envs[e], c);
  }

  lemma EmptyConnAdded(conns: map<Handle, Conn>, stmts: map<Handle, Stmt>, e: Handle, c: Handle)
    requires ConnsOk(conns, stmts) && c !in conns
    ensures ConnsOk(conns[c := Conn(e, [], false)], stmts)
  {
    hide Distinct;
    NothingDistinct();
  }

  lemma AllocConnKeeps(t: Tables, e: Handle)
    requires WellFormed(t)
    ensures WellFormed(AllocatedConn(t, e).1)
  {
    hide StmtsOk, ConnsOk, EnvsOk, Known;
    if e in t.envs {
      NextUnused(t.envs.Keys, t.conns.Keys, t.stmts.Keys, t.next);
      KnownMore(t.envs.Keys, t.conns.Keys, t.stmts.Keys, t.next);
      ConnAdded(t.envs, t.conns, e, t.next);
      EmptyConnAdded(t.conns, t.stmts, e, t.next);
      assert t.envs[e := t.envs[e] + [t.next]].Keys == t.envs.Keys;
      assert t.conns[t.next := Conn(e, [], false)].Keys == t.conns.Keys + {t.next};
    }
  }

  lemma StmtAdded(conns: map<Handle, Conn>, stmts: map<Handle, Stmt>, c: Handle, s: Handle)
    requires ConnsOk(conns, stmts) && c in conns && conns[c].connected && s !in stmts
    ensures ConnsOk(conns[c := conns[c].(stmts := conns[c].stmts + [s])], stmts[s := NewStmt(c)])
  {
    hide Distinct;
    AppendDistinct(conns[c].stmts, s);
  }

  lemma AllocStmtKeeps(t: Tables, c: Handle)
    requires WellFormed(t)
    ensures WellFormed(AllocatedStmt(t, c).1)
  {
    hide StmtOk, ConnsOk, EnvsOk, Known;
    if c in t.conns && t.conns[c].connected {
      NextUnused(t.envs.Keys, t.conns.Keys, t.stmts.Keys, t.next);
      KnownMore(t.envs.Keys, t.conns.Keys, t.stmts.Keys, t.next);
      StmtAdded(t.conns, t.stmts, c, t.next);
      ConnChanges(t.envs, t.conns, c, t.conns[c].(stmts := t.conns[c].stmts + [t.next]));
      FreshOk(c);
      assert t.stmts[t.next := NewStmt(c)].Keys == t.stmts.Keys + {t.next};
    }
  }

  lemma FreshOk(c: Handle)
    ensures StmtOk(NewStmt(c))
  {
  }

  lemma FreeEnvKeeps(t: Tables, e: Handle)
    requires WellFormed(t)
    ensures WellFormed(Apply(t, FreeEnv(e)).1)
  {
    hide StmtsOk, ConnsOk, Distinct, Known;
    KnownLess(t.envs.Keys, t.conns.Keys, t.stmts.Keys, t.next, (t.envs - {e}).Keys, t.conns.Keys, t.stmts.Keys);
  }

  lemma ConnRemoved(envs: map<Handle, seq<Handle>>, conns: map<Handle, Conn>, c: Handle)
    requires EnvsOk(envs, conns) && c in conns
    ensures conns[c].env in envs && EnvsOk(envs[conns[c].env := Without(envs[conns[c].env], c)], conns - {c})
  {
    hide Distinct;
    WithoutDistinct(envs[conns[c].env], c);
  }

  lemma FreeConnKeeps(t: Tables, c: Handle)
    requires WellFormed(t)
    ensures WellFormed(FreedConn(t, c).1)
  {
    hide StmtsOk, EnvsOk, ConnsOk, Known;
    if c in t.conns && !t.conns[c].connected {
      ConnRemoved(t.envs, t.conns, c);
      IdleConnRemoved(t.conns, t.stmts, c);
      var e := t.conns[c].env;
      assert t.envs[e := Without(t.envs[e], c)].Keys == t.envs.Keys;
      KnownLess(t.envs.Keys, t.conns.Keys, t.stmts.Keys, t.next, t.envs.Keys, (t.conns - {c}).Keys, t.stmts.Keys);
    }
  }

  lemma IdleConnRemoved(conns: map<Handle, Conn>, stmts: map<Handle, Stmt>, c: Handle)
    requires ConnsOk(conns, stmts) && c in conns && !conns[c].connected
    ensures ConnsOk(conns - {c}, stmts)
  {
    hide Distinct;
  }

  lemma StmtIsOwned(conns: map<Handle, Conn>, stmts: map<Handle, Stmt>, s: Handle)
    requires StmtsOwned(conns, stmts) && s in stmts
    ensures stmts[s].conn in conns
  {
  }

  lemma StmtsStillOwned(conns: map<Handle, Conn>, stmts: map<Handle, Stmt>, s: Handle)
    requires StmtsOwned(conns, stmts) && s in stmts && stmts[s].conn in conns
    ensures var c := stmts[s].conn;
            StmtsOwned(conns[c := conns[c].(stmts := Without(conns[c].stmts, s))], stmts - {s})
  {
  }

  lemma StmtRemoved(conns: map<Handle, Conn>, stmts: map<Handle, Stmt>, s: Handle)
    requires ConnsOk(conns, stmts) && s in stmts
    ensures var c := stmts[s].conn;
            c in conns && ConnsOk(conns[c := conns[c].(stmts := Without(conns[c].stmts, s))], stmts - {s})
  {
    hide Distinct, StmtsOwned;
    var c := stmts[s].conn;
    assert c in conns by { StmtIsOwned(conns, stmts, s); }
    WithoutDistinct(conns[c].stmts, s);
    WithoutNothing(conns[c].stmts, s);
    StmtsStillOwned(conns, stmts, s);
  }

  lemma WithoutNothing(list: seq<Handle>, h: Handle)
    ensures list == [] ==> Without(list, h) == []
  {
  }

  lemma FreeStmtKeeps(t: Tables, s: Handle)
    requires WellFormed(t)
    ensures WellFormed(FreedStmt(t, s).1)
  {
    hide StmtOk, EnvsOk, ConnsOk, Known;
    if s in t.stmts {
      StmtRemoved(t.conns, t.stmts, s);
      var c := t.stmts[s].conn;
      ConnChanges(t.envs, t.conns, c, t.conns[c].(stmts := Without(t.conns[c].stmts, s)));
      KnownLess(t.envs.Keys, t.conns.Keys, t.stmts.Keys, t.next, t.envs.Keys, t.conns.Keys, (t.stmts - {s}).Keys);
    }
  }

  lemma SessionClosed(conns: map<Handle, Conn>, stmts: map<Handle, Stmt>, c: Handle)
    requires ConnsOk(conns, stmts) && c in conns
    ensures ConnsOk(conns[c := conns[c].(stmts := [], connected := false)], stmts - Members(conns[c].stmts))
  {
    hide Distinct;
    NothingDistinct();
  }

  lemma DisconnectKeeps(t: Tables, c: Handle)
    requires WellFormed(t)
    ensures WellFormed(Disconnected(t, c).1)
  {
    hide StmtOk, EnvsOk, ConnsOk, Known;
    if c in t.conns && t.conns[c].connected {
      var gone := Members(t.conns[c].stmts);
      SessionClosed(t.conns, t.stmts, c);
      ConnChanges(t.envs, t.conns, c, t.conns[c].(stmts := [], connected := false));
      KnownLess(t.envs.Keys, t.conns.Keys, t.stmts.Keys, t.next, t.envs.Keys, t.conns.Keys, (t.stmts - gone).Keys);
    }
  }

  lemma SessionOpened(conns: map<Handle, Conn>, stmts: map<Handle, Stmt>, c: Handle)
    requires ConnsOk(conns, stmts) && c in conns
    ensures ConnsOk(conns[c := conns[c].(connected := true)], stmts)
  {
    hide Distinct;
  }

  lemma ConnectKeeps(t: Tables, c: Handle, outcome: Result<()>)
    requires WellFormed(t)
    ensures WellFormed(Apply(t, Connect(c, outcome)).1)
  {
    hide StmtOk, EnvsOk, ConnsOk, Known;
    if c in t.conns {
      SessionOpened(t.conns, t.stmts, c);
      ConnChanges(t.envs, t.conns, c, t.conns[c].(connected := true));
    }
  }

  lemma ApplyKeeps(t: Tables, op: Op)
    requires WellFormed(t)
    ensures WellFormed(Apply(t, op).1)
  {
    hide StmtOk, StmtStep, WellFormed, FreedConn, FreedStmt, Disconnected, AllocatedConn, AllocatedStmt;
    if OnStmt(op) {
      OnStmtKeeps(t, op);
    } else {
      match op
      case AllocEnv => AllocEnvKeeps(t);
      case AllocConn(e) => AllocConnKeeps(t, e);
      case AllocStmt(c) => AllocStmtKeeps(t, c);
      case FreeEnv(e) => FreeEnvKeeps(t, e);
      case FreeConn(c) => FreeConnKeeps(t, c);
      case FreeStmt(s) => FreeStmtKeeps(t, s);
      case Connect(c, outcome) => ConnectKeeps(t, c, outcome);
      case Disconnect(c) => DisconnectKeeps(t, c);
    }
  }

  // ---------------------------------------------------------------- whole runs

  const EMPTY := Tables(map[], map[], map[], 0)

  function Run(t: Tables, ops: seq<Op>): Tables
    decreases ops
  {
    if ops == [] then t else Run(Apply(t, ops[0]).1, ops[1..])
  }

  /** Every state the application can reach by any sequence of calls, right or wrong, failing or
      not, is well formed. */
  lemma {:induction false} ReachableWellFormed(t: Tables, ops: seq<Op>)
    requires WellFormed(t)
    ensures WellFormed(Run(t, ops))
    decreases ops
  {
    hide Apply, WellFormed;
    if ops != [] {
      ApplyKeeps(t, ops[0]);
      ReachableWellFormed(Apply(t, ops[0]).1, ops[1..]);
    }
  }

  lemma StartsWellFormed()
    ensures WellFormed(EMPTY)
  {
  }

  /** A handle that was given out and is not live. */
  predicate Freed(t: Tables, h: Handle) {
    h < t.next && !Live(t, h)
  }

  lemma FreedStays(t: Tables, op: Op, h: Handle)
    requires WellFormed(t) && Freed(t, h)
    ensures Freed(Apply(t, op).1, h)
  {
    hide StmtOk, StmtStep, Distinct, Without;
  }

  lemma {:induction false} FreedForever(t: Tables, ops: seq<Op>, h: Handle)
    requires WellFormed(t) && Freed(t, h)
    ensures Freed(Run(t, ops), h)
    decreases ops
  {
    hide WellFormed, Freed, Apply;
    if ops != [] {
      ApplyKeeps(t, ops[0]);
      FreedStays(t, ops[0], h);
      FreedForever(Apply(t, ops[0]).1, ops[1..], h);
    }
  }

  predicate Names(op: Op, h: Handle) {
    match op
    case AllocEnv => false
    case AllocConn(e) => e == h
    case AllocStmt(c) => c == h
    case FreeEnv(e) => e == h
    case FreeConn(c) => c == h
    case Connect(c, _) => c == h
    case Disconnect(c) => c == h
    case _ => op.stmt == h
  }

  predicate Listed(t: Tables, h: Handle) {
    (exists e :: e in t.envs && h in t.envs[e]) || (exists c :: c in t.conns && h in t.conns[c].stmts)
  }

  lemma NotListed(t: Tables, h: Handle)
    requires WellFormed(t) && Freed(t, h)
    ensures !Listed(t, h)
  {
    hide Known, ConnsOwned, StmtsOwned, StmtsOk, Distinct;
  }

  lemma Refused(t: Tables, h: Handle, op: Op)
    requires Freed(t, h) && Names(op, h)
    ensures Apply(t, op) == (InvalidHandle, t)
  {
    hide StmtStep, Without;
  }

  /** Once freed a handle stays freed through any further calls: nothing lists it again, and every
      call that names it is refused and changes nothing. */
  lemma FreedIsGone(t: Tables, ops: seq<Op>, h: Handle, op: Op)
    requires WellFormed(t) && Freed(t, h) && Names(op, h)
    ensures Freed(Run(t, ops), h) && !Listed(Run(t, ops), h)
    ensures Apply(Run(t, ops), op) == (InvalidHandle, Run(t, ops))
  {
    hide Apply, WellFormed, Run, Freed, Listed;
    ReachableWellFormed(t, ops);
    FreedForever(t, ops, h);
    NotListed(Run(t, ops), h);
    Refused(Run(t, ops), h, op);
  }

  /** SQLGetData's row access is in range in every reachable state. */
  lemma CurrentRowInRange(ops: seq<Op>, h: Handle, col: nat)
    requires h in Run(EMPTY, ops).stmts
    ensures var s := Run(EMPTY, ops).stmts[h];
            StmtOk(s) &&
            (CellAt(s, col).Ok? ==>
               s.cursor.Some? && |s.rowset| > 0 && 1 <= col <= |s.rowset[0]| && col < s.getdata &&
               CellAt(s, col).value == s.rowset[0][col - 1]) &&
            (CellAt(s, col) == Err("24000") <==> !s.positioned) &&
            (CellAt(s, col) == Err("07009") <==> s.positioned && (col == 0 || col > s.cursor.value.width)) &&
            (CellAt(s, col).Err? <==> !s.positioned || col == 0 || col > s.cursor.value.width)
  {
    hide Run;
    StartsWellFormed();
    ReachableWellFormed(EMPTY, ops);
  }

  // ---------------------------------------------------------------- the entry points

  /** The driver's live objects, updated in place by each call. */
  class Driver {
    var envs: map<Handle, seq<Handle>>
    var conns: map<Handle, Conn>
    var stmts: map<Handle, Stmt>
    var next: Handle

    ghost function State(): Tables
      reads this
    {
      Tables(envs, conns, stmts, next)
    }

    constructor ()
      ensures State() == EMPTY
    {
      envs, conns, stmts, next := map[], map[], map[], 0;
    }

    method AllocHandle(op: Op) returns (rc: Rc, h: Handle)
      requires op.AllocEnv? || op.AllocConn? || op.AllocStmt?
      modifies this
      ensures (rc, State()) == Apply(old(State()), op)
      ensures rc == Success ==> h == old(next)
    {
      h := next;
      match op {
        case AllocEnv =>
          envs := envs[h := []];
        case AllocConn(e) =>
          if e !in envs { return InvalidHandle, h; }
          envs := envs[e := envs[e] + [h]];
          conns := conns[h := Conn(e, [], false)];
        case AllocStmt(c) =>
          if c !in conns { return InvalidHandle, h; }
          if !conns[c].connected { return Error("08003"), h; }
          conns := conns[c := conns[c].(stmts := conns[c].stmts + [h])];
          stmts := stmts[h := NewStmt(c)];
      }
      next := next + 1;
      return Success, h;
    }

    method FreeHandle(op: Op) returns (rc: Rc)
      requires op.FreeEnv? || op.FreeConn? || op.FreeStmt?
      modifies this
      ensures (rc, State()) == Apply(old(State()), op)
    {
      match op {
        case FreeEnv(e) =>
          if e !in envs { return InvalidHandle; }
          if envs[e] != [] { return Error("HY010"); }
          envs := envs - {e};
        case FreeConn(c) =>
          if c !in conns { return InvalidHandle; }
          if conns[c].connected { return Error("HY010"); }
          var e := conns[c].env;
          if e in envs { envs := envs[e := Without(envs[e], c)]; }
          conns := conns - {c};
        case FreeStmt(s) =>
          if s !in stmts { return InvalidHandle; }
          var c := stmts[s].conn;
          if c in conns { conns := conns[c := conns[c].(stmts := Without(conns[c].stmts, s))]; }
          stmts := stmts - {s};
      }
      return Success;
    }

    /** Deletes the connection's statements one by one, then its list. */
    method CloseSession(c: Handle) returns (rc: Rc)
      modifies this
      ensures (rc, State()) == Apply(old(State()), Disconnect(c))
    {
      if c !in conns { return InvalidHandle; }
      if !conns[c].connected { return Error("08003"); }
      var list, i := conns[c].stmts, 0;
      while i < |list|
        invariant i <= |list| && envs == old(envs) && conns == old(conns) && next == old(next)
        invariant stmts == old(stmts) - Members(list[..i])
      {
        assert Members(list[..i + 1]) == Members(list[..i]) + {list[i]};
        stmts := stmts - {list[i]};
        i := i + 1;
      }
      assert list[..i] == list;
      conns := conns[c := conns[c].(stmts := [], connected := false)];
      return Success;
    }

    method DoPrepare(h: Handle, plan: Result<Plan>) returns (rc: Rc)
      modifies this`stmts
      ensures (rc, State()) == Apply(old(State()), Prepare(h, plan))
    {
      if h !in stmts { return InvalidHandle; }
      var s := Closed(stmts[h]);
      s := s.(plan := None);
      if plan.Err? {
        stmts := stmts[h := s];
        return Error(plan.state);
      }
      s := s.(plan := Some(plan.value));
      stmts := stmts[h := s];
      return Success;
    }

    method DoExecute(h: Handle, failures: seq<Option<string>>, answer: Result<Answer>) returns (rc: Rc)
      modifies this`stmts
      ensures (rc, State()) == Apply(old(State()), Execute(h, failures, answer))
    {
      if h !in stmts { return InvalidHandle; }
      var s := stmts[h];
      if s.plan.None? {
        stmts := stmts[h := s];
        return Error("HY010");
      }
      var p := s.plan.value;
      s := Closed(s);
      stmts := stmts[h := s];
      for i := 0 to p.paramCount
        invariant ParamError(s.boundParams, failures, 0, p.paramCount) ==
                  ParamError(s.boundParams, failures, i, p.paramCount)
        invariant stmts == old(stmts)[h := s]
      {
        if i >= s.boundParams { return Error("07002"); }
        if i < |failures| && failures[i].Some? { return Error(failures[i].value); }
      }
      var cur;
      if p.kind == Constant {
        cur := Cursor(|p.columns|, [Ok(ConstRow(p.columns))]);
      } else if p.alwaysEmpty {
        cur := Cursor(|p.columns|, []);
      } else if answer.Err? {
        return Error(answer.state);
      } else if p.kind == Count {
        cur := Cursor(|p.columns|, [Ok([answer.value.total])]);
      } else {
        cur := Cursor(|p.columns|, Supply(p.columns, answer.value.records));
      }
      s := Opened(s, cur);
      assert stmts[h := s] == old(stmts)[h := s];
      stmts := stmts[h := s];
      return Success;
    }

    /** The loop over the cursor. */
    method DoFetch(h: Handle) returns (rc: Rc)
      modifies this`stmts
      ensures (rc, State()) == Apply(old(State()), Fetch(h))
    {
      if h !in stmts { return InvalidHandle; }
      var s := stmts[h];
      if s.cursor.None? {
        stmts := stmts[h := s];
        return Error("24000");
      }
      var cur := s.cursor.value;
      var rows: seq<C.Row>, supply, i := [], cur.supply, 0;
      ghost var whole := Pull(supply, s.rowArraySize);
      assert [] + whole.0 == whole.0;
      while i < s.rowArraySize && supply != []
        invariant i <= s.rowArraySize && stmts == old(stmts)
        invariant var more := Pull(supply, s.rowArraySize - i); whole == (rows + more.0, more.1, more.2)
      {
        if supply[0].Err? {
          assert rows + [] == rows;
          s := s.(cursor := Some(cur.(supply := supply[1..])), rowset := rows, positioned := false);
          stmts := stmts[h := s];
          return Error(supply[0].state);
        }
        ghost var more := Pull(supply[1..], s.rowArraySize - i - 1);
        assert rows + ([supply[0].value] + more.0) == (rows + [supply[0].value]) + more.0;
        rows, supply, i := rows + [supply[0].value], supply[1..], i + 1;
      }
      assert rows + [] == rows;
      s := s.(cursor := Some(cur.(supply := supply)), rowset := rows, positioned := false);
      if |rows| == 0 {
        stmts := stmts[h := s];
        return NoData;
      }
      s := s.(positioned := true, rowNumber := s.rowNumber + |rows|, getdata := cur.width + 1);
      stmts := stmts[h := s];
      return Success;
    }
  }
}
