/** What calls on handles answer and change, said without the functions that compute it, and what
    whole sequences of calls on one statement come to (src/odbc_impl.cpp). */
module Protocol {
  import opened Wrappers
  import C = Cursor
  import opened Handles

  // ---------------------------------------------------------------- environments and connections

  /** Allocating under a live parent gives out the next handle, with that parent. */
  lemma AllocConnAnswers(t: Tables, e: Handle)
    ensures var (rc, a) := Apply(t, AllocConn(e));
            if e !in t.envs then rc == InvalidHandle && a == t
            else
              rc == Success && a.next == t.next + 1 && a.stmts == t.stmts &&
              a.envs == t.envs[e := t.envs[e] + [t.next]] && a.conns == t.conns[t.next := Conn(e, [], false)]
    ensures Apply(t, AllocEnv) == (Success, Tables(t.envs[t.next := []], t.conns, t.stmts, t.next + 1))
  {
  }

  /** A statement needs a session. */
  lemma AllocStmtAnswers(t: Tables, c: Handle)
    ensures var (rc, a) := Apply(t, AllocStmt(c));
            if c !in t.conns then rc == InvalidHandle && a == t
            else if !t.conns[c].connected then rc == Error("08003") && a == t
            else
              rc == Success && a.next == t.next + 1 && a.envs == t.envs &&
              a.conns == t.conns[c := Conn(t.conns[c].env, t.conns[c].stmts + [t.next], true)] &&
              a.stmts == t.stmts[t.next := Stmt(c, None, None, [], false, 0, 0, 1, 0)]
  {
  }

  lemma NoConnections(t: Tables, e: Handle)
    requires WellFormed(t) && e in t.envs
    ensures t.envs[e] == [] <==> forall c :: c in t.conns ==> t.conns[c].env != e
  {
    hide StmtsOk, ConnsOk, Known, Distinct;
    if t.envs[e] != [] { assert t.envs[e][0] in t.envs[e]; }
  }

  /** An environment is freed exactly when no connection of it lives. */
  lemma FreeEnvAnswers(t: Tables, e: Handle)
    requires WellFormed(t)
    ensures var (rc, a) := Apply(t, FreeEnv(e));
            if e !in t.envs then rc == InvalidHandle && a == t
            else if exists c :: c in t.conns && t.conns[c].env == e then rc == Error("HY010") && a == t
            else rc == Success && a == t.(envs := map x | x in t.envs && x != e :: t.envs[x])
  {
    hide WellFormed;
    if e in t.envs { NoConnections(t, e); }
  }

  lemma OwnerLives(t: Tables, h: Handle)
    requires WellFormed(t)
    ensures h in t.conns ==> t.conns[h].env in t.envs
    ensures h in t.stmts ==> t.stmts[h].conn in t.conns
  {
    hide Distinct, StmtsOk;
  }

  /** A connection is freed exactly when it has no session. */
  lemma FreeConnAnswers(t: Tables, c: Handle)
    requires WellFormed(t)
    ensures var (rc, a) := Apply(t, FreeConn(c));
            if c !in t.conns then rc == InvalidHandle && a == t
            else if t.conns[c].connected then rc == Error("HY010") && a == t
            else
              rc == Success && a.conns == (map x | x in t.conns && x != c :: t.conns[x]) && a.stmts == t.stmts &&
              a.next == t.next && a.envs.Keys == t.envs.Keys
  {
    hide WellFormed, Without;
    OwnerLives(t, c);
  }

  /** A statement is freed at any time. */
  lemma FreeStmtAnswers(t: Tables, s: Handle)
    requires WellFormed(t)
    ensures var (rc, a) := Apply(t, FreeStmt(s));
            if s !in t.stmts then rc == InvalidHandle && a == t
            else
              rc == Success && a.stmts == (map x | x in t.stmts && x != s :: t.stmts[x]) && a.envs == t.envs &&
              a.next == t.next && a.conns.Keys == t.conns.Keys
  {
    hide WellFormed, Without;
    OwnerLives(t, s);
  }

  lemma OfConnection(t: Tables, c: Handle)
    requires WellFormed(t) && c in t.conns
    ensures Members(t.conns[c].stmts) == set s | s in t.stmts && t.stmts[s].conn == c
  {
    hide StmtsOk, EnvsOk, Known, Distinct;
  }

  /** A session is opened once, with the outcome of the login; closing it deletes exactly the
      statements of the connection. */
  lemma SessionAnswers(t: Tables, c: Handle, outcome: Result<()>)
    requires WellFormed(t)
    ensures var (rc, a) := Apply(t, Connect(c, outcome));
            if c !in t.conns then rc == InvalidHandle && a == t
            else if t.conns[c].connected then rc == Error("08002") && a == t
            else if outcome.Err? then rc == Error(outcome.state) && a == t
            else rc == Success && a == t.(conns := t.conns[c := Conn(t.conns[c].env, t.conns[c].stmts, true)])
    ensures var (rc, a) := Apply(t, Disconnect(c));
            if c !in t.conns then rc == InvalidHandle && a == t
            else if !t.conns[c].connected then rc == Error("08003") && a == t
            else
              rc == Success && a.envs == t.envs && a.next == t.next &&
              a.conns == t.conns[c := Conn(t.conns[c].env, [], false)] &&
              a.stmts == map s | s in t.stmts && t.stmts[s].conn != c :: t.stmts[s]
  {
    hide WellFormed;
    if c in t.conns { OfConnection(t, c); }
  }

  // ---------------------------------------------------------------- one statement

  /** Everything a closed cursor leaves behind is empty. */
  predicate Idle(s: Stmt) {
    s.cursor == None && s.rowset == [] && !s.positioned && s.getdata == 0 && s.rowNumber == 0
  }

  predicate SameSetup(s: Stmt, t: Stmt) {
    s.conn == t.conn && s.rowArraySize == t.rowArraySize && s.boundParams == t.boundParams
  }

  /** Preparing closes the cursor, and a statement that cannot be prepared has no plan. */
  lemma PrepareAnswers(s: Stmt, h: Handle, plan: Result<Plan>)
    ensures var (rc, t) := StmtStep(s, Prepare(h, plan));
            Idle(t) && SameSetup(s, t) &&
            if plan.Ok? then rc == Success && t.plan == Some(plan.value) else rc == Error(plan.state) && t.plan == None
  {
  }

  /** Parameter `i` is not bound, or its value cannot be read. */
  predicate Missing(s: Stmt, failures: seq<Option<string>>, i: nat) {
    i >= s.boundParams || (i < |failures| && failures[i].Some?)
  }

  /** Parameter `k` is the first from `i` on that is missing. */
  predicate FirstMiss(s: Stmt, failures: seq<Option<string>>, i: nat, k: nat) {
    Missing(s, failures, k) && forall j :: i <= j < k ==> !Missing(s, failures, j)
  }

  lemma {:induction false} FirstMissing(s: Stmt, failures: seq<Option<string>>, i: nat, n: nat) returns (k: nat)
    ensures match ParamError(s.boundParams, failures, i, n)
            case None => forall j :: i <= j < n ==> !Missing(s, failures, j)
            case Some(e) =>
              i <= k < n && FirstMiss(s, failures, i, k) &&
              e == if k >= s.boundParams then "07002" else failures[k].value
    decreases n - i
  {
    k := i;
    if i < n && !Missing(s, failures, i) { k := FirstMissing(s, failures, i + 1, n); }
  }

  predicate AsksServer(p: Plan) {
    p.kind != Constant && !p.alwaysEmpty
  }

  /** Executing needs a plan and all its parameters, and opens a cursor unless the server refuses;
      whenever there is a plan the cursor that was open is gone. */
  lemma ExecuteAnswers(s: Stmt, h: Handle, failures: seq<Option<string>>, answer: Result<Answer>)
    ensures var (rc, t) := StmtStep(s, Execute(h, failures, answer));
            SameSetup(s, t) && t.plan == s.plan &&
            if s.plan == None then rc == Error("HY010") && t == s
            else
              var p := s.plan.value;
              (rc == Success <==>
                 (forall i :: 0 <= i < p.paramCount ==> !Missing(s, failures, i)) && (AsksServer(p) ==> answer.Ok?)) &&
              (if rc == Success then t.cursor.Some? && Idle(t.(cursor := None, getdata := 0)) else Idle(t))
  {
    hide ConstRow, Supply;
    if s.plan.Some? { var k := FirstMissing(s, failures, 0, s.plan.value.paramCount); }
  }

  /** The error is that of the first parameter that is missing, otherwise the server's. */
  lemma ExecuteFails(s: Stmt, h: Handle, failures: seq<Option<string>>, answer: Result<Answer>, k: nat)
    requires s.plan.Some?
    ensures k < s.plan.value.paramCount && FirstMiss(s, failures, 0, k) ==>
              StmtStep(s, Execute(h, failures, answer)).0 ==
              Error(if k >= s.boundParams then "07002" else failures[k].value)
    ensures (forall i :: 0 <= i < s.plan.value.paramCount ==> !Missing(s, failures, i)) && AsksServer(s.plan.value) &&
            answer.Err? ==>
              StmtStep(s, Execute(h, failures, answer)).0 == Error(answer.state)
  {
    hide ConstRow, Supply;
    var j := FirstMissing(s, failures, 0, s.plan.value.paramCount);
  }

  /** What `next` will produce once a plan is executed: the constants as one row, nothing, the count
      as one row, or a row for each record and an error where a request fails. */
  predicate Produces(p: Plan, answer: Result<Answer>, supply: seq<Result<C.Row>>) {
    if p.kind == Constant then
      |supply| == 1 && supply[0].Ok? && |supply[0].value| == |p.columns| &&
      forall i :: 0 <= i < |p.columns| ==> supply[0].value[i] == p.columns[i].constValue
    else if p.alwaysEmpty then supply == []
    else
      answer.Ok? &&
      if p.kind == Count then supply == [Ok([answer.value.total])]
      else
        |supply| == |answer.value.records| &&
        forall i :: 0 <= i < |supply| ==> Row(p, answer.value.records[i], supply[i])
  }

  predicate Row(p: Plan, record: Result<C.Json>, row: Result<C.Row>) {
    if record.Err? then row == Err(record.state)
    else
      row.Ok? && |row.value| == |p.columns| &&
      forall k :: 0 <= k < |p.columns| ==> row.value[k] == C.CellOf(p.columns[k], record.value)
  }

  lemma ExecuteOpens(s: Stmt, h: Handle, failures: seq<Option<string>>, answer: Result<Answer>)
    requires StmtStep(s, Execute(h, failures, answer)).0 == Success
    ensures s.plan.Some?
    ensures var t := StmtStep(s, Execute(h, failures, answer)).1;
            t.cursor.Some? && t.cursor.value.width == |s.plan.value.columns| &&
            t.getdata == |s.plan.value.columns| + 1 && Produces(s.plan.value, answer, t.cursor.value.supply)
  {
    hide ParamError;
  }

  /** SQLExecDirect is SQLPrepare followed, where that succeeds, by SQLExecute. */
  lemma DirectAnswers(s: Stmt, h: Handle, plan: Result<Plan>, failures: seq<Option<string>>, answer: Result<Answer>)
    ensures var prepared := StmtStep(s, Prepare(h, plan));
            StmtStep(s, ExecDirect(h, plan, failures, answer)) ==
            if plan.Ok? then StmtStep(prepared.1, Execute(h, failures, answer)) else prepared
  {
    hide Executed;
  }

  /** A catalog call opens a cursor over its rows and leaves no plan; one that fails changes nothing. */
  lemma CatalogAnswers(s: Stmt, h: Handle, catalog: Result<Catalog>)
    ensures var (rc, t) := StmtStep(s, OpenCatalog(h, catalog));
            if catalog.Err? then rc == Error(catalog.state) && t == s
            else
              rc == Success && SameSetup(s, t) && t.plan == None && t.cursor.Some? &&
              Idle(t.(cursor := None, getdata := 0)) && t.getdata == catalog.value.width + 1 &&
              t.cursor.value.width == catalog.value.width && |t.cursor.value.supply| == |catalog.value.rows| &&
              forall i :: 0 <= i < |catalog.value.rows| ==> t.cursor.value.supply[i] == Ok(catalog.value.rows[i])
  {
  }

  /** Closing keeps the plan; only SQLCloseCursor insists on an open cursor. */
  lemma CloseAnswers(s: Stmt, h: Handle, n: nat)
    ensures var (rc, t) := StmtStep(s, CloseCursor(h));
            if s.cursor == None then rc == Error("24000") && t == s
            else rc == Success && Idle(t) && SameSetup(s, t) && t.plan == s.plan
    ensures var (rc, t) := StmtStep(s, FreeStmtClose(h));
            rc == Success && Idle(t) && SameSetup(s, t) && t.plan == s.plan
    ensures StmtStep(s, SetRowArraySize(h, n)) ==
            if n == 0 then (Error("HY024"), s) else (Success, s.(rowArraySize := n))
    ensures StmtStep(s, BindParams(h, n)) == (Success, s.(boundParams := n))
  {
  }

  // ---------------------------------------------------------------- fetching

  /** How many rows come before the first error, at most `n`. */
  predicate Leading(supply: seq<Result<C.Row>>, n: nat, k: nat) {
    k <= n && k <= |supply| && (forall i :: 0 <= i < k ==> supply[i].Ok?) &&
    (k == n || k == |supply| || supply[k].Err?)
  }

  lemma {:induction false} PullLeads(supply: seq<Result<C.Row>>, n: nat)
    ensures var (rows, err, rest) := Pull(supply, n);
            var k := |rows|;
            Leading(supply, n, k) && (forall i :: 0 <= i < k ==> supply[i] == Ok(rows[i])) &&
            if k == n || k == |supply| then err == None && rest == supply[k..]
            else err == Some(supply[k].state) && rest == supply[k + 1..]
    decreases n
  {
    if n > 0 && supply != [] && supply[0].Ok? {
      PullLeads(supply[1..], n - 1);
      var (rows, err, rest) := Pull(supply[1..], n - 1);
      var k := |rows|;
      forall i | 0 <= i < k + 1 ensures supply[i] == Ok(([supply[0].value] + rows)[i]) {
        if i > 0 { assert supply[i] == supply[1..][i - 1]; }
      }
    }
  }

  /** A fetch hands over the next rows, as many as the rowset takes: the rowset is current unless it
      is empty or an error stopped it, which then costs the error its place and the rows their return. */
  lemma FetchAnswers(s: Stmt, h: Handle, k: nat)
    requires s.cursor.Some? ==> Leading(s.cursor.value.supply, s.rowArraySize, k)
    ensures var (rc, t) := StmtStep(s, Fetch(h));
            if s.cursor == None then rc == Error("24000") && t == s
            else
              var supply := s.cursor.value.supply;
              SameSetup(s, t) && t.plan == s.plan && t.cursor.Some? && t.cursor.value.width == s.cursor.value.width &&
              |t.rowset| == k && (forall i :: 0 <= i < k ==> supply[i] == Ok(t.rowset[i])) &&
              (if k < s.rowArraySize && k < |supply|
               then rc == Error(supply[k].state) && t.cursor.value.supply == supply[k + 1..]
               else t.cursor.value.supply == supply[k..] && rc == if k == 0 then NoData else Success) &&
              t.positioned == (rc == Success) && t.rowNumber == s.rowNumber + (if rc == Success then k else 0) &&
              t.getdata == if rc == Success then s.cursor.value.width + 1 else s.getdata
  {
    hide Pull;
    if s.cursor.Some? { PullLeads(s.cursor.value.supply, s.rowArraySize); }
  }

  // ---------------------------------------------------------------- sequences of calls on a statement

  function After(s: Stmt, ops: seq<Op>): Stmt {
    if ops == [] then s else StmtStep(After(s, ops[..|ops| - 1]), ops[|ops| - 1]).1
  }

  /** The rows the fetches among the calls put into their rowsets. */
  function Handed(s: Stmt, ops: seq<Op>): seq<C.Row> {
    if ops == [] then []
    else
      var n := |ops| - 1;
      Handed(s, ops[..n]) + if ops[n].Fetch? then After(s, ops).rowset else []
  }

  predicate Reading(ops: seq<Op>) {
    forall i :: 0 <= i < |ops| ==> ops[i].Fetch? || ops[i].SetRowArraySize? || ops[i].BindParams?
  }

  function RowsIn(supply: seq<Result<C.Row>>): seq<C.Row> {
    if supply == [] then [] else (if supply[0].Ok? then [supply[0].value] else []) + RowsIn(supply[1..])
  }

  lemma {:induction false} RowsJoin(a: seq<Result<C.Row>>, b: seq<Result<C.Row>>)
    ensures RowsIn(a + b) == RowsIn(a) + RowsIn(b)
  {
    if a == [] {
      assert a + b == b;
    } else {
      RowsJoin(a[1..], b);
      assert (a + b)[0] == a[0] && (a + b)[1..] == a[1..] + b;
      var first := if a[0].Ok? then [a[0].value] else [];
      assert first + (RowsIn(a[1..]) + RowsIn(b)) == (first + RowsIn(a[1..])) + RowsIn(b);
    }
  }

  lemma {:induction false} AllRows(supply: seq<Result<C.Row>>, rows: seq<C.Row>)
    requires |supply| == |rows| && forall i :: 0 <= i < |rows| ==> supply[i] == Ok(rows[i])
    ensures RowsIn(supply) == rows
  {
    if rows != [] {
      AllRows(supply[1..], rows[1..]);
      assert rows == [rows[0]] + rows[1..];
    }
  }

  lemma FetchHands(s: Stmt, h: Handle) returns (k: nat)
    requires s.cursor.Some?
    ensures var t := StmtStep(s, Fetch(h)).1;
            var supply := s.cursor.value.supply;
            k <= |supply| && t.cursor.Some? && t.cursor.value.supply == supply[k..] && RowsIn(supply[..k]) == t.rowset
  {
    var supply := s.cursor.value.supply;
    hide Pull;
    PullLeads(supply, s.rowArraySize);
    var t := StmtStep(s, Fetch(h)).1;
    k := |t.rowset|;
    AllRows(supply[..k], t.rowset);
    if k < s.rowArraySize && k < |supply| {
      RowsJoin(supply[..k], [supply[k]]);
      assert supply[..k + 1] == supply[..k] + [supply[k]];
      assert RowsIn([supply[k]]) == [];
      k := k + 1;
    }
  }

  /** The last of several calls. */
  lemma LastCall(s: Stmt, ops: seq<Op>)
    requires ops != []
    ensures var n := |ops| - 1;
            var t := After(s, ops[..n]);
            After(s, ops) == StmtStep(t, ops[n]).1 &&
            (ops[n].Fetch? ==> Handed(s, ops) == Handed(s, ops[..n]) + StmtStep(t, ops[n]).1.rowset) &&
            (!ops[n].Fetch? ==> Handed(s, ops) == Handed(s, ops[..n]))
  {
    hide StmtStep;
    assert Handed(s, ops[..|ops| - 1]) + [] == Handed(s, ops[..|ops| - 1]);
  }

  lemma QuietCall(s: Stmt, op: Op)
    requires op.SetRowArraySize? || op.BindParams?
    ensures StmtStep(s, op).1.cursor == s.cursor
  {
  }

  lemma TwoPieces(supply: seq<Result<C.Row>>, k: nat, m: nat)
    requires k + m <= |supply|
    ensures RowsIn(supply[..k]) + RowsIn(supply[k..][..m]) == RowsIn(supply[..k + m])
    ensures supply[k..][m..] == supply[k + m..]
  {
    hide RowsIn;
    assert supply[k..][..m] == supply[k..k + m];
    assert supply[..k] + supply[k..k + m] == supply[..k + m];
    RowsJoin(supply[..k], supply[k..k + m]);
  }

  /** However rowset sizes change, the rowsets of consecutive fetches join to the rows of the cursor in
      order, none left out and none repeated, errors standing between them. */
  lemma {:induction false} RowsInOrder(s: Stmt, ops: seq<Op>) returns (k: nat)
    requires s.cursor.Some? && Reading(ops)
    ensures var supply := s.cursor.value.supply;
            k <= |supply| && After(s, ops).cursor.Some? && After(s, ops).cursor.value.supply == supply[k..] &&
            Handed(s, ops) == RowsIn(supply[..k])
  {
    var supply := s.cursor.value.supply;
    if ops == [] {
      k := 0;
      assert supply[..0] == [] && supply[0..] == supply;
    } else {
      hide StmtStep, After, Handed, RowsIn;
      var n := |ops| - 1;
      k := RowsInOrder(s, ops[..n]);
      var t := After(s, ops[..n]);
      LastCall(s, ops);
      if ops[n].Fetch? {
        var m := FetchHands(t, ops[n].stmt);
        TwoPieces(supply, k, m);
        k := k + m;
      } else {
        QuietCall(t, ops[n]);
      }
    }
  }

  /** The plan a statement has is the one last prepared, unless that failed or a catalog call came
      after it. */
  function LastPlan(plan: Option<Plan>, ops: seq<Op>): Option<Plan> {
    if ops == [] then plan
    else
      match ops[|ops| - 1]
      case Prepare(_, outcome) => if outcome.Ok? then Some(outcome.value) else None
      case ExecDirect(_, outcome, _, _) => if outcome.Ok? then Some(outcome.value) else None
      case OpenCatalog(_, outcome) => if outcome.Ok? then None else LastPlan(plan, ops[..|ops| - 1])
      case _ => LastPlan(plan, ops[..|ops| - 1])
  }

  lemma {:induction false} PlanFollows(s: Stmt, ops: seq<Op>)
    ensures After(s, ops).plan == LastPlan(s.plan, ops)
  {
    if ops != [] {
      var n := |ops| - 1;
      PlanFollows(s, ops[..n]);
      PlanStep(After(s, ops[..n]), ops[n]);
      hide StmtStep;
    }
  }

  lemma PlanStep(s: Stmt, op: Op)
    ensures StmtStep(s, op).1.plan ==
            if op.Prepare? || op.ExecDirect? then (if op.plan.Ok? then Some(op.plan.value) else None)
            else if op.OpenCatalog? && op.catalog.Ok? then None
            else s.plan
  {
    hide Pull, ParamError, Supply, ConstRow;
  }

  /** SQLExecute is refused for want of a plan exactly when the calls so far left none. */
  lemma ExecuteNeedsPlan(s: Stmt, ops: seq<Op>, h: Handle, failures: seq<Option<string>>, answer: Result<Answer>)
    requires LastPlan(s.plan, ops) == None
    ensures StmtStep(After(s, ops), Execute(h, failures, answer)) == (Error("HY010"), After(s, ops))
  {
    PlanFollows(s, ops);
    ExecuteAnswers(After(s, ops), h, failures, answer);
  }

  // ---------------------------------------------------------------- statements do not disturb each other

  function Own(ops: seq<Op>, h: Handle): seq<Op> {
    if ops == [] then []
    else
      var n := |ops| - 1;
      Own(ops[..n], h) + if OnStmt(ops[n]) && ops[n].stmt == h then [ops[n]] else []
  }

  lemma OneCall(t: Tables, op: Op, h: Handle)
    requires WellFormed(t) && h in t.stmts && h in Apply(t, op).1.stmts
    ensures Apply(t, op).1.stmts[h] == if OnStmt(op) && op.stmt == h then StmtStep(t.stmts[h], op).1 else t.stmts[h]
  {
    hide StmtStep, EnvsOk, ConnsOk, StmtsOk, Without;
  }

  lemma GoneStays(t: Tables, op: Op, h: Handle)
    requires WellFormed(t) && h in t.stmts && h !in Apply(t, op).1.stmts
    ensures Freed(Apply(t, op).1, h)
  {
    hide StmtStep, EnvsOk, ConnsOk, StmtsOk, Without;
  }

  lemma {:induction false} RunSplits(t: Tables, ops: seq<Op>)
    requires ops != []
    ensures Run(t, ops) == Apply(Run(t, ops[..|ops| - 1]), ops[|ops| - 1]).1
    decreases ops
  {
    hide Apply;
    var n := |ops| - 1;
    if n > 0 {
      RunSplits(Apply(t, ops[0]).1, ops[1..]);
      assert ops[1..][..n - 1] == ops[..n][1..];
    }
  }

  lemma {:induction false} LivesOrFreed(t: Tables, ops: seq<Op>, h: Handle)
    requires WellFormed(t) && (h in t.stmts || Freed(t, h))
    ensures h in Run(t, ops).stmts || Freed(Run(t, ops), h)
    decreases ops
  {
    hide Apply, WellFormed, Freed;
    if ops != [] {
      var a := Apply(t, ops[0]).1;
      ApplyKeeps(t, ops[0]);
      if h !in a.stmts {
        if Freed(t, h) { FreedStays(t, ops[0], h); } else { GoneStays(t, ops[0], h); }
      }
      LivesOrFreed(a, ops[1..], h);
    }
  }

  lemma StillThere(t: Tables, ops: seq<Op>, h: Handle)
    requires WellFormed(t) && h in t.stmts && ops != [] && h in Run(t, ops).stmts
    ensures h in Run(t, ops[..|ops| - 1]).stmts
  {
    hide Apply, WellFormed, Run, Freed;
    var before := ops[..|ops| - 1];
    LivesOrFreed(t, before, h);
    if Freed(Run(t, before), h) {
      ReachableWellFormed(t, before);
      FreedStays(Run(t, before), ops[|ops| - 1], h);
      RunSplits(t, ops);
      FreedIsOut(Run(t, ops), h);
    }
  }

  lemma FreedIsOut(t: Tables, h: Handle)
    requires Freed(t, h)
    ensures h !in t.stmts
  {
  }

  /** A statement that still lives is what the calls on it made of it, whatever was called on other
      handles in between. */
  lemma {:induction false} StatementsAreSeparate(t: Tables, ops: seq<Op>, h: Handle)
    requires WellFormed(t) && h in t.stmts && h in Run(t, ops).stmts
    ensures Run(t, ops).stmts[h] == After(t.stmts[h], Own(ops, h))
  {
    hide Apply, StmtStep, WellFormed, Run;
    if ops == [] {
      RunNothing(t);
    } else {
      var n := |ops| - 1;
      RunSplits(t, ops);
      StillThere(t, ops, h);
      ReachableWellFormed(t, ops[..n]);
      StatementsAreSeparate(t, ops[..n], h);
      OneCall(Run(t, ops[..n]), ops[n], h);
      var own := Own(ops[..n], h);
      if OnStmt(ops[n]) && ops[n].stmt == h {
        assert (own + [ops[n]])[..|own|] == own;
      } else {
        assert own + [] == own;
      }
    }
  }

  lemma RunNothing(t: Tables)
    ensures Run(t, []) == t
  {
  }
}
