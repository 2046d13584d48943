/** The page-by-page cursor (src/cursor.cpp) and what it refines: a flat list of rows. */
module Cursor {
  import opened Wrappers
  import opened Text

  // ---------------------------------------------------------------- rows from records

  /** A JSON value as the driver looks at it: objects for paths, anything else as a leaf. */
  datatype Json = Null | Leaf(text: string) | Obj(fields: seq<(string, Json)>)

  type Cell = Option<seq<Byte>>

  type Row = seq<Cell>

  predicate Rectangular(rows: seq<Row>, width: nat) {
    forall i :: 0 <= i < |rows| ==> |rows[i]| == width
  }

  /** `convert` is the text form the driver gives to a non-null JSON value of the column's type. */
  datatype ColumnInfo = ColumnInfo(path: seq<string>, isConst: bool, constValue: Cell, convert: Json -> seq<Byte>)

  function FindExact(fields: seq<(string, Json)>, key: string): Option<Json> {
    if fields == [] then None
    else if fields[0].0 == key then Some(fields[0].1)
    else FindExact(fields[1..], key)
  }

  function FindAnyCase(fields: seq<(string, Json)>, key: string): Option<Json> {
    if fields == [] then None
    else if IEquals(fields[0].0, key) then Some(fields[0].1)
    else FindAnyCase(fields[1..], key)
  }

  /** `find_key_ci`: the key as written if the object has it, otherwise in any case. */
  function FindKey(j: Json, key: string): Option<Json> {
    if !j.Obj? then None
    else if FindExact(j.fields, key).Some? then FindExact(j.fields, key)
    else FindAnyCase(j.fields, key)
  }

  function Walk(j: Json, path: seq<string>): Option<Json>
    decreases path
  {
    if path == [] then Some(j)
    else
      match FindKey(j, path[0])
      case None => None
      case Some(next) => if next.Null? then Some(Null) else Walk(next, path[1..])
  }

  function CellOf(c: ColumnInfo, rec: Json): Cell {
    if c.isConst then c.constValue
    else
      match Walk(rec, c.path)
      case None => None
      case Some(j) => if j.Null? then None else Some(c.convert(j))
  }

  /** One cell per column. */
  function RowOf(cols: seq<ColumnInfo>, rec: Json): (row: seq<Cell>)
    ensures |row| == |cols| && forall i :: 0 <= i < |cols| ==> row[i] == CellOf(cols[i], rec)
  {
    seq(|cols|, i requires 0 <= i < |cols| => CellOf(cols[i], rec))
  }

  function RowsOf(cols: seq<ColumnInfo>, recs: seq<Json>): (r: seq<Row>)
    ensures |r| == |recs| && Rectangular(r, |cols|)
    ensures forall i :: 0 <= i < |recs| ==> r[i] == RowOf(cols, recs[i])
  {
    seq(|recs|, i requires 0 <= i < |recs| => RowOf(cols, recs[i]))
  }

  // ---------------------------------------------------------------- the cursor as a value

  /** A server answer to one page request. */
  datatype Page = Page(records: seq<Json>, done: bool, nextUrl: string)

  predicate Last(p: Page) {
    p.done || p.nextUrl == ""
  }

  /** What a cursor will still do: the records of the current page, whether it was the last, the
      answers the server will give, and how many rows were and may be delivered (0: no limit). */
  datatype View = View(pending: seq<Json>, done: bool, answers: seq<Result<Page>>, delivered: nat, maxRows: nat)

  predicate Full(v: View) {
    v.maxRows > 0 && v.delivered >= v.maxRows
  }

  function Loaded(v: View, p: Page): View
    requires v.answers != []
  {
    v.(pending := p.records, done := Last(p), answers := v.answers[1..])
  }

  /** One call of `next`: a record, the end, or the error of a page request. */
  function NextStep(v: View, cancelled: bool): (Result<Option<Json>>, View)
    decreases |v.answers|
  {
    if Full(v) then (Ok(None), v)
    else if v.pending != [] then
      (Ok(Some(v.pending[0])), v.(pending := v.pending[1..], delivered := v.delivered + 1))
    else if v.done then (Ok(None), v)
    else if cancelled then (Err("HY008"), v)
    else if v.answers == [] then (Err("08S01"), v)
    else if v.answers[0].Err? then (Err(v.answers[0].state), v.(answers := v.answers[1..]))
    else NextStep(Loaded(v, v.answers[0].value), cancelled)
  }

  /** Up to `n` calls of `next`; the rows read before an error are lost. */
  function FetchStep(v: View, n: nat, cancelled: bool): (Result<seq<Json>>, View)
    decreases n
  {
    if n == 0 then (Ok([]), v)
    else
      var (r, v') := NextStep(v, cancelled);
      if r.Err? then (Err(r.state), v')
      else if r.value.None? then (Ok([]), v')
      else
        var (rest, v'') := FetchStep(v', n - 1, cancelled);
        if rest.Err? then (rest, v'') else (Ok([r.value.value] + rest.value), v'')
  }

  // ---------------------------------------------------------------- the flat list

  /** The records of the answers that arrive, up to the last page; failed requests bring none. */
  function Flow(answers: seq<Result<Page>>): seq<Json> {
    if answers == [] then []
    else if answers[0].Err? then Flow(answers[1..])
    else
      var page := answers[0].value;
      page.records + if page.done || page.nextUrl == "" then [] else Flow(answers[1..])
  }

  function All(v: View): seq<Json> {
    v.pending + if v.done then [] else Flow(v.answers)
  }

  function Cut(s: seq<Json>, n: nat): seq<Json> {
    if |s| <= n then s else s[..n]
  }

  /** The records the cursor still has for its caller: all of them, cut where the row limit is
      reached. */
  function Rest(v: View): seq<Json> {
    if v.maxRows == 0 then All(v)
    else if v.delivered >= v.maxRows then []
    else Cut(All(v), v.maxRows - v.delivered)
  }

  /** Every page up to the last one arrives, without a failed request before it. */
  predicate Arrives(answers: seq<Result<Page>>) {
    answers != [] && answers[0].Ok? &&
    var page := answers[0].value;
    page.done || page.nextUrl == "" || Arrives(answers[1..])
  }

  predicate Healthy(v: View) {
    v.done || Arrives(v.answers)
  }

  function AfterAnswer(v: View): View
    requires v.answers != []
  {
    if v.answers[0].Err? then v.(answers := v.answers[1..]) else Loaded(v, v.answers[0].value)
  }

  lemma AnswerKeepsRest(v: View)
    requires v.pending == [] && !v.done && v.answers != []
    ensures Rest(AfterAnswer(v)) == Rest(v)
    ensures Healthy(v) ==> v.answers[0].Ok? && Healthy(AfterAnswer(v))
  {
    assert v.pending + Flow(v.answers) == Flow(v.answers);
    if v.answers[0].Err? {
      assert v.pending + Flow(v.answers[1..]) == Flow(v.answers[1..]);
    }
  }

  lemma RestStep(v: View)
    requires v.pending != [] && !Full(v)
    ensures Rest(v) == [v.pending[0]] + Rest(v.(pending := v.pending[1..], delivered := v.delivered + 1))
  {
    var w := v.(pending := v.pending[1..], delivered := v.delivered + 1);
    assert All(v) == [v.pending[0]] + All(w);
  }

  /** `next` hands out the flat list from the front, says it is over only when it is, and loses
      nothing when it fails. */
  lemma {:induction false} NextIsFirst(v: View, cancelled: bool)
    ensures var (r, w) := NextStep(v, cancelled);
            w.maxRows == v.maxRows &&
            w.delivered == v.delivered + (if r.Ok? && r.value.Some? then 1 else 0) &&
            (r.Ok? && r.value.None? ==> Rest(v) == []) &&
            Rest(v) == (if r.Ok? && r.value.Some? then [r.value.value] else []) + Rest(w)
    ensures Healthy(v) ==> Healthy(NextStep(v, cancelled).1) && (cancelled || NextStep(v, cancelled).0.Ok?)
    decreases |v.answers|
  {
    if Full(v) {
    } else if v.pending != [] {
      RestStep(v);
    } else if !v.done && !cancelled && v.answers != [] {
      AnswerKeepsRest(v);
      if v.answers[0].Ok? { NextIsFirst(Loaded(v, v.answers[0].value), cancelled); }
    }
  }

  // ---------------------------------------------------------------- what one fetch keeps

  /** The rows read by a fetch, returned or not. */
  function RowsRead(v: View, n: nat, cancelled: bool): seq<Json>
    decreases n
  {
    if n == 0 then []
    else
      var (r, w) := NextStep(v, cancelled);
      if r.Err? || r.value.None? then [] else [r.value.value] + RowsRead(w, n - 1, cancelled)
  }

  /** A fetch reads the flat list from the front; what it reads it returns, unless it fails. */
  lemma {:induction false} FetchReads(v: View, n: nat, cancelled: bool)
    ensures var (r, w) := FetchStep(v, n, cancelled);
            var rows := RowsRead(v, n, cancelled);
            w.maxRows == v.maxRows && w.delivered == v.delivered + |rows| && |rows| <= n &&
            Rest(v) == rows + Rest(w) && (r.Ok? ==> r.value == rows && (|rows| < n ==> Rest(w) == []))
    ensures Healthy(v) ==> Healthy(FetchStep(v, n, cancelled).1) && (cancelled || FetchStep(v, n, cancelled).0.Ok?)
    decreases n
  {
    hide NextStep, Rest, Healthy;
    if n > 0 {
      NextIsFirst(v, cancelled);
      var (r, v') := NextStep(v, cancelled);
      if r.Err? || r.value.None? {
        assert Rest(v) == [] + Rest(v');
        assert [] + Rest(v') == Rest(v');
      } else {
        FetchReads(v', n - 1, cancelled);
        var rows, w := RowsRead(v', n - 1, cancelled), FetchStep(v', n - 1, cancelled).1;
        assert [r.value.value] + (rows + Rest(w)) == ([r.value.value] + rows) + Rest(w);
      }
    } else {
      assert Rest(v) == [] + Rest(v);
    }
  }

  /** The error of the first request that fails; 08S01 when the server answers no more. */
  function FirstFailure(answers: seq<Result<Page>>): string {
    if answers == [] then "08S01"
    else if answers[0].Err? then answers[0].state
    else FirstFailure(answers[1..])
  }

  lemma {:induction false} NextFailsWith(v: View, cancelled: bool)
    ensures var (r, w) := NextStep(v, cancelled);
            if r.Err? then r.state == (if cancelled then "HY008" else FirstFailure(v.answers))
            else !cancelled ==> FirstFailure(w.answers) == FirstFailure(v.answers)
    decreases |v.answers|
  {
    if !Full(v) && v.pending == [] && !v.done && !cancelled && v.answers != [] && v.answers[0].Ok? {
      NextFailsWith(Loaded(v, v.answers[0].value), cancelled);
    }
  }

  /** A fetch that fails does so with HY008 when it is cancelled, and otherwise with the error of the
      first request that fails. */
  lemma {:induction false} FetchFailsWith(v: View, n: nat, cancelled: bool)
    ensures var (r, w) := FetchStep(v, n, cancelled);
            if r.Err? then r.state == (if cancelled then "HY008" else FirstFailure(v.answers))
            else !cancelled ==> FirstFailure(w.answers) == FirstFailure(v.answers)
    decreases n
  {
    hide NextStep;
    if n > 0 {
      NextFailsWith(v, cancelled);
      var (r, w) := NextStep(v, cancelled);
      if r.Ok? && r.value.Some? { FetchFailsWith(w, n - 1, cancelled); }
    }
  }

  predicate EmptyUntilError(answers: seq<Result<Page>>) {
    answers == [] || answers[0].Err? || (answers[0].value.records == [] && EmptyUntilError(answers[1..]))
  }

  /** No record comes before the failure: none is left of the current page, and the request is
      cancelled, or only empty pages arrive before one fails. */
  predicate FailsFirst(v: View, cancelled: bool) {
    v.pending == [] && (cancelled || EmptyUntilError(v.answers))
  }

  lemma {:induction false} NextFails(v: View, cancelled: bool)
    ensures NextStep(v, cancelled).0.Err? ==> FailsFirst(v, cancelled)
    ensures FailsFirst(v, cancelled) ==> NextStep(v, cancelled).0.Err? || NextStep(v, cancelled).0.value.None?
    decreases |v.answers|
  {
    if !Full(v) && v.pending == [] && !v.done && !cancelled && v.answers != [] && v.answers[0].Ok? {
      NextFails(Loaded(v, v.answers[0].value), cancelled);
    }
  }

  /** A fetch that fails loses nothing exactly when it fails before its first record. */
  lemma FailureLosesNothing(v: View, n: nat, cancelled: bool)
    requires FetchStep(v, n, cancelled).0.Err?
    ensures var w := FetchStep(v, n, cancelled).1;
            (w.delivered == v.delivered <==> FailsFirst(v, cancelled)) &&
            (Rest(w) == Rest(v) <==> FailsFirst(v, cancelled))
  {
    hide NextStep, Rest, FailsFirst;
    NextFails(v, cancelled);
    FetchReads(v, n, cancelled);
    var rows, w := RowsRead(v, n, cancelled), FetchStep(v, n, cancelled).1;
    assert |Rest(v)| == |rows| + |Rest(w)|;
    if rows == [] { assert Rest(v) == Rest(w); }
  }

  lemma FetchFirst(v: View, n: nat, cancelled: bool)
    requires n > 0 && v.pending != [] && !Full(v)
    ensures var w := v.(pending := v.pending[1..], delivered := v.delivered + 1);
            FetchStep(v, n, cancelled).1 == FetchStep(w, n - 1, cancelled).1 &&
            (FetchStep(v, n, cancelled).0.Err? <==> FetchStep(w, n - 1, cancelled).0.Err?)
  {
  }

  lemma FetchFailsAtOnce(v: View, n: nat, cancelled: bool)
    requires n > 0 && v.pending == [] && !v.done && !Full(v)
    requires cancelled || v.answers == [] || v.answers[0].Err?
    ensures FetchStep(v, n, cancelled).0.Err? && RowsRead(v, n, cancelled) == []
  {
  }

  /** When the page is used up and the next request fails, all its records are lost: they count as
      delivered, no rowset returns them, and the next fetch goes on behind them. */
  lemma {:induction false} FailedPageLosesRows(v: View, n: nat, cancelled: bool)
    requires !v.done && n > |v.pending| && (v.maxRows == 0 || v.delivered + |v.pending| < v.maxRows)
    requires cancelled || v.answers == [] || v.answers[0].Err?
    ensures var (r, w) := FetchStep(v, n, cancelled);
            r.Err? && w.delivered == v.delivered + |v.pending| && Rest(v) == v.pending + Rest(w)
    decreases n
  {
    hide FetchStep, Rest, RowsRead;
    if v.pending == [] {
      FetchFailsAtOnce(v, n, cancelled);
      FetchReads(v, n, cancelled);
    } else {
      var w := v.(pending := v.pending[1..], delivered := v.delivered + 1);
      FailedPageLosesRows(w, n - 1, cancelled);
      FetchFirst(v, n, cancelled);
      RestStep(v);
      assert v.pending == [v.pending[0]] + w.pending;
      var end := FetchStep(w, n - 1, cancelled).1;
      assert [v.pending[0]] + (w.pending + Rest(end)) == v.pending + Rest(end);
    }
  }

  // ---------------------------------------------------------------- whole runs

  /** A fetch with its rowset size and whether it is cancelled. */
  datatype Call = Call(size: nat, cancelled: bool)

  /** What a sequence of fetches returns, going on after those that fail, and the cursor it leaves. */
  function Fetches(v: View, calls: seq<Call>): (seq<Result<seq<Json>>>, View)
    decreases calls
  {
    if calls == [] then ([], v)
    else
      var (r, v') := FetchStep(v, calls[0].size, calls[0].cancelled);
      var (rest, w) := Fetches(v', calls[1..]);
      ([r] + rest, w)
  }

  /** The rowsets that were returned, one after the other. */
  function Joined(results: seq<Result<seq<Json>>>): seq<Json> {
    if results == [] then [] else (if results[0].Ok? then results[0].value else []) + Joined(results[1..])
  }

  function Sum(calls: seq<Call>): nat {
    if calls == [] then 0 else calls[0].size + Sum(calls[1..])
  }

  lemma JoinedStep(first: Result<seq<Json>>, rest: seq<Result<seq<Json>>>)
    ensures Joined([first] + rest) == (if first.Ok? then first.value else []) + Joined(rest)
  {
    assert ([first] + rest)[1..] == rest;
  }

  /** Every fetch that fails does so before its first record. */
  predicate FailuresComeFirst(v: View, calls: seq<Call>)
    decreases calls
  {
    calls == [] ||
    var (r, v') := FetchStep(v, calls[0].size, calls[0].cancelled);
    (r.Err? ==> FailsFirst(v, calls[0].cancelled)) && FailuresComeFirst(v', calls[1..])
  }

  /** Rows are never repeated or invented: what a run returns and what it leaves are no more than
      there was, and less by one for each row lost. */
  lemma {:induction false} RunLoses(v: View, calls: seq<Call>)
    ensures var (rs, w) := Fetches(v, calls);
            w.maxRows == v.maxRows && |Joined(rs)| + |Rest(w)| <= |Rest(v)| &&
            w.delivered - v.delivered == |Rest(v)| - |Rest(w)| &&
            (|Joined(rs)| + |Rest(w)| == |Rest(v)| <==> FailuresComeFirst(v, calls)) &&
            (FailuresComeFirst(v, calls) ==> Joined(rs) + Rest(w) == Rest(v))
    decreases calls
  {
    hide FetchStep, Rest, FailsFirst, RowsRead;
    if calls == [] {
      assert [] + Rest(v) == Rest(v);
    } else {
      var call := calls[0];
      FetchReads(v, call.size, call.cancelled);
      var (r, v') := FetchStep(v, call.size, call.cancelled);
      if r.Err? { FailureLosesNothing(v, call.size, call.cancelled); }
      RunLoses(v', calls[1..]);
      var (rest, w) := Fetches(v', calls[1..]);
      JoinedStep(r, rest);
      var rows := RowsRead(v, call.size, call.cancelled);
      assert |Rest(v)| == |rows| + |Rest(v')|;
      var first := if r.Ok? then r.value else [];
      assert first + (Joined(rest) + Rest(w)) == (first + Joined(rest)) + Rest(w);
      if r.Err? && rows == [] { assert Rest(v) == Rest(v') && first + Rest(v') == Rest(v'); }
    }
  }

  /** Block fetch refines a flat list over every run, failed requests, cancelled calls and retries
      included: the rowsets joined, with what is left, are the records of all pages cut at the
      limit, exactly when every fetch that fails does so before its first record. */
  lemma RunsRefineFlatList(v: View, calls: seq<Call>)
    ensures var (rs, w) := Fetches(v, calls);
            Joined(rs) + Rest(w) == Rest(v) <==> FailuresComeFirst(v, calls)
  {
    hide Fetches, Rest, FailuresComeFirst;
    RunLoses(v, calls);
    var (rs, w) := Fetches(v, calls);
    assert |Joined(rs) + Rest(w)| == |Joined(rs)| + |Rest(w)|;
  }

  predicate Undisturbed(calls: seq<Call>) {
    forall i :: 0 <= i < |calls| ==> !calls[i].cancelled
  }

  /** When every page arrives and no call is cancelled no fetch fails: however the server splits
      its answer into pages, empty ones included, and whatever the rowset sizes and the row limit,
      the rowsets joined are the first rows of the flat list, as many as were asked for. */
  lemma {:induction false} FetchesArePrefix(v: View, calls: seq<Call>)
    requires Healthy(v) && Undisturbed(calls)
    ensures var (rs, w) := Fetches(v, calls);
            Healthy(w) && (forall i :: 0 <= i < |rs| ==> rs[i].Ok?) &&
            Rest(v) == Joined(rs) + Rest(w) &&
            |Joined(rs)| == (if |Rest(v)| <= Sum(calls) then |Rest(v)| else Sum(calls)) &&
            w.delivered == v.delivered + |Joined(rs)|
    decreases calls
  {
    hide FetchStep, Rest, Healthy, RowsRead;
    if calls == [] {
      assert Rest(v) == [] + Rest(v);
    } else {
      var call := calls[0];
      assert !call.cancelled;
      FetchReads(v, call.size, false);
      var (r, v') := FetchStep(v, call.size, false);
      FetchesArePrefix(v', calls[1..]);
      var (rest, w) := Fetches(v', calls[1..]);
      assert r.value + (Joined(rest) + Rest(w)) == (r.value + Joined(rest)) + Rest(w);
      JoinedStep(r, rest);
    }
  }

  predicate Over(v: View) {
    Full(v) || (v.done && v.pending == [])
  }

  lemma {:induction false} NextOver(v: View, cancelled: bool)
    ensures NextStep(v, cancelled).0 == Ok(None) ==> Over(NextStep(v, cancelled).1)
    ensures Over(v) ==> NextStep(v, cancelled) == (Ok(None), v)
    decreases |v.answers|
  {
    if !Full(v) && v.pending == [] && !v.done && !cancelled && v.answers != [] && v.answers[0].Ok? {
      NextOver(Loaded(v, v.answers[0].value), cancelled);
    }
  }

  lemma {:induction false} OverStays(v: View, calls: seq<Call>)
    requires Over(v)
    ensures var (rs, w) := Fetches(v, calls);
            w == v && |rs| == |calls| && forall i :: 0 <= i < |rs| ==> rs[i] == Ok([])
    decreases calls
  {
    hide NextStep, Over;
    if calls != [] {
      NextOver(v, calls[0].cancelled);
      OverStays(v, calls[1..]);
    }
  }

  /** Once a fetch of at least one row comes back empty, every later one does, cancelled or not,
      and no further page is requested. */
  lemma EndIsStable(v: View, n: nat, cancelled: bool, calls: seq<Call>)
    requires n > 0 && FetchStep(v, n, cancelled).0 == Ok([])
    ensures var w := FetchStep(v, n, cancelled).1;
            var (rs, w') := Fetches(w, calls);
            w' == w && |rs| == |calls| && forall i :: 0 <= i < |rs| ==> rs[i] == Ok([])
  {
    hide NextStep, Over;
    NextOver(v, cancelled);
    OverStays(FetchStep(v, n, cancelled).1, calls);
  }

  // ---------------------------------------------------------------- when pages are requested

  function Size(answer: Result<Page>): nat {
    if answer.Ok? then |answer.value.records| else 0
  }

  /** How many records the cursor has seen after `k` further answers. */
  function Seen(v: View, k: nat): nat
    requires k <= |v.answers|
  {
    if k == 0 then |v.pending| else Seen(v, k - 1) + Size(v.answers[k - 1])
  }

  /** From `v` to `w` the cursor used `k` answers: what it has seen is what it delivered and what
      is pending, and when it asked for the last of them everything seen before had been delivered
      and another row was still allowed. */
  predicate Demanded(v: View, w: View) {
    var k := |v.answers| - |w.answers|;
    k >= 0 && w.answers == v.answers[k..] && w.maxRows == v.maxRows && w.delivered >= v.delivered &&
    w.delivered - v.delivered + |w.pending| == Seen(v, k) &&
    (k > 0 ==>
       w.delivered - v.delivered >= Seen(v, k - 1) &&
       (v.maxRows > 0 ==> v.delivered + Seen(v, k - 1) < v.maxRows))
  }

  lemma DemandedAfterAnswer(v: View, w: View)
    requires Demanded(v, w) && w.pending == [] && !Full(w) && w.answers != []
    ensures Demanded(v, AfterAnswer(w))
  {
    var k := |v.answers| - |w.answers|;
    assert w.answers[0] == v.answers[k] && w.answers[1..] == v.answers[k + 1..];
    assert Seen(v, k + 1) == Seen(v, k) + Size(v.answers[k]);
  }

  lemma {:induction false} NextDemands(v: View, w: View, cancelled: bool)
    requires Demanded(v, w)
    ensures Demanded(v, NextStep(w, cancelled).1)
    decreases |w.answers|
  {
    if !Full(w) && w.pending == [] && !w.done && !cancelled && w.answers != [] {
      DemandedAfterAnswer(v, w);
      if w.answers[0].Ok? { NextDemands(v, Loaded(w, w.answers[0].value), cancelled); }
    }
  }

  lemma {:induction false} FetchDemands(v: View, w: View, n: nat, cancelled: bool)
    requires Demanded(v, w)
    ensures Demanded(v, FetchStep(w, n, cancelled).1)
    decreases n
  {
    hide NextStep, Demanded;
    if n > 0 {
      NextDemands(v, w, cancelled);
      var (r, w') := NextStep(w, cancelled);
      if r.Ok? && r.value.Some? { FetchDemands(v, w', n - 1, cancelled); }
    }
  }

  lemma {:induction false} RunDemands(v: View, w: View, calls: seq<Call>)
    requires Demanded(v, w)
    ensures Demanded(v, Fetches(w, calls).1)
    decreases calls
  {
    hide FetchStep, Demanded;
    if calls != [] {
      FetchDemands(v, w, calls[0].size, calls[0].cancelled);
      RunDemands(v, FetchStep(w, calls[0].size, calls[0].cancelled).1, calls[1..]);
    }
  }

  /** Over any run, with requests that fail, calls that are cancelled and retries, a page is
      requested only when all records seen before have been delivered and the row limit allows
      another one. */
  lemma PagesAreNeeded(v: View, calls: seq<Call>)
    ensures Demanded(v, Fetches(v, calls).1)
  {
    assert v.answers[0..] == v.answers;
    RunDemands(v, v, calls);
  }

  // ---------------------------------------------------------------- the cursor object

  /** The client's side of the conversation: the answers still to come. */
  class Server {
    var answers: seq<Result<Page>>

    constructor (answers: seq<Result<Page>>)
      ensures this.answers == answers
    {
      this.answers := answers;
    }

    method QueryMore(url: string) returns (r: Result<Page>)
      modifies this
      ensures old(answers) == [] ==> r == Err("08S01") && answers == []
      ensures old(answers) != [] ==> r == old(answers)[0] && answers == old(answers)[1..]
    {
      if answers == [] { return Err("08S01"); }
      r := answers[0];
      answers := answers[1..];
    }
  }

  class SoqlCursor {
    const cols: seq<ColumnInfo>
    const client: Server
    const maxRows: nat
    var cancel: bool
    var records: seq<Json>
    var pos: nat
    var nextUrl: string
    var done: bool
    var delivered: nat

    ghost predicate Valid()
      reads this
    {
      pos <= |records|
    }

    ghost function Look(): View
      requires Valid()
      reads this, client
    {
      View(records[pos..], done, client.answers, delivered, maxRows)
    }

    /** Opened with the answer to the query itself. */
    constructor (cols: seq<ColumnInfo>, client: Server, first: Page, maxRows: nat)
      ensures Valid() && this.cols == cols && this.client == client && !cancel
      ensures Look() == View(first.records, Last(first), client.answers, 0, maxRows)
    {
      this.cols, this.client, this.maxRows, cancel := cols, client, maxRows, false;
      records, pos, nextUrl, done, delivered := first.records, 0, first.nextUrl, Last(first), 0;
    }

    method Load(page: Page)
      requires Valid()
      modifies this`records, this`pos, this`nextUrl, this`done
      ensures Valid() && Look() == old(Look()).(pending := page.records, done := Last(page))
    {
      records, pos := page.records, 0;
      done := page.done;
      nextUrl := page.nextUrl;
      if nextUrl == "" { done := true; }
    }

    method Next() returns (r: Result<Option<seq<Cell>>>)
      requires Valid()
      modifies this, client
      ensures Valid() && cancel == old(cancel)
      ensures var (spec, after) := NextStep(old(Look()), old(cancel));
              Look() == after &&
              r == match spec
                   case Err(e) => Err(e)
                   case Ok(None) => Ok(None)
                   case Ok(Some(rec)) => Ok(Some(RowOf(cols, rec)))
    {
      if maxRows > 0 && delivered >= maxRows { return Ok(None); }
      ghost var start := Look();
      while pos >= |records|
        invariant Valid() && cancel == old(cancel) && delivered == old(delivered)
        invariant NextStep(Look(), cancel) == NextStep(start, cancel)
        decreases |client.answers|
      {
        if done { return Ok(None); }
        if cancel { return Err("HY008"); }
        ghost var before := Look();
        var page := client.QueryMore(nextUrl);
        if page.Err? { return Err(page.state); }
        Load(page.value);
        assert Look() == Loaded(before, page.value);
      }
      var rec := records[pos];
      assert records[pos..][1..] == records[pos + 1..];
      pos := pos + 1;
      delivered := delivered + 1;
      return Ok(Some(RowOf(cols, rec)));
    }
  }

  /** Rows known in advance. */
  class VectorCursor {
    const rows: seq<seq<Cell>>
    var pos: nat

    ghost predicate Valid()
      reads this
    {
      pos <= |rows|
    }

    constructor (rows: seq<seq<Cell>>)
      ensures Valid() && this.rows == rows && pos == 0
    {
      this.rows, pos := rows, 0;
    }

    method Next() returns (r: Option<seq<Cell>>)
      requires Valid()
      modifies this
      ensures Valid() && r == if old(pos) < |rows| then Some(rows[old(pos)]) else None
      ensures pos == if old(pos) < |rows| then old(pos) + 1 else old(pos)
    {
      if pos >= |rows| { return None; }
      r := Some(rows[pos]);
      pos := pos + 1;
    }
  }
}
