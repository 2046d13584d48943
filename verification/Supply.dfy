/** The rows and errors a statement's cursor will still produce are those of the page-by-page cursor
    behind it (src/cursor.cpp under src/odbc_impl.cpp). */
module Supply {
  import opened Wrappers
  import C = Cursor
  import H = Handles

  /** What `next` produces from here on: a record or an error at a time. */
  function Outlook(v: C.View): seq<Result<C.Json>>
    decreases |v.answers|, |v.pending|
  {
    if C.Full(v) then []
    else if v.pending != [] then
      [Ok(v.pending[0])] + Outlook(v.(pending := v.pending[1..], delivered := v.delivered + 1))
    else if v.done || v.answers == [] then []
    else if v.answers[0].Err? then [Err(v.answers[0].state)] + Outlook(v.(answers := v.answers[1..]))
    else Outlook(C.Loaded(v, v.answers[0].value))
  }

  /** The last page arrives sooner or later. */
  predicate Ends(answers: seq<Result<C.Page>>) {
    answers != [] && ((answers[0].Ok? && C.Last(answers[0].value)) || Ends(answers[1..]))
  }

  predicate Bounded(v: C.View) {
    v.done || Ends(v.answers)
  }

  lemma {:induction false} NextOfOutlook(v: C.View)
    requires Bounded(v)
    ensures var (r, w) := C.NextStep(v, false);
            Bounded(w) &&
            match r
            case Err(e) => Outlook(v) == [Err(e)] + Outlook(w)
            case Ok(None) => Outlook(v) == Outlook(w) == []
            case Ok(Some(rec)) => Outlook(v) == [Ok(rec)] + Outlook(w)
    decreases |v.answers|
  {
    if !C.Full(v) && v.pending == [] && !v.done && v.answers[0].Ok? {
      NextOfOutlook(C.Loaded(v, v.answers[0].value));
    }
  }

  lemma SupplyStep(cols: seq<C.ColumnInfo>, first: Result<C.Json>, rest: seq<Result<C.Json>>)
    ensures H.Supply(cols, [first] + rest) ==
            [match first case Err(e) => Err(e) case Ok(rec) => Ok(C.RowOf(cols, rec))] + H.Supply(cols, rest)
  {
  }

  lemma PullStep(row: C.Row, rest: seq<Result<C.Row>>, n: nat)
    requires n > 0
    ensures var (rows, err, left) := H.Pull(rest, n - 1);
            H.Pull([Ok(row)] + rest, n) == ([row] + rows, err, left)
  {
    assert ([Ok(row)] + rest)[1..] == rest;
  }

  lemma PullError(e: string, rest: seq<Result<C.Row>>, n: nat)
    requires n > 0
    ensures H.Pull([Err(e)] + rest, n) == ([], Some(e), rest)
  {
    assert ([Err(e)] + rest)[1..] == rest;
  }

  lemma RowsStep(cols: seq<C.ColumnInfo>, rec: C.Json, recs: seq<C.Json>)
    ensures C.RowsOf(cols, [rec] + recs) == [C.RowOf(cols, rec)] + C.RowsOf(cols, recs)
  {
  }

  /** Fetching from the supply is fetching from the pages: the same rows or the same error, and
      the supply that is left is that of the cursor that is left. After an error the rows read
      before it are those the page cursor has counted as delivered. */
  lemma {:induction false} PullIsFetch(cols: seq<C.ColumnInfo>, v: C.View, n: nat)
    requires Bounded(v)
    ensures var (rows, err, rest) := H.Pull(H.Supply(cols, Outlook(v)), n);
            var (r, w) := C.FetchStep(v, n, false);
            Bounded(w) && rest == H.Supply(cols, Outlook(w)) && rows == C.RowsOf(cols, C.RowsRead(v, n, false)) &&
            (if err.None? then r == Ok(C.RowsRead(v, n, false)) else r == Err(err.value))
    decreases n
  {
    hide C.NextStep, H.Supply, Outlook, Bounded, C.RowsOf;
    if n == 0 {
      NoRows(cols);
    } else {
      NextOfOutlook(v);
      var (r, w) := C.NextStep(v, false);
      match r
      case Err(e) =>
        SupplyStep(cols, Err(e), Outlook(w));
        PullError(e, H.Supply(cols, Outlook(w)), n);
        NoRows(cols);
      case Ok(None) =>
        NoRows(cols);
      case Ok(Some(rec)) =>
        SupplyStep(cols, Ok(rec), Outlook(w));
        PullStep(C.RowOf(cols, rec), H.Supply(cols, Outlook(w)), n);
        PullIsFetch(cols, w, n - 1);
        RowsStep(cols, rec, C.RowsRead(w, n - 1, false));
    }
  }

  lemma NoRows(cols: seq<C.ColumnInfo>)
    ensures C.RowsOf(cols, []) == [] && H.Supply(cols, []) == []
  {
  }
}
