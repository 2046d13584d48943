/** Block fetch into bound columns and reading the current row (src/odbc_impl.cpp, `do_fetch` and
    `GetData`). Arrays stand for the application's memory from the bound address on. */
module Fetch {
  import opened Wrappers
  import opened Text
  import opened GetData
  import Cursor

  datatype Status = RowSuccess | RowSuccessWithInfo | RowError | NoRow | Unset

  /** `SQLBindCol`: the application's array for a column and its array of indicators. */
  datatype ColBinding = ColBinding(bound: bool, ctype: CType, target: array?<Byte>, bufferLen: nat, ind: array?<int>)

  /** The distance between the slots of two rows. */
  function Elem(b: ColBinding): nat {
    if b.ctype.Fixed? then b.ctype.size else b.bufferLen
  }

  // ---------------------------------------------------------------- what a fetch writes

  /** The reply to fetching a cell into a binding. */
  function CellReply(b: ColBinding, v: Cursor.Cell): Reply {
    Step(b.ctype, v, State(0, false), Call(b.target != null, b.ind != null, b.bufferLen)).0
  }

  /** A column's array after the first `n` cells have been written. */
  function Filled(mem: seq<Byte>, b: ColBinding, cells: seq<Cursor.Cell>, n: nat): (r: seq<Byte>)
    requires n <= |cells|
    ensures |r| == |mem|
  {
    if n == 0 then mem
    else Updated(Filled(mem, b, cells, n - 1), (n - 1) * Elem(b), b.ctype, CellReply(b, cells[n - 1]).chunk)
  }

  /** A column's indicators after the first `n` cells. */
  function FilledInd(ind: seq<int>, b: ColBinding, cells: seq<Cursor.Cell>, n: nat): (r: seq<int>)
    requires n <= |cells|
    ensures |r| == |ind|
  {
    if n == 0 then ind
    else
      var before := FilledInd(ind, b, cells, n - 1);
      var reply := CellReply(b, cells[n - 1]);
      if reply.ind.Some? && n <= |ind| then before[n - 1 := reply.ind.value] else before
  }

  lemma SlotsInOrder(i: nat, j: nat, elem: nat)
    requires i < j
    ensures i * elem + elem <= j * elem
  {
    assert (i + 1) * elem <= j * elem;
  }

  lemma ChunkFits(b: ColBinding, v: Cursor.Cell)
    requires Sized(b.ctype)
    ensures var chunk := CellReply(b, v).chunk; chunk.Some? ==> |Image(b.ctype, chunk.value)| <= Elem(b)
  {
    var call := Call(b.target != null, b.ind != null, b.bufferLen);
    if CellReply(b, v).chunk.Some? { ImageFits(b.ctype, v, State(0, false), call); }
  }

  /** What one cell leaves at byte `p`: its image, terminator included, or what was there. */
  function ByteAt(b: ColBinding, v: Cursor.Cell, p: nat, before: Byte): Byte {
    var chunk := CellReply(b, v).chunk;
    if chunk.Some? && p < |Image(b.ctype, chunk.value)| then Image(b.ctype, chunk.value)[p] else before
  }

  /** Bound writes do not interfere: after any number of rows each slot holds what its own row
      left there, starting from what it held before, and all other bytes are unchanged. */
  lemma {:induction false} SlotsAreIndependent(mem: seq<Byte>, b: ColBinding, cells: seq<Cursor.Cell>, n: nat, i: nat,
                                               p: nat)
    requires n <= |cells| && Sized(b.ctype) && n * Elem(b) <= |mem|
    requires p < Elem(b) && i * Elem(b) + p < |mem|
    decreases n
    ensures Filled(mem, b, cells, n)[i * Elem(b) + p] ==
            if i < n then ByteAt(b, cells[i], p, mem[i * Elem(b) + p]) else mem[i * Elem(b) + p]
  {
    hide CellReply, Image, Updated;
    if n > 0 {
      SlotsInOrder(n - 1, n, Elem(b));
      SlotsAreIndependent(mem, b, cells, n - 1, i, p);
      SlotWritten(Filled(mem, b, cells, n - 1), b, cells[n - 1], n - 1, i, p);
    }
  }

  /** Writing row `m`'s slot sets that slot and no other. */
  lemma SlotWritten(mem: seq<Byte>, b: ColBinding, v: Cursor.Cell, m: nat, i: nat, p: nat)
    requires Sized(b.ctype) && (m + 1) * Elem(b) <= |mem| && p < Elem(b) && i * Elem(b) + p < |mem|
    ensures Updated(mem, m * Elem(b), b.ctype, CellReply(b, v).chunk)[i * Elem(b) + p] ==
            if i == m then ByteAt(b, v, p, mem[i * Elem(b) + p]) else mem[i * Elem(b) + p]
  {
    hide CellReply, Image;
    var elem := Elem(b);
    var at, q := m * elem, i * elem + p;
    ChunkFits(b, v);
    SlotsInOrder(m, m + 1, elem);
    if i < m { SlotsInOrder(i, m, elem); }
    if i > m { SlotsInOrder(m, i, elem); }
    if i == m { assert q - at == p; }
  }

  lemma {:induction false} IndicatorsAreIndependent(ind: seq<int>, b: ColBinding, cells: seq<Cursor.Cell>, n: nat,
                                                    i: nat)
    requires n <= |cells| && i < |ind|
    ensures FilledInd(ind, b, cells, n)[i] ==
            if i < n && CellReply(b, cells[i]).ind.Some? then CellReply(b, cells[i]).ind.value else ind[i]
  {
    hide CellReply;
    if n > 0 { IndicatorsAreIndependent(ind, b, cells, n - 1, i); }
  }

  // ---------------------------------------------------------------- row status

  /** A row's code after its first `k` columns: an error outweighs information. */
  function RowRc(cols: seq<ColBinding>, row: Cursor.Row, k: nat): Rc
    requires k <= |cols| && k <= |row|
  {
    if k == 0 then Success
    else
      var before := RowRc(cols, row, k - 1);
      if !cols[k - 1].bound then before
      else
        var rc := CellReply(cols[k - 1], row[k - 1]).rc;
        if rc == Error then Error
        else if rc == SuccessWithInfo && before == Success then SuccessWithInfo
        else before
  }

  /** A row is in error exactly when a bound column of it is, and otherwise carries information
      exactly when a bound column does. */
  lemma {:induction false} RowRcIsWorst(cols: seq<ColBinding>, row: Cursor.Row, k: nat)
    requires k <= |cols| && k <= |row|
    ensures RowRc(cols, row, k) == Error <==>
            exists j :: 0 <= j < k && cols[j].bound && CellReply(cols[j], row[j]).rc == Error
    ensures RowRc(cols, row, k) == SuccessWithInfo ==>
            exists j :: 0 <= j < k && cols[j].bound && CellReply(cols[j], row[j]).rc == SuccessWithInfo
    ensures RowRc(cols, row, k) == Success ==>
            forall j :: 0 <= j < k && cols[j].bound ==>
              CellReply(cols[j], row[j]).rc == Success || CellReply(cols[j], row[j]).rc == NoData
    ensures RowRc(cols, row, k) != NoData
  {
    hide CellReply;
    if k > 0 { RowRcIsWorst(cols, row, k - 1); }
  }

  function StatusOf(rc: Rc): Status {
    if rc == Error then RowError else if rc == SuccessWithInfo then RowSuccessWithInfo else RowSuccess
  }

  // ---------------------------------------------------------------- the application's memory

  ghost predicate Fits(b: ColBinding, n: nat) {
    b.bound ==>
      Sized(b.ctype) && (b.target != null ==> n * Elem(b) <= b.target.Length) && (b.ind != null ==> n <= b.ind.Length)
  }

  /** Different columns are bound to different arrays. */
  ghost predicate Separate(cols: seq<ColBinding>) {
    forall j, k :: 0 <= j < k < |cols| && cols[j].bound && cols[k].bound ==>
      (cols[j].target != null ==> cols[j].target != cols[k].target) &&
      (cols[j].ind != null ==> cols[j].ind != cols[k].ind)
  }

  ghost function Memory(cols: seq<ColBinding>): set<object> {
    (set k | 0 <= k < |cols| && cols[k].target != null :: cols[k].target as object) +
    (set k | 0 <= k < |cols| && cols[k].ind != null :: cols[k].ind as object)
  }

  function ColumnCells(rows: seq<Cursor.Row>, k: nat): (r: seq<Cursor.Cell>)
    requires forall i :: 0 <= i < |rows| ==> k < |rows[i]|
    ensures |r| == |rows| && forall i :: 0 <= i < |rows| ==> r[i] == rows[i][k]
  {
    seq(|rows|, i requires 0 <= i < |rows| => rows[i][k])
  }

  function Columns(cols: seq<ColBinding>, row: Cursor.Row): (n: nat)
    ensures n <= |cols| && n <= |row|
  {
    if |cols| <= |row| then |cols| else |row|
  }

  function TargetAfter(b: ColBinding, row: Cursor.Row, k: nat, i: nat, mem: seq<Byte>): seq<Byte> {
    if k < |row| then Updated(mem, i * Elem(b), b.ctype, CellReply(b, row[k]).chunk) else mem
  }

  function IndAfter(b: ColBinding, row: Cursor.Row, k: nat, i: nat, ind: seq<int>): seq<int> {
    if k < |row| && i < |ind| && CellReply(b, row[k]).ind.Some? then ind[i := CellReply(b, row[k]).ind.value] else ind
  }

  /** Column `k` of a row into slot `i` of its binding. */
  method WriteCell(b: ColBinding, row: Cursor.Row, k: nat, i: nat) returns (rc: Rc)
    requires b.bound && Fits(b, i + 1) && k < |row|
    modifies (if b.target == null then {} else {b.target}), (if b.ind == null then {} else {b.ind})
    ensures rc == CellReply(b, row[k]).rc
    ensures b.target != null ==> b.target[..] == TargetAfter(b, row, k, i, old(b.target[..]))
    ensures b.ind != null ==> b.ind[..] == IndAfter(b, row, k, i, old(b.ind[..]))
  {
    hide Step, Updated, Image;
    SlotsInOrder(i, i + 1, Elem(b));
    var indicator;
    rc, indicator := GetValue(b.ctype, row[k], b.target, i * Elem(b), b.bufferLen, b.ind != null, null);
    if b.ind != null && indicator.Some? { b.ind[i] := indicator.value; }
  }

  /** All bound columns of row `i`. */
  method WriteRow(cols: seq<ColBinding>, row: Cursor.Row, i: nat) returns (rc: Rc)
    requires Separate(cols) && forall k :: 0 <= k < |cols| ==> Fits(cols[k], i + 1)
    modifies Memory(cols)
    ensures rc == RowRc(cols, row, Columns(cols, row))
    ensures forall k :: 0 <= k < |cols| && cols[k].bound && cols[k].target != null ==>
              cols[k].target[..] == TargetAfter(cols[k], row, k, i, old(cols[k].target[..]))
    ensures forall k :: 0 <= k < |cols| && cols[k].bound && cols[k].ind != null ==>
              cols[k].ind[..] == IndAfter(cols[k], row, k, i, old(cols[k].ind[..]))
  {
    hide CellReply, TargetAfter, IndAfter, Fits;
    rc := Success;
    var k := 0;
    while k < |cols| && k < |row|
      invariant k <= Columns(cols, row) && rc == RowRc(cols, row, k)
      invariant forall j :: 0 <= j < |cols| && cols[j].bound && cols[j].target != null ==>
                  cols[j].target[..] ==
                  if j < k then TargetAfter(cols[j], row, j, i, old(cols[j].target[..])) else old(cols[j].target[..])
      invariant forall j :: 0 <= j < |cols| && cols[j].bound && cols[j].ind != null ==>
                  cols[j].ind[..] ==
                  if j < k then IndAfter(cols[j], row, j, i, old(cols[j].ind[..])) else old(cols[j].ind[..])
    {
      if cols[k].bound {
        var cell := WriteCell(cols[k], row, k, i);
        if cell == Error { rc := Error; }
        else if cell == SuccessWithInfo && rc == Success { rc := SuccessWithInfo; }
      }
      k := k + 1;
    }
    forall j | k <= j < |cols| ensures forall mem :: TargetAfter(cols[j], row, j, i, mem) == mem {
      NoCell(cols[j], row, j, i);
    }
    forall j | k <= j < |cols| ensures forall ind :: IndAfter(cols[j], row, j, i, ind) == ind {
      NoCell(cols[j], row, j, i);
    }
  }

  lemma NoCell(b: ColBinding, row: Cursor.Row, k: nat, i: nat)
    requires k >= |row|
    ensures forall mem :: TargetAfter(b, row, k, i, mem) == mem
    ensures forall ind :: IndAfter(b, row, k, i, ind) == ind
  {
  }

  function CellsAt(rows: seq<Cursor.Row>, k: nat, n: nat): (r: seq<Cursor.Cell>)
    requires Cursor.Rectangular(rows, n) && k < n
    ensures |r| == |rows|
  {
    ColumnCells(rows, k)
  }

  function RcOf(cols: seq<ColBinding>, row: Cursor.Row): Rc {
    RowRc(cols, row, Columns(cols, row))
  }

  /** Some row among the first `n` was not a plain success. */
  predicate Trouble(cols: seq<ColBinding>, rows: seq<Cursor.Row>, n: nat)
    requires n <= |rows|
  {
    exists i :: 0 <= i < n && RcOf(cols, rows[i]) in {Error, SuccessWithInfo}
  }

  /** The code of the whole fetch from those of its rows: an error only when its single row is
      one. */
  function Overall(cols: seq<ColBinding>, rows: seq<Cursor.Row>): Rc {
    if |rows| == 1 && RcOf(cols, rows[0]) == Error then Error
    else if Trouble(cols, rows, |rows|) then SuccessWithInfo
    else Success
  }

  /** A bound column of the row replies with `rc`. */
  predicate SomeReply(cols: seq<ColBinding>, row: Cursor.Row, rc: Rc) {
    exists j :: 0 <= j < Columns(cols, row) && cols[j].bound && CellReply(cols[j], row[j]).rc == rc
  }

  /** A row's status: an error exactly when a bound column is in error, information exactly when
      none is but one carries some. */
  lemma StatusTells(cols: seq<ColBinding>, row: Cursor.Row)
    ensures StatusOf(RcOf(cols, row)) == RowError <==> SomeReply(cols, row, Error)
    ensures StatusOf(RcOf(cols, row)) == RowSuccessWithInfo <==>
            !SomeReply(cols, row, Error) && SomeReply(cols, row, SuccessWithInfo)
    ensures StatusOf(RcOf(cols, row)) == RowSuccess <==>
            !SomeReply(cols, row, Error) && !SomeReply(cols, row, SuccessWithInfo)
  {
    hide CellReply;
    RowRcIsWorst(cols, row, Columns(cols, row));
  }

  /** The code of a fetch: an error exactly when its only row is in error, information exactly when
      otherwise some row is in error or carries some. */
  lemma OverallTells(cols: seq<ColBinding>, rows: seq<Cursor.Row>)
    ensures Overall(cols, rows) == Error <==> |rows| == 1 && SomeReply(cols, rows[0], Error)
    ensures Overall(cols, rows) == SuccessWithInfo <==>
            !(|rows| == 1 && SomeReply(cols, rows[0], Error)) &&
            exists i :: 0 <= i < |rows| &&
                        (SomeReply(cols, rows[i], Error) || SomeReply(cols, rows[i], SuccessWithInfo))
    ensures Overall(cols, rows) != NoData
  {
    hide SomeReply, RcOf;
    forall i | 0 <= i < |rows|
      ensures RcOf(cols, rows[i]) == Error <==> SomeReply(cols, rows[i], Error)
      ensures RcOf(cols, rows[i]) in {Error, SuccessWithInfo} <==>
              SomeReply(cols, rows[i], Error) || SomeReply(cols, rows[i], SuccessWithInfo)
    {
      StatusTells(cols, rows[i]);
      RcNotNoData(cols, rows[i]);
    }
  }

  lemma RcNotNoData(cols: seq<ColBinding>, row: Cursor.Row)
    ensures RcOf(cols, row) != NoData
  {
    RowRcIsWorst(cols, row, Columns(cols, row));
  }

  lemma FilledNext(mem: seq<Byte>, b: ColBinding, rows: seq<Cursor.Row>, k: nat, n: nat, i: nat)
    requires Cursor.Rectangular(rows, n) && i < |rows|
    ensures k < n ==> TargetAfter(b, rows[i], k, i, Filled(mem, b, CellsAt(rows, k, n), i)) ==
                      Filled(mem, b, CellsAt(rows, k, n), i + 1)
    ensures k >= n ==> TargetAfter(b, rows[i], k, i, mem) == mem
  {
  }

  lemma FilledIndNext(ind: seq<int>, b: ColBinding, rows: seq<Cursor.Row>, k: nat, n: nat, i: nat)
    requires Cursor.Rectangular(rows, n) && i < |rows|
    ensures k < n ==> IndAfter(b, rows[i], k, i, FilledInd(ind, b, CellsAt(rows, k, n), i)) ==
                      FilledInd(ind, b, CellsAt(rows, k, n), i + 1)
    ensures k >= n ==> IndAfter(b, rows[i], k, i, ind) == ind
  {
  }

  /** The columns of the rowset, and the code of each row. */
  method WriteRows(cols: seq<ColBinding>, rows: seq<Cursor.Row>, n: nat) returns (rcs: seq<Rc>)
    requires Cursor.Rectangular(rows, n) && Separate(cols) && forall k :: 0 <= k < |cols| ==> Fits(cols[k], |rows|)
    modifies Memory(cols)
    ensures forall k :: 0 <= k < |cols| && cols[k].bound && cols[k].target != null ==>
              cols[k].target[..] ==
              if k < n then Filled(old(cols[k].target[..]), cols[k], CellsAt(rows, k, n), |rows|)
              else old(cols[k].target[..])
    ensures forall k :: 0 <= k < |cols| && cols[k].bound && cols[k].ind != null ==>
              cols[k].ind[..] ==
              if k < n then FilledInd(old(cols[k].ind[..]), cols[k], CellsAt(rows, k, n), |rows|)
              else old(cols[k].ind[..])
    ensures |rcs| == |rows| && forall i :: 0 <= i < |rows| ==> rcs[i] == RcOf(cols, rows[i])
  {
    hide CellReply, Sized, RowRc, Filled, FilledInd, TargetAfter, IndAfter, Cursor.Rectangular, Fits, CellsAt;
    rcs := [];
    var i := 0;
    forall k | 0 <= k < n && k < |cols| ensures FilledStart(cols[k], rows, k, n) { NothingFilled(cols[k], rows, k, n); }
    while i < |rows|
      invariant i <= |rows| && |rcs| == i && forall j :: 0 <= j < i ==> rcs[j] == RcOf(cols, rows[j])
      invariant forall k :: 0 <= k < |cols| && cols[k].bound && cols[k].target != null ==>
                  cols[k].target[..] ==
                  if k < n then Filled(old(cols[k].target[..]), cols[k], CellsAt(rows, k, n), i)
                  else old(cols[k].target[..])
      invariant forall k :: 0 <= k < |cols| && cols[k].bound && cols[k].ind != null ==>
                  cols[k].ind[..] ==
                  if k < n then FilledInd(old(cols[k].ind[..]), cols[k], CellsAt(rows, k, n), i)
                  else old(cols[k].ind[..])
    {
      forall k | 0 <= k < |cols| ensures Fits(cols[k], i + 1) { FitsLess(cols[k], |rows|, i + 1); }
      forall k | 0 <= k < |cols| && cols[k].bound && cols[k].target != null
        ensures TargetAfter(cols[k], rows[i], k, i, cols[k].target[..]) ==
                if k < n then Filled(old(cols[k].target[..]), cols[k], CellsAt(rows, k, n), i + 1)
                else old(cols[k].target[..])
      {
        FilledNext(old(cols[k].target[..]), cols[k], rows, k, n, i);
      }
      forall k | 0 <= k < |cols| && cols[k].bound && cols[k].ind != null
        ensures IndAfter(cols[k], rows[i], k, i, cols[k].ind[..]) ==
                if k < n then FilledInd(old(cols[k].ind[..]), cols[k], CellsAt(rows, k, n), i + 1)
                else old(cols[k].ind[..])
      {
        FilledIndNext(old(cols[k].ind[..]), cols[k], rows, k, n, i);
      }
      var rc := WriteRow(cols, rows[i], i);
      rcs := rcs + [rc];
      i := i + 1;
    }
  }

  ghost predicate FilledStart(b: ColBinding, rows: seq<Cursor.Row>, k: nat, n: nat)
    requires Cursor.Rectangular(rows, n) && k < n
  {
    (forall mem :: Filled(mem, b, CellsAt(rows, k, n), 0) == mem) &&
    (forall ind :: FilledInd(ind, b, CellsAt(rows, k, n), 0) == ind)
  }

  lemma NothingFilled(b: ColBinding, rows: seq<Cursor.Row>, k: nat, n: nat)
    requires Cursor.Rectangular(rows, n) && k < n
    ensures FilledStart(b, rows, k, n)
  {
  }

  /** Row statuses: a status for each of the `size` slots, NOROW beyond the fetched rows. */
  method WriteStatuses(rcs: seq<Rc>, status: array<Status>, size: nat)
    requires |rcs| <= size <= status.Length
    modifies status
    ensures forall i :: 0 <= i < status.Length ==>
              status[i] == if i < |rcs| then StatusOf(rcs[i]) else if i < size then NoRow else old(status[i])
  {
    var i := |rcs|;
    while i < size
      invariant |rcs| <= i <= size
      invariant forall j :: 0 <= j < status.Length ==> status[j] == if |rcs| <= j < i then NoRow else old(status[j])
    {
      status[i] := NoRow;
      i := i + 1;
    }
    i := 0;
    while i < |rcs|
      invariant i <= |rcs|
      invariant forall j :: 0 <= j < status.Length ==>
                  status[j] == if j < i then StatusOf(rcs[j]) else if |rcs| <= j < size then NoRow else old(status[j])
    {
      status[i] := StatusOf(rcs[i]);
      i := i + 1;
    }
  }

  method Combine(cols: seq<ColBinding>, rows: seq<Cursor.Row>, rcs: seq<Rc>) returns (rc: Rc)
    requires |rcs| == |rows| && forall i :: 0 <= i < |rows| ==> rcs[i] == RcOf(cols, rows[i])
    ensures rc == Overall(cols, rows)
  {
    hide RcOf;
    var errors, infos, i := 0, 0, 0;
    while i < |rcs|
      invariant i <= |rcs| && 0 <= errors <= i && 0 <= infos
      invariant errors + infos > 0 <==> Trouble(cols, rows, i)
      invariant i == 1 ==> (errors == 1 <==> RcOf(cols, rows[0]) == Error)
    {
      if rcs[i] == Error { errors := errors + 1; }
      if rcs[i] == SuccessWithInfo { infos := infos + 1; }
      i := i + 1;
    }
    if errors == |rcs| && |rcs| == 1 { return Error; }
    return if errors > 0 || infos > 0 then SuccessWithInfo else Success;
  }

  lemma FitsLess(b: ColBinding, n: nat, m: nat)
    requires Fits(b, n) && m <= n
    ensures Fits(b, m)
  {
    if m < n { SlotsInOrder(m, n, Elem(b)); }
  }

  // ---------------------------------------------------------------- the statement

  /** The outcome of a fetch after some records have been read already. */
  function Pulled(sofar: seq<Cursor.Json>, r: Result<seq<Cursor.Json>>): Result<seq<Cursor.Json>> {
    if r.Err? then r else Ok(sofar + r.value)
  }

  lemma PulledOne(sofar: seq<Cursor.Json>, v: Cursor.View, n: nat, cancelled: bool)
    requires n > 0
    ensures var (r, v') := Cursor.NextStep(v, cancelled);
            Pulled(sofar, Cursor.FetchStep(v, n, cancelled).0) ==
            if r.Err? then Err(r.state)
            else if r.value.None? then Ok(sofar)
            else Pulled(sofar + [r.value.value], Cursor.FetchStep(v', n - 1, cancelled).0)
    ensures var (r, v') := Cursor.NextStep(v, cancelled);
            Cursor.FetchStep(v, n, cancelled).1 ==
            if r.Ok? && r.value.Some? then Cursor.FetchStep(v', n - 1, cancelled).1 else v'
  {
    var (r, v') := Cursor.NextStep(v, cancelled);
    assert sofar + [] == sofar;
    if r.Ok? && r.value.Some? {
      var rest := Cursor.FetchStep(v', n - 1, cancelled).0;
      if rest.Ok? { assert sofar + ([r.value.value] + rest.value) == (sofar + [r.value.value]) + rest.value; }
    }
  }

  class Stmt {
    var cursor: Cursor.SoqlCursor?
    var rowset: seq<Cursor.Row>
    var positioned: bool
    var getdata: seq<GetDataState>
    var rowNumber: nat
    var rowArraySize: nat
    var cols: seq<ColBinding>
    var status: array?<Status>
    var rowsFetched: nat

    /** A current row implies an open cursor, and a rowset of rows with one cell per column. */
    ghost predicate Valid()
      reads this, cursor
    {
      rowArraySize > 0 &&
      (cursor != null ==> cursor.Valid()) &&
      (positioned ==>
         cursor != null && rowset != [] && Cursor.Rectangular(rowset, |cursor.cols|) &&
         |getdata| == |cursor.cols| + 1) &&
      (forall i, j :: 0 <= i < j < |getdata| ==> getdata[i] != getdata[j])
    }

    ghost predicate Ready()
      reads this, Memory(cols)
    {
      Separate(cols) && (forall k :: 0 <= k < |cols| ==> Fits(cols[k], rowArraySize)) &&
      (status != null ==> rowArraySize <= status.Length)
    }

    /** Reads up to a rowset of rows from the cursor. */
    method PullRows() returns (r: Result<()>, ghost recs: seq<Cursor.Json>)
      requires Valid() && cursor != null
      modifies this`rowset, this`positioned, cursor, cursor.client
      ensures cursor.Valid() && cursor.cancel == old(cursor.cancel) && !positioned &&
              Cursor.Rectangular(rowset, |cursor.cols|)
      ensures var (spec, after) := Cursor.FetchStep(old(cursor.Look()), rowArraySize, old(cursor.cancel));
              cursor.Look() == after &&
              (spec.Err? ==> r == Err(spec.state)) &&
              (spec.Ok? ==> r == Ok(()) && recs == spec.value && rowset == Cursor.RowsOf(cursor.cols, recs))
      ensures r.Ok? ==> |rowset| <= rowArraySize
    {
      hide Cursor.NextStep, Cursor.FetchStep;
      rowset, positioned, recs := [], false, [];
      ghost var start := cursor.Look();
      var i := 0;
      assert Pulled([], Cursor.FetchStep(start, rowArraySize, cursor.cancel).0) ==
             Cursor.FetchStep(start, rowArraySize, cursor.cancel).0 by {
        PulledNothing(start, rowArraySize, cursor.cancel);
      }
      while i < rowArraySize
        invariant i <= rowArraySize && cursor.Valid() && cursor.cancel == old(cursor.cancel)
        invariant |recs| == i && rowset == Cursor.RowsOf(cursor.cols, recs) && !positioned
        invariant Cursor.FetchStep(start, rowArraySize, cursor.cancel).0 ==
                  Pulled(recs, Cursor.FetchStep(cursor.Look(), rowArraySize - i, cursor.cancel).0)
        invariant Cursor.FetchStep(start, rowArraySize, cursor.cancel).1 ==
                  Cursor.FetchStep(cursor.Look(), rowArraySize - i, cursor.cancel).1
      {
        PulledOne(recs, cursor.Look(), rowArraySize - i, cursor.cancel);
        ghost var step := Cursor.NextStep(cursor.Look(), cursor.cancel).0;
        var row := cursor.Next();
        if row.Err? { return Err(row.state), recs; }
        if row.value.None? { return Ok(()), recs; }
        recs := recs + [step.value.value];
        rowset := rowset + [row.value.value];
        assert rowset == Cursor.RowsOf(cursor.cols, recs);
        i := i + 1;
      }
      NoneLeft(recs, cursor.Look(), cursor.cancel);
      r := Ok(());
    }

    /** Positions of all columns of a row that has just become current. */
    method ResetGetData(n: nat)
      modifies this`getdata
      ensures |getdata| == n && fresh(getdata)
      ensures forall i :: 0 <= i < n ==> getdata[i].At() == State(0, false)
      ensures forall i, j :: 0 <= i < j < n ==> getdata[i] != getdata[j]
    {
      getdata := [];
      while |getdata| < n
        invariant |getdata| <= n && fresh(getdata)
        invariant forall i :: 0 <= i < |getdata| ==> getdata[i].At() == State(0, false)
        invariant forall i, j :: 0 <= i < j < |getdata| ==> getdata[i] != getdata[j]
      {
        var state := new GetDataState();
        getdata := getdata + [state];
      }
    }

    /** The first half of `do_fetch`: the rowset and the position on its first row. */
    method Advance() returns (r: Result<()>, ghost recs: seq<Cursor.Json>)
      requires Valid() && cursor != null
      modifies this`rowset, this`positioned, this`getdata, this`rowNumber, this`rowsFetched, cursor, cursor.client
      ensures Valid()
      ensures var (spec, after) := Cursor.FetchStep(old(cursor.Look()), rowArraySize, old(cursor.cancel));
              cursor.Look() == after &&
              (spec.Err? ==>
                 r == Err(spec.state) && !positioned && rowNumber == old(rowNumber) &&
                 rowsFetched == old(rowsFetched)) &&
              (spec.Ok? ==>
                 r == Ok(()) && recs == spec.value && rowset == Cursor.RowsOf(cursor.cols, recs) &&
                 rowsFetched == |recs| &&
                 positioned == (recs != []) && rowNumber == old(rowNumber) + |recs|)
      ensures r.Ok? ==> |rowset| <= rowArraySize && positioned == (rowset != [])
      ensures positioned ==> fresh(getdata) && forall i :: 0 <= i < |getdata| ==> getdata[i].At() == State(0, false)
    {
      hide Cursor.FetchStep;
      var pulled;
      pulled, recs := PullRows();
      if pulled.Err? { return Err(pulled.state), recs; }
      rowsFetched := |rowset|;
      if |rowset| == 0 { return Ok(()), recs; }
      rowNumber := rowNumber + |rowset|;
      positioned := true;
      ResetGetData(|cursor.cols| + 1);
      r := Ok(());
    }

    /** `do_fetch` with column-wise binding. */
    method DoFetch() returns (r: Result<Rc>, ghost recs: seq<Cursor.Json>)
      requires Valid() && Ready()
      modifies this`rowset, this`positioned, this`getdata, this`rowNumber, this`rowsFetched, cursor
      modifies (if cursor == null then {} else {cursor.client}), Memory(cols), (if status == null then {} else {status})
      ensures Valid()
      ensures cursor == null ==> r == Err("24000")
      ensures cursor != null ==>
                var (spec, after) := Cursor.FetchStep(old(cursor.Look()), rowArraySize, old(cursor.cancel));
                cursor.Look() == after &&
                (spec.Err? ==>
                   r == Err(spec.state) && !positioned && rowNumber == old(rowNumber) &&
                   rowsFetched == old(rowsFetched)) &&
                (spec.Ok? ==>
                   recs == spec.value && rowset == Cursor.RowsOf(cursor.cols, recs) && rowsFetched == |recs| &&
                   positioned == (recs != []) && rowNumber == old(rowNumber) + |recs| &&
                   r == Ok(if recs == [] then NoData else Overall(cols, rowset)))
      ensures r.Ok? && positioned ==>
                fresh(getdata) && forall i :: 0 <= i < |getdata| ==> getdata[i].At() == State(0, false)
      ensures r.Ok? && positioned ==> forall k :: 0 <= k < |cols| && cols[k].bound && cols[k].target != null ==>
                cols[k].target[..] ==
                if k < |cursor.cols|
                then Filled(old(cols[k].target[..]), cols[k], CellsAt(rowset, k, |cursor.cols|), |rowset|)
                else old(cols[k].target[..])
      ensures r.Ok? && positioned ==> forall k :: 0 <= k < |cols| && cols[k].bound && cols[k].ind != null ==>
                cols[k].ind[..] ==
                if k < |cursor.cols|
                then FilledInd(old(cols[k].ind[..]), cols[k], CellsAt(rowset, k, |cursor.cols|), |rowset|)
                else old(cols[k].ind[..])
      ensures r.Ok? && status != null ==> forall i :: 0 <= i < status.Length ==>
                status[i] == if i < |rowset| then StatusOf(RcOf(cols, rowset[i]))
                             else if i < rowArraySize then NoRow else old(status[i])
    {
      hide Cursor.FetchStep, RcOf, Overall, Filled, FilledInd, Separate, Fits, CellsAt, StatusOf;
      recs := [];
      if cursor == null { return Err("24000"), recs; }
      var advanced;
      advanced, recs := Advance();
      if advanced.Err? { return Err(advanced.state), recs; }
      if !positioned {
        if status != null { WriteStatuses([], status, rowArraySize); }
        return Ok(NoData), recs;
      }
      var rc := WriteOut();
      r := Ok(rc);
    }

    /** The rowset into the application's memory. */
    method WriteOut() returns (rc: Rc)
      requires Valid() && Ready() && positioned && |rowset| <= rowArraySize
      modifies Memory(cols), (if status == null then {} else {status})
      ensures rc == Overall(cols, rowset)
      ensures forall k :: 0 <= k < |cols| && cols[k].bound && cols[k].target != null ==>
                cols[k].target[..] ==
                if k < |cursor.cols|
                then Filled(old(cols[k].target[..]), cols[k], CellsAt(rowset, k, |cursor.cols|), |rowset|)
                else old(cols[k].target[..])
      ensures forall k :: 0 <= k < |cols| && cols[k].bound && cols[k].ind != null ==>
                cols[k].ind[..] ==
                if k < |cursor.cols|
                then FilledInd(old(cols[k].ind[..]), cols[k], CellsAt(rowset, k, |cursor.cols|), |rowset|)
                else old(cols[k].ind[..])
      ensures status != null ==> forall i :: 0 <= i < status.Length ==>
                status[i] == if i < |rowset| then StatusOf(RcOf(cols, rowset[i]))
                             else if i < rowArraySize then NoRow else old(status[i])
    {
      hide RcOf, Overall, Filled, FilledInd, Separate, Fits;
      forall k | 0 <= k < |cols| ensures Fits(cols[k], |rowset|) { FitsLess(cols[k], rowArraySize, |rowset|); }
      var rcs := WriteRows(cols, rowset, |cursor.cols|);
      if status != null { WriteStatuses(rcs, status, rowArraySize); }
      rc := Combine(cols, rowset, rcs);
    }

    /** SQLGetData on the current row. An application asks for a column in one C type, so that its
        saved position counts the units of that type. */
    method GetCell(col: nat, t: CType, target: array?<Byte>, cap: int, hasInd: bool)
      returns (r: Result<(Rc, Option<int>)>)
      requires Valid() && Sized(t)
      requires target != null ==> (if t.Fixed? then t.size else cap) <= target.Length
      requires cursor != null && positioned && 1 <= col <= |cursor.cols| ==>
               Within(t, rowset[0][col - 1], getdata[col].At())
      modifies (if target == null then {} else {target}), getdata
      ensures Valid()
      ensures !positioned ==> r == Err("24000")
      ensures positioned && (col == 0 || col > |cursor.cols|) ==> r == Err("07009")
      ensures positioned && 1 <= col <= |cursor.cols| && cap < 0 ==> r == Err("HY090")
      ensures r.Err? ==> forall i :: 0 <= i < |getdata| ==> getdata[i].At() == old(getdata[i].At())
      ensures positioned && 1 <= col <= |cursor.cols| && cap >= 0 ==>
                var (reply, after) := Step(t, rowset[0][col - 1], old(getdata[col].At()),
                                           Call(target != null, hasInd, cap));
                r == Ok((reply.rc, reply.ind)) && getdata[col].At() == after &&
                (forall i :: 0 <= i < |getdata| && i != col ==> getdata[i].At() == old(getdata[i].At())) &&
                (target != null ==> target[..] == Updated(old(target[..]), 0, t, reply.chunk))
    {
      hide Step, Updated;
      if cursor == null || !positioned || rowset == [] { return Err("24000"); }
      if col == 0 { return Err("07009"); }
      if col > |cursor.cols| { return Err("07009"); }
      if cap < 0 { return Err("HY090"); }
      var rc, ind := GetValue(t, rowset[0][col - 1], target, 0, cap, hasInd, getdata[col]);
      r := Ok((rc, ind));
    }
  }

  lemma PulledNothing(v: Cursor.View, n: nat, cancelled: bool)
    ensures Pulled([], Cursor.FetchStep(v, n, cancelled).0) == Cursor.FetchStep(v, n, cancelled).0
  {
    var r := Cursor.FetchStep(v, n, cancelled).0;
    if r.Ok? { assert [] + r.value == r.value; }
  }

  lemma NoneLeft(recs: seq<Cursor.Json>, v: Cursor.View, cancelled: bool)
    ensures Pulled(recs, Cursor.FetchStep(v, 0, cancelled).0) == Ok(recs) && Cursor.FetchStep(v, 0, cancelled).1 == v
  {
    assert recs + [] == recs;
  }
}
