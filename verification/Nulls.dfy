/** Missing values in SQLGetData and in bound columns: the indicator -1, and nothing written
    (src/convert.cpp:145-158, src/odbc_impl.cpp:700-727 and :742-752). */
module Nulls {
  import opened Wrappers
  import opened Text
  import opened GetData
  import opened Chunks
  import Cursor
  import Fetch

  /** Some call on column `c` had an indicator. */
  predicate Told(reqs: seq<Request>, c: nat) {
    exists i :: 0 <= i < |reqs| && reqs[i].col == c && reqs[i].call.hasInd
  }

  lemma ToldUpTo(reqs: seq<Request>, c: nat)
    requires reqs != []
    ensures var n := |reqs| - 1;
            Told(reqs, c) <==> Told(reqs[..n], c) || (reqs[n].col == c && reqs[n].call.hasInd)
  {
    var n := |reqs| - 1;
    if Told(reqs[..n], c) {
      var i :| 0 <= i < n && reqs[..n][i].col == c && reqs[..n][i].call.hasInd;
      assert reqs[i].col == c && reqs[i].call.hasInd;
    }
    if Told(reqs, c) {
      var i :| 0 <= i < |reqs| && reqs[i].col == c && reqs[i].call.hasInd;
      if i < n { assert reqs[..n][i] == reqs[i]; }
    }
  }

  lemma {:induction false} NullState(cols: seq<Column>, reqs: seq<Request>, c: nat)
    requires Legal(cols, reqs) && c < |cols| && cols[c].value.None?
    ensures Run(cols, reqs).1[c].done <==> Told(reqs, c)
  {
    if reqs != [] {
      var n := |reqs| - 1;
      NullState(cols, reqs[..n], c);
      RunStep(cols, reqs, n);
      assert reqs[..n + 1] == reqs;
      ToldUpTo(reqs, c);
    }
  }

  /** The replies of a column without a value: -1 and nothing else to the first call that can be
      told so, an error to those before it, and no more data afterwards. */
  lemma NullReplies(cols: seq<Column>, reqs: seq<Request>, c: nat, k: nat)
    requires Legal(cols, reqs) && c < |cols| && cols[c].value.None? && k < |reqs| && reqs[k].col == c
    ensures Run(cols, reqs).0[k] ==
            if Told(reqs[..k], c) then Reply(NoData, None, None)
            else if reqs[k].call.hasInd then Reply(Success, Some(-1), None)
            else Reply(Error, None, None)
  {
    hide Run, Told;
    NullState(cols, reqs[..k], c);
    RunStep(cols, reqs, k);
    RepliesKept(cols, reqs, k + 1);
    assert Run(cols, reqs).0[..k + 1][k] == Run(cols, reqs).0[k];
  }

  /** A value is never reported as missing. */
  lemma ValueReplies(cols: seq<Column>, reqs: seq<Request>, c: nat, k: nat)
    requires Legal(cols, reqs) && c < |cols| && cols[c].value.Some? && k < |reqs| && reqs[k].col == c
    ensures var ind := Run(cols, reqs).0[k].ind; ind.Some? ==> ind.value >= 0
  {
    hide Run;
    RunStep(cols, reqs, k);
    RepliesKept(cols, reqs, k + 1);
    assert Run(cols, reqs).0[..k + 1][k] == Run(cols, reqs).0[k];
    var st := Run(cols, reqs[..k]).1[c];
    assert Within(cols[c].ctype, cols[c].value, st);
  }

  // ---------------------------------------------------------------- bound columns

  lemma CellInd(b: Fetch.ColBinding, v: Cursor.Cell)
    requires b.ind != null
    ensures v.None? ==> Fetch.CellReply(b, v) == Reply(Success, Some(-1), None)
    ensures v.Some? ==> var ind := Fetch.CellReply(b, v).ind; ind.Some? ==> ind.value >= 0
  {
  }

  function Slot(mem: seq<Byte>, at: nat, elem: nat): seq<Byte>
    requires at + elem <= |mem|
  {
    mem[at..at + elem]
  }

  lemma NullByteKept(mem: seq<Byte>, b: Fetch.ColBinding, cells: seq<Cursor.Cell>, i: nat, p: nat)
    requires b.ind != null && i < |cells| && cells[i].None?
    requires Sized(b.ctype) && |cells| * Fetch.Elem(b) <= |mem| && p < Fetch.Elem(b) && i * Fetch.Elem(b) + p < |mem|
    ensures Fetch.Filled(mem, b, cells, |cells|)[i * Fetch.Elem(b) + p] == mem[i * Fetch.Elem(b) + p]
  {
    CellInd(b, cells[i]);
    hide Fetch.CellReply, Fetch.Filled;
    Fetch.SlotsAreIndependent(mem, b, cells, |cells|, i, p);
  }

  lemma NullBytesKept(mem: seq<Byte>, b: Fetch.ColBinding, cells: seq<Cursor.Cell>, i: nat, at: nat)
    requires b.ind != null && i < |cells| && cells[i].None? && at == i * Fetch.Elem(b)
    requires Sized(b.ctype) && |cells| * Fetch.Elem(b) <= |mem| && at + Fetch.Elem(b) <= |mem|
    ensures forall q :: at <= q < at + Fetch.Elem(b) ==> Fetch.Filled(mem, b, cells, |cells|)[q] == mem[q]
  {
    hide Fetch.Filled, Fetch.Elem;
    forall q | at <= q < at + Fetch.Elem(b) ensures Fetch.Filled(mem, b, cells, |cells|)[q] == mem[q] {
      NullByteKept(mem, b, cells, i, q - at);
    }
  }

  lemma SameSlot(after: seq<Byte>, mem: seq<Byte>, at: nat, elem: nat)
    requires |after| == |mem| && at + elem <= |mem|
    requires forall q :: at <= q < at + elem ==> after[q] == mem[q]
    ensures Slot(after, at, elem) == Slot(mem, at, elem)
  {
  }

  /** The bytes of a slot, at `at`, whose cell is missing stay as they were. */
  lemma NullSlotKept(mem: seq<Byte>, b: Fetch.ColBinding, cells: seq<Cursor.Cell>, i: nat, at: nat)
    requires b.ind != null && i < |cells| && cells[i].None? && at == i * Fetch.Elem(b)
    requires Sized(b.ctype) && |cells| * Fetch.Elem(b) <= |mem| && at + Fetch.Elem(b) <= |mem|
    ensures Slot(Fetch.Filled(mem, b, cells, |cells|), at, Fetch.Elem(b)) == Slot(mem, at, Fetch.Elem(b))
  {
    hide *;
    NullBytesKept(mem, b, cells, i, at);
    SameSlot(Fetch.Filled(mem, b, cells, |cells|), mem, at, Fetch.Elem(b));
  }

  /** In the indicators of a bound column slot `i` is -1 exactly when cell `i` is missing, wherever the
      cell was converted. */
  lemma NullSlots(ind: seq<int>, b: Fetch.ColBinding, cells: seq<Cursor.Cell>, i: nat)
    requires b.ind != null && i < |cells| <= |ind| && Fetch.CellReply(b, cells[i]).rc != Error
    ensures Fetch.FilledInd(ind, b, cells, |cells|)[i] == -1 <==> cells[i].None?
    ensures Fetch.FilledInd(ind, b, cells, |cells|)[i] < 0 <==> cells[i].None?
  {
    Fetch.IndicatorsAreIndependent(ind, b, cells, |cells|, i);
    CellInd(b, cells[i]);
    CellReports(b, cells[i]);
    hide Fetch.CellReply, Fetch.FilledInd;
  }

  /** Every cell but one that cannot be converted is reported on. */
  lemma CellReports(b: Fetch.ColBinding, v: Cursor.Cell)
    requires b.ind != null
    ensures Fetch.CellReply(b, v).rc != Error ==> Fetch.CellReply(b, v).ind.Some?
  {
  }
}
