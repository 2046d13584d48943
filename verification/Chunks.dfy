/** What a whole sequence of SQLGetData calls on one row delivers (src/odbc_impl.cpp, GetData;
    src/convert.cpp, get_value). */
module Chunks {
  import opened Wrappers
  import opened Text
  import opened Utf
  import opened GetData

  /** A column of the current row and the C type it is asked for in. */
  datatype Column = Column(ctype: CType, value: Option<seq<Byte>>)

  datatype Request = Request(col: nat, call: Call)

  const START := State(0, false)

  predicate Legal(cols: seq<Column>, reqs: seq<Request>) {
    forall i :: 0 <= i < |reqs| ==> reqs[i].col < |cols|
  }

  predicate AllWithin(cols: seq<Column>, states: seq<State>) {
    |states| == |cols| && forall c :: 0 <= c < |cols| ==> Within(cols[c].ctype, cols[c].value, states[c])
  }

  lemma StepWithin(t: CType, v: Option<seq<Byte>>, st: State, call: Call)
    requires Within(t, v, st)
    ensures Within(t, v, Step(t, v, st, call).1)
  {
  }

  /** The replies to a sequence of calls, columns interleaved in any order, and the positions
      they leave. */
  function Run(cols: seq<Column>, reqs: seq<Request>): (r: (seq<Reply>, seq<State>))
    requires Legal(cols, reqs)
    ensures |r.0| == |reqs| && AllWithin(cols, r.1)
  {
    if reqs == [] then ([], seq(|cols|, _ => START))
    else
      var k := |reqs| - 1;
      var (replies, states) := Run(cols, reqs[..k]);
      var c := reqs[k].col;
      StepWithin(cols[c].ctype, cols[c].value, states[c], reqs[k].call);
      var (reply, st) := Step(cols[c].ctype, cols[c].value, states[c], reqs[k].call);
      (replies + [reply], states[c := st])
  }

  function ChunkOf(reply: Reply): seq<int> {
    if reply.chunk.Some? then reply.chunk.value else []
  }

  /** All chunks of column `c`, joined in the order they were delivered. */
  function Delivered(c: nat, reqs: seq<Request>, replies: seq<Reply>): seq<int>
    requires |reqs| == |replies|
  {
    if reqs == [] then []
    else
      var k := |reqs| - 1;
      Delivered(c, reqs[..k], replies[..k]) + if reqs[k].col == c then ChunkOf(replies[k]) else []
  }

  function AllUnits(col: Column): seq<int>
    requires col.value.Some?
  {
    UnitsOf(col.ctype, col.value.value)
  }

  predicate IsText(col: Column) {
    !col.ctype.Fixed? && col.value.Some?
  }

  // ---------------------------------------------------------------- nothing lost, nothing repeated

  /** What a column has delivered when it stands at `st`. */
  function Sofar(col: Column, st: State): seq<int>
    requires IsText(col) && Within(col.ctype, col.value, st)
  {
    if st.done then AllUnits(col) else AllUnits(col)[..st.offset]
  }

  lemma StepDelivers(col: Column, st: State, call: Call)
    requires IsText(col) && Within(col.ctype, col.value, st)
    ensures var (reply, after) := Step(col.ctype, col.value, st, call);
            Within(col.ctype, col.value, after) && Sofar(col, after) == Sofar(col, st) + ChunkOf(reply)
    ensures var reply := Step(col.ctype, col.value, st, call).0;
            if reply.rc == NoData then st.done
            else !st.done && reply.ind == Some((|AllUnits(col)| - st.offset) * Width(col.ctype))
  {
    hide Take;
    StepWithin(col.ctype, col.value, st, call);
    var (reply, after) := Step(col.ctype, col.value, st, call);
    assert Sofar(col, after) == Sofar(col, st) + ChunkOf(reply);
  }

  lemma RunStep(cols: seq<Column>, reqs: seq<Request>, k: nat)
    requires Legal(cols, reqs) && k < |reqs|
    ensures Legal(cols, reqs[..k]) && Legal(cols, reqs[..k + 1])
    ensures var c := reqs[k].col;
            var before := Run(cols, reqs[..k]);
            var (reply, st) := Step(cols[c].ctype, cols[c].value, before.1[c], reqs[k].call);
            Run(cols, reqs[..k + 1]) == (before.0 + [reply], before.1[c := st])
  {
    assert reqs[..k + 1][..k] == reqs[..k];
  }

  lemma {:induction false} RunDelivers(cols: seq<Column>, reqs: seq<Request>, c: nat)
    requires Legal(cols, reqs) && c < |cols| && IsText(cols[c])
    ensures Delivered(c, reqs, Run(cols, reqs).0) == Sofar(cols[c], Run(cols, reqs).1[c])
  {
    hide Step, AllUnits;
    if reqs == [] {
      assert AllUnits(cols[c])[..0] == [];
    } else {
      var k := |reqs| - 1;
      RunDelivers(cols, reqs[..k], c);
      var (replies, states) := Run(cols, reqs[..k]);
      var d := reqs[k].col;
      StepWithin(cols[d].ctype, cols[d].value, states[d], reqs[k].call);
      var (reply, st) := Step(cols[d].ctype, cols[d].value, states[d], reqs[k].call);
      assert Run(cols, reqs) == (replies + [reply], states[d := st]);
      assert (replies + [reply])[..k] == replies;
      if d == c {
        StepDelivers(cols[c], states[c], reqs[k].call);
      } else {
        assert Delivered(c, reqs[..k], replies) + [] == Delivered(c, reqs[..k], replies);
      }
    }
  }

  lemma {:induction false} RepliesKept(cols: seq<Column>, reqs: seq<Request>, k: nat)
    requires Legal(cols, reqs) && k <= |reqs|
    ensures Legal(cols, reqs[..k]) && Run(cols, reqs[..k]).0 == Run(cols, reqs).0[..k]
    decreases |reqs|
  {
    if k < |reqs| {
      var n := |reqs| - 1;
      RepliesKept(cols, reqs[..n], k);
      RunStep(cols, reqs, n);
      assert reqs[..n][..k] == reqs[..k] && reqs[..n + 1] == reqs;
      assert Run(cols, reqs).0[..k] == Run(cols, reqs[..n]).0[..k];
    } else {
      assert reqs[..k] == reqs && Run(cols, reqs).0[..k] == Run(cols, reqs).0;
    }
  }

  /** What the `k`-th call, on column `c`, says about what came before it. */
  predicate Tells(cols: seq<Column>, reqs: seq<Request>, c: nat, k: nat)
    requires Legal(cols, reqs) && c < |cols| && IsText(cols[c]) && k < |reqs|
  {
    var (replies, states) := Run(cols, reqs);
    var prior := Delivered(c, reqs[..k], replies[..k]);
    if replies[k].rc == NoData then prior == AllUnits(cols[c])
    else replies[k].ind == Some((|AllUnits(cols[c])| - |prior|) * Width(cols[c].ctype))
  }

  /** NO_DATA is answered only when everything has been delivered; every other answer reports what
      remained. */
  lemma ReplyTells(cols: seq<Column>, reqs: seq<Request>, c: nat, k: nat)
    requires Legal(cols, reqs) && c < |cols| && IsText(cols[c]) && k < |reqs| && reqs[k].col == c
    ensures Tells(cols, reqs, c, k)
  {
    hide Step, Run, UnitsOf;
    RunStep(cols, reqs, k);
    RepliesKept(cols, reqs, k);
    RepliesKept(cols, reqs, k + 1);
    RunDelivers(cols, reqs[..k], c);
    var st := Run(cols, reqs[..k]).1[c];
    StepDelivers(cols[c], st, reqs[k].call);
    assert Run(cols, reqs).0[..k + 1][k] == Run(cols, reqs).0[k];
  }

  /** The chunks of each column, however the calls are interleaved and whatever their capacities,
      are consecutive pieces of its value from the start, and all of it once the column is done. */
  lemma Reassembles(cols: seq<Column>, reqs: seq<Request>, c: nat)
    requires Legal(cols, reqs) && c < |cols| && IsText(cols[c])
    ensures Delivered(c, reqs, Run(cols, reqs).0) <= AllUnits(cols[c])
    ensures Run(cols, reqs).1[c].done ==> Delivered(c, reqs, Run(cols, reqs).0) == AllUnits(cols[c])
  {
    hide Step, AllUnits, Run;
    RunDelivers(cols, reqs, c);
    UnitsAre(cols[c]);
    assert Within(cols[c].ctype, cols[c].value, Run(cols, reqs).1[c]);
  }

  // ---------------------------------------------------------------- getting to the end

  /** A call with a target and room for at least one unit besides the terminator. */
  predicate Roomy(t: CType, call: Call) {
    call.hasTarget && Room(t, call.cap) >= 1
  }

  function RoomyCalls(cols: seq<Column>, reqs: seq<Request>, c: nat): nat
    requires c < |cols|
  {
    if reqs == [] then 0
    else
      var k := |reqs| - 1;
      RoomyCalls(cols, reqs[..k], c) + if reqs[k].col == c && Roomy(cols[c].ctype, reqs[k].call) then 1 else 0
  }

  lemma StepAdvances(col: Column, st: State, call: Call)
    requires IsText(col) && Within(col.ctype, col.value, st)
    ensures var after := Step(col.ctype, col.value, st, call).1;
            after.done || (!st.done && after.offset >= st.offset + if Roomy(col.ctype, call) then 1 else 0)
  {
  }

  lemma {:induction false} RunAdvances(cols: seq<Column>, reqs: seq<Request>, c: nat)
    requires Legal(cols, reqs) && c < |cols| && IsText(cols[c])
    ensures var st := Run(cols, reqs).1[c];
            st.done || RoomyCalls(cols, reqs, c) <= st.offset
  {
    hide Step, Roomy;
    if reqs != [] {
      var k := |reqs| - 1;
      RunAdvances(cols, reqs[..k], c);
      RunStep(cols, reqs, k);
      assert reqs[..k + 1] == reqs;
      if reqs[k].col == c { StepAdvances(cols[c], Run(cols, reqs[..k]).1[c], reqs[k].call); }
    }
  }

  /** Reading on always finishes: one more call with room than the value has units completes it. */
  lemma ReadingFinishes(cols: seq<Column>, reqs: seq<Request>, c: nat)
    requires Legal(cols, reqs) && c < |cols| && IsText(cols[c])
    requires RoomyCalls(cols, reqs, c) > |AllUnits(cols[c])|
    ensures Run(cols, reqs).1[c].done && Delivered(c, reqs, Run(cols, reqs).0) == AllUnits(cols[c])
  {
    hide Run, AllUnits;
    RunAdvances(cols, reqs, c);
    RunDelivers(cols, reqs, c);
    assert Within(cols[c].ctype, cols[c].value, Run(cols, reqs).1[c]);
    UnitsAre(cols[c]);
  }

  lemma UnitsAre(col: Column)
    requires col.value.Some?
    ensures AllUnits(col) == UnitsOf(col.ctype, col.value.value)
  {
  }

  // ---------------------------------------------------------------- no character is split

  lemma LengthOfStart(s: seq<Byte>, p: nat)
    requires WellFormedLength(s) > 0 && WellFormedLength(s) <= p <= |s|
    ensures WellFormedLength(s[..p]) == WellFormedLength(s)
  {
  }

  lemma InsideIsTail(s: seq<Byte>, p: nat)
    requires 0 < p < WellFormedLength(s)
    ensures Tail(s[p])
  {
  }

  /** Well-formed UTF-8 cut in front of anything but a continuation byte is well-formed on both
      sides. */
  lemma {:induction false} CutWellFormed8(s: seq<Byte>, p: nat)
    requires WellFormed8(s) && p <= |s| && (p == |s| || !Tail(s[p]))
    ensures WellFormed8(s[..p]) && WellFormed8(s[p..])
    decreases |s|
  {
    hide WellFormedLength;
    if p == 0 {
      assert s[0..] == s && s[..0] == [];
    } else {
      var n := WellFormedLength(s);
      if p < n { InsideIsTail(s, p); }
      CutWellFormed8(s[n..], p - n);
      LengthOfStart(s, p);
      assert s[..p][n..] == s[n..][..p - n] && s[n..][p - n..] == s[p..];
    }
  }

  lemma StartsSequence(s: seq<Byte>)
    requires WellFormedLength(s) > 0
    ensures !Tail(s[0]) && WellFormedLength(s) <= 4
  {
  }

  lemma PartOfSequence(s: seq<Byte>, p: nat)
    requires 0 < p < WellFormedLength(s)
    ensures WellFormedLength(s[..p]) == 0
  {
  }

  /** Cut inside a sequence it is not. */
  lemma {:induction false} CutInside8(s: seq<Byte>, p: nat)
    requires WellFormed8(s) && p < |s| && Tail(s[p])
    ensures !WellFormed8(s[..p])
    decreases |s|
  {
    hide WellFormedLength;
    var n := WellFormedLength(s);
    StartsSequence(s);
    if p < n {
      PartOfSequence(s, p);
    } else {
      CutInside8(s[n..], p - n);
      LengthOfStart(s, p);
      assert s[..p][n..] == s[n..][..p - n];
    }
  }

  lemma SequenceFits(s: seq<Byte>)
    requires WellFormed8(s) && s != []
    ensures 0 < WellFormedLength(s) <= |s| && WellFormed8(s[WellFormedLength(s)..])
  {
  }

  /** A call that starts between two characters stops between two exactly when it has room for the
      first of those that are left, or none is left, or it has no room at all. */
  lemma TakeIsWhole8(s: seq<Byte>, room: nat)
    requires WellFormed8(s)
    ensures var n := Take(Char, s, 0, room);
            WellFormed8(s[..n]) <==> room == 0 || s == [] || room >= WellFormedLength(s)
    ensures var n := Take(Char, s, 0, room);
            WellFormed8(s[..n]) ==> WellFormed8(s[n..])
  {
    hide WellFormed8, WellFormedLength;
    var n := Take(Char, s, 0, room);
    if s == [] || room == 0 {
      if s != [] { StartNotTail(s); }
      CutWellFormed8(s, 0);
    } else {
      SequenceFits(s);
      var m := WellFormedLength(s);
      if n == |s| {
        assert s[..n] == s && s[n..] == [];
        EmptyIsWellFormed();
      } else {
        if m <= room {
          NextStarts(s);
          var k := Boundary(s, 0, room);
          assert k >= m;
        } else {
          AllTails(s, room);
        }
        if Tail(s[n]) { CutInside8(s, n); } else { CutWellFormed8(s, n); }
      }
    }
  }

  lemma EmptyIsWellFormed()
    ensures WellFormed8([])
  {
  }

  lemma NextStarts(s: seq<Byte>)
    requires WellFormed8(s) && s != []
    ensures var m := WellFormedLength(s); m < |s| ==> !Tail(s[m])
  {
    var m := WellFormedLength(s);
    if m < |s| { StartNotTail(s[m..]); }
  }

  lemma AllTails(s: seq<Byte>, room: nat)
    requires 0 < room < WellFormedLength(s)
    ensures room < |s| && Take(Char, s, 0, room) == room && Tail(s[room])
  {
    hide WellFormedLength;
    forall i | 0 < i <= room ensures Tail(s[i]) { InsideIsTail(s, i); }
    var k := Boundary(s, 0, room);
    assert k == 0;
  }

  lemma {:induction false} CutWellFormed16(w: seq<Unit>, p: nat)
    requires WellFormed16(w) && p <= |w| && (p == 0 || !HighSurrogate(w[p - 1]))
    ensures WellFormed16(w[..p]) && WellFormed16(w[p..])
    decreases |w|
  {
    if p == 0 {
      assert w[0..] == w && w[..0] == [];
    } else {
      var n := if HighSurrogate(w[0]) then 2 else 1;
      if p == 1 { assert n == 1; }
      CutWellFormed16(w[n..], p - n);
      assert w[..p][n..] == w[n..][..p - n] && w[n..][p - n..] == w[p..];
    }
  }

  lemma {:induction false} LowFollowsHigh(w: seq<Unit>, p: nat)
    requires WellFormed16(w) && p < |w| && HighSurrogate(w[p])
    ensures p + 1 < |w| && !HighSurrogate(w[p + 1])
    ensures p > 0 ==> !HighSurrogate(w[p - 1])
    decreases |w|
  {
    var n := if HighSurrogate(w[0]) then 2 else 1;
    if p >= n {
      LowFollowsHigh(w[n..], p - n);
      if p - n > 0 { assert w[n..][p - n - 1] == w[p - 1]; }
    }
  }

  lemma {:induction false} CutInside16(w: seq<Unit>, p: nat)
    requires WellFormed16(w) && 0 < p <= |w| && HighSurrogate(w[p - 1])
    ensures !WellFormed16(w[..p])
    decreases |w|
  {
    var n := if HighSurrogate(w[0]) then 2 else 1;
    if p == 1 {
      assert w[..p] == [w[0]];
    } else if p > n {
      CutInside16(w[n..], p - n);
      assert w[..p][n..] == w[n..][..p - n];
    }
  }

  /** The same for code units, where a character takes two if it starts with a high surrogate. */
  lemma TakeIsWhole16(w: seq<Unit>, room: nat)
    requires WellFormed16(w)
    ensures var n := Take(Wide, w, 0, room);
            WellFormed16(w[..n]) <==> room == 0 || w == [] || room >= (if HighSurrogate(w[0]) then 2 else 1)
    ensures var n := Take(Wide, w, 0, room);
            WellFormed16(w[..n]) ==> WellFormed16(w[n..])
  {
    hide WellFormed16;
    var n := Take(Wide, w, 0, room);
    if n > 0 && HighSurrogate(w[n - 1]) {
      LowFollowsHigh(w, n - 1);
      CutInside16(w, n);
    } else {
      CutWellFormed16(w, n);
    }
  }

  /** Well-formed text in the encoding of the C type; binary data has none. */
  predicate WellFormed(t: CType, u: seq<int>) {
    match t
    case Char => (forall i :: 0 <= i < |u| ==> 0 <= u[i] < 256) && WellFormed8(u)
    case Wide => (forall i :: 0 <= i < |u| ==> 0 <= u[i] < 0x10000) && WellFormed16(u)
    case _ => true
  }

  /** How many units the first character of `u` takes; 0 for binary data and where none is left. */
  function FirstLength(t: CType, u: seq<int>): nat
    requires WellFormed(t, u)
  {
    match t
    case Char => WellFormedLength(u)
    case Wide => if u == [] then 0 else if HighSurrogate(u[0]) then 2 else 1
    case _ => 0
  }

  /** What is left of a column that stands at `st`. */
  function Left(col: Column, st: State): seq<int>
    requires IsText(col) && Within(col.ctype, col.value, st)
  {
    if st.done then [] else AllUnits(col)[st.offset..]
  }

  /** The column stands between two characters. */
  predicate Between(col: Column, st: State)
    requires IsText(col) && Within(col.ctype, col.value, st)
  {
    WellFormed(col.ctype, Left(col, st))
  }

  /** The call writes nothing, or has room for the character the column stands before. */
  predicate HasRoom(col: Column, st: State, call: Call)
    requires IsText(col) && Within(col.ctype, col.value, st)
  {
    !call.hasTarget || Room(col.ctype, call.cap) <= 0 ||
    (Between(col, st) && Room(col.ctype, call.cap) >= FirstLength(col.ctype, Left(col, st)))
  }

  lemma TakeIsWhole(t: CType, u: seq<int>, room: nat)
    requires WellFormed(t, u) && !t.Fixed?
    ensures var n := Take(t, u, 0, room);
            (WellFormed(t, u[..n]) <==> room == 0 || room >= FirstLength(t, u)) &&
            (WellFormed(t, u[..n]) ==> WellFormed(t, u[n..]))
  {
    hide Take, WellFormed8, WellFormed16, WellFormedLength;
    if t.Char? { TakeIsWhole8(u, room); } else if t.Wide? { TakeIsWhole16(u, room); }
  }

  /** From between two characters a call delivers whole characters exactly when it has room, and
      then leaves the column between two characters again. */
  lemma StepIsWhole(col: Column, st: State, call: Call)
    requires IsText(col) && Within(col.ctype, col.value, st) && Between(col, st)
    ensures var (reply, after) := Step(col.ctype, col.value, st, call);
            (WellFormed(col.ctype, ChunkOf(reply)) <==> HasRoom(col, st, call)) &&
            Within(col.ctype, col.value, after) && (HasRoom(col, st, call) ==> Between(col, after))
  {
    hide Take, WellFormed, FirstLength;
    EmptyWellFormed(col.ctype);
    NothingFirst(col.ctype);
    StepWithin(col.ctype, col.value, st, call);
    if !st.done && call.hasTarget && Room(col.ctype, call.cap) >= 0 {
      var u, room := AllUnits(col), Room(col.ctype, call.cap);
      var rest, n := Left(col, st), Take(col.ctype, u, st.offset, room);
      TakeShifts(col.ctype, u, st.offset, room);
      TakeIsWhole(col.ctype, rest, room);
      assert u[st.offset..st.offset + n] == rest[..n];
      assert u[st.offset + n..] == rest[n..];
    }
  }

  lemma NothingFirst(t: CType)
    requires WellFormed(t, [])
    ensures FirstLength(t, []) == 0
  {
  }

  lemma EmptyWellFormed(t: CType)
    ensures WellFormed(t, [])
  {
  }

  lemma {:induction false} BoundaryShifts(u: seq<int>, offset: nat, k: nat)
    requires offset + k < |u|
    ensures Boundary(u, offset, k) == Boundary(u[offset..], 0, k)
  {
    if k > 0 { BoundaryShifts(u, offset, k - 1); }
  }

  /** How much is taken depends only on what remains. */
  lemma TakeShifts(t: CType, u: seq<int>, offset: nat, room: nat)
    requires offset <= |u|
    ensures Take(t, u, offset, room) == Take(t, u[offset..], 0, room)
  {
    var n: nat := if |u| - offset <= room then |u| - offset else room;
    if offset + n < |u| { BoundaryShifts(u, offset, n); }
  }

  lemma StartsBetween(col: Column)
    requires IsText(col) && WellFormed8(col.value.value)
    ensures Between(col, START)
  {
    assert AllUnits(col)[0..] == AllUnits(col);
    Utf8RoundTrip(col.value.value);
  }

  /** Every chunk of column `c` is well-formed. */
  predicate ChunksWhole(cols: seq<Column>, reqs: seq<Request>, c: nat)
    requires Legal(cols, reqs) && c < |cols|
  {
    forall k :: 0 <= k < |reqs| && reqs[k].col == c ==> WellFormed(cols[c].ctype, ChunkOf(Run(cols, reqs).0[k]))
  }

  predicate RoomAt(cols: seq<Column>, reqs: seq<Request>, c: nat, k: nat)
    requires Legal(cols, reqs) && c < |cols| && IsText(cols[c]) && k < |reqs|
  {
    HasRoom(cols[c], Run(cols, reqs[..k]).1[c], reqs[k].call)
  }

  /** Every call on column `c` has room for the character at which it finds the column. */
  predicate RoomThroughout(cols: seq<Column>, reqs: seq<Request>, c: nat)
    requires Legal(cols, reqs) && c < |cols| && IsText(cols[c])
  {
    forall k :: 0 <= k < |reqs| && reqs[k].col == c ==> RoomAt(cols, reqs, c, k)
  }

  lemma ChunksUpTo(cols: seq<Column>, reqs: seq<Request>, c: nat)
    requires Legal(cols, reqs) && c < |cols| && reqs != []
    ensures var n := |reqs| - 1;
            ChunksWhole(cols, reqs, c) <==>
            ChunksWhole(cols, reqs[..n], c) &&
            (reqs[n].col == c ==> WellFormed(cols[c].ctype, ChunkOf(Run(cols, reqs).0[n])))
  {
    hide Run, WellFormed;
    var n := |reqs| - 1;
    RepliesKept(cols, reqs, n);
    forall k | 0 <= k < n ensures reqs[..n][k] == reqs[k] && Run(cols, reqs[..n]).0[k] == Run(cols, reqs).0[k] {
    }
  }

  lemma RoomUpTo(cols: seq<Column>, reqs: seq<Request>, c: nat)
    requires Legal(cols, reqs) && c < |cols| && IsText(cols[c]) && reqs != []
    ensures var n := |reqs| - 1;
            RoomThroughout(cols, reqs, c) <==>
            RoomThroughout(cols, reqs[..n], c) && (reqs[n].col == c ==> RoomAt(cols, reqs, c, n))
  {
    hide Run, HasRoom;
    var n := |reqs| - 1;
    forall k | 0 <= k < n ensures reqs[..n][k] == reqs[k] && RoomAt(cols, reqs[..n], c, k) == RoomAt(cols, reqs, c, k) {
      assert reqs[..n][..k] == reqs[..k];
    }
  }

  /** Of well-formed text no chunk splits a character exactly when every call that writes has room
      for the character at which it finds the column; the column then always stands between two. */
  lemma {:induction false} ChunksAreWhole(cols: seq<Column>, reqs: seq<Request>, c: nat)
    requires Legal(cols, reqs) && c < |cols| && IsText(cols[c]) && WellFormed8(cols[c].value.value)
    ensures ChunksWhole(cols, reqs, c) <==> RoomThroughout(cols, reqs, c)
    ensures ChunksWhole(cols, reqs, c) ==> Between(cols[c], Run(cols, reqs).1[c])
  {
    hide Step, WellFormed8, HasRoom, Between, WellFormed, ChunksWhole, RoomThroughout;
    if reqs == [] {
      StartsBetween(cols[c]);
      NoCalls(cols, c);
    } else {
      var n := |reqs| - 1;
      ChunksAreWhole(cols, reqs[..n], c);
      ChunksUpTo(cols, reqs, c);
      RoomUpTo(cols, reqs, c);
      RunStep(cols, reqs, n);
      assert reqs[..n + 1] == reqs;
      if ChunksWhole(cols, reqs[..n], c) && reqs[n].col == c {
        StepIsWhole(cols[c], Run(cols, reqs[..n]).1[c], reqs[n].call);
      }
    }
  }

  lemma NoCalls(cols: seq<Column>, c: nat)
    requires c < |cols| && IsText(cols[c])
    ensures ChunksWhole(cols, [], c) && RoomThroughout(cols, [], c)
  {
  }

  /** A call that leaves the position alone, or has room for any one character. */
  predicate RoomForAny(t: CType, call: Call) {
    !call.hasTarget || Room(t, call.cap) < 0 || Room(t, call.cap) >= if t.Char? then 4 else 2
  }

  lemma AnyFits(col: Column, st: State, call: Call)
    requires IsText(col) && Within(col.ctype, col.value, st) && Between(col, st) && RoomForAny(col.ctype, call)
    ensures HasRoom(col, st, call)
  {
    hide WellFormed;
    FirstIsShort(col.ctype, Left(col, st));
  }

  lemma FirstIsShort(t: CType, u: seq<int>)
    requires WellFormed(t, u)
    ensures FirstLength(t, u) <= if t.Char? then 4 else 2
  {
  }

  /** Four bytes, or two code units, are always enough. */
  lemma {:induction false} FourBytesSuffice(cols: seq<Column>, reqs: seq<Request>, c: nat)
    requires Legal(cols, reqs) && c < |cols| && IsText(cols[c]) && WellFormed8(cols[c].value.value)
    requires forall k :: 0 <= k < |reqs| && reqs[k].col == c ==> RoomForAny(cols[c].ctype, reqs[k].call)
    ensures ChunksWhole(cols, reqs, c)
  {
    hide WellFormed8, RoomForAny, ChunksWhole, RoomThroughout, Run, Between, HasRoom;
    if reqs == [] {
      NoCalls(cols, c);
    } else {
      var n := |reqs| - 1;
      FourBytesSuffice(cols, reqs[..n], c);
      ChunksAreWhole(cols, reqs[..n], c);
      ChunksAreWhole(cols, reqs, c);
      RoomUpTo(cols, reqs, c);
      if reqs[n].col == c { AnyFits(cols[c], Run(cols, reqs[..n]).1[c], reqs[n].call); }
    }
  }

  // ---------------------------------------------------------------- names and messages cut to a buffer

  /** How many bytes of a text go in front of the terminator. */
  function Fitting(v: seq<Byte>, room: nat): (n: nat)
    ensures n <= |v| && n <= room
  {
    if |v| <= room then |v| else Boundary(v, 0, room)
  }

  function FittingUnits(w: seq<Unit>, room: nat): (n: nat)
    ensures n <= |w| && n <= room
  {
    if |w| <= room then |w| else if room > 0 && HighSurrogate(w[room - 1]) then room - 1 else room
  }

  /** `put_utf8`: whether the text was cut, and its full length in bytes. */
  method PutUtf8(v: seq<Byte>, buf: array?<Byte>, cap: int) returns (cut: bool, length: nat)
    requires buf != null ==> cap <= buf.Length
    modifies if buf == null then {} else {buf}
    ensures length == |v|
    ensures buf == null ==> !cut
    ensures buf != null && cap <= 0 ==> cut == (v != []) && buf[..] == old(buf[..])
    ensures buf != null && cap > 0 ==>
              var n := Fitting(v, cap - 1);
              cut == (n < |v|) && buf[..] == Stored(old(buf[..]), 0, v[..n] + [0])
  {
    length := |v|;
    if buf == null { return false, length; }
    if cap <= 0 { return v != [], length; }
    var n := if |v| <= cap - 1 then |v| else cap - 1;
    if n < |v| {
      var k := n;
      while k > 0 && Continuation(v[k])
        invariant 0 <= k <= n && Boundary(v, 0, k) == Boundary(v, 0, n)
      {
        k := k - 1;
      }
      n := k;
    }
    StoreImage(buf, 0, v[..n] + [0]);
    cut := n < |v|;
  }

  /** `put_wide`, with the capacity and the full length in code units. */
  method PutWide(v: seq<Byte>, buf: array?<Byte>, cap: int) returns (cut: bool, length: nat)
    requires buf != null ==> 2 * cap <= buf.Length
    modifies if buf == null then {} else {buf}
    ensures length == |ToWide(v)|
    ensures buf == null ==> !cut
    ensures buf != null && cap <= 0 ==> cut == (v != []) && buf[..] == old(buf[..])
    ensures buf != null && cap > 0 ==>
              var w := ToWide(v);
              var n := FittingUnits(w, cap - 1);
              |Flat(w[..n])| == 2 * n &&
              cut == (n < |w|) && buf[..] == Stored(old(buf[..]), 0, Flat(w[..n]) + [0, 0])
  {
    var w := Utf8ToWide(v);
    WideEmpty(v);
    length := |w|;
    if buf == null { return false, length; }
    if cap <= 0 { return w != [], length; }
    var n := if |w| <= cap - 1 then |w| else cap - 1;
    if n > 0 && n < |w| && HighSurrogate(w[n - 1]) { n := n - 1; }
    FlatLength(w[..n]);
    StoreImage(buf, 0, Flat(w[..n]) + [0, 0]);
    cut := n < |w|;
  }

  lemma WideEmpty(v: seq<Byte>)
    ensures ToWide(v) == [] <==> v == []
  {
  }

  /** What is kept of well-formed text is the longest well-formed part that fits. */
  lemma FittingIsWhole(v: seq<Byte>, room: nat)
    requires WellFormed8(v)
    ensures WellFormed8(v[..Fitting(v, room)])
    ensures forall p :: Fitting(v, room) < p <= room && p <= |v| ==> !WellFormed8(v[..p])
  {
    hide WellFormed8;
    if |v| > room { StartNotTail(v); }
    CutWellFormed8(v, Fitting(v, room));
    forall p | Fitting(v, room) < p <= room && p <= |v| ensures !WellFormed8(v[..p]) {
      CutInside8(v, p);
    }
  }

  lemma StartNotTail(v: seq<Byte>)
    requires WellFormed8(v) && v != []
    ensures !Tail(v[0])
  {
  }

  /** The same for code units. */
  lemma FittingUnitsIsWhole(w: seq<Unit>, room: nat)
    requires WellFormed16(w)
    ensures WellFormed16(w[..FittingUnits(w, room)])
    ensures forall p :: FittingUnits(w, room) < p <= room && p <= |w| ==> !WellFormed16(w[..p])
  {
    hide WellFormed16;
    var n := FittingUnits(w, room);
    if n > 0 && HighSurrogate(w[n - 1]) {
      LowFollowsHigh(w, n - 1);
      assert false;
    }
    CutWellFormed16(w, n);
    forall p | n < p <= room && p <= |w| ensures !WellFormed16(w[..p]) {
      CutInside16(w, p);
    }
  }
}
