/** What a call for a value puts into the application's buffer, byte by byte, and what it answers
    (src/convert.cpp:160-211, src/odbc_impl.cpp:700-727). */
module Buffers {
  import opened Wrappers
  import opened Text
  import opened Utf
  import opened GetData
  import opened Chunks
  import Cursor
  import Fetch

  /** The bytes or code units that fit into `cap` bytes in front of the terminator: two bytes of each
      two for wide text, one byte for narrow text, none for binary data. */
  function Capacity(t: CType, cap: nat): int
    requires !t.Fixed?
  {
    match t
    case Char => cap - 1
    case Binary => cap
    case Wide => (cap - cap % 2) / 2 - 1
  }

  /** A byte inside a UTF-8 sequence. */
  predicate Inside(x: int) {
    0x80 <= x <= 0xBF
  }

  /** Where `u` is cut from `offset` on when only `room` of its units fit. */
  predicate CutAt(t: CType, u: seq<int>, offset: nat, room: nat, n: nat)
    requires !t.Fixed? && offset + room < |u|
  {
    n <= room &&
    match t
    case Binary => n == room
    case Wide => n == if room > 1 && 0xD800 <= u[offset + room - 1] <= 0xDBFF then room - 1 else room
    case Char =>
      (n == room && forall i :: offset < i <= offset + room ==> Inside(u[i])) ||
      (0 < n && !Inside(u[offset + n]) && forall i :: offset + n < i <= offset + room ==> Inside(u[i]))
  }

  lemma TakeCuts(t: CType, u: seq<int>, offset: nat, room: nat)
    requires !t.Fixed? && offset <= |u|
    ensures var n := Take(t, u, offset, room);
            if |u| - offset <= room then n == |u| - offset else CutAt(t, u, offset, room, n)
  {
  }

  lemma RoomIs(t: CType, cap: nat)
    requires !t.Fixed?
    ensures Room(t, cap) == Capacity(t, cap)
  {
  }

  /** One call for a text column that is not done: the indicator is what remains in bytes, a chunk is
      written when there is a buffer that holds a terminator, it is all that remains or cut where the
      room ends, and only what remains afterwards is told to be truncated. */
  lemma TextReply(t: CType, u: seq<int>, st: State, call: Call)
    requires !t.Fixed? && st.offset <= |u| && !st.done
    ensures var (reply, after) := TextStep(t, u, st, call);
            var left := |u| - st.offset;
            var room := Capacity(t, call.cap);
            reply.ind == Some(if t.Wide? then left + left else left) &&
            (reply.chunk.Some? <==> call.hasTarget && room >= 0) &&
            (reply.chunk.None? ==>
               if t.Binary? && left == 0 then reply.rc == Success && after == State(st.offset, true)
               else reply.rc == SuccessWithInfo && after == st) &&
            (reply.chunk.Some? ==>
               var n := |reply.chunk.value|;
               n <= left && reply.chunk.value == u[st.offset..st.offset + n] &&
               (if left <= room then n == left else CutAt(t, u, st.offset, room, n)) &&
               (if n == left then reply.rc == Success && after == State(st.offset, true)
                else reply.rc == SuccessWithInfo && after == State(st.offset + n, false)))
  {
    hide Take, CutAt;
    RoomIs(t, call.cap);
    if Room(t, call.cap) >= 0 { TakeCuts(t, u, st.offset, Room(t, call.cap)); }
  }

  /** One call for a value of a fixed size: all of it or an error, once. */
  lemma FixedReply(t: CType, s: seq<Byte>, st: State, call: Call)
    requires t.Fixed? && !st.done && Within(t, Some(s), st)
    ensures var (reply, after) := Step(t, Some(s), st, call);
            if t.convert(s).None? then reply == Reply(Error, None, None) && after == st
            else
              var (image, cut) := t.convert(s).value;
              reply.ind == Some(t.size) && after == State(st.offset, true) &&
              reply.rc == (if cut then SuccessWithInfo else Success) &&
              reply.chunk == if call.hasTarget then Some(image) else None
  {
  }

  // ---------------------------------------------------------------- bytes

  predicate Narrow(u: seq<int>) {
    forall i :: 0 <= i < |u| ==> 0 <= u[i] < 256
  }

  predicate WideUnits(u: seq<int>) {
    forall i :: 0 <= i < |u| ==> 0 <= u[i] < 0x10000
  }

  /** A code unit from its low and its high byte. */
  function Pair(low: int, high: int): int {
    low + 256 * high
  }

  lemma {:induction false} FlatPairs(u: seq<int>)
    requires WideUnits(u)
    ensures |Flat(u)| == 2 * |u|
    ensures forall i :: 0 <= i < |u| ==> Pair(Flat(u)[2 * i], Flat(u)[2 * i + 1]) == u[i]
  {
    FlatLength(u);
    if u != [] {
      FlatPairs(u[1..]);
      forall i | 0 <= i < |u| ensures Pair(Flat(u)[2 * i], Flat(u)[2 * i + 1]) == u[i] {
        if i > 0 {
          assert u[i] == u[1..][i - 1];
          assert Flat(u)[2 * i] == Flat(u[1..])[2 * (i - 1)] && Flat(u)[2 * i + 1] == Flat(u[1..])[2 * (i - 1) + 1];
        }
      }
    }
  }

  /** What a chunk leaves at `at`: its units in order, the low byte of a code unit first, and behind
      them a zero of the same width unless the data is binary. */
  predicate Holds(mem: seq<Byte>, at: nat, t: CType, chunk: seq<int>)
    requires !t.Fixed?
  {
    match t
    case Binary => at + |chunk| <= |mem| && mem[at..at + |chunk|] == chunk
    case Char => at + |chunk| < |mem| && mem[at..at + |chunk|] == chunk && mem[at + |chunk|] == 0
    case Wide =>
      at + 2 * |chunk| + 1 < |mem| && mem[at + 2 * |chunk|] == 0 && mem[at + 2 * |chunk| + 1] == 0 &&
      forall i :: 0 <= i < |chunk| ==> Pair(mem[at + 2 * i], mem[at + 2 * i + 1]) == chunk[i]
  }

  /** The bytes a chunk takes, its terminator included. */
  function Footprint(t: CType, chunk: seq<int>): nat
    requires !t.Fixed?
  {
    match t
    case Binary => |chunk|
    case Char => |chunk| + 1
    case Wide => 2 * |chunk| + 2
  }

  lemma ImageHolds(t: CType, chunk: seq<int>)
    requires !t.Fixed? && (if t.Wide? then WideUnits(chunk) else Narrow(chunk))
    ensures |Image(t, chunk)| == Footprint(t, chunk) && Holds(Image(t, chunk), 0, t, chunk)
  {
    if t.Wide? { FlatPairs(chunk); }
  }

  lemma HoldsAt(mem: seq<Byte>, at: nat, image: seq<Byte>, t: CType, chunk: seq<int>)
    requires !t.Fixed? && at + |image| <= |mem| && mem[at..at + |image|] == image && Holds(image, 0, t, chunk)
    ensures Holds(mem, at, t, chunk)
  {
    assert forall i :: 0 <= i < |image| ==> mem[at + i] == image[i];
  }

  /** Memory after a chunk has been written holds it at its place and is otherwise as before. */
  lemma ChunkWritten(mem: seq<Byte>, at: nat, t: CType, chunk: seq<int>)
    requires !t.Fixed? && (if t.Wide? then WideUnits(chunk) else Narrow(chunk))
    requires at + Footprint(t, chunk) <= |mem|
    ensures var after := Updated(mem, at, t, Some(chunk));
            Holds(after, at, t, chunk) &&
            forall p :: 0 <= p < |mem| && !(at <= p < at + Footprint(t, chunk)) ==> after[p] == mem[p]
  {
    hide Holds, Image;
    ImageHolds(t, chunk);
    HoldsAt(Updated(mem, at, t, Some(chunk)), at, Image(t, chunk), t, chunk);
  }

  /** A value of a fixed size is written as its bytes. */
  lemma FixedWritten(mem: seq<Byte>, at: nat, t: CType, image: seq<Byte>)
    requires t.Fixed? && at + |image| <= |mem|
    ensures var after := Updated(mem, at, t, Some(image));
            after[at..at + |image|] == image &&
            forall p :: 0 <= p < |mem| && !(at <= p < at + |image|) ==> after[p] == mem[p]
  {
    BytesAre(image);
  }

  // ---------------------------------------------------------------- bound columns

  /** The slots of a bound column lie as far apart as the C type is large, or as the length given for
      the buffer. */
  lemma SlotsLie(b: Fetch.ColBinding)
    ensures Fetch.Elem(b) == if b.ctype.Fixed? then b.ctype.size else b.bufferLen
  {
  }

  /** The slot of row `i` in a bound column, whose slots are `size` bytes apart. */
  function Slot(mem: seq<Byte>, i: nat, size: nat): seq<Byte> {
    var at := i * size;
    if at + size <= |mem| then mem[at..at + size] else []
  }

  lemma SlotStarts(mem: seq<Byte>, b: Fetch.ColBinding, cells: seq<Cursor.Cell>, i: nat)
    requires Sized(b.ctype) && i < |cells| && |cells| * Fetch.Elem(b) <= |mem|
    requires Fetch.CellReply(b, cells[i]).chunk.Some?
    ensures var image := Image(b.ctype, Fetch.CellReply(b, cells[i]).chunk.value);
            var slot := Slot(Fetch.Filled(mem, b, cells, |cells|), i, Fetch.Elem(b));
            |image| <= |slot| == Fetch.Elem(b) && slot[..|image|] == image
  {
    hide Image, Fetch.Filled, Fetch.CellReply, Fetch.Elem, Sized;
    var elem := Fetch.Elem(b);
    var at := i * elem;
    Fetch.SlotsInOrder(i, |cells|, elem);
    Fetch.ChunkFits(b, cells[i]);
    var image := Image(b.ctype, Fetch.CellReply(b, cells[i]).chunk.value);
    var after := Fetch.Filled(mem, b, cells, |cells|);
    forall p | 0 <= p < |image| ensures after[at + p] == image[p] {
      Fetch.SlotsAreIndependent(mem, b, cells, |cells|, i, p);
    }
    assert after[at..at + elem][..|image|] == image;
  }

  /** After a block fetch the slot of each row holds the start of its own row's text, all of it or cut
      where the length of the buffer ends. */
  lemma SlotHolds(mem: seq<Byte>, b: Fetch.ColBinding, cells: seq<Cursor.Cell>, i: nat)
    requires !b.ctype.Fixed? && b.target != null && Capacity(b.ctype, b.bufferLen) >= 0
    requires i < |cells| && cells[i].Some? && |cells| * b.bufferLen <= |mem|
    ensures var u := UnitsOf(b.ctype, cells[i].value);
            var room := Capacity(b.ctype, b.bufferLen);
            exists n :: 0 <= n <= |u| && (if |u| <= room then n == |u| else CutAt(b.ctype, u, 0, room, n)) &&
                        Holds(Slot(Fetch.Filled(mem, b, cells, |cells|), i, b.bufferLen), 0, b.ctype, u[..n])
  {
    hide Image, Fetch.Filled, Holds, Slot, CutAt, Capacity, TextStep, UnitsOf;
    var t, u := b.ctype, UnitsOf(b.ctype, cells[i].value);
    var call := Call(true, b.ind != null, b.bufferLen);
    TextReply(t, u, State(0, false), call);
    CellIsText(b, cells[i]);
    var chunk := Fetch.CellReply(b, cells[i]).chunk.value;
    assert chunk == u[..|chunk|];
    SlotsLie(b);
    SlotStarts(mem, b, cells, i);
    UnitsInRange(t, cells[i].value, |chunk|);
    ImageHolds(t, chunk);
    HoldsAt(Slot(Fetch.Filled(mem, b, cells, |cells|), i, b.bufferLen), 0, Image(t, chunk), t, chunk);
  }

  lemma CellIsText(b: Fetch.ColBinding, v: Cursor.Cell)
    requires !b.ctype.Fixed? && v.Some?
    ensures Fetch.CellReply(b, v) ==
            TextStep(b.ctype, UnitsOf(b.ctype, v.value), State(0, false),
                     Call(b.target != null, b.ind != null, b.bufferLen)).0
  {
  }

  lemma UnitsInRange(t: CType, s: seq<Byte>, n: nat)
    requires !t.Fixed? && n <= |UnitsOf(t, s)|
    ensures if t.Wide? then WideUnits(UnitsOf(t, s)[..n]) else Narrow(UnitsOf(t, s)[..n])
  {
    var u: seq<int> := UnitsOf(t, s);
    if t.Wide? {
      var w: seq<Unit> := ToWide(s);
    }
  }

  // ---------------------------------------------------------------- names and messages

  /** Of a text that does not fit, well-formed or not, the bytes up to the last that starts a character
      and is no later than the room allows are kept. */
  lemma FittingCuts(v: seq<Byte>, room: nat)
    ensures var n := Fitting(v, room);
            if |v| <= room then n == |v|
            else
              n <= room && (n > 0 ==> !Inside(v[n])) && forall i :: n < i <= room ==> Inside(v[i])
  {
  }

  /** Of code units as many as there is room for, but no high surrogate at the end. */
  lemma FittingUnitsCut(w: seq<Unit>, room: nat)
    ensures FittingUnits(w, room) ==
            if |w| <= room then |w| else if room > 0 && 0xD800 <= w[room - 1] <= 0xDBFF then room - 1 else room
  {
  }
}
