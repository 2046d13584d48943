/** Handing a value to the application in chunks (src/convert.cpp, `get_value` and `GetDataState`). */
module GetData {
  import opened Wrappers
  import opened Text
  import opened Utf

  /** The C types an application asks for. A fixed-size type has its own conversion, which yields
      that many bytes and whether something was cut off, or fails. */
  datatype CType = Char | Binary | Wide | Fixed(size: nat, convert: seq<Byte> -> Option<(seq<Byte>, bool)>)

  datatype Rc = Success | SuccessWithInfo | NoData | Error

  const NULL_DATA := -1

  /** How much of a column of the current row has been delivered. */
  datatype State = State(offset: nat, done: bool)

  /** The arguments of one call: a target buffer or not, an indicator or not, and the capacity of
      the target in bytes. */
  datatype Call = Call(hasTarget: bool, hasInd: bool, cap: nat)

  /** What the call returns, what it stores in the indicator, and the chunk it writes; None when
      nothing is stored or written. */
  datatype Reply = Reply(rc: Rc, ind: Option<int>, chunk: Option<seq<int>>)

  ghost predicate Sized(t: CType) {
    t.Fixed? ==> forall s: seq<Byte> :: t.convert(s).Some? ==> |t.convert(s).value.0| == t.size
  }

  // ---------------------------------------------------------------- how much fits

  /** The value in the units it is counted in: bytes, or UTF-16 code units. */
  function UnitsOf(t: CType, s: seq<Byte>): seq<int> {
    if t.Wide? then ToWide(s) else s
  }

  function Width(t: CType): nat {
    if t.Wide? then 2 else 1
  }

  /** Units that fit before the terminator; negative when not even that fits. */
  function Room(t: CType, cap: nat): int {
    match t
    case Wide => cap / 2 - 1
    case Char => cap - 1
    case _ => cap
  }

  predicate Continuation(x: int) {
    0x80 <= x < 0xC0
  }

  predicate HighSurrogate(x: int) {
    0xD800 <= x < 0xDC00
  }

  /** The last place at or before `k`, counted from `offset`, that is 0 or not inside a sequence. */
  function Boundary(u: seq<int>, offset: nat, k: nat): (r: nat)
    requires offset + k < |u|
    ensures r <= k && (r > 0 ==> !Continuation(u[offset + r]))
    ensures forall i :: offset + r < i <= offset + k ==> Continuation(u[i])
  {
    if k > 0 && Continuation(u[offset + k]) then Boundary(u, offset, k - 1) else k
  }

  /** How many of the remaining units a call with this much room delivers. */
  function Take(t: CType, u: seq<int>, offset: nat, room: nat): (n: nat)
    requires offset <= |u|
    ensures offset + n <= |u| && n <= room
    ensures n == 0 <==> room == 0 || offset == |u|
  {
    var n := if |u| - offset <= room then |u| - offset else room;
    if n == 0 || offset + n == |u| then n
    else if t.Char? then
      var k := Boundary(u, offset, n);
      if k > 0 then k else n
    else if t.Wide? then (if HighSurrogate(u[offset + n - 1]) && n > 1 then n - 1 else n)
    else n
  }

  // ---------------------------------------------------------------- one call

  predicate Within(t: CType, v: Option<seq<Byte>>, st: State) {
    v.Some? && !st.done ==> st.offset <= |UnitsOf(t, v.value)|
  }

  function TextStep(t: CType, u: seq<int>, st: State, call: Call): (Reply, State)
    requires !t.Fixed? && st.offset <= |u|
  {
    var remaining := |u| - st.offset;
    var ind := Some(remaining * Width(t));
    var room := Room(t, call.cap);
    if !call.hasTarget || room < 0 then
      if remaining == 0 && t.Binary? then (Reply(Success, ind, None), st.(done := true))
      else (Reply(SuccessWithInfo, ind, None), st)
    else
      var n := Take(t, u, st.offset, room);
      var chunk := Some(u[st.offset..st.offset + n]);
      if n < remaining then (Reply(SuccessWithInfo, ind, chunk), st.(offset := st.offset + n))
      else (Reply(Success, ind, chunk), st.(done := true))
  }

  function FixedStep(t: CType, s: seq<Byte>, st: State, call: Call): (Reply, State)
    requires t.Fixed?
  {
    match t.convert(s)
    case None => (Reply(Error, None, None), st)
    case Some((image, info)) =>
      (Reply(if info then SuccessWithInfo else Success, Some(t.size), if call.hasTarget then Some(image) else None),
       st.(done := true))
  }

  function Step(t: CType, v: Option<seq<Byte>>, st: State, call: Call): (Reply, State)
    requires Within(t, v, st)
  {
    if st.done then (Reply(NoData, None, None), st)
    else if v.None? then
      if !call.hasInd then (Reply(Error, None, None), st)
      else (Reply(Success, Some(NULL_DATA), None), st.(done := true))
    else if t.Fixed? then FixedStep(t, v.value, st, call)
    else TextStep(t, UnitsOf(t, v.value), st, call)
  }

  // ---------------------------------------------------------------- the bytes it writes

  /** Code units as little-endian byte pairs. */
  function Flat(u: seq<int>): seq<Byte> {
    if u == [] then [] else [u[0] % 256, u[0] / 256 % 256] + Flat(u[1..])
  }

  function BytesOf(u: seq<int>): (r: seq<Byte>)
    ensures |r| == |u|
  {
    seq(|u|, i requires 0 <= i < |u| => u[i] % 256)
  }

  /** A chunk in memory, with its terminator. */
  function Image(t: CType, chunk: seq<int>): seq<Byte> {
    match t
    case Wide => Flat(chunk) + [0, 0]
    case Char => BytesOf(chunk) + [0]
    case _ => BytesOf(chunk)
  }

  lemma {:induction false} FlatLength(u: seq<int>)
    ensures |Flat(u)| == 2 * |u|
  {
    if u != [] { FlatLength(u[1..]); }
  }

  /** Nothing is written past the capacity, terminator included. */
  lemma ImageFits(t: CType, v: Option<seq<Byte>>, st: State, call: Call)
    requires Within(t, v, st) && Sized(t) && Step(t, v, st, call).0.chunk.Some?
    ensures call.hasTarget
    ensures var image := Image(t, Step(t, v, st, call).0.chunk.value);
            |image| <= if t.Fixed? then t.size else call.cap
  {
    FlatLength(Step(t, v, st, call).0.chunk.value);
    if t.Fixed? { assert t.convert(v.value).Some?; }
  }

  /** Memory after an image has been written at `at`. */
  function Stored(mem: seq<Byte>, at: nat, image: seq<Byte>): (r: seq<Byte>)
    requires at + |image| <= |mem|
    ensures |r| == |mem|
    ensures forall i :: 0 <= i < |mem| ==> r[i] == if at <= i < at + |image| then image[i - at] else mem[i]
  {
    mem[..at] + image + mem[at + |image|..]
  }

  // ---------------------------------------------------------------- the call itself

  /** The saved position of a column (`GetDataState`). */
  class GetDataState {
    var offset: nat
    var done: bool

    constructor ()
      ensures At() == State(0, false)
    {
      offset, done := 0, false;
    }

    ghost function At(): State
      reads this
    {
      State(offset, done)
    }
  }

  method StoreImage(mem: array<Byte>, at: nat, image: seq<Byte>)
    requires at + |image| <= mem.Length
    modifies mem
    ensures mem[..] == Stored(old(mem[..]), at, image)
  {
    var i := 0;
    while i < |image|
      invariant i <= |image|
      invariant forall k :: 0 <= k < mem.Length ==>
                  mem[k] == if at <= k < at + i then image[k - at] else old(mem[k])
    {
      mem[at + i] := image[i];
      i := i + 1;
    }
  }

  /** Memory after a reply's chunk, if there is one, has been written at `at`; it always fits
      (ImageFits). */
  function Updated(mem: seq<Byte>, at: nat, t: CType, chunk: Option<seq<int>>): (r: seq<Byte>)
    ensures |r| == |mem|
  {
    if chunk.None? || at + |Image(t, chunk.value)| > |mem| then mem else Stored(mem, at, Image(t, chunk.value))
  }

  method CountUnits(t: CType, u: seq<int>, offset: nat, room: nat) returns (n: nat)
    requires offset <= |u|
    ensures n == Take(t, u, offset, room)
  {
    var remaining := |u| - offset;
    n := if remaining <= room then remaining else room;
    if t.Char? && n < remaining && n > 0 {
      var k := n;
      while k > 0 && Continuation(u[offset + k])
        invariant k <= n && Boundary(u, offset, k) == Boundary(u, offset, n)
      {
        k := k - 1;
      }
      if k > 0 { n := k; }
    } else if t.Wide? && n > 0 && n < remaining {
      if HighSurrogate(u[offset + n - 1]) && n > 1 { n := n - 1; }
    }
  }

  /** A text chunk in memory fits the capacity its room was counted from. */
  lemma TextImageFits(t: CType, chunk: seq<int>, cap: nat)
    requires !t.Fixed? && |chunk| <= Room(t, cap)
    ensures |Image(t, chunk)| <= cap
  {
    FlatLength(chunk);
  }

  /** What a call without room, or with room for `n` units, comes to. */
  lemma TextStepIs(t: CType, u: seq<int>, offset: nat, hasTarget: bool, cap: nat)
    requires !t.Fixed? && offset <= |u|
    ensures var (reply, st) := TextStep(t, u, State(offset, false), Call(hasTarget, true, cap));
            if !hasTarget || Room(t, cap) < 0 then
              reply.chunk == None && reply.rc == (if offset == |u| && t.Binary? then Success else SuccessWithInfo) &&
              st == State(offset, offset == |u| && t.Binary?)
            else
              var n := Take(t, u, offset, Room(t, cap));
              reply.chunk == Some(u[offset..offset + n]) &&
              (if offset + n < |u| then reply.rc == SuccessWithInfo && st == State(offset + n, false)
               else reply.rc == Success && st == State(offset, true))
  {
    hide Take;
  }

  /** The text branches: the value in units, from the saved offset on. */
  method GetText(t: CType, u: seq<int>, offset: nat, mem: array?<Byte>, at: nat, cap: nat)
    returns (rc: Rc, taken: nat, done: bool)
    requires !t.Fixed? && offset <= |u| && (mem != null ==> at + cap <= mem.Length)
    modifies if mem == null then {} else {mem}
    ensures var (reply, st) := TextStep(t, u, State(offset, false), Call(mem != null, true, cap));
            rc == reply.rc && st == State(offset + taken, done) &&
            (mem != null ==> mem[..] == Updated(old(mem[..]), at, t, reply.chunk))
  {
    hide Take, Boundary, Image, TextStep;
    TextStepIs(t, u, offset, mem != null, cap);
    var remaining := |u| - offset;
    var room := Room(t, cap);
    if mem == null || room < 0 {
      if remaining == 0 && t.Binary? { return Success, 0, true; }
      return SuccessWithInfo, 0, false;
    }
    var n := CountUnits(t, u, offset, room);
    var chunk := u[offset..offset + n];
    TextImageFits(t, chunk, cap);
    StoreImage(mem, at, Image(t, chunk));
    if n < remaining { return SuccessWithInfo, n, false; }
    return Success, 0, true;
  }

  /** `get_value`: without a state the whole value is asked for afresh each time. */
  method GetValue(t: CType, v: Option<seq<Byte>>, mem: array?<Byte>, at: nat, cap: nat, hasInd: bool,
                  state: GetDataState?)
    returns (rc: Rc, ind: Option<int>)
    requires Sized(t) && (state != null ==> Within(t, v, state.At()))
    requires mem != null ==> at + (if t.Fixed? then t.size else cap) <= mem.Length
    modifies (if mem == null then {} else {mem}), (if state == null then {} else {state})
    ensures var before := if state == null then State(0, false) else old(state.At());
            var (reply, after) := Step(t, v, before, Call(mem != null, hasInd, cap));
            rc == reply.rc && ind == reply.ind && (state != null ==> state.At() == after) &&
            (mem != null ==> mem[..] == Updated(old(mem[..]), at, t, reply.chunk))
  {
    hide TextStep, Updated;
    if state != null && state.done {
      NothingWritten(mem, at, t);
      return NoData, None;
    }
    if v.None? {
      NothingWritten(mem, at, t);
      if !hasInd { return Error, None; }
      if state != null { state.done := true; }
      return Success, Some(NULL_DATA);
    }
    if t.Fixed? {
      rc, ind := GetFixed(t, v.value, mem, at, state);
      return;
    }
    var u: seq<int> := v.value;
    if t.Wide? { u := Utf8ToWide(v.value); }
    var offset: nat := if state == null then 0 else state.offset;
    IndicatorIs(t, u, offset, mem != null, hasInd, cap);
    ind := Some((|u| - offset) * Width(t));
    var taken, done;
    rc, taken, done := GetText(t, u, offset, mem, at, cap);
    if state != null { state.offset, state.done := state.offset + taken, done; }
  }

  lemma NothingWritten(mem: array?<Byte>, at: nat, t: CType)
    ensures mem != null ==> Updated(mem[..], at, t, None) == mem[..]
  {
  }

  /** The indicator is what remains, whether or not it is asked for. */
  lemma IndicatorIs(t: CType, u: seq<int>, offset: nat, hasTarget: bool, hasInd: bool, cap: nat)
    requires !t.Fixed? && offset <= |u|
    ensures TextStep(t, u, State(offset, false), Call(hasTarget, hasInd, cap)).0.ind == Some((|u| - offset) * Width(t))
    ensures TextStep(t, u, State(offset, false), Call(hasTarget, hasInd, cap)) ==
            TextStep(t, u, State(offset, false), Call(hasTarget, true, cap))
  {
  }

  method GetFixed(t: CType, s: seq<Byte>, mem: array?<Byte>, at: nat, state: GetDataState?)
    returns (rc: Rc, ind: Option<int>)
    requires t.Fixed? && Sized(t) && (state != null ==> !state.done)
    requires mem != null ==> at + t.size <= mem.Length
    modifies (if mem == null then {} else {mem}), (if state == null then {} else {state})
    ensures var before := if state == null then State(0, false) else old(state.At());
            var (reply, after) := FixedStep(t, s, before, Call(mem != null, true, 0));
            rc == reply.rc && ind == reply.ind && (state != null ==> state.At() == after) &&
            (mem != null ==> mem[..] == Updated(old(mem[..]), at, t, reply.chunk))
  {
    var image := t.convert(s);
    if image.None? { return Error, None; }
    if mem != null {
      BytesAre(image.value.0);
      StoreImage(mem, at, image.value.0);
    }
    if state != null { state.done := true; }
    return if image.value.1 then SuccessWithInfo else Success, Some(t.size);
  }

  lemma BytesAre(s: seq<Byte>)
    ensures BytesOf(s) == s
  {
  }
}
