/** What a `struct Buffer` holds, as a value: the unread bytes, where in the allocation they start, and
    how large the allocation is.  The class `Buffers.Buffer` is proved against these functions. */
module Windows {
  import opened Bytes

  datatype WindowState = WindowState(bytes: seq<byte>, pos: nat, length: nat, capacity: nat) {
    /** The unread bytes lie inside the allocation, which is never empty (the doubling loop needs that). */
    predicate Valid() {
      length > 0 && pos + |bytes| <= length
    }
  }

  type Window = w: WindowState | w.Valid() witness WindowState([], 0, 1, 0)

  /** `expand` when `buffer_expand`'s loop stops. */
  function Doubled(expand: nat, need: nat): (e: nat)
    requires expand > 0
    ensures e >= need && e >= expand
    decreases need - expand
  {
    if expand >= need then expand else Doubled(expand * 2, need)
  }

  predicate MustRealign(w: Window, need: nat) {
    need <= w.pos
  }

  /** `buffer_expand`: slide the unread bytes to the front, or grow the allocation, or refuse. */
  function Expand(w: Window, need: nat): (r: (Window, bool)) {
    if MustRealign(w, need) then
      (w.(pos := 0), true)
    else
      var size := w.length + Doubled(w.length, need);
      if w.capacity > 0 && size > w.capacity then (w, false) else (w.(length := size), true)
  }

  /** How many bytes an addition of `n` lacks at the end of the allocation (negative when there is room). */
  function Shortfall(w: Window, n: nat): int {
    w.pos + |w.bytes| + n - w.length
  }

  /** `buffer_add` computes the shortfall into an `int32_t`; from 2^31 on that is no longer the shortfall. */
  predicate Fits32(w: Window, n: nat) {
    Shortfall(w, n) < TWO_31
  }

  /** The window after `buffer_add` or `buffer_read_fd` made room for `n` bytes, and whether it could. */
  function MakeRoom(w: Window, n: nat): (r: (Window, bool))
  {
    var need := ToInt32(Shortfall(w, n));
    if need > 0 then Expand(w, need) else (w, true)
  }

  /** The test in `buffer_add` guarantees room exactly as long as the shortfall survives the 32-bit type. */
  lemma RoomUnlessTruncated(w: Window, n: nat)
    ensures Fits32(w, n) ==> MakeRoom(w, n).1 ==> Shortfall(MakeRoom(w, n).0, n) <= 0
    ensures MakeRoom(w, n).0.bytes == w.bytes
    ensures (Shortfall(w, n) <= Max(0, ToInt32(Shortfall(w, n)))) <==> Fits32(w, n)
  {
    var x := Shortfall(w, n);
    if 0 < x < TWO_31 {
      assert ToInt32(x) == x;
    }
  }

  /** `buffer_add`. */
  function Add(w: Window, src: seq<byte>): (r: (Window, bool))
    requires Fits32(w, |src|)
  {
    var (room, ok) := MakeRoom(w, |src|);
    RoomUnlessTruncated(w, |src|);
    if ok then (room.(bytes := w.bytes + src), true) else (w, false)
  }

  /** `buffer_drain`; a drain of everything (or more) is `buffer_reset`. */
  function Drain(w: Window, n: nat): Window {
    if n >= |w.bytes| then Reset(w) else w.(bytes := w.bytes[n..], pos := w.pos + n)
  }

  function Reset(w: Window): Window {
    w.(bytes := [], pos := 0)
  }

  /** The number of bytes `buffer_read_fd` asks `recv` for: what is pending, 4096 at most, 4096 if unknown. */
  function Wanted(pending: int): (n: nat)
    ensures n <= 4096
  {
    if 0 <= pending <= 4096 then pending else 4096
  }

  /** `buffer_read_fd` up to the system call, and the arrival of `chunk`. */
  function Receive(w: Window, pending: int, chunk: seq<byte>): (r: (Window, bool))
    requires |chunk| <= Wanted(pending)
  {
    var (room, ok) := MakeRoom(w, Wanted(pending));
    RoomUnlessTruncated(w, Wanted(pending));
    if ok then (room.(bytes := w.bytes + chunk), true) else (w, false)
  }

  /** The addition is refused exactly when the allocation would have to grow beyond its capacity. */
  predicate Refuses(w: Window, n: nat) {
    && Shortfall(w, n) > w.pos
    && w.capacity > 0
    && w.length + Doubled(w.length, Shortfall(w, n)) > w.capacity
  }

  /** Below -2^31 the shortfall is truncated as well, to a need that is not there; an addition that fits is then
      refused if the allocation must not grow by that need. */
  predicate RefusesForNothing(w: Window, n: nat) {
    var x := Shortfall(w, n);
    && x < -TWO_31
    && ToInt32(x) > w.pos
    && w.capacity > 0
    && w.length + Doubled(w.length, ToInt32(x)) > w.capacity
  }

  /** `buffer_add` in terms of the contents alone: all of `src` at the back, or nothing and no trace. */
  lemma AddEffect(w: Window, src: seq<byte>)
    requires Fits32(w, |src|)
    ensures Add(w, src).1 <==> !Refuses(w, |src|) && !RefusesForNothing(w, |src|)
    ensures Add(w, src).1 ==> Add(w, src).0.bytes == w.bytes + src
    ensures !Add(w, src).1 ==> Add(w, src).0 == w
  {
    var x := Shortfall(w, |src|);
    if x >= -TWO_31 {
      assert ToInt32(x) == x;
    }
  }

  /** An addition is refused exactly when it does not fit, precisely where the truncation does not interfere; up to
      allocations of 2 GiB it never does. */
  lemma RefusesIsExact(w: Window, src: seq<byte>)
    requires Fits32(w, |src|)
    ensures (Add(w, src).1 <==> !Refuses(w, |src|)) <==> !RefusesForNothing(w, |src|)
    ensures w.length <= TWO_31 ==> !RefusesForNothing(w, |src|)
  {
    AddEffect(w, src);
  }

  /** It does happen: an empty buffer of 4 GiB refuses a single byte. */
  lemma HugeBufferRefuses()
    ensures var w: Window := WindowState([], 0, TWO_32, TWO_32);
      Fits32(w, 1) && RefusesForNothing(w, 1) && !Add(w, [0]).1
  {
    var w: Window := WindowState([], 0, TWO_32, TWO_32);
    assert ToInt32(Shortfall(w, 1)) == 1;
  }

  /** A buffer that cannot grow, as in the default configuration, refuses a read exactly when the unread
      bytes and the bytes asked for exceed it together. */
  lemma FixedReadRefusal(w: Window, pending: int, chunk: seq<byte>)
    requires |chunk| <= Wanted(pending) && 0 < w.capacity < 2 * w.length && w.length <= TWO_31
    ensures Receive(w, pending, chunk).1 <==>
      |w.bytes| + (if 0 <= pending <= 4096 then pending else 4096) <= w.length
  {
    var x := Shortfall(w, Wanted(pending));
    assert ToInt32(x) == x;
  }

  // ---- growth ------------------------------------------------------------------------------------

  /** `x` doubled `k` times. */
  function Twice(x: nat, k: nat): nat
    decreases k
  {
    if k == 0 then x else Twice(2 * x, k - 1)
  }

  lemma {:induction false} TwiceIsTimesPower2(x: nat, k: nat)
    ensures Twice(x, k) == x * Power2(k)
    decreases k
  {
    if k > 0 {
      TwiceIsTimesPower2(2 * x, k - 1);
      assert 2 * x * Power2(k - 1) == x * (2 * Power2(k - 1));
    }
  }

  /** The doubling loop stops at the first of `expand`, `2 * expand`, `4 * expand`, ... not below `need`. */
  lemma {:induction false} DoubledIsLeast(expand: nat, need: nat) returns (k: nat)
    requires expand > 0
    ensures Doubled(expand, need) == Twice(expand, k)
    ensures forall j: nat | j < k :: Twice(expand, j) < need
    decreases need - expand
  {
    if expand >= need {
      k := 0;
    } else {
      k := DoubledIsLeast(expand * 2, need);
      k := k + 1;
      forall j: nat | j < k
        ensures Twice(expand, j) < need
      {
        assert j > 0 ==> Twice(expand, j) == Twice(2 * expand, j - 1);
      }
    }
  }

  /** One step of a buffer's life. */
  datatype Op =
    | AddOp(src: seq<byte>)
    | DrainOp(n: nat)
    | ResetOp
    | ReceiveOp(pending: int, chunk: seq<byte>)
    | SendOp(sent: nat)

  predicate Allowed(w: Window, op: Op) {
    match op
    case AddOp(src) => Fits32(w, |src|)
    case ReceiveOp(pending, chunk) => |chunk| <= Wanted(pending)
    case SendOp(sent) => sent <= |w.bytes|
    case _ => true
  }

  function Apply(w: Window, op: Op): Window
    requires Allowed(w, op)
  {
    match op
    case AddOp(src) => Add(w, src).0
    case DrainOp(n) => Drain(w, n)
    case ResetOp => Reset(w)
    case ReceiveOp(pending, chunk) => Receive(w, pending, chunk).0
    case SendOp(sent) => if sent > 0 then Drain(w, sent) else w
  }

  predicate AllAllowed(w: Window, ops: seq<Op>)
    decreases |ops|
  {
    ops == [] || (Allowed(w, ops[0]) && AllAllowed(Apply(w, ops[0]), ops[1..]))
  }

  function ApplyAll(w: Window, ops: seq<Op>): Window
    requires AllAllowed(w, ops)
    decreases |ops|
  {
    if ops == [] then w else ApplyAll(Apply(w, ops[0]), ops[1..])
  }

  /** The bytes a step put in at the back. */
  function Entered(w: Window, op: Op): seq<byte>
    requires Allowed(w, op)
  {
    match op
    case AddOp(src) => if Add(w, src).1 then src else []
    case ReceiveOp(pending, chunk) => if Receive(w, pending, chunk).1 then chunk else []
    case _ => []
  }

  /** The bytes a step took out at the front. */
  function Left(w: Window, op: Op): seq<byte>
    requires Allowed(w, op)
  {
    match op
    case DrainOp(n) => w.bytes[..Min(n, |w.bytes|)]
    case ResetOp => w.bytes
    case SendOp(sent) => w.bytes[..sent]
    case _ => []
  }

  function EnteredAll(w: Window, ops: seq<Op>): seq<byte>
    requires AllAllowed(w, ops)
    decreases |ops|
  {
    if ops == [] then [] else Entered(w, ops[0]) + EnteredAll(Apply(w, ops[0]), ops[1..])
  }

  function LeftAll(w: Window, ops: seq<Op>): seq<byte>
    requires AllAllowed(w, ops)
    decreases |ops|
  {
    if ops == [] then [] else Left(w, ops[0]) + LeftAll(Apply(w, ops[0]), ops[1..])
  }

  lemma Chain(a: seq<byte>, i: seq<byte>, i': seq<byte>, o: seq<byte>, b: seq<byte>, o': seq<byte>, c: seq<byte>)
    requires a + i == o + b && b + i' == o' + c
    ensures a + (i + i') == (o + o') + c
  {
    assert a + (i + i') == (a + i) + i';
    assert (o + b) + i' == o + (b + i');
    assert o + (o' + c) == (o + o') + c;
  }

  lemma StepIsFifo(w: Window, op: Op)
    requires Allowed(w, op)
    ensures w.bytes + Entered(w, op) == Left(w, op) + Apply(w, op).bytes
  {
  }

  /** Every run of a buffer is a run of a byte queue: what was there, followed by what entered, is what left
      followed by what is there now.  Realigning, growing and refusing are invisible. */
  lemma {:induction false} RunIsFifo(w: Window, ops: seq<Op>)
    requires AllAllowed(w, ops)
    ensures w.bytes + EnteredAll(w, ops) == LeftAll(w, ops) + ApplyAll(w, ops).bytes
    decreases |ops|
  {
    if ops != [] {
      var w' := Apply(w, ops[0]);
      var i, i' := Entered(w, ops[0]), EnteredAll(w', ops[1..]);
      var o, o' := Left(w, ops[0]), LeftAll(w', ops[1..]);
      StepIsFifo(w, ops[0]);
      RunIsFifo(w', ops[1..]);
      Chain(w.bytes, i, i', o, w'.bytes, o', ApplyAll(w', ops[1..]).bytes);
    }
  }

  /** A buffer that has been emptied uses its allocation from the start again, over any run. */
  lemma {:induction false} EmptyIsAtStart(w: Window, ops: seq<Op>)
    requires AllAllowed(w, ops) && (w.bytes == [] ==> w.pos == 0)
    ensures ApplyAll(w, ops).bytes == [] ==> ApplyAll(w, ops).pos == 0
    decreases |ops|
  {
    if ops != [] {
      EmptyIsAtStart(Apply(w, ops[0]), ops[1..]);
    }
  }

  /** The bytes `realloc` may have to copy over a run: the old length at every growth. */
  function Copied(w: Window, ops: seq<Op>): nat
    requires AllAllowed(w, ops)
    decreases |ops|
  {
    if ops == [] then 0
    else
      var w' := Apply(w, ops[0]);
      (if w'.length != w.length then w.length else 0) + Copied(w', ops[1..])
  }

  /** The room a step asks for at the end of the allocation, as the code computes it. */
  function Need(w: Window, op: Op): int {
    match op
    case AddOp(src) => ToInt32(Shortfall(w, |src|))
    case ReceiveOp(pending, _) => ToInt32(Shortfall(w, Wanted(pending)))
    case _ => 0
  }

  /** A step that changes the length of the allocation multiplies it by 1 + 2^k, for the least k that
      covers the need, and stays within the capacity. */
  lemma GrowthStep(w: Window, op: Op) returns (k: nat)
    requires Allowed(w, op)
    ensures Apply(w, op).capacity == w.capacity
    ensures Apply(w, op).length != w.length ==>
      && Apply(w, op).length == w.length * (1 + Power2(k)) >= 2 * w.length
      && Twice(w.length, k) >= Need(w, op) > w.pos
      && (forall j: nat | j < k :: Twice(w.length, j) < Need(w, op))
      && (w.capacity > 0 ==> Apply(w, op).length <= w.capacity)
  {
    k := 0;
    if Need(w, op) > 0 {
      k := DoubledIsLeast(w.length, Need(w, op));
      TwiceIsTimesPower2(w.length, k);
      assert w.length + w.length * Power2(k) == w.length * (1 + Power2(k));
    }
  }

  lemma Multiples(length: nat, factor: nat, m': nat) returns (m: nat)
    requires m' >= 1 && factor >= 1
    ensures m == m' * factor && m >= 1
    ensures m' * (length * factor) == m * length
  {
    m := m' * factor;
    assert m >= m' by { assert m' * factor >= m' * 1; }
  }

  /** Over any run the length stays a multiple of the initial one, never passes the larger of the initial
      length and a capacity, and all the copying `realloc` does is paid for by the final length. */
  lemma {:induction false} GrowthLaw(w: Window, ops: seq<Op>) returns (m: nat)
    requires AllAllowed(w, ops)
    ensures ApplyAll(w, ops).length == m * w.length && m >= 1
    ensures w.capacity > 0 ==> ApplyAll(w, ops).length <= Max(w.length, w.capacity)
    ensures w.length + Copied(w, ops) <= ApplyAll(w, ops).length
    decreases |ops|
  {
    if ops == [] {
      m := 1;
    } else {
      var w' := Apply(w, ops[0]);
      var k := GrowthStep(w, ops[0]);
      m := GrowthLaw(w', ops[1..]);
      if w'.length != w.length {
        m := Multiples(w.length, 1 + Power2(k), m);
      }
    }
  }
}
