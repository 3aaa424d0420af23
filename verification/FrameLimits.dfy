/** Which frames a read buffer can take at all: the largest length it can reach, and what happens to frames beyond. */
module FrameLimits {
  import opened Bytes
  import opened Windows
  import opened Builders
  import opened Frames
  import opened Machine
  import opened ConnectionRuns
  import opened ConnectionTheorems
  import opened Progress

  // ---- the lengths a read buffer can reach -------------------------------------------------------

  /** A read asks for 4096 bytes at most, so it can make a full buffer of `length` grow by `length`, by
      `2 * length` and so on, up to the first of these that is not below 4096.  The largest length reachable under
      `capacity` if the next growth is by `step` or more. */
  function LargestBy(length: nat, capacity: nat, step: nat): (r: nat)
    requires length > 0 && step > 0
    ensures length <= r <= Max(length, capacity)
    decreases capacity - length, capacity - step
  {
    if length + step > capacity then length
    else
      var larger := if step < 4096 then LargestBy(length, capacity, 2 * step) else length;
      Max(LargestBy(length + step, capacity, length + step), larger)
  }

  function Largest(length: nat, capacity: nat): nat
    requires length > 0
  {
    LargestBy(length, capacity, length)
  }

  /** A buffer that cannot double cannot grow. */
  lemma FixedIsLargest(length: nat, capacity: nat)
    requires length > 0
    ensures capacity < 2 * length ==> Largest(length, capacity) == length
  {
  }

  /** Between length and capacity: a buffer of 4096 bytes with a capacity of 10000 ends at 8192. */
  lemma LargestExample()
    ensures Largest(4096, 10000) == 8192
  {
    assert LargestBy(8192, 10000, 8192) == 8192;
  }

  /** Growing for a read does not lead beyond the largest length. */
  lemma {:induction false} GrowthStaysBelow(length: nat, capacity: nat, step: nat, need: nat)
    requires length > 0 && step > 0 && need <= 4096
    requires var grown := Doubled(step, need); length + grown <= capacity
    ensures Largest(length + Doubled(step, need), capacity) <= LargestBy(length, capacity, step)
    decreases capacity - step
  {
    if step < need {
      GrowthStaysBelow(length, capacity, 2 * step, need);
    }
  }

  lemma {:induction false} DoubledNext(length: nat, need: nat)
    requires length > 0
    ensures var step := Doubled(length, need); Doubled(length, step + 1) == 2 * step
    decreases need - length
  {
    if length < need {
      DoubledNext(2 * length, need);
      assert Doubled(length, need) >= 2 * length;
    } else {
      assert Doubled(2 * length, length + 1) == 2 * length;
    }
  }

  /** Every length up to the largest can be grown to: one of the needs of a read is a next step towards it. */
  lemma {:induction false} GrowthReaches(length: nat, capacity: nat, step: nat, need: nat, n: nat) returns (need': nat)
    requires length > 0 && 1 <= need <= 4096 && step == Doubled(length, need)
    requires length < n <= LargestBy(length, capacity, step)
    ensures 1 <= need' <= 4096
    ensures var grown := Doubled(length, need'); length + grown <= capacity && n <= Largest(length + grown, capacity)
    decreases capacity - step
  {
    if n <= Largest(length + step, capacity) {
      need' := need;
    } else {
      DoubledNext(length, need);
      need' := GrowthReaches(length, capacity, 2 * step, step + 1, n);
    }
  }

  // ---- reads and the largest length --------------------------------------------------------------

  /** Sizes that a C `int` can hold. */
  predicate IntSized(w: Window) {
    Max(w.length, w.capacity) <= TWO_31
  }

  predicate CanHold(w: Window, n: nat) {
    w.capacity == 0 || n <= Largest(w.length, w.capacity)
  }

  lemma ReceiveStaysBelow(w: Window, pending: int, chunk: seq<byte>)
    requires |chunk| <= Wanted(pending) && w.capacity > 0 && IntSized(w)
    ensures var w' := Receive(w, pending, chunk).0;
      && w'.capacity == w.capacity && IntSized(w')
      && Largest(w'.length, w'.capacity) <= Largest(w.length, w.capacity)
  {
    var x := Shortfall(w, Wanted(pending));
    assert ToInt32(x) == x;
    if x > w.pos && w.length + Doubled(w.length, x) <= w.capacity {
      GrowthStaysBelow(w.length, w.capacity, w.length, x);
    }
  }

  /** As long as a frame of `n` bytes can be held and is not complete, some read takes the next byte. */
  lemma SomeReadTakes(w: Window, n: nat, b: byte) returns (pending: nat)
    requires |w.bytes| < n && CanHold(w, n) && (w.capacity > 0 ==> IntSized(w))
    ensures 1 <= pending <= 4096
    ensures var (w', ok) := Receive(w, pending, [b]);
      ok && w'.bytes == w.bytes + [b] && w'.capacity == w.capacity && CanHold(w', n) && (w'.capacity > 0 ==> IntSized(w'))
  {
    pending := 1;
    if w.capacity > 0 && |w.bytes| == w.length {
      pending := GrowthReaches(w.length, w.capacity, w.length, 1, n);
    }
    var x := Shortfall(w, pending);
    if w.capacity > 0 {
      assert ToInt32(x) == x;
    }
  }

  // ---- frames that are too large -----------------------------------------------------------------

  /** A frame is being waited for that is larger than the read buffer can become. */
  predicate Oversized(v: Conn) {
    v.sock.callback == ReadData && IntSized(v.sock.readBuf) && !CanHold(v.sock.readBuf, v.size)
  }

  lemma OversizedIsNotReady(v: Conn)
    requires Oversized(v)
    ensures !TimerOk(v)
  {
  }

  lemma ReadableOversized(v: Conn, pending: int, result: int, chunk: seq<byte>, retry: bool)
    requires Oversized(v) && |chunk| == Max(result, 0) <= Wanted(pending) && v.sock.state == Connected
    ensures Oversized(v.(sock := OnReadable(v.sock, pending, result, chunk, retry)))
  {
    ReceiveStaysBelow(v.sock.readBuf, pending, chunk);
  }

  lemma OversizedStep(v: Conn, cfg: Config, e: Event)
    requires cfg.Ok() && Inv(v) && Enabled(v, e) && Oversized(v)
    ensures Oversized(Step(v, cfg, e)) && Step(v, cfg, e).frames == v.frames
  {
    OversizedIsNotReady(v);
    match e
    case Readable(pending, result, chunk, retry) =>
      ReadableOversized(v, pending, result, chunk, retry);
      var _ := ReadableEffect(v.sock, pending, result, chunk, retry);
    case Writable(result, retry) => WritableEffect(v.sock, result, retry);
    case UserActs(acts) =>
      if v.sock.state == Connected { ActsFollow(v, acts); } else { ActsWithoutConnection(v, acts); }
    case _ =>
  }

  /** A frame larger than the read buffer can become blocks the connection for good: whatever happens afterwards, no
      further frame is handled. */
  lemma {:induction false} OversizedBlocks(v: Conn, cfg: Config, es: seq<Event>)
    requires cfg.Ok() && Inv(v) && Runnable(v, cfg, es) && Oversized(v)
    ensures Exec(v, cfg, es).frames == v.frames
    decreases |es|
  {
    if es != [] {
      StepKeepsInv(v, cfg, es[0]);
      OversizedStep(v, cfg, es[0]);
      OversizedBlocks(Step(v, cfg, es[0]), cfg, es[1..]);
    }
  }

  // ---- and all others ----------------------------------------------------------------------------

  predicate Completed(b: seq<byte>, size: nat, f: Frame) {
    size <= |b| && f == b[..size]
  }

  /** A connection waits for a frame that its read buffer can hold. */
  predicate Waits(v: Conn) {
    && Inv(v) && v.sock.state == Connected && v.sock.callback == ReadData
    && (v.sock.readBuf.capacity > 0 ==> IntSized(v.sock.readBuf))
    && CanHold(v.sock.readBuf, v.size)
  }

  lemma ByteArrives(s: Socket, pending: nat, b: byte)
    requires 1 <= pending <= 4096 && s.state == Connected && Receive(s.readBuf, pending, [b]).1
    ensures var s' := OnReadable(s, pending, 1, [b], false);
      s'.readBuf == Receive(s.readBuf, pending, [b]).0 && s'.state == Connected && s'.callback == s.callback
  {
  }

  /** One byte more. */
  lemma FeedOne(v: Conn, cfg: Config, b: byte) returns (e: Event, v': Conn)
    requires cfg.Ok() && Waits(v) && |v.sock.readBuf.bytes| < v.size
    ensures Enabled(v, e) && v' == Step(v, cfg, e) && Waits(v') && v'.size == v.size && v'.frames == v.frames
    ensures v'.sock.readBuf.bytes == v.sock.readBuf.bytes + [b]
  {
    var pending := SomeReadTakes(v.sock.readBuf, v.size, b);
    e := Readable(pending, 1, [b], false);
    ByteArrives(v.sock, pending, b);
    v' := v.(sock := OnReadable(v.sock, pending, 1, [b], false));
    ReadableKeepsInv(v, pending, 1, [b], false);
  }

  lemma RunOne(v: Conn, cfg: Config, e: Event)
    requires cfg.Ok() && Enabled(v, e)
    ensures Runnable(v, cfg, [e]) && Exec(v, cfg, [e]) == Step(v, cfg, e)
  {
    RunCons(v, cfg, e, []);
    assert [e] == [e] + [];
  }

  lemma FrameFires(v: Conn, f: Frame)
    requires Waits(v) && v.size <= |v.sock.readBuf.bytes| && f == v.sock.readBuf.bytes[..v.size] && FrameOk(f)
    ensures TimerOk(v) && OnTimer(v, []).frames == v.frames + [f]
  {
    DataEffect(v, []);
  }

  lemma FireFrame(v: Conn, cfg: Config, f: Frame)
    requires cfg.Ok() && Waits(v)
    requires v.size <= |v.sock.readBuf.bytes| && f == v.sock.readBuf.bytes[..v.size] && FrameOk(f)
    ensures Runnable(v, cfg, [TimerFires([])]) && Exec(v, cfg, [TimerFires([])]).frames == v.frames + [f]
  {
    FrameFires(v, f);
    RunOne(v, cfg, TimerFires([]));
  }

  lemma Shift(b: seq<byte>, more: seq<byte>)
    requires more != []
    ensures b + more == b + [more[0]] + more[1..]
  {
  }

  /** If the buffer can hold the frame `f`, then feeding what is missing of it, and the timer, get it handled. */
  lemma {:induction false} Feed(v: Conn, cfg: Config, more: seq<byte>, f: Frame) returns (es: seq<Event>)
    requires cfg.Ok() && Waits(v) && FrameOk(f)
    requires Completed(v.sock.readBuf.bytes + more, v.size, f) && (more != [] ==> |v.sock.readBuf.bytes + more| == v.size)
    ensures Runnable(v, cfg, es) && Exec(v, cfg, es).frames == v.frames + [f]
    decreases |more|
  {
    if more == [] {
      assert v.sock.readBuf.bytes + more == v.sock.readBuf.bytes;
      FireFrame(v, cfg, f);
      es := [TimerFires([])];
    } else {
      var e, v' := FeedOne(v, cfg, more[0]);
      Shift(v.sock.readBuf.bytes, more);
      var rest := Feed(v', cfg, more[1..], f);
      es := [e] + rest;
      RunCons(v, cfg, e, rest);
    }
  }

  ghost predicate CanBeHandled(v: Conn, cfg: Config)
    requires cfg.Ok()
  {
    exists es :: Runnable(v, cfg, es) && Exec(v, cfg, es).frames != v.frames
  }

  /** Of a connection that waits for a frame, of which `more` is what is missing: some run gets past it if and only if
      the read buffer has no capacity, or the frame is no larger than the buffer can become.  (A buffer that cannot
      grow stays at its length.) */
  lemma HandledIffHeld(v: Conn, cfg: Config, more: seq<byte>, f: Frame)
    requires cfg.Ok() && Inv(v) && v.sock.state == Connected && v.sock.callback == ReadData && IntSized(v.sock.readBuf)
    requires Completed(v.sock.readBuf.bytes + more, v.size, f) && (more != [] ==> |v.sock.readBuf.bytes + more| == v.size)
    requires FrameOk(f)
    ensures CanBeHandled(v, cfg) <==> CanHold(v.sock.readBuf, v.size)
  {
    if CanHold(v.sock.readBuf, v.size) {
      var es := Feed(v, cfg, more, f);
      assert |Exec(v, cfg, es).frames| == |v.frames| + 1;
    } else {
      forall es | Runnable(v, cfg, es)
        ensures Exec(v, cfg, es).frames == v.frames
      {
        OversizedBlocks(v, cfg, es);
      }
    }
  }

  // ---- refused reads -----------------------------------------------------------------------------

  /** `buffer_read_fd` gives up before the system call; what would have arrived does not matter. */
  predicate RefusesRead(w: Window, pending: int) {
    !Receive(w, pending, []).1
  }

  /** A refused read closes the connection, unless an old `errno` asks for a retry; then it changes nothing. */
  lemma RefusedReadCloses(s: Socket, pending: int, result: int, chunk: seq<byte>)
    requires RefusesRead(s.readBuf, pending) && |chunk| == Max(result, 0) <= Wanted(pending)
    ensures OnReadable(s, pending, result, chunk, false) == Close(s)
    ensures OnReadable(s, pending, result, chunk, true) == s
  {
  }

  /** A connection at rest that waits for `want` bytes in a buffer that cannot grow. */
  predicate Resting(v: Conn, want: nat, length: nat) {
    && Inv(v) && v.sock.state == Connected && !v.sock.timer && v.sock.want == want
    && Fixed(v.sock.readBuf) && v.sock.readBuf.length == length
  }

  predicate OnlyReads(es: seq<Event>) {
    forall e <- es :: e.Readable?
  }

  /** After some reads that leave the connection at rest a further one can be refused. */
  ghost predicate CanRefuse(v: Conn, cfg: Config)
    requires cfg.Ok()
  {
    exists es, pending ::
      OnlyReads(es) && Runnable(v, cfg, es) && Quiet(Exec(v, cfg, es)) && RefusesRead(Exec(v, cfg, es).sock.readBuf, pending)
  }

  lemma RestingRefuses(v: Conn, want: nat, length: nat, pending: int)
    requires Resting(v, want, length) && RefusesRead(v.sock.readBuf, pending)
    ensures want + 4095 > length
  {
    FixedReadRefusal(v.sock.readBuf, pending, []);
  }

  lemma FixedReceive(w: Window, pending: int, chunk: seq<byte>)
    requires Fixed(w) && |chunk| <= Wanted(pending)
    ensures var w' := Receive(w, pending, chunk).0; Fixed(w') && w'.length == w.length
  {
    FixedReadRefusal(w, pending, chunk);
    var x := Shortfall(w, Wanted(pending));
    assert ToInt32(x) == x;
  }

  /** Neither what is waited for nor the length of the buffer changes by reading. */
  predicate WaitsFor(v: Conn, want: nat, length: nat) {
    && Inv(v) && v.sock.want == want && Fixed(v.sock.readBuf) && v.sock.readBuf.length == length
    && (v.sock.state == Connected || v.sock.state == Disconnected)
  }

  lemma ReadReceives(s: Socket, pending: int, result: int, chunk: seq<byte>, retry: bool)
    requires |chunk| == Max(result, 0) <= Wanted(pending)
    ensures OnReadable(s, pending, result, chunk, retry).readBuf == Receive(s.readBuf, pending, chunk).0
  {
  }

  lemma ReadWaits(v: Conn, pending: int, result: int, chunk: seq<byte>, retry: bool, want: nat, length: nat)
    requires WaitsFor(v, want, length) && v.sock.reading && |chunk| == Max(result, 0) <= Wanted(pending)
    ensures WaitsFor(v.(sock := OnReadable(v.sock, pending, result, chunk, retry)), want, length)
  {
    ReadReceives(v.sock, pending, result, chunk, retry);
    FixedReceive(v.sock.readBuf, pending, chunk);
    ReadableKeepsInv(v, pending, result, chunk, retry);
    var _ := ReadableEffect(v.sock, pending, result, chunk, retry);
  }

  lemma {:induction false} ReadsWait(v: Conn, cfg: Config, es: seq<Event>, want: nat, length: nat)
    requires cfg.Ok() && WaitsFor(v, want, length) && OnlyReads(es) && Runnable(v, cfg, es)
    ensures WaitsFor(Exec(v, cfg, es), want, length)
    decreases |es|
  {
    if es != [] {
      ReadWaits(v, es[0].pending, es[0].result, es[0].chunk, es[0].retry, want, length);
      ReadsWait(Step(v, cfg, es[0]), cfg, es[1..], want, length);
    }
  }

  /** One byte more, and still at rest. */
  lemma ReadOneByte(v: Conn, cfg: Config, want: nat, length: nat) returns (e: Event)
    requires cfg.Ok() && Resting(v, want, length)
    requires |v.sock.readBuf.bytes| + 1 < want && |v.sock.readBuf.bytes| < length
    ensures e.Readable? && Enabled(v, e) && Resting(Step(v, cfg, e), want, length)
    ensures |Step(v, cfg, e).sock.readBuf.bytes| == |v.sock.readBuf.bytes| + 1
  {
    e := Readable(1, 1, [0], false);
    FixedReadRefusal(v.sock.readBuf, 1, [0]);
    ReadWaits(v, 1, 1, [0], false, want, length);
    ByteArrives(v.sock, 1, 0);
  }

  lemma {:induction false} FillUp(v: Conn, cfg: Config, want: nat, length: nat) returns (es: seq<Event>)
    requires cfg.Ok() && Resting(v, want, length) && want + 4095 > length
    ensures OnlyReads(es) && Runnable(v, cfg, es) && Quiet(Exec(v, cfg, es))
    ensures RefusesRead(Exec(v, cfg, es).sock.readBuf, 4096)
    decreases length - |v.sock.readBuf.bytes|
  {
    if |v.sock.readBuf.bytes| + 1 < want && |v.sock.readBuf.bytes| < length {
      var e := ReadOneByte(v, cfg, want, length);
      var rest := FillUp(Step(v, cfg, e), cfg, want, length);
      es := [e] + rest;
      RunCons(v, cfg, e, rest);
    } else {
      FixedReadRefusal(v.sock.readBuf, 4096, []);
      es := [];
    }
  }

  /** The exact threshold.  In a buffer that cannot grow, as in the default configuration, some reads lead to one that
      is refused, which closes the connection, if and only if what is waited for comes within 4094 bytes of the buffer's
      length: though the buffer could hold it. */
  lemma RefusedIffNearLength(v: Conn, cfg: Config, want: nat, length: nat)
    requires cfg.Ok() && Resting(v, want, length)
    ensures CanRefuse(v, cfg) <==> want + 4095 > length
  {
    if want + 4095 > length {
      var es := FillUp(v, cfg, want, length);
    }
    forall es, pending |
      OnlyReads(es) && Runnable(v, cfg, es) && Quiet(Exec(v, cfg, es)) && RefusesRead(Exec(v, cfg, es).sock.readBuf, pending)
      ensures want + 4095 > length
    {
      ReadsWait(v, cfg, es, want, length);
      RestingRefuses(Exec(v, cfg, es), want, length, pending);
    }
  }

  // ---- such runs ---------------------------------------------------------------------------------

  /** `DEFAULT_READ_BUF_LEN` and `DEFAULT_READ_BUF_CAPACITY`. */
  const DEFAULT_READ_BUF: nat := 16384

  lemma FourBytes(a: byte, b: byte)
    ensures BigEndian([0, 0, a, b]) == 256 * a as nat + b as nat
  {
    var h: seq<byte> := [0, 0, a, b];
    assert h[..3] == [0, 0, a];
    assert BigEndian([0, 0]) == 0 by { assert [0, 0][..1] == [0]; }
    assert BigEndian([0, 0, a]) == a as nat by { assert [0, 0, a][..2] == [0, 0]; }
  }

  /** How far a connection with the default read buffer is when it has received `b` and asks for a length. */
  predicate AsksLength(v: Conn, b: seq<byte>) {
    && v.sock.state == Connected && v.sock.reading && v.sock.callback == ReadSize && v.sock.want == 4
    && v.sock.readBuf == WindowState(b, 0, DEFAULT_READ_BUF, DEFAULT_READ_BUF) && v.sock.received == b
    && (v.sock.timer <==> |b| >= 4)
  }

  /** And when it has read the length from that. */
  predicate AsksFrame(v: Conn, b: seq<byte>) {
    && v.sock.state == Connected && v.sock.callback == ReadData && v.size == v.sock.want == BigEndian(b)
    && (v.sock.timer <==> v.size == 0)
    && v.sock.readBuf == WindowState([], 0, DEFAULT_READ_BUF, DEFAULT_READ_BUF) && v.sock.received == b
  }

  lemma ConnectsToAsk(v: Conn, cfg: Config)
    requires cfg.Ok() && Initial(v) && v.sock.readBuf == WindowState([], 0, DEFAULT_READ_BUF, DEFAULT_READ_BUF)
    ensures var v1 := v.(sock := v.sock.(state := Connecting, fd := 3));
      AsksLength(OnConnected(v1, cfg, []), [])
  {
    ConnectEffect(v.(sock := v.sock.(state := Connecting, fd := 3)), cfg, []);
  }

  lemma AnnounceFrame(v: Conn, b: seq<byte>) returns (e: Event, v': Conn)
    requires AsksLength(v, []) && |b| == 4
    ensures e == Readable(4, 4, b, false) && Enabled(v, e)
    ensures v' == v.(sock := OnReadable(v.sock, 4, 4, b, false)) && AsksLength(v', b)
  {
    e := Readable(4, 4, b, false);
    v' := v.(sock := OnReadable(v.sock, 4, 4, b, false));
  }

  lemma LengthIsRead(v: Conn, b: seq<byte>)
    requires AsksLength(v, b) && |b| == 4
    ensures TimerOk(v) && AsksFrame(OnTimer(v, []), b)
  {
    SizeEffect(v);
    assert b[..4] == b;
  }

  /** A new connection with the default read buffer that has just received four bytes, and knows from them how long its
      first frame is. */
  lemma FirstLength(v: Conn, cfg: Config, b: seq<byte>) returns (es: seq<Event>)
    requires Start(v, cfg) && v.sock.readBuf == WindowState([], 0, DEFAULT_READ_BUF, DEFAULT_READ_BUF) && |b| == 4
    ensures Runnable(v, cfg, es) && AsksFrame(Exec(v, cfg, es), b) && Inv(Exec(v, cfg, es))
  {
    var v1 := v.(sock := v.sock.(state := Connecting, fd := 3));
    var v2 := OnConnected(v1, cfg, []);
    ConnectsToAsk(v, cfg);
    var e3, v3 := AnnounceFrame(v2, b);
    LengthIsRead(v3, b);
    var es4 := [TimerFires([])];
    RunOne(v3, cfg, TimerFires([]));
    var es3 := [e3] + es4;
    RunCons(v2, cfg, e3, es4);
    var es2 := [ConnectDone(true, [])] + es3;
    RunCons(v1, cfg, ConnectDone(true, []), es3);
    es := [Connect(true, 3, true)] + es2;
    RunCons(v, cfg, Connect(true, 3, true), es2);
    RunInv(v, cfg, es);
  }

  lemma AskedTooLarge(v: Conn, b: seq<byte>)
    requires AsksFrame(v, b) && BigEndian(b) > DEFAULT_READ_BUF
    ensures Oversized(v)
  {
    FixedIsLargest(DEFAULT_READ_BUF, DEFAULT_READ_BUF);
  }

  lemma AskedNearLength(v: Conn, b: seq<byte>)
    requires Inv(v) && AsksFrame(v, b) && 0 < BigEndian(b) <= DEFAULT_READ_BUF
    ensures Waits(v) && Resting(v, BigEndian(b), DEFAULT_READ_BUF)
  {
    FixedIsLargest(DEFAULT_READ_BUF, DEFAULT_READ_BUF);
  }

  /** With the default read buffer a new connection is blocked by the first four bytes it receives, if they announce a
      frame of 16385 bytes. */
  lemma DefaultBufferCanBlock(v: Conn, cfg: Config) returns (es: seq<Event>)
    requires Start(v, cfg) && v.sock.readBuf == WindowState([], 0, DEFAULT_READ_BUF, DEFAULT_READ_BUF)
    ensures Runnable(v, cfg, es) && Exec(v, cfg, es).sock.received == [0, 0, 64, 1] && Oversized(Exec(v, cfg, es))
  {
    es := FirstLength(v, cfg, [0, 0, 64, 1]);
    FourBytes(64, 1);
    AskedTooLarge(Exec(v, cfg, es), [0, 0, 64, 1]);
  }

  /** And a frame of 12290 bytes, which it can hold, it may lose: its last byte comes too late if 4096 bytes or more wait
      in the kernel by then. */
  lemma DefaultBufferCanLose(v: Conn, cfg: Config) returns (es: seq<Event>)
    requires Start(v, cfg) && v.sock.readBuf == WindowState([], 0, DEFAULT_READ_BUF, DEFAULT_READ_BUF)
    ensures Runnable(v, cfg, es)
    ensures var v' := Exec(v, cfg, es);
      v'.sock.received == [0, 0, 48, 2] && v'.size == 12290 && Waits(v') && CanRefuse(v', cfg)
  {
    es := FirstLength(v, cfg, [0, 0, 48, 2]);
    FourBytes(48, 2);
    AskedNearLength(Exec(v, cfg, es), [0, 0, 48, 2]);
    RefusedIffNearLength(Exec(v, cfg, es), cfg, 12290, DEFAULT_READ_BUF);
  }
}
