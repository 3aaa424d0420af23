/** How far a connection gets: every timer callback eats into the buffer, and the timer alone brings a
    connection to rest. */
module Progress {
  import opened Bytes
  import opened Windows
  import opened Frames
  import opened Machine
  import opened ConnectionRuns
  import opened ConnectionTheorems

  function Fires(es: seq<Event>): nat {
    if es == [] then 0 else (if es[0].TimerFires? then 1 else 0) + Fires(es[1..])
  }

  /** The bytes taken off the stream so far. */
  function Consumed(v: Conn): int {
    |v.sock.received| - |v.sock.readBuf.bytes|
  }

  /** What every event other than the timer leaves alone, seen from the stream. */
  predicate Untimed(v: Conn, v': Conn) {
    && Consumed(v') == Consumed(v) && v'.frames == v.frames && v'.size == v.size
    && (v.sock.callback == ReadData ==> v'.sock.callback == ReadData)
    && (v.sock.state == Connected || v.sock.state == Disconnected ==>
          v'.sock.state == Connected || v'.sock.state == Disconnected)
  }

  lemma ReadableUntimed(v: Conn, pending: int, result: int, chunk: seq<byte>, retry: bool)
    requires |chunk| == Max(result, 0) <= Wanted(pending) && v.sock.state == Connected
    ensures Untimed(v, v.(sock := OnReadable(v.sock, pending, result, chunk, retry)))
  {
    var _ := ReadableEffect(v.sock, pending, result, chunk, retry);
  }

  lemma WritableUntimed(v: Conn, result: int, retry: bool)
    requires result <= |v.sock.writeBuf.bytes| && v.sock.state == Connected
    ensures Untimed(v, v.(sock := OnWritable(v.sock, result, retry)))
  {
    WritableEffect(v.sock, result, retry);
  }

  lemma ActsUntimed(v: Conn, acts: seq<UserAct>)
    requires Inv(v) && ActsOk(acts)
    ensures Untimed(v, ActAll(v, acts))
  {
    if v.sock.state == Connected {
      ActsFollow(v, acts);
    } else {
      ActsWithoutConnection(v, acts);
    }
  }

  lemma ConnectUntimed(v: Conn, cfg: Config, acts: seq<UserAct>)
    requires cfg.Ok() && Inv(v) && ActsOk(acts) && v.sock.state == Connecting
    ensures Untimed(v, OnConnected(v, cfg, acts))
  {
    ConnectEffect(v, cfg, acts);
    ConnectedIsUntimed(v, OnConnected(v, cfg, acts), ConnectItems(v.commandBuf, cfg, acts));
  }

  lemma ConnectedIsUntimed(v: Conn, v': Conn, items: seq<Item>)
    requires HasConnected(v, v', items) && v.sock.state == Connecting && v.sock.callback == NoCallback
    ensures Untimed(v, v')
  {
  }

  lemma UntimedStep(v: Conn, cfg: Config, e: Event)
    requires cfg.Ok() && Inv(v) && Enabled(v, e) && !e.TimerFires?
    ensures Untimed(v, Step(v, cfg, e))
  {
    match e
    case ConnectDone(success, acts) => if success { ConnectUntimed(v, cfg, acts); }
    case Readable(pending, result, chunk, retry) => ReadableUntimed(v, pending, result, chunk, retry);
    case Writable(result, retry) => WritableUntimed(v, result, retry);
    case UserActs(acts) => ActsUntimed(v, acts);
    case _ =>
  }

  lemma FireConsumes(v: Conn, acts: seq<UserAct>)
    requires Inv(v) && TimerOk(v) && ActsOk(acts)
    ensures OnTimer(v, acts).sock.received == v.sock.received && OnTimer(v, acts).sock.state == Connected
    ensures |OnTimer(v, acts).sock.readBuf.bytes| + 4 <= |v.sock.readBuf.bytes|
  {
    if v.sock.callback == ReadSize {
      SizeEffect(v);
    } else {
      DataEffect(v, acts);
    }
  }

  /** In every run, each timer callback takes at least four bytes off the stream; hence without new input at
      most a quarter as many callbacks as buffered bytes. */
  lemma {:induction false} FramingProgress(v: Conn, cfg: Config, es: seq<Event>)
    requires cfg.Ok() && Inv(v) && Runnable(v, cfg, es)
    ensures Consumed(v) + 4 * Fires(es) <= Consumed(Exec(v, cfg, es))
    ensures Exec(v, cfg, es).sock.received == v.sock.received ==> Fires(es) <= |v.sock.readBuf.bytes| / 4
    decreases |es|
  {
    if es != [] {
      var v' := Step(v, cfg, es[0]);
      StepKeepsInv(v, cfg, es[0]);
      if es[0].TimerFires? {
        FireConsumes(v, es[0].acts);
      } else {
        UntimedStep(v, cfg, es[0]);
      }
      FramingProgress(v', cfg, es[1..]);
    }
  }

  /** The timer waits on a frame it must not be given. */
  predicate Stuck(v: Conn) {
    && v.sock.timer && v.sock.callback == ReadData
    && |v.frames| < |AllFrames(v.sock.received)| && !FrameOk(AllFrames(v.sock.received)[|v.frames|])
  }

  lemma ArmedIsOkOrStuck(v: Conn)
    requires Inbound(v) && Awake(v) && v.sock.timer
    ensures TimerOk(v) <==> !Stuck(v)
  {
    HandledFrames(v);
    if v.sock.callback == ReadData {
      HeaderComplete(v);
      var b := Header(v) + v.sock.readBuf.bytes;
      assert First(b) == v.sock.readBuf.bytes[..v.size] by { assert b[4..4 + v.size] == b[4..][..v.size]; }
      assert AllFrames(v.sock.received)[|v.frames|] == First(b);
    }
  }

  /** `n` timer events. */
  function Ticks(n: nat): seq<Event> {
    if n == 0 then [] else [TimerFires([])] + Ticks(n - 1)
  }

  /** Every whole frame of `b` is handled, or the first one not handled is not one the connection is made for. */
  predicate AtRest(v: Conn, b: seq<byte>) {
    v.sock.received == b && ((Quiet(v) && v.frames == AllFrames(b)) || Stuck(v))
  }

  /** From any connected state the timer alone leads to rest. */
  lemma {:induction false} Settles(v: Conn, cfg: Config) returns (n: nat)
    requires cfg.Ok() && Inv(v) && v.sock.state == Connected
    ensures 4 * n <= |v.sock.readBuf.bytes|
    ensures Runnable(v, cfg, Ticks(n)) && AtRest(Exec(v, cfg, Ticks(n)), v.sock.received)
    decreases |v.sock.readBuf.bytes|
  {
    if !v.sock.timer || Stuck(v) {
      n := 0;
      RestsNow(v);
      NoTick(v, cfg);
    } else {
      var v' := Fire(v, cfg);
      n := Settles(v', cfg);
      OneTick(v, cfg, v', n);
      n := n + 1;
    }
  }

  lemma NoTick(v: Conn, cfg: Config)
    requires cfg.Ok()
    ensures Runnable(v, cfg, Ticks(0)) && Exec(v, cfg, Ticks(0)) == v
  {
  }

  lemma OneTick(v: Conn, cfg: Config, v': Conn, n: nat)
    requires cfg.Ok() && Enabled(v, TimerFires([])) && v' == Step(v, cfg, TimerFires([])) && Runnable(v', cfg, Ticks(n))
    ensures Runnable(v, cfg, Ticks(n + 1)) && Exec(v, cfg, Ticks(n + 1)) == Exec(v', cfg, Ticks(n))
  {
    RunCons(v, cfg, TimerFires([]), Ticks(n));
  }

  lemma RestsNow(v: Conn)
    requires Inbound(v) && Awake(v) && v.sock.state == Connected && (!v.sock.timer || Stuck(v))
    ensures AtRest(v, v.sock.received)
  {
    if !v.sock.timer {
      QuietMeansDone(v);
    }
  }

  lemma Fire(v: Conn, cfg: Config) returns (v': Conn)
    requires cfg.Ok() && Inv(v) && v.sock.state == Connected && v.sock.timer && !Stuck(v)
    ensures Enabled(v, TimerFires([])) && v' == Step(v, cfg, TimerFires([])) && Inv(v')
    ensures v'.sock.received == v.sock.received && v'.sock.state == Connected
    ensures |v'.sock.readBuf.bytes| + 4 <= |v.sock.readBuf.bytes|
  {
    ArmedIsOkOrStuck(v);
    FireConsumes(v, []);
    StepKeepsInv(v, cfg, TimerFires([]));
    v' := Step(v, cfg, TimerFires([]));
  }

  lemma RunCons(v: Conn, cfg: Config, e: Event, rest: seq<Event>)
    requires cfg.Ok() && Enabled(v, e) && Runnable(Step(v, cfg, e), cfg, rest)
    ensures Runnable(v, cfg, [e] + rest) && Exec(v, cfg, [e] + rest) == Exec(Step(v, cfg, e), cfg, rest)
  {
    assert ([e] + rest)[1..] == rest;
  }
}
