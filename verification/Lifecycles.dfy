/** The life of a socket: exactly which answers of the system calls make a connection and end it, for every run. */
module Lifecycles {
  import opened Bytes
  import opened Windows
  import Messages
  import opened Frames
  import opened Machine
  import opened ConnectionRuns
  import opened ConnectionTheorems
  import opened FrameLimits

  // ---- single events -----------------------------------------------------------------------------

  /** The stream is at its end, or the read fails or has no room and `errno` does not ask for another try. */
  predicate ReadEnds(w: Window, pending: int, result: int, retry: bool) {
    var room := !RefusesRead(w, pending);
    (room && result == 0) || ((!room || result < 0) && !retry)
  }

  /** Nothing was sent, or sending fails and `errno` does not ask for another try. */
  predicate WriteEnds(result: int, retry: bool) {
    result == 0 || (result < 0 && !retry)
  }

  /** Whatever FIONREAD, `recv` and `errno` answer: the state, and the bytes that arrive. */
  lemma ReadOutcome(s: Socket, pending: int, result: int, chunk: seq<byte>, retry: bool)
    requires s.state == Connected && |chunk| == Max(result, 0) <= Wanted(pending)
    ensures OnReadable(s, pending, result, chunk, retry).state
      == if ReadEnds(s.readBuf, pending, result, retry) then Disconnected else Connected
    ensures var arrived := if RefusesRead(s.readBuf, pending) then [] else chunk;
      && OnReadable(s, pending, result, chunk, retry).readBuf.bytes == s.readBuf.bytes + arrived
      && OnReadable(s, pending, result, chunk, retry).received == s.received + arrived
  {
    assert s.readBuf.bytes + [] == s.readBuf.bytes && s.received + [] == s.received;
  }

  /** Whatever `send` and `errno` answer: the state, and the bytes that leave. */
  lemma WriteOutcome(s: Socket, result: int, retry: bool)
    requires s.state == Connected && result <= |s.writeBuf.bytes|
    ensures OnWritable(s, result, retry).state == if WriteEnds(result, retry) then Disconnected else Connected
    ensures var n := Max(result, 0);
      && OnWritable(s, result, retry).sent == s.sent + s.writeBuf.bytes[..n]
      && OnWritable(s, result, retry).writeBuf.bytes == s.writeBuf.bytes[n..]
  {
    DrainBytes(s.writeBuf, Max(result, 0));
    assert s.writeBuf.bytes[0..] == s.writeBuf.bytes;
  }

  /** Whatever the resolver, `socket` and `connect` answer. */
  lemma ConnectOutcome(s: Socket, resolved: bool, newFd: int, usable: bool)
    ensures BeginConnect(s, resolved, newFd, usable).state
      == if s.state != Connected && resolved && newFd >= 0 && usable then Connecting else s.state
    ensures BeginConnect(s, resolved, newFd, usable).fd
      == if s.state != Connected && s.state != Connecting && resolved then newFd else s.fd
  {
  }

  // ---- runs --------------------------------------------------------------------------------------

  /** An event that ends the connection. */
  predicate Ends(v: Conn, e: Event) {
    match e
    case Connect(_, _, _) => false
    case ConnectDone(success, _) => !success
    case Readable(pending, result, _, retry) => ReadEnds(v.sock.readBuf, pending, result, retry)
    case Writable(result, retry) => WriteEnds(result, retry)
    case TimerFires(_) => false
    case UserActs(_) => false
    case Shut => true
  }

  predicate SomeEnds(v: Conn, cfg: Config, es: seq<Event>)
    requires cfg.Ok() && Runnable(v, cfg, es)
    decreases |es|
  {
    es != [] && (Ends(v, es[0]) || SomeEnds(Step(v, cfg, es[0]), cfg, es[1..]))
  }

  predicate Begins(e: Event) {
    e.Connect? && e.resolved && e.newFd >= 0 && e.usable
  }

  predicate SomeBegins(es: seq<Event>) {
    es != [] && (Begins(es[0]) || SomeBegins(es[1..]))
  }

  predicate Makes(e: Event) {
    e.ConnectDone? && e.success
  }

  predicate SomeMakes(es: seq<Event>) {
    es != [] && (Makes(es[0]) || SomeMakes(es[1..]))
  }

  /** The state after an event. */
  function NextState(v: Conn, e: Event): State {
    if Ends(v, e) then Disconnected
    else if Makes(e) then Connected
    else if Begins(e) then Connecting
    else v.sock.state
  }

  lemma StillState(v: Conn, acts: seq<UserAct>)
    requires ActsOk(acts)
    ensures v.sock.state == Connected && Outbound(v.sock) ==> ActAll(v, acts).sock.state == Connected
    ensures v.sock.state != Connected ==> ActAll(v, acts).sock == v.sock
  {
    if v.sock.state == Connected && Outbound(v.sock) {
      ActsFollow(v, acts);
    } else if v.sock.state != Connected {
      ActsWithoutConnection(v, acts);
    }
  }

  lemma TimerState(v: Conn, acts: seq<UserAct>)
    requires Inv(v) && TimerOk(v) && ActsOk(acts)
    ensures v.sock.state == Connected && OnTimer(v, acts).sock.state == Connected
  {
    if v.sock.callback == ReadSize {
      SizeEffect(v);
    } else {
      DataEffect(v, acts);
    }
  }

  lemma StepState(v: Conn, cfg: Config, e: Event)
    requires cfg.Ok() && Inv(v) && Enabled(v, e)
    ensures Step(v, cfg, e).sock.state == NextState(v, e)
  {
    match e
    case Connect(resolved, newFd, usable) => ConnectOutcome(v.sock, resolved, newFd, usable);
    case ConnectDone(success, acts) => if success { ConnectEffect(v, cfg, acts); }
    case Readable(pending, result, chunk, retry) => ReadOutcome(v.sock, pending, result, chunk, retry);
    case Writable(result, retry) => WriteOutcome(v.sock, result, retry);
    case TimerFires(acts) => TimerState(v, acts);
    case UserActs(acts) => StillState(v, acts);
    case Shut =>
  }

  /** Which events are possible where. */
  lemma PossibleEvents(v: Conn, e: Event)
    requires Inv(v) && Enabled(v, e)
    ensures Makes(e) ==> v.sock.state == Connecting
    ensures Begins(e) ==> v.sock.state == Init
    ensures v.sock.state == Disconnected ==> e.Shut? || e.UserActs?
    ensures v.sock.state == Init ==> !Ends(v, e)
  {
  }

  lemma {:induction false} RunState(v: Conn, cfg: Config, es: seq<Event>)
    requires cfg.Ok() && Inv(v) && Runnable(v, cfg, es)
    ensures var state := Exec(v, cfg, es).sock.state;
      && (state == Disconnected <==> v.sock.state == Disconnected || SomeEnds(v, cfg, es))
      && (state == Connected <==> !(v.sock.state == Disconnected || SomeEnds(v, cfg, es))
                                  && (v.sock.state == Connected || SomeMakes(es)))
      && (state == Init <==> v.sock.state == Init && !SomeBegins(es))
    decreases |es|
  {
    if es != [] {
      StepKeepsInv(v, cfg, es[0]);
      StepState(v, cfg, es[0]);
      PossibleEvents(v, es[0]);
      RunState(Step(v, cfg, es[0]), cfg, es[1..]);
    }
  }

  /** In every run: a connection is begun if and only if the system calls let it; it has ended if and only if some event
      was a close, a failed connect, the end of the stream, a read without room, or a read or write that failed, retries
      apart; and it is there if and only if it was made and has not ended. */
  lemma StateOfRun(v: Conn, cfg: Config, es: seq<Event>)
    requires Start(v, cfg) && Runnable(v, cfg, es)
    ensures var state := Exec(v, cfg, es).sock.state;
      && (state == Disconnected <==> SomeEnds(v, cfg, es))
      && (state == Connected <==> SomeMakes(es) && !SomeEnds(v, cfg, es))
      && (state == Init <==> !SomeBegins(es))
  {
    InitialInv(v);
    RunState(v, cfg, es);
  }

  /** Once it has ended nothing is read, sent, delivered or logged any more, whatever user code does. */
  lemma {:induction false} EndedForGood(v: Conn, cfg: Config, es: seq<Event>)
    requires cfg.Ok() && Inv(v) && Runnable(v, cfg, es) && v.sock.state == Disconnected
    ensures Exec(v, cfg, es).sock == v.sock && Exec(v, cfg, es).frames == v.frames
    decreases |es|
  {
    if es != [] {
      PossibleEvents(v, es[0]);
      StepKeepsInv(v, cfg, es[0]);
      if es[0].UserActs? {
        ActsWithoutConnection(v, es[0].acts);
      }
      EndedForGood(Step(v, cfg, es[0]), cfg, es[1..]);
    }
  }

  // ---- the descriptor ----------------------------------------------------------------------------

  /** A socket in use has a descriptor, and one that was closed has given it back. */
  predicate HoldsDescriptor(s: Socket) {
    && (s.state == Connecting || s.state == Connected ==> s.fd >= 0)
    && (s.state == Disconnected ==> s.fd == -1)
  }

  lemma IoHoldsDescriptor(s: Socket, e: Event)
    requires s.state == Connected && HoldsDescriptor(s)
    ensures e.Readable? && |e.chunk| == Max(e.result, 0) <= Wanted(e.pending) ==>
      HoldsDescriptor(OnReadable(s, e.pending, e.result, e.chunk, e.retry))
    ensures e.Writable? && e.result <= |s.writeBuf.bytes| ==> HoldsDescriptor(OnWritable(s, e.result, e.retry))
  {
  }

  lemma {:induction false} ActsKeepDescriptor(v: Conn, acts: seq<UserAct>)
    requires ActsOk(acts)
    ensures ActAll(v, acts).sock.fd == v.sock.fd && ActAll(v, acts).sock.state == v.sock.state
    decreases |acts|
  {
    if acts != [] {
      assert ActOk(acts[0]);
      ActsKeepDescriptor(ActOne(v, acts[0]), acts[1..]);
    }
  }

  lemma StepHoldsDescriptor(v: Conn, cfg: Config, e: Event)
    requires cfg.Ok() && Inv(v) && Enabled(v, e) && HoldsDescriptor(v.sock)
    ensures HoldsDescriptor(Step(v, cfg, e).sock)
  {
    match e
    case Connect(_, _, _) =>
    case ConnectDone(success, acts) => if success { ConnectKeepsDescriptor(v, cfg, acts); }
    case Readable(_, _, _, _) => IoHoldsDescriptor(v.sock, e);
    case Writable(_, _) => IoHoldsDescriptor(v.sock, e);
    case TimerFires(acts) => TimerKeepsDescriptor(v, acts);
    case UserActs(acts) => ActsKeepDescriptor(v, acts);
    case Shut =>
  }

  lemma ConnectKeepsDescriptor(v: Conn, cfg: Config, acts: seq<UserAct>)
    requires cfg.Ok() && ActsOk(acts)
    ensures OnConnected(v, cfg, acts).sock.fd == v.sock.fd && OnConnected(v, cfg, acts).sock.state == Connected
  {
    ActsKeepDescriptor(v.(sock := Write(BecomeConnected(v.sock), Magic, MAGIC)), acts);
  }

  lemma HandleKeepsDescriptor(v: Conn, f: Frame, acts: seq<UserAct>)
    requires FrameOk(f) && ActsOk(acts)
    ensures Handle(v, f, acts).sock.fd == v.sock.fd && Handle(v, f, acts).sock.state == v.sock.state
  {
    if !IsHeartbeat(f) && IsMessage(f) {
      ActsKeepDescriptor(v.(sock := v.sock.(log := v.sock.log + [Delivered(Messages.DecodeMessage(f[4..]))])), acts);
    }
  }

  lemma TimerKeepsDescriptor(v: Conn, acts: seq<UserAct>)
    requires TimerOk(v) && ActsOk(acts)
    ensures OnTimer(v, acts).sock.fd == v.sock.fd && OnTimer(v, acts).sock.state == v.sock.state
  {
    if v.sock.callback == ReadData {
      HandleKeepsDescriptor(TakeType(v.(sock := TakeRequest(v.sock))), v.sock.readBuf.bytes[..v.size], acts);
    }
  }

  lemma {:induction false} RunHoldsDescriptor(v: Conn, cfg: Config, es: seq<Event>)
    requires cfg.Ok() && Inv(v) && Runnable(v, cfg, es) && HoldsDescriptor(v.sock)
    ensures HoldsDescriptor(Exec(v, cfg, es).sock)
    decreases |es|
  {
    if es != [] {
      StepHoldsDescriptor(v, cfg, es[0]);
      StepKeepsInv(v, cfg, es[0]);
      RunHoldsDescriptor(Step(v, cfg, es[0]), cfg, es[1..]);
    }
  }

  /** So in every run, from a new connection on. */
  lemma DescriptorOfRun(v: Conn, cfg: Config, es: seq<Event>)
    requires Start(v, cfg) && Runnable(v, cfg, es)
    ensures HoldsDescriptor(Exec(v, cfg, es).sock)
  {
    InitialInv(v);
    RunHoldsDescriptor(v, cfg, es);
  }
}
