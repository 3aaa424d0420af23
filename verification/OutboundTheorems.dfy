/** What a connection sends, for every run from a new connection. */
module OutboundTheorems {
  import opened Bytes
  import opened Windows
  import Messages
  import opened Commands
  import opened Frames
  import opened Machine
  import opened ConnectionRuns
  import opened ConnectionTheorems

  /** Nothing is lost, repeated or reordered on the way out: the bytes sent and then the bytes pending are the
      accepted writes, one after the other; and while bytes are pending the write watcher runs. */
  lemma Conservation(v: Conn, cfg: Config, es: seq<Event>)
    requires Start(v, cfg) && Runnable(v, cfg, es)
    ensures var s := Exec(v, cfg, es).sock;
      && s.sent + s.writeBuf.bytes == Accepted(s.log)
      && (s.state == Connected && s.writeBuf.bytes != [] ==> s.writing)
  {
    RunInv(v, cfg, es);
  }

  // ---- the write watcher -------------------------------------------------------------------------

  /** Every write so far was accepted, and none was empty. */
  predicate AllTaken(log: seq<Action>) {
    forall i :: 0 <= i < |log| && log[i].Wrote? ==> log[i].accepted && log[i].bytes != []
  }

  /** The write watcher does not run for nothing. */
  predicate Busy(s: Socket) {
    AllTaken(s.log) && s.writing ==> s.writeBuf.bytes != []
  }

  lemma TakenSnoc(log: seq<Action>, a: Action)
    ensures AllTaken(log + [a]) <==> AllTaken(log) && (a.Wrote? ==> a.accepted && a.bytes != [])
  {
    assert forall i :: 0 <= i < |log| ==> (log + [a])[i] == log[i];
    assert (log + [a])[|log|] == a;
  }

  lemma WriteBusy(s: Socket, kind: Kind, data: seq<byte>)
    requires Busy(s) && |data| < TWO_31
    ensures Busy(Write(s, kind, data))
  {
    if s.state == Connected {
      TakenSnoc(s.log, Wrote(kind, data, Windows.Add(s.writeBuf, data).1));
    }
  }

  lemma CommandBusy(v: Conn, kind: Kind, c: Command)
    requires Busy(v.sock) && Sized31(c)
    ensures Busy(WriteCommand(v, kind, c).sock)
  {
    WriteBusy(v.sock, kind, Fresh(v.commandBuf, c).bytes);
  }

  lemma {:induction false} ActsBusy(v: Conn, acts: seq<UserAct>)
    requires Busy(v.sock) && ActsOk(acts)
    ensures Busy(ActAll(v, acts).sock)
    decreases |acts|
  {
    if acts != [] {
      assert ActOk(acts[0]);
      match acts[0] {
        case Raw(data) => WriteBusy(v.sock, User, data);
        case SendCommand(c) => CommandBusy(v, User, c);
      }
      ActsBusy(ActOne(v, acts[0]), acts[1..]);
    }
  }

  lemma HandleBusy(v: Conn, f: Frame, acts: seq<UserAct>)
    requires Busy(v.sock) && FrameOk(f) && ActsOk(acts)
    ensures Busy(Handle(v, f, acts).sock)
  {
    if IsHeartbeat(f) {
      NopIsSized();
      CommandBusy(v, NopKind, Nop);
    } else if IsMessage(f) {
      var a := Delivered(Messages.DecodeMessage(f[4..]));
      TakenSnoc(v.sock.log, a);
      ActsBusy(v.(sock := v.sock.(log := v.sock.log + [a])), acts);
    }
  }

  lemma TimerBusy(v: Conn, acts: seq<UserAct>)
    requires Busy(v.sock) && TimerOk(v) && ActsOk(acts)
    ensures Busy(OnTimer(v, acts).sock)
  {
    if v.sock.callback == ReadData {
      HandleBusy(TakeType(v.(sock := TakeRequest(v.sock))), v.sock.readBuf.bytes[..v.size], acts);
    }
  }

  lemma ConnectBusy(v: Conn, cfg: Config, acts: seq<UserAct>)
    requires cfg.Ok() && ActsOk(acts) && Busy(v.sock)
    ensures Busy(OnConnected(v, cfg, acts).sock)
  {
    var s0 := BecomeConnected(v.sock);
    WriteBusy(s0, Magic, MAGIC);
    var v1 := v.(sock := Write(s0, Magic, MAGIC));
    ActsBusy(v1, acts);
    var v2 := ActAll(v1, acts);
    CommandBusy(v2, SubscribeKind, cfg.Sub());
    CommandBusy(WriteCommand(v2, SubscribeKind, cfg.Sub()), ReadyKind, cfg.Rdy());
  }

  lemma ReadingBusy(s: Socket, pending: int, result: int, chunk: seq<byte>, retry: bool)
    requires Busy(s) && |chunk| == Max(result, 0) <= Wanted(pending)
    ensures Busy(OnReadable(s, pending, result, chunk, retry))
  {
  }

  lemma SendingBusy(s: Socket, result: int, retry: bool)
    requires Busy(s) && result <= |s.writeBuf.bytes|
    ensures Busy(OnWritable(s, result, retry))
  {
  }

  lemma StepBusy(v: Conn, cfg: Config, e: Event)
    requires cfg.Ok() && Enabled(v, e) && Busy(v.sock)
    ensures Busy(Step(v, cfg, e).sock)
  {
    match e
    case ConnectDone(success, acts) => if success { ConnectBusy(v, cfg, acts); }
    case Readable(pending, result, chunk, retry) => ReadingBusy(v.sock, pending, result, chunk, retry);
    case Writable(result, retry) => SendingBusy(v.sock, result, retry);
    case TimerFires(acts) => TimerBusy(v, acts);
    case UserActs(acts) => ActsBusy(v, acts);
    case _ =>
  }

  lemma {:induction false} RunBusy(v: Conn, cfg: Config, es: seq<Event>)
    requires cfg.Ok() && Runnable(v, cfg, es) && Busy(v.sock)
    ensures Busy(Exec(v, cfg, es).sock)
    decreases |es|
  {
    if es != [] {
      StepBusy(v, cfg, es[0]);
      RunBusy(Step(v, cfg, es[0]), cfg, es[1..]);
    }
  }

  /** As long as no write is empty or refused, the write watcher runs exactly when bytes are pending. */
  lemma WriterIffPending(v: Conn, cfg: Config, es: seq<Event>)
    requires Start(v, cfg) && Runnable(v, cfg, es)
    ensures var s := Exec(v, cfg, es).sock;
      s.state == Connected && AllTaken(s.log) ==> (s.writing <==> s.writeBuf.bytes != [])
  {
    RunInv(v, cfg, es);
    RunBusy(v, cfg, es);
  }

  /** A write watcher that runs with nothing to write, and only that, is fatal: whatever `send` answers to its event,
      the socket is closed (unless an error asks for a retry). */
  lemma IdleWriterIsFatal(s: Socket)
    requires s.state == Connected && s.writing
    ensures (forall result: int | result <= |s.writeBuf.bytes| :: OnWritable(s, result, false).state == Disconnected)
      <==> s.writeBuf.bytes == []
  {
    if s.writeBuf.bytes != [] {
      assert OnWritable(s, 1, false).state == Connected;
    }
  }

  /** In every run: a write of user code to a connection with nothing pending makes the next write event fatal exactly
      if the write is empty or refused. */
  lemma WriteToIdleConnection(v: Conn, cfg: Config, es: seq<Event>, data: seq<byte>)
    requires Start(v, cfg) && Runnable(v, cfg, es) && |data| < TWO_31
    requires Exec(v, cfg, es).sock.state == Connected && Exec(v, cfg, es).sock.writeBuf.bytes == []
    ensures var s := Exec(v, cfg, es).sock; var s' := Step(Exec(v, cfg, es), cfg, UserActs([Raw(data)])).sock;
      && s'.state == Connected && s'.writing
      && ((forall result: int | result <= |s'.writeBuf.bytes| :: OnWritable(s', result, false).state == Disconnected)
          <==> data == [] || !Windows.Add(s.writeBuf, data).1)
  {
    var v' := Exec(v, cfg, es);
    assert ActAll(v', [Raw(data)]) == ActOne(v', Raw(data)) by { assert [Raw(data)][1..] == []; }
    IdleWriterIsFatal(Write(v'.sock, User, data));
  }
}

