/** What the connection says of its own accord, for every run from a new connection, and exactly when all of it is
    said whole and accepted. */
module ProtocolTraces {
  import opened Bytes
  import opened Windows
  import opened Messages
  import opened Commands
  import opened Builders
  import opened Frames
  import opened Machine
  import opened ConnectionRuns
  import opened ConnectionTheorems
  import opened Acceptance

  // ---- the writes of the connection itself -------------------------------------------------------

  function OwnOne(i: Item): seq<Item> {
    if i.WroteItem? && i.kind == User then [] else [i]
  }

  /** A log without the writes of user code. */
  function Own(items: seq<Item>): seq<Item> {
    Gather(OwnOne, items)
  }

  lemma {:induction false} OwnOfUser(items: seq<Item>)
    requires OnlyUser(items)
    ensures Own(items) == []
  {
    if items != [] {
      OwnOfUser(items[..|items| - 1]);
    }
  }

  lemma OwnOfSaid(w: Window, kind: Kind, c: Command)
    requires Sized31(c) && kind != User
    ensures Own(Said(w, kind, c)) == Said(w, kind, c)
  {
    if Said(w, kind, c) != [] {
      GatherOne(OwnOne, Said(w, kind, c)[0]);
    }
  }

  lemma OwnOfConnect(w: Window, cfg: Config, acts: seq<UserAct>)
    requires cfg.Ok() && ActsOk(acts)
    ensures var w2 := AfterActs(w, acts);
      Own(ConnectItems(w, cfg, acts)) == [WroteItem(Magic, MAGIC)] + Said(w2, SubscribeKind, cfg.Sub())
                                         + Said(After(w2, cfg.Sub()), ReadyKind, cfg.Rdy())
  {
    var w2 := AfterActs(w, acts);
    var magic, sub := [WroteItem(Magic, MAGIC)], Said(w2, SubscribeKind, cfg.Sub());
    var rdy := Said(After(w2, cfg.Sub()), ReadyKind, cfg.Rdy());
    GatherOne(OwnOne, magic[0]);
    ActsHoldNoMessages(w, acts);
    OwnOfUser(ActItems(w, acts));
    OwnOfSaid(w2, SubscribeKind, cfg.Sub());
    OwnOfSaid(After(w2, cfg.Sub()), ReadyKind, cfg.Rdy());
    GatherFour(OwnOne, magic, ActItems(w, acts), sub, rdy);
    assert magic + [] == magic;
  }

  lemma OwnOfFrame(w: Window, f: Frame, acts: seq<UserAct>)
    requires FrameOk(f) && ActsOk(acts)
    ensures Own(FrameItems(w, f, acts)) ==
      if IsHeartbeat(f) then (NopIsSized(); Said(w, NopKind, Nop))
      else if IsMessage(f) then [DeliveredItem(DecodeMessage(f[4..]))] else []
  {
    NopIsSized();
    if IsHeartbeat(f) {
      OwnOfSaid(w, NopKind, Nop);
    } else if IsMessage(f) {
      var d := DeliveredItem(DecodeMessage(f[4..]));
      GatherOne(OwnOne, d);
      ActsHoldNoMessages(w, acts);
      OwnOfUser(ActItems(w, acts));
      GatherTwo(OwnOne, [d], ActItems(w, acts));
    }
  }

  // ---- what is due -------------------------------------------------------------------------------

  function Handshake(cfg: Config): seq<Item> {
    [WroteItem(Magic, MAGIC), WroteItem(SubscribeKind, Encode(cfg.Sub())), WroteItem(ReadyKind, Encode(cfg.Rdy()))]
  }

  function Answer(f: Frame): seq<Item>
    requires FrameOk(f)
  {
    if IsHeartbeat(f) then [WroteItem(NopKind, Encode(Nop))]
    else if IsMessage(f) then [DeliveredItem(DecodeMessage(f[4..]))]
    else []
  }

  /** What the protocol wants done about a series of frames: a NOP for every heartbeat and every message
      handed over, in the order of the frames. */
  function Answers(fs: seq<Frame>): seq<Item>
    requires AllOk(fs)
  {
    if fs == [] then [] else Answers(fs[..|fs| - 1]) + Answer(fs[|fs| - 1])
  }

  lemma AnswersSnoc(fs: seq<Frame>, f: Frame)
    requires AllOk(fs) && FrameOk(f) && |f| < TWO_32
    ensures AllOk(fs + [f]) && Answers(fs + [f]) == Answers(fs) + Answer(f)
  {
    assert (fs + [f])[..|fs|] == fs;
  }

  /** The handshake and the answers to the frames handled so far, once the connection is made. */
  function Due(v: Conn, cfg: Config): seq<Item>
    requires AllOk(v.frames)
  {
    if v.sock.callback == NoCallback then [] else Handshake(cfg) + Answers(v.frames)
  }

  // ---- whole commands ----------------------------------------------------------------------------

  /** The emptied command buffer takes all of `c`. */
  predicate Whole(w: Window, c: Command)
    requires Sized31(c)
  {
    Taken(Windows.Reset(w), Pieces(c))
  }

  lemma SaidIffWhole(w: Window, kind: Kind, c: Command)
    requires Sized31(c)
    ensures |Said(w, kind, c)| <= 1
    ensures Said(w, kind, c) == [WroteItem(kind, Encode(c))] <==> Whole(w, c)
  {
    BuiltIffTaken(Windows.Reset(w), c);
    assert [] + Encode(c) == Encode(c);
    assert |Encode(c)| > 0;
  }

  lemma SaidBytes(w: Window, kind: Kind, c: Command)
    requires Sized31(c)
    ensures |BytesOf(Said(w, kind, c))| <= |Encode(c)|
    ensures |BytesOf(Said(w, kind, c))| == |Encode(c)| <==> Whole(w, c)
  {
    BuiltIffTaken(Windows.Reset(w), c);
    AddAllIsNoLonger(Windows.Reset(w), Pieces(c));
    FlatPieces(c);
    if Said(w, kind, c) != [] {
      GatherOne(BytesIn, Said(w, kind, c)[0]);
    }
  }

  predicate HandshakeWhole(w: Window, cfg: Config, acts: seq<UserAct>)
    requires cfg.Ok() && ActsOk(acts)
  {
    var w2 := AfterActs(w, acts);
    Whole(w2, cfg.Sub()) && Whole(After(w2, cfg.Sub()), cfg.Rdy())
  }

  predicate AnswerWhole(w: Window, f: Frame)
    requires FrameOk(f)
  {
    IsHeartbeat(f) ==> (NopIsSized(); Whole(w, Nop))
  }

  /** The command buffer refuses no piece of a command that the connection itself builds in this step. */
  predicate StepWhole(v: Conn, cfg: Config, e: Event)
    requires cfg.Ok() && Enabled(v, e)
  {
    match e
    case ConnectDone(success, acts) => success ==> HandshakeWhole(v.commandBuf, cfg, acts)
    case TimerFires(_) =>
      v.sock.callback == ReadData ==> AnswerWhole(v.commandBuf, v.sock.readBuf.bytes[..v.size])
    case _ => true
  }

  predicate AllWhole(v: Conn, cfg: Config, es: seq<Event>)
    requires cfg.Ok() && Runnable(v, cfg, es)
    decreases |es|
  {
    es == [] || (StepWhole(v, cfg, es[0]) && AllWhole(Step(v, cfg, es[0]), cfg, es[1..]))
  }

  // ---- the trace ---------------------------------------------------------------------------------

  /** `own` is what was said where `due` was to be said: no more, and the same exactly if all of it is whole. */
  predicate Keeps(own: seq<Item>, due: seq<Item>, whole: bool) {
    |own| <= |due| && (own == due <==> whole)
  }

  lemma KeepsOn(own: seq<Item>, due: seq<Item>, whole: bool, x: seq<Item>, y: seq<Item>, whole': bool)
    requires Keeps(own, due, whole) && Keeps(x, y, whole')
    ensures Keeps(own + x, due + y, whole && whole')
  {
    if own + x == due + y {
      assert |own| == |due| && |x| == |y|;
      assert own == (own + x)[..|own|] && due == (due + y)[..|due|];
      assert x == (own + x)[|own|..] && y == (due + y)[|due|..];
    }
  }

  lemma ThreeKeep(m: Item, s: seq<Item>, s': seq<Item>, sWhole: bool, r: seq<Item>, r': seq<Item>, rWhole: bool)
    requires Keeps(s, s', sWhole) && Keeps(r, r', rWhole)
    ensures Keeps([m] + s + r, [m] + s' + r', sWhole && rWhole)
  {
    KeepsOn([m], [m], true, s, s', sWhole);
    KeepsOn([m] + s, [m] + s', sWhole, r, r', rWhole);
  }

  lemma HandshakeIsThree(cfg: Config)
    ensures Handshake(cfg) == [WroteItem(Magic, MAGIC)] + [WroteItem(SubscribeKind, Encode(cfg.Sub()))]
                              + [WroteItem(ReadyKind, Encode(cfg.Rdy()))]
  {
  }

  lemma HandshakeKeeps(w: Window, cfg: Config, acts: seq<UserAct>)
    requires cfg.Ok() && ActsOk(acts)
    ensures Keeps(Own(ConnectItems(w, cfg, acts)), Handshake(cfg), HandshakeWhole(w, cfg, acts))
  {
    var w2 := AfterActs(w, acts);
    var w3 := After(w2, cfg.Sub());
    OwnOfConnect(w, cfg, acts);
    SaidIffWhole(w2, SubscribeKind, cfg.Sub());
    SaidIffWhole(w3, ReadyKind, cfg.Rdy());
    HandshakeIsThree(cfg);
    ThreeKeep(WroteItem(Magic, MAGIC),
              Said(w2, SubscribeKind, cfg.Sub()), [WroteItem(SubscribeKind, Encode(cfg.Sub()))], Whole(w2, cfg.Sub()),
              Said(w3, ReadyKind, cfg.Rdy()), [WroteItem(ReadyKind, Encode(cfg.Rdy()))], Whole(w3, cfg.Rdy()));
  }

  lemma AnswerKeeps(w: Window, f: Frame, acts: seq<UserAct>)
    requires FrameOk(f) && ActsOk(acts)
    ensures Keeps(Own(FrameItems(w, f, acts)), Answer(f), AnswerWhole(w, f))
  {
    OwnOfFrame(w, f, acts);
    if IsHeartbeat(f) {
      NopIsSized();
      SaidIffWhole(w, NopKind, Nop);
    }
  }

  lemma TimerKeeps(v: Conn, cfg: Config, acts: seq<UserAct>) returns (y: seq<Item>)
    requires cfg.Ok() && Inv(v) && Enabled(v, TimerFires(acts))
    ensures AllOk(OnTimer(v, acts).frames) && Due(OnTimer(v, acts), cfg) == Due(v, cfg) + y
    ensures Keeps(Own(StepItems(v, cfg, TimerFires(acts))), y, StepWhole(v, cfg, TimerFires(acts)))
  {
    TimerKeepsInv(v, acts);
    if v.sock.callback == ReadSize {
      y := [];
      SizeEffect(v);
      NothingAdded(Due(v, cfg));
    } else {
      var f := v.sock.readBuf.bytes[..v.size];
      y := Answer(f);
      DataEffect(v, acts);
      AnswerKeeps(v.commandBuf, f, acts);
      AnswersSnoc(v.frames, f);
      Assoc(Handshake(cfg), Answers(v.frames), y);
    }
  }

  lemma ConnectedKeeps(v: Conn, v': Conn, cfg: Config, items: seq<Item>)
    requires Untouched(v) && HasConnected(v, v', items)
    ensures v'.frames == [] && Due(v', cfg) == Due(v, cfg) + Handshake(cfg)
  {
    NothingAdded(Handshake(cfg));
    assert [] + Handshake(cfg) == Handshake(cfg);
  }

  lemma ConnectKeeps(v: Conn, cfg: Config, acts: seq<UserAct>)
    requires cfg.Ok() && Inv(v) && Enabled(v, ConnectDone(true, acts))
    ensures var v' := Step(v, cfg, ConnectDone(true, acts));
      v'.sock.state == Connected && v'.frames == [] && Due(v', cfg) == Due(v, cfg) + Handshake(cfg)
  {
    ConnectEffect(v, cfg, acts);
    ConnectedKeeps(v, Step(v, cfg, ConnectDone(true, acts)), cfg, ConnectItems(v.commandBuf, cfg, acts));
  }

  predicate Speaking(e: Event) {
    e.TimerFires? || (e.ConnectDone? && e.success)
  }

  lemma ActsAreStill(v: Conn, acts: seq<UserAct>)
    requires Inv(v) && ActsOk(acts)
    ensures ActAll(v, acts).frames == v.frames && ActAll(v, acts).sock.callback == v.sock.callback
    ensures Own(ActItems(v.commandBuf, acts)) == []
  {
    ActsHoldNoMessages(v.commandBuf, acts);
    OwnOfUser(ActItems(v.commandBuf, acts));
    if v.sock.state == Connected {
      ActsFollow(v, acts);
    } else {
      ActsWithoutConnection(v, acts);
    }
  }

  /** All other events make nothing due, and say nothing. */
  lemma OthersAreStill(v: Conn, cfg: Config, e: Event)
    requires cfg.Ok() && Inv(v) && Enabled(v, e) && !Speaking(e)
    ensures Step(v, cfg, e).frames == v.frames && Step(v, cfg, e).sock.callback == v.sock.callback
    ensures Own(StepItems(v, cfg, e)) == [] && StepWhole(v, cfg, e)
  {
    match e
    case UserActs(acts) => ActsAreStill(v, acts);
    case Readable(pending, result, chunk, retry) => var _ := ReadableEffect(v.sock, pending, result, chunk, retry);
    case Writable(result, retry) => WritableEffect(v.sock, result, retry);
    case _ =>
  }

  /** What a step says is what it makes due. */
  lemma StepKeeps(v: Conn, cfg: Config, e: Event) returns (y: seq<Item>)
    requires cfg.Ok() && Inv(v) && Enabled(v, e)
    ensures AllOk(Step(v, cfg, e).frames) && Due(Step(v, cfg, e), cfg) == Due(v, cfg) + y
    ensures Keeps(Own(StepItems(v, cfg, e)), y, StepWhole(v, cfg, e))
  {
    if e.TimerFires? {
      y := TimerKeeps(v, cfg, e.acts);
    } else if Speaking(e) {
      y := Handshake(cfg);
      ConnectKeeps(v, cfg, e.acts);
      HandshakeKeeps(v.commandBuf, cfg, e.acts);
    } else {
      y := [];
      OthersAreStill(v, cfg, e);
      NothingAdded(Due(v, cfg));
    }
  }

  lemma {:induction false} RunKeeps(v: Conn, cfg: Config, es: seq<Event>) returns (y: seq<Item>)
    requires cfg.Ok() && Inv(v) && Runnable(v, cfg, es)
    ensures Inv(Exec(v, cfg, es)) && Due(Exec(v, cfg, es), cfg) == Due(v, cfg) + y
    ensures Keeps(Own(RunItems(v, cfg, es)), y, AllWhole(v, cfg, es))
    decreases |es|
  {
    if es == [] {
      y := [];
      NothingAdded(Due(v, cfg));
    } else {
      var v' := Step(v, cfg, es[0]);
      StepKeepsInv(v, cfg, es[0]);
      var y1 := StepKeeps(v, cfg, es[0]);
      var y2 := RunKeeps(v', cfg, es[1..]);
      y := y1 + y2;
      Assoc(Due(v, cfg), y1, y2);
      GatherTwo(OwnOne, StepItems(v, cfg, es[0]), RunItems(v', cfg, es[1..]));
      KeepsOn(Own(StepItems(v, cfg, es[0])), y1, StepWhole(v, cfg, es[0]),
              Own(RunItems(v', cfg, es[1..])), y2, AllWhole(v', cfg, es[1..]));
    }
  }

  /** What is handed to `buffered_socket_write` is what is due, if and only if the command buffer refused no piece of
      it. */
  lemma HandedOver(v: Conn, cfg: Config, es: seq<Event>)
    requires Start(v, cfg) && Runnable(v, cfg, es)
    ensures var v' := Exec(v, cfg, es);
      && AllOk(v'.frames) && Keeps(Own(Items(v'.sock.log)), Due(v', cfg), AllWhole(v, cfg, es))
      && (v'.sock.state == Connected ==> v'.sock.callback != NoCallback)
  {
    InitialInv(v);
    RunLogs(v, cfg, es);
    var y := RunKeeps(v, cfg, es);
    assert [] + RunItems(v, cfg, es) == RunItems(v, cfg, es);
    assert [] + y == y;
  }

  // ---- and what becomes of it --------------------------------------------------------------------

  /** All of `own` is kept; or less of it. */
  predicate Loses(kept: seq<Item>, own: seq<Item>, accepted: bool) {
    if accepted then kept == own else |kept| < |own|
  }

  lemma KeptOwnOne(a: Action)
    ensures Loses(Own(KeptOne(a)), Own([ItemOf(a)]), AcceptedAction(a, false))
  {
    GatherOne(OwnOne, ItemOf(a));
  }

  /** Of the connection's own writes those are kept that are accepted. */
  lemma {:induction false} KeptOwn(log: seq<Action>)
    ensures Loses(Own(Kept(log)), Own(Items(log)), Accepts(log, false))
  {
    if log != [] {
      var init, a := log[..|log| - 1], log[|log| - 1];
      assert log == init + [a];
      KeptOwn(init);
      KeptOwnOne(a);
      LogSnoc(init, a);
      GatherTwo(OwnOne, Kept(init), KeptOne(a));
      GatherTwo(OwnOne, Items(init), [ItemOf(a)]);
      AcceptsTwo(init, [a], false);
      assert Accepts([a], false) <==> AcceptedAction(a, false) by { assert [a][0] == a; }
    }
  }

  lemma LosesOrKeeps(kept: seq<Item>, own: seq<Item>, due: seq<Item>, accepted: bool, whole: bool)
    requires Loses(kept, own, accepted) && Keeps(own, due, whole)
    ensures kept == due <==> whole && accepted
  {
  }

  /** The protocol trace.  In every run a connection that got as far as reading has, leaving out the writes of user
      code and whatever was refused, written the magic, SUB and RDY, and then answered the frames it handled, in their
      order: every heartbeat with one NOP, every message by handing it over; if, and only if, its command buffer never
      refused it a piece of one of these commands, and its write buffer none of these writes. */
  lemma ProtocolTrace(v: Conn, cfg: Config, es: seq<Event>)
    requires Start(v, cfg) && Runnable(v, cfg, es)
    ensures var v' := Exec(v, cfg, es);
      && AllOk(v'.frames)
      && (Own(Kept(v'.sock.log)) == Due(v', cfg) <==> AllWhole(v, cfg, es) && AllTake(v, cfg, es, false))
  {
    var v' := Exec(v, cfg, es);
    HandedOver(v, cfg, es);
    KeptOwn(v'.sock.log);
    AcceptedIffTaken(v, cfg, es, false);
    LosesOrKeeps(Own(Kept(v'.sock.log)), Own(Items(v'.sock.log)), Due(v', cfg), AllTake(v, cfg, es, false),
               AllWhole(v, cfg, es));
  }
}
