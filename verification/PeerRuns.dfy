/** What nsqd reads in terms of the run: exactly the commands issued, by user code and by the connection. */
module PeerRuns {
  import opened Bytes
  import opened Windows
  import Messages
  import opened Commands
  import opened Builders
  import opened Frames
  import opened Machine
  import opened ConnectionRuns
  import opened ConnectionTheorems
  import opened OutboundTheorems
  import opened Acceptance
  import opened ProtocolTraces
  import opened CommandRooms
  import opened Openings
  import opened PeerTheorems

  // ---- the commands of a run ---------------------------------------------------------------------

  /** The commands among what user code does. */
  function CommandsOf(acts: seq<UserAct>): seq<Command> {
    if acts == [] then [] else (if acts[0].SendCommand? then [acts[0].c] else []) + CommandsOf(acts[1..])
  }

  /** User code sends commands only, each of which can be sent. */
  predicate Commanding(acts: seq<UserAct>) {
    forall a <- acts :: a.SendCommand? && Sendable(a.c)
  }

  /** The acts of an event whose writes are not ignored. */
  function Heard(v: Conn, cfg: Config, e: Event): (acts: seq<UserAct>)
    requires cfg.Ok() && Enabled(v, e)
    ensures ActsOk(acts)
  {
    match e
    case ConnectDone(success, acts) => if success then acts else []
    case TimerFires(acts) =>
      if v.sock.callback == ReadData && Messaging(v.sock.readBuf.bytes[..v.size]) then acts else []
    case UserActs(acts) => if v.sock.state == Connected then acts else []
    case _ => []
  }

  predicate Messaging(f: Frame)
    requires FrameOk(f)
  {
    IsMessage(f) && !IsHeartbeat(f)
  }

  /** The commands issued by an event: those of user code, and those of the connection. */
  function StepIssues(v: Conn, cfg: Config, e: Event): seq<Command>
    requires cfg.Ok() && Enabled(v, e)
  {
    CommandsOf(Heard(v, cfg, e)) +
    match e
    case ConnectDone(success, _) => if success then [cfg.Sub(), cfg.Rdy()] else []
    case TimerFires(_) => if v.sock.callback == ReadData then NopFor(v.sock.readBuf.bytes[..v.size]) else []
    case _ => []
  }

  function Issues(v: Conn, cfg: Config, es: seq<Event>): seq<Command>
    requires cfg.Ok() && Runnable(v, cfg, es)
    decreases |es|
  {
    if es == [] then [] else StepIssues(v, cfg, es[0]) + Issues(Step(v, cfg, es[0]), cfg, es[1..])
  }

  predicate RunCommands(v: Conn, cfg: Config, es: seq<Event>)
    requires cfg.Ok() && Runnable(v, cfg, es)
    decreases |es|
  {
    es == [] || (Commanding(Heard(v, cfg, es[0])) && RunCommands(Step(v, cfg, es[0]), cfg, es[1..]))
  }

  predicate ActWhole(w: Window, a: UserAct)
    requires ActOk(a)
  {
    a.SendCommand? ==> Whole(w, a.c)
  }

  /** The command buffer takes each command that user code builds. */
  predicate ActsWhole(w: Window, acts: seq<UserAct>)
    requires ActsOk(acts)
    decreases |acts|
  {
    acts == [] || (ActWhole(w, acts[0]) && ActsWhole(AfterAct(w, acts[0]), acts[1..]))
  }

  predicate StepBuilt(v: Conn, cfg: Config, e: Event)
    requires cfg.Ok() && Enabled(v, e)
  {
    ActsWhole(v.commandBuf, Heard(v, cfg, e)) && StepWhole(v, cfg, e)
  }

  /** The command buffer refuses no piece of any command issued in the run. */
  predicate AllBuilt(v: Conn, cfg: Config, es: seq<Event>)
    requires cfg.Ok() && Runnable(v, cfg, es)
    decreases |es|
  {
    es == [] || (StepBuilt(v, cfg, es[0]) && AllBuilt(Step(v, cfg, es[0]), cfg, es[1..]))
  }

  predicate AllSendable(cs: seq<Command>) {
    forall c <- cs :: Sendable(c)
  }

  lemma {:induction false} CommandingIsSendable(acts: seq<UserAct>)
    requires Commanding(acts)
    ensures AllSendable(CommandsOf(acts))
  {
    if acts != [] {
      CommandingIsSendable(acts[1..]);
    }
  }

  lemma StepIsSendable(v: Conn, cfg: Config, e: Event)
    requires cfg.Ok() && Enabled(v, e) && Clean(cfg.topic) && Clean(cfg.channel) && Commanding(Heard(v, cfg, e))
    ensures AllSendable(StepIssues(v, cfg, e))
  {
    CommandingIsSendable(Heard(v, cfg, e));
    SubIsSendable(cfg.topic, cfg.channel);
    RdyIsSendable(cfg.maxInFlight);
    NopIsSendable();
  }

  lemma {:induction false} RunIsSendable(v: Conn, cfg: Config, es: seq<Event>)
    requires cfg.Ok() && Runnable(v, cfg, es) && Clean(cfg.topic) && Clean(cfg.channel) && RunCommands(v, cfg, es)
    ensures AllSendable(Issues(v, cfg, es))
    decreases |es|
  {
    if es != [] {
      StepIsSendable(v, cfg, es[0]);
      RunIsSendable(Step(v, cfg, es[0]), cfg, es[1..]);
    }
  }

  // ---- the bytes of a run ------------------------------------------------------------------------

  function TextIn(i: Item): seq<byte> {
    if i.WroteItem? && i.kind == Magic then [] else BytesIn(i)
  }

  /** All bytes written, but for the magic. */
  function TextOf(items: seq<Item>): seq<byte> {
    Gather(TextIn, items)
  }

  lemma {:induction false} TextIsBytes(items: seq<Item>)
    requires NoMagic(items)
    ensures TextOf(items) == BytesOf(items)
  {
    if items != [] {
      TextIsBytes(items[..|items| - 1]);
    }
  }

  /** The items are these commands if all of that is whole, and fewer bytes otherwise. */
  predicate Tells(items: seq<Item>, cs: seq<Command>, whole: bool) {
    && NoneEmpty(items)
    && if whole then TextOf(items) == EncodeAll(cs) else |TextOf(items)| < |EncodeAll(cs)|
  }

  lemma TellsTwo(xs: seq<Item>, cs: seq<Command>, a: bool, ys: seq<Item>, ds: seq<Command>, b: bool)
    requires Tells(xs, cs, a) && Tells(ys, ds, b)
    ensures Tells(xs + ys, cs + ds, a && b)
  {
    GatherTwo(TextIn, xs, ys);
    EncodeTwo(cs, ds);
  }

  lemma TellsNothing()
    ensures Tells([], [], true)
  {
  }

  lemma OneTellsNothing(i: Item)
    requires i.WroteItem? ==> i.kind == Magic && i.bytes != []
    ensures Tells([i], [], true)
  {
    GatherOne(TextIn, i);
  }

  lemma SaidTells(w: Window, kind: Kind, c: Command)
    requires Sized31(c) && kind != Magic
    ensures Tells(Said(w, kind, c), [c], Whole(w, c))
  {
    SaidIffWhole(w, kind, c);
    SaidBytes(w, kind, c);
    assert EncodeAll([c]) == Encode(c) + EncodeAll([c][1..]) == Encode(c);
    if Said(w, kind, c) != [] {
      GatherOne(TextIn, Said(w, kind, c)[0]);
      GatherOne(BytesIn, Said(w, kind, c)[0]);
    }
  }

  lemma {:induction false} ActsTell(w: Window, acts: seq<UserAct>)
    requires ActsOk(acts) && Commanding(acts)
    ensures Tells(ActItems(w, acts), CommandsOf(acts), ActsWhole(w, acts))
    decreases |acts|
  {
    if acts == [] {
      TellsNothing();
    } else {
      var c, w' := acts[0].c, AfterAct(w, acts[0]);
      SaidTells(w, User, c);
      ActsTell(w', acts[1..]);
      TellsTwo(ActItem(w, acts[0]), [c], Whole(w, c),
               ActItems(w', acts[1..]), CommandsOf(acts[1..]), ActsWhole(w', acts[1..]));
    }
  }

  lemma FourTell(m: seq<Item>, user: seq<Item>, cs: seq<Command>, a: bool,
                 s: seq<Item>, x: Command, b: bool, r: seq<Item>, y: Command, c: bool)
    requires Tells(m, [], true) && Tells(user, cs, a) && Tells(s, [x], b) && Tells(r, [y], c)
    ensures Tells(m + user + s + r, cs + [x, y], a && b && c)
  {
    TellsTwo(m, [], true, user, cs, a);
    assert [] + cs == cs;
    TellsTwo(m + user, cs, a, s, [x], b);
    TellsTwo(m + user + s, cs + [x], a && b, r, [y], c);
    assert cs + [x] + [y] == cs + [x, y];
  }

  lemma ConnectTells(w: Window, cfg: Config, acts: seq<UserAct>)
    requires cfg.Ok() && ActsOk(acts) && Commanding(acts)
    ensures Tells(ConnectItems(w, cfg, acts), CommandsOf(acts) + [cfg.Sub(), cfg.Rdy()],
                  ActsWhole(w, acts) && HandshakeWhole(w, cfg, acts))
  {
    var w2 := AfterActs(w, acts);
    var w3 := After(w2, cfg.Sub());
    var magic := WroteItem(Magic, MAGIC);
    OneTellsNothing(magic);
    ActsTell(w, acts);
    SaidTells(w2, SubscribeKind, cfg.Sub());
    SaidTells(w3, ReadyKind, cfg.Rdy());
    FourTell([magic], ActItems(w, acts), CommandsOf(acts), ActsWhole(w, acts),
             Said(w2, SubscribeKind, cfg.Sub()), cfg.Sub(), Whole(w2, cfg.Sub()),
             Said(w3, ReadyKind, cfg.Rdy()), cfg.Rdy(), Whole(w3, cfg.Rdy()));
  }

  lemma MessageTells(w: Window, m: Messages.Message, acts: seq<UserAct>)
    requires ActsOk(acts) && Commanding(acts)
    ensures Tells([DeliveredItem(m)] + ActItems(w, acts), CommandsOf(acts), ActsWhole(w, acts))
  {
    OneTellsNothing(DeliveredItem(m));
    ActsTell(w, acts);
    TellsTwo([DeliveredItem(m)], [], true, ActItems(w, acts), CommandsOf(acts), ActsWhole(w, acts));
    assert [] + CommandsOf(acts) == CommandsOf(acts);
  }

  lemma FrameTells(w: Window, f: Frame, acts: seq<UserAct>)
    requires FrameOk(f) && ActsOk(acts) && (Messaging(f) ==> Commanding(acts))
    ensures Tells(FrameItems(w, f, acts), (if Messaging(f) then CommandsOf(acts) else []) + NopFor(f),
                  (Messaging(f) ==> ActsWhole(w, acts)) && AnswerWhole(w, f))
  {
    if IsHeartbeat(f) {
      NopIsSized();
      SaidTells(w, NopKind, Nop);
      assert [] + [Nop] == [Nop];
    } else if IsMessage(f) {
      MessageTells(w, Messages.DecodeMessage(f[4..]), acts);
      assert CommandsOf(acts) + [] == CommandsOf(acts);
    } else {
      TellsNothing();
    }
  }

  lemma StepTells(v: Conn, cfg: Config, e: Event)
    requires cfg.Ok() && Enabled(v, e) && Commanding(Heard(v, cfg, e))
    ensures Tells(StepItems(v, cfg, e), StepIssues(v, cfg, e), StepBuilt(v, cfg, e))
  {
    TellsNothing();
    match e
    case ConnectDone(success, acts) => if success { ConnectTells(v.commandBuf, cfg, acts); }
    case TimerFires(acts) =>
      if v.sock.callback == ReadData { FrameTells(v.commandBuf, v.sock.readBuf.bytes[..v.size], acts); }
    case UserActs(acts) =>
      if v.sock.state == Connected {
        ActsTell(v.commandBuf, acts);
        assert CommandsOf(acts) + [] == CommandsOf(acts);
      }
    case _ =>
  }

  lemma {:induction false} RunTells(v: Conn, cfg: Config, es: seq<Event>)
    requires cfg.Ok() && Runnable(v, cfg, es) && RunCommands(v, cfg, es)
    ensures Tells(RunItems(v, cfg, es), Issues(v, cfg, es), AllBuilt(v, cfg, es))
    decreases |es|
  {
    if es == [] {
      TellsNothing();
    } else {
      var v' := Step(v, cfg, es[0]);
      StepTells(v, cfg, es[0]);
      RunTells(v', cfg, es[1..]);
      TellsTwo(StepItems(v, cfg, es[0]), StepIssues(v, cfg, es[0]), StepBuilt(v, cfg, es[0]),
               RunItems(v', cfg, es[1..]), Issues(v', cfg, es[1..]), AllBuilt(v', cfg, es[1..]));
    }
  }

  // ---- what nsqd reads ---------------------------------------------------------------------------

  lemma LogIsRunItems(v: Conn, cfg: Config, es: seq<Event>)
    requires Start(v, cfg) && Runnable(v, cfg, es)
    ensures Items(Exec(v, cfg, es).sock.log) == RunItems(v, cfg, es)
  {
    InitialInv(v);
    RunLogs(v, cfg, es);
    assert [] + RunItems(v, cfg, es) == RunItems(v, cfg, es);
  }

  lemma MagicAndText(items: seq<Item>)
    requires items != [] && items[0] == WroteItem(Magic, MAGIC) && NoMagic(items[1..])
    ensures BytesOf(items) == MAGIC + TextOf(items)
  {
    HeadBytes(items);
    TextIsBytes(items[1..]);
    GatherTwo(TextIn, [items[0]], items[1..]);
    GatherOne(TextIn, items[0]);
    assert items == [items[0]] + items[1..];
  }

  lemma ReadsIfToldAndAccepted(log: seq<Action>, cs: seq<Command>, whole: bool)
    requires Tells(Items(log), cs, whole) && AllSendable(cs) && BytesOf(Items(log)) == MAGIC + TextOf(Items(log))
    ensures Reads(Accepted(log), cs) <==> whole && Accepts(log, true)
  {
    if whole {
      ReadsIfAccepted(log, cs);
    } else {
      ReadsEncoded(Accepted(log), cs);
      AcceptedBytes(log);
    }
  }

  /** A consumer whose user code sends commands: what nsqd reads is the magic and then exactly the commands issued over
      the run, by user code and by the connection, in order, if and only if neither buffer refused any of them. */
  lemma PeerReadsCommands(v: Conn, cfg: Config, es: seq<Event>)
    requires Start(v, cfg) && Runnable(v, cfg, es) && Clean(cfg.topic) && Clean(cfg.channel)
    requires RunCommands(v, cfg, es) && Exec(v, cfg, es).sock.state == Connected
    ensures var s := Exec(v, cfg, es).sock;
      Reads(s.sent + s.writeBuf.bytes, Issues(v, cfg, es)) <==> AllBuilt(v, cfg, es) && AllTake(v, cfg, es, true)
  {
    var log := Exec(v, cfg, es).sock.log;
    Conservation(v, cfg, es);
    LogIsRunItems(v, cfg, es);
    RunTells(v, cfg, es);
    RunIsSendable(v, cfg, es);
    MagicComesOnce(v, cfg, es);
    MagicAndText(Items(log));
    ReadsIfToldAndAccepted(log, Issues(v, cfg, es), AllBuilt(v, cfg, es));
    AcceptedIffTaken(v, cfg, es, true);
  }

  // ---- buffers that are large enough -------------------------------------------------------------

  /** User code sends only commands that can be sent and that the command buffer has room for. */
  predicate Fitting(w: Window, acts: seq<UserAct>) {
    Commanding(acts) && forall a <- acts :: a.SendCommand? ==> Holds(w, a.c)
  }

  predicate AllFitting(w: Window, es: seq<Event>) {
    forall e <- es :: (e.ConnectDone? || e.TimerFires? || e.UserActs?) ==> Fitting(w, e.acts)
  }

  lemma FittingOn(w: Window, w': Window, acts: seq<UserAct>)
    requires Grown(w, w') && Fitting(w, acts)
    ensures Fitting(w', acts)
  {
  }

  lemma {:induction false} FittingIsWhole(w: Window, acts: seq<UserAct>)
    requires ActsOk(acts) && Fitting(w, acts)
    ensures ActsWhole(w, acts)
    decreases |acts|
  {
    if acts != [] {
      assert acts[0] in acts && ActOk(acts[0]);
      var w' := AfterAct(w, acts[0]);
      HoldsMeansWhole(w, acts[0].c);
      BuildingGrows(w, acts[0].c);
      FittingOn(w, w', acts[1..]);
      FittingIsWhole(w', acts[1..]);
    }
  }

  lemma AllFittingOn(w: Window, w': Window, es: seq<Event>)
    requires es != [] && Grown(w, w') && AllFitting(w, es)
    ensures AllFitting(w', es[1..])
  {
    forall e <- es[1..] | e.ConnectDone? || e.TimerFires? || e.UserActs?
      ensures Fitting(w', e.acts)
    {
      assert e in es;
      FittingOn(w, w', e.acts);
    }
  }

  lemma {:induction false} FittingIsBuilt(v: Conn, cfg: Config, es: seq<Event>)
    requires cfg.Ok() && Runnable(v, cfg, es) && Room(v.commandBuf, cfg) && AllFitting(v.commandBuf, es)
    ensures AllBuilt(v, cfg, es) && RunCommands(v, cfg, es)
    decreases |es|
  {
    if es != [] {
      var v' := Step(v, cfg, es[0]);
      assert es[0] in es;
      FittingIsWhole(v.commandBuf, Heard(v, cfg, es[0]));
      CommandRooms.RoomForStep(v, cfg, es[0]);
      StepGrows(v, cfg, es[0]);
      RoomGrows(v.commandBuf, v'.commandBuf, cfg);
      AllFittingOn(v.commandBuf, v'.commandBuf, es);
      FittingIsBuilt(v', cfg, es[1..]);
    }
  }

  /** With room in the command buffer for each command, no assumption on the run is left but room in the write buffer;
      without a capacity not even that; and if the write buffer cannot grow, that is exactly what it takes. */
  lemma PeerReadsEveryRun(v: Conn, cfg: Config, es: seq<Event>)
    requires Start(v, cfg) && Runnable(v, cfg, es) && Clean(cfg.topic) && Clean(cfg.channel)
    requires Room(v.commandBuf, cfg) && AllFitting(v.commandBuf, es)
    requires Exec(v, cfg, es).sock.state == Connected
    ensures var s := Exec(v, cfg, es).sock; var told := Reads(s.sent + s.writeBuf.bytes, Issues(v, cfg, es));
      && (v.sock.writeBuf.length <= TWO_31 && HasRoom(v, cfg, es) ==> told)
      && (v.sock.writeBuf.capacity == 0 ==> told)
      && (Fixed(v.sock.writeBuf) ==> (told <==> HasRoom(v, cfg, es)))
  {
    FittingIsBuilt(v, cfg, es);
    TakenIfRoom(v, cfg, es);
    PeerReadsCommands(v, cfg, es);
  }

  // ---- buffers that cannot grow ------------------------------------------------------------------

  predicate AllFit(cs: seq<Command>, n: nat) {
    forall c <- cs :: |Encode(c)| <= n
  }

  lemma AllFitTwo(cs: seq<Command>, ds: seq<Command>, n: nat)
    ensures AllFit(cs + ds, n) <==> AllFit(cs, n) && AllFit(ds, n)
  {
  }

  lemma FixedStays(w: Window, w': Window)
    requires Fixed(w) && Grown(w, w')
    ensures Fixed(w') && w'.length == w.length
  {
  }

  lemma {:induction false} FixedActsWhole(w: Window, acts: seq<UserAct>)
    requires ActsOk(acts) && Commanding(acts) && Fixed(w)
    ensures ActsWhole(w, acts) <==> AllFit(CommandsOf(acts), w.length)
    decreases |acts|
  {
    if acts != [] {
      var c, w' := acts[0].c, AfterAct(w, acts[0]);
      FixedHoldsWhatFits(w, c);
      BuildingGrows(w, c);
      FixedStays(w, w');
      FixedActsWhole(w', acts[1..]);
      AllFitTwo([c], CommandsOf(acts[1..]), w.length);
    }
  }

  lemma FixedHandshakeWhole(w: Window, cfg: Config, acts: seq<UserAct>)
    requires cfg.Ok() && ActsOk(acts) && Fixed(w)
    ensures HandshakeWhole(w, cfg, acts) <==> AllFit([cfg.Sub(), cfg.Rdy()], w.length)
  {
    var w2 := AfterActs(w, acts);
    var w3 := After(w2, cfg.Sub());
    ActingGrows(w, acts);
    FixedStays(w, w2);
    FixedHoldsWhatFits(w2, cfg.Sub());
    BuildingGrows(w2, cfg.Sub());
    FixedStays(w2, w3);
    FixedHoldsWhatFits(w3, cfg.Rdy());
    assert AllFit([cfg.Sub(), cfg.Rdy()], w.length) <==> AllFit([cfg.Sub()] + [cfg.Rdy()], w.length);
    AllFitTwo([cfg.Sub()], [cfg.Rdy()], w.length);
  }

  lemma FixedStepBuilt(v: Conn, cfg: Config, e: Event)
    requires cfg.Ok() && Enabled(v, e) && Commanding(Heard(v, cfg, e)) && Fixed(v.commandBuf)
    ensures StepBuilt(v, cfg, e) <==> AllFit(StepIssues(v, cfg, e), v.commandBuf.length)
  {
    var w := v.commandBuf;
    FixedActsWhole(w, Heard(v, cfg, e));
    if e.ConnectDone? && e.success {
      FixedHandshakeWhole(w, cfg, e.acts);
      AllFitTwo(CommandsOf(e.acts), [cfg.Sub(), cfg.Rdy()], w.length);
    }
    NopIsSized();
    FixedHoldsWhatFits(w, Nop);
  }

  /** In a command buffer that cannot grow all is built whole exactly if each command issued fits. */
  lemma {:induction false} FixedAllBuilt(v: Conn, cfg: Config, es: seq<Event>)
    requires cfg.Ok() && Runnable(v, cfg, es) && RunCommands(v, cfg, es) && Fixed(v.commandBuf)
    ensures AllBuilt(v, cfg, es) <==> AllFit(Issues(v, cfg, es), v.commandBuf.length)
    decreases |es|
  {
    if es != [] {
      var v' := Step(v, cfg, es[0]);
      FixedStepBuilt(v, cfg, es[0]);
      StepGrows(v, cfg, es[0]);
      FixedStays(v.commandBuf, v'.commandBuf);
      FixedAllBuilt(v', cfg, es[1..]);
      AllFitTwo(StepIssues(v, cfg, es[0]), Issues(v', cfg, es[1..]), v.commandBuf.length);
    }
  }

  /** With buffers that cannot grow, as in the default configuration: nsqd reads exactly the commands issued if and only
      if each of them fits the command buffer, and what each event writes finds room in the write buffer. */
  lemma PeerReadsFixed(v: Conn, cfg: Config, es: seq<Event>)
    requires Start(v, cfg) && Runnable(v, cfg, es) && Clean(cfg.topic) && Clean(cfg.channel)
    requires RunCommands(v, cfg, es) && Exec(v, cfg, es).sock.state == Connected
    requires Fixed(v.commandBuf) && Fixed(v.sock.writeBuf)
    ensures var s := Exec(v, cfg, es).sock;
      Reads(s.sent + s.writeBuf.bytes, Issues(v, cfg, es)) <==>
      AllFit(Issues(v, cfg, es), v.commandBuf.length) && HasRoom(v, cfg, es)
  {
    FixedAllBuilt(v, cfg, es);
    TakenIfRoom(v, cfg, es);
    PeerReadsCommands(v, cfg, es);
  }
}
