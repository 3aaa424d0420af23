/** When the handshake gets out: what the write buffer must hold for it, and what is lost if it does not. */
module HandshakeRooms {
  import opened Bytes
  import opened Windows
  import opened Commands
  import opened Builders
  import opened Machine
  import opened ConnectionRuns
  import opened ConnectionTheorems
  import opened OutboundTheorems
  import opened Acceptance
  import opened ProtocolTraces
  import opened CommandRooms
  import opened Openings

  // ---- the size of a handshake -------------------------------------------------------------------

  /** As much as user code hands to the connection. */
  function ActSize(a: UserAct): nat {
    match a case Raw(data) => |data| case SendCommand(c) => |Encode(c)|
  }

  function ActsSize(acts: seq<UserAct>): nat {
    if acts == [] then 0 else ActSize(acts[0]) + ActsSize(acts[1..])
  }

  function HandshakeSize(cfg: Config, acts: seq<UserAct>): nat {
    |MAGIC| + ActsSize(acts) + |Encode(cfg.Sub())| + |Encode(cfg.Rdy())|
  }

  lemma ActBytes(w: Window, a: UserAct)
    requires ActOk(a)
    ensures |BytesOf(ActItem(w, a))| <= ActSize(a)
  {
    match a
    case Raw(data) => GatherOne(BytesIn, WroteItem(User, data));
    case SendCommand(c) => SaidBytes(w, User, c);
  }

  lemma {:induction false} ActsBytes(w: Window, acts: seq<UserAct>)
    requires ActsOk(acts)
    ensures |BytesOf(ActItems(w, acts))| <= ActsSize(acts)
    decreases |acts|
  {
    if acts != [] {
      var w' := AfterAct(w, acts[0]);
      ActBytes(w, acts[0]);
      ActsBytes(w', acts[1..]);
      GatherTwo(BytesIn, ActItem(w, acts[0]), ActItems(w', acts[1..]));
    }
  }

  lemma ConnectBytes(w: Window, cfg: Config, acts: seq<UserAct>)
    requires cfg.Ok() && ActsOk(acts)
    ensures var n := |BytesOf(ConnectItems(w, cfg, acts))|;
      n <= HandshakeSize(cfg, acts) && (acts == [] && HandshakeWhole(w, cfg, acts) ==> n == HandshakeSize(cfg, acts))
  {
    var w2 := AfterActs(w, acts);
    var w3 := After(w2, cfg.Sub());
    GatherFour(BytesIn, [WroteItem(Magic, MAGIC)], ActItems(w, acts), Said(w2, SubscribeKind, cfg.Sub()),
               Said(w3, ReadyKind, cfg.Rdy()));
    GatherOne(BytesIn, WroteItem(Magic, MAGIC));
    ActsBytes(w, acts);
    SaidBytes(w2, SubscribeKind, cfg.Sub());
    SaidBytes(w3, ReadyKind, cfg.Rdy());
  }

  // ---- room for it -------------------------------------------------------------------------------

  predicate FitsHandshake(w: Window, cfg: Config, e: Event) {
    e.ConnectDone? ==> HandshakeSize(cfg, e.acts) <= w.length
  }

  /** Nothing was written yet. */
  predicate Unwritten(v: Conn) {
    && Inv(v) && v.sock.state != Connected && v.sock.log == [] && v.sock.writeBuf.bytes == []
    && v.sock.writeBuf.length <= TWO_31
  }

  lemma ConnectGoesOut(v: Conn, cfg: Config, acts: seq<UserAct>)
    requires cfg.Ok() && Unwritten(v) && Room(v.commandBuf, cfg) && Enabled(v, ConnectDone(true, acts))
    requires HandshakeSize(cfg, acts) <= v.sock.writeBuf.length
    ensures var e := ConnectDone(true, acts);
      StepWhole(v, cfg, e) && StepTakes(v, cfg, e, false)
  {
    var items := ConnectStep(v, cfg, acts);
    CommandRooms.RoomForStep(v, cfg, ConnectDone(true, acts));
    ConnectBytes(v.commandBuf, cfg, acts);
    RoomTakes(v.sock.writeBuf, items);
    TakesOwn(v.sock.writeBuf, items);
  }

  lemma SilentTurn(s: Socket, s': Socket)
    requires Turns(s, s', []) && s.writeBuf.bytes == []
    ensures s'.writeBuf.bytes == [] && SameSize(s.writeBuf, s'.writeBuf)
  {
  }

  lemma StaysUnwritten(v: Conn, cfg: Config, e: Event)
    requires cfg.Ok() && Unwritten(v) && Enabled(v, e) && !(e.ConnectDone? && e.success)
    ensures Unwritten(Step(v, cfg, e)) && SameSize(v.sock.writeBuf, Step(v, cfg, e).sock.writeBuf)
    ensures e.ConnectDone? ==> StepWhole(v, cfg, e) && StepTakes(v, cfg, e, false)
  {
    SilentStep(v, cfg, e);
    SilentTurn(v.sock, Step(v, cfg, e).sock);
  }

  lemma {:induction false} RunGoesOut(v: Conn, cfg: Config, es: seq<Event>)
    requires cfg.Ok() && Unwritten(v) && Room(v.commandBuf, cfg) && Runnable(v, cfg, es)
    requires forall e <- es :: FitsHandshake(v.sock.writeBuf, cfg, e)
    ensures HandshakesGoOut(v, cfg, es)
    decreases |es|
  {
    if es != [] {
      var v' := Step(v, cfg, es[0]);
      if es[0].ConnectDone? && es[0].success {
        assert es[0] == ConnectDone(true, es[0].acts) && es[0] in es;
        ConnectGoesOut(v, cfg, es[0].acts);
        var _ := ConnectStep(v, cfg, es[0].acts);
        var _ := RunIsLater(v', cfg, es[1..]);
      } else {
        StaysUnwritten(v, cfg, es[0]);
        StepGrows(v, cfg, es[0]);
        RoomGrows(v.commandBuf, v'.commandBuf, cfg);
        assert forall e <- es[1..] :: FitsHandshake(v'.sock.writeBuf, cfg, e) by {
          assert forall e <- es[1..] :: e in es;
        }
        RunGoesOut(v', cfg, es[1..]);
      }
    }
  }

  /** If the write buffer can hold the magic, what the connect callback writes, SUB and RDY, the whole handshake gets
      out in every run, whatever the buffer's capacity. */
  lemma HandshakeGoesOut(v: Conn, cfg: Config, es: seq<Event>)
    requires Start(v, cfg) && Runnable(v, cfg, es) && Room(v.commandBuf, cfg)
    requires v.sock.writeBuf.length <= TWO_31 && forall e <- es :: FitsHandshake(v.sock.writeBuf, cfg, e)
    ensures HandshakesGoOut(v, cfg, es)
    ensures Exec(v, cfg, es).sock.state == Connected ==> Opened(Kept(Exec(v, cfg, es).sock.log), cfg)
  {
    InitialInv(v);
    RunGoesOut(v, cfg, es);
    HandshakeComesFirst(v, cfg, es);
  }

  // ---- and only then -----------------------------------------------------------------------------

  /** The connect callback of user code does nothing. */
  predicate QuietConnect(es: seq<Event>) {
    forall e <- es :: e.ConnectDone? ==> e.acts == []
  }

  lemma TakesOwnOnly(w: Window, items: seq<Item>)
    requires SmallItems(items) && forall i <- items :: i.WroteItem? ==> i.kind != User
    ensures Takes(w, items, false) <==> Takes(w, items, true)
    decreases |items|
  {
    if items != [] {
      TakesOwnOnly(Took(w, items[0]), items[1..]);
    }
  }

  lemma QuietItems(w: Window, cfg: Config)
    requires cfg.Ok() && HandshakeWhole(w, cfg, [])
    ensures ConnectItems(w, cfg, []) == Handshake(cfg)
  {
    SaidIffWhole(w, SubscribeKind, cfg.Sub());
    SaidIffWhole(After(w, cfg.Sub()), ReadyKind, cfg.Rdy());
  }

  lemma FixedTakesHandshake(w: Window, commandBuf: Window, cfg: Config)
    requires Fixed(w) && w.bytes == [] && cfg.Ok() && HandshakeWhole(commandBuf, cfg, [])
    requires SmallItems(ConnectItems(commandBuf, cfg, []))
    ensures Takes(w, ConnectItems(commandBuf, cfg, []), false) <==> HandshakeSize(cfg, []) <= w.length
  {
    var items := ConnectItems(commandBuf, cfg, []);
    QuietItems(commandBuf, cfg);
    ConnectBytes(commandBuf, cfg, []);
    FixedTakes(w, items);
    TakesOwnOnly(w, items);
  }

  /** In a write buffer that cannot grow the handshake gets out exactly if it fits. */
  lemma FixedConnect(v: Conn, cfg: Config)
    requires cfg.Ok() && Unwritten(v) && Room(v.commandBuf, cfg) && Fixed(v.sock.writeBuf)
    requires Enabled(v, ConnectDone(true, []))
    ensures StepTakes(v, cfg, ConnectDone(true, []), false) <==> HandshakeSize(cfg, []) <= v.sock.writeBuf.length
  {
    var _ := ConnectStep(v, cfg, []);
    CommandRooms.RoomForStep(v, cfg, ConnectDone(true, []));
    FixedTakesHandshake(v.sock.writeBuf, v.commandBuf, cfg);
  }

  lemma QuietlyInTwo(v: Conn, cfg: Config)
    requires Start(v, cfg) && Runnable(v, cfg, CONNECTS) && HandshakesGoOut(v, cfg, CONNECTS)
    ensures StepTakes(v.(sock := v.sock.(state := Connecting, fd := 3)), cfg, ConnectDone(true, []), false)
  {
    assert CONNECTS[1..] == [ConnectDone(true, [])];
    assert HandshakesGoOut(Step(v, cfg, CONNECTS[0]), cfg, CONNECTS[1..]);
  }

  lemma BegunIsUnwritten(v: Conn, v1: Conn)
    requires Initial(v) && v.sock.writeBuf.length <= TWO_31 && v1 == v.(sock := v.sock.(state := Connecting, fd := 3))
    ensures Unwritten(v1)
  {
  }

  lemma ConnectsQuietly(v: Conn, cfg: Config)
    requires Start(v, cfg) && Fixed(v.sock.writeBuf) && Room(v.commandBuf, cfg)
    requires Runnable(v, cfg, CONNECTS) && HandshakesGoOut(v, cfg, CONNECTS)
    ensures HandshakeSize(cfg, []) <= v.sock.writeBuf.length
  {
    var v1 := v.(sock := v.sock.(state := Connecting, fd := 3));
    BegunIsUnwritten(v, v1);
    QuietlyInTwo(v, cfg);
    FixedConnect(v1, cfg);
  }

  lemma DoesNotGoOut(v: Conn, cfg: Config)
    requires Start(v, cfg) && Fixed(v.sock.writeBuf) && Room(v.commandBuf, cfg)
    requires HandshakeSize(cfg, []) > v.sock.writeBuf.length
    ensures Runnable(v, cfg, CONNECTS) && QuietConnect(CONNECTS) && !HandshakesGoOut(v, cfg, CONNECTS)
  {
    var _ := ConnectsAtOnce(v, cfg);
    if HandshakesGoOut(v, cfg, CONNECTS) {
      ConnectsQuietly(v, cfg);
    }
  }

  /** A write buffer that cannot grow, as in the default configuration: the handshake gets out in every run in which
      the connect callback writes nothing if and only if the buffer holds the magic, SUB and RDY together. */
  lemma FixedHandshakeIsExact(v: Conn, cfg: Config)
    requires Start(v, cfg) && Fixed(v.sock.writeBuf) && Room(v.commandBuf, cfg)
    ensures (forall es | Runnable(v, cfg, es) && QuietConnect(es) :: HandshakesGoOut(v, cfg, es)) <==>
      HandshakeSize(cfg, []) <= v.sock.writeBuf.length
  {
    if HandshakeSize(cfg, []) <= v.sock.writeBuf.length {
      forall es | Runnable(v, cfg, es) && QuietConnect(es)
        ensures HandshakesGoOut(v, cfg, es)
      {
        HandshakeGoesOut(v, cfg, es);
      }
    } else {
      DoesNotGoOut(v, cfg);
    }
  }

  // ---- a handshake that is lost ------------------------------------------------------------------

  lemma RefusedLeavesNothing(log: seq<Action>, a: Action)
    requires a.Wrote? && !a.accepted
    ensures Accepted(log + [a]) == Accepted(log) && Kept(log + [a]) == Kept(log)
  {
    assert (log + [a])[..|log|] == log;
  }

  lemma OnlyFirstAccepted(a: Action, b: Action, c: Action)
    requires a.Wrote? && b.Wrote? && c.Wrote? && a.accepted && !b.accepted && !c.accepted
    ensures Accepted([a, b, c]) == a.bytes && Kept([a, b, c]) == [ItemOf(a)]
  {
    assert [a][..0] == [];
    RefusedLeavesNothing([a], b);
    RefusedLeavesNothing([a] + [b], c);
    assert [a] + [b] + [c] == [a, b, c];
  }

  lemma RefusesBehindMagic(w: Window, i: Item)
    requires w.bytes == MAGIC && w.length == 4 && w.capacity == 4 && i.WroteItem? && 0 < |i.bytes| < TWO_31
    ensures !Windows.Add(w, i.bytes).1 && Took(w, i) == w
  {
    FixedTakesOne(w, i);
  }

  lemma OnlyMagicFits(w: Window, sub: Item, rdy: Item)
    requires w == WindowState([], 0, 4, 4) && sub.WroteItem? && rdy.WroteItem?
    requires 0 < |sub.bytes| < TWO_31 && 0 < |rdy.bytes| < TWO_31
    ensures var items := [WroteItem(Magic, MAGIC), sub, rdy]; var log := Fates(w, items);
      Accepted(log) == MAGIC && Kept(log) == [items[0]]
  {
    var items := [WroteItem(Magic, MAGIC), sub, rdy];
    var w1 := Took(w, items[0]);
    RoomTakesOne(w, items[0]);
    RefusesBehindMagic(w1, sub);
    RefusesBehindMagic(w1, rdy);
    FatesOfOne(w1, rdy);
    assert items[1..] == [sub, rdy] && [sub, rdy][1..] == [rdy];
    assert Fates(w, items) == [FateOf(w, items[0]), FateOf(w1, sub), FateOf(w1, rdy)];
    OnlyFirstAccepted(FateOf(w, items[0]), FateOf(w1, sub), FateOf(w1, rdy));
  }

  lemma LostItems(v: Conn, cfg: Config)
    requires cfg.Ok() && Inv(v) && Enabled(v, ConnectDone(true, [])) && HandshakeWhole(v.commandBuf, cfg, [])
    requires v.sock.writeBuf == WindowState([], 0, 4, 4)
    ensures var log := Step(v, cfg, ConnectDone(true, [])).sock.log;
      Accepted(log) == MAGIC && Kept(log) == [WroteItem(Magic, MAGIC)]
  {
    var items := ConnectStep(v, cfg, []);
    QuietItems(v.commandBuf, cfg);
    OnlyMagicFits(v.sock.writeBuf, items[1], items[2]);
  }

  lemma ConnectHandles(v: Conn, cfg: Config)
    requires cfg.Ok() && Inv(v) && Enabled(v, ConnectDone(true, []))
    ensures var v' := Step(v, cfg, ConnectDone(true, []));
      v'.sock.state == Connected && v'.frames == [] && Due(v', cfg) == Handshake(cfg)
  {
    ConnectKeeps(v, cfg, []);
    assert [] + Handshake(cfg) == Handshake(cfg);
  }

  lemma LostConnect(v: Conn, cfg: Config)
    requires cfg.Ok() && Inv(v) && Enabled(v, ConnectDone(true, [])) && HandshakeWhole(v.commandBuf, cfg, [])
    requires v.sock.writeBuf == WindowState([], 0, 4, 4)
    ensures var v' := Step(v, cfg, ConnectDone(true, []));
      && v'.sock.state == Connected && v'.frames == [] && Due(v', cfg) == Handshake(cfg)
      && Accepted(v'.sock.log) == MAGIC && Own(Kept(v'.sock.log)) == [WroteItem(Magic, MAGIC)]
  {
    LostItems(v, cfg);
    ConnectHandles(v, cfg);
    GatherOne(OwnOne, WroteItem(Magic, MAGIC));
  }

  /** What is handed over is all that is due, and yet nsqd gets the magic alone: with a write buffer of four bytes that
      cannot grow SUB and RDY are lost without a trace. */
  lemma LostHandshake(v: Conn, cfg: Config)
    requires Start(v, cfg) && v.commandBuf.capacity == 0 && v.sock.writeBuf == WindowState([], 0, 4, 4)
    ensures Runnable(v, cfg, CONNECTS)
    ensures var v' := Exec(v, cfg, CONNECTS);
      && v'.sock.state == Connected && v'.sock.sent + v'.sock.writeBuf.bytes == MAGIC
      && v'.frames == [] && Own(Items(v'.sock.log)) == Due(v', cfg) == Handshake(cfg)
      && Own(Kept(v'.sock.log)) == [WroteItem(Magic, MAGIC)]
  {
    var v1 := ConnectsAtOnce(v, cfg);
    RoomForAll(v, cfg, CONNECTS);
    HandedOver(v, cfg, CONNECTS);
    Conservation(v, cfg, CONNECTS);
    BegunIsUnwritten(v, v1);
    LostConnect(v1, cfg);
  }
}
