/** When the buffers are large enough: conditions on their sizes under which no run sees a command refused. */
module CommandRooms {
  import opened Bytes
  import opened Windows
  import Messages
  import opened Commands
  import opened Builders
  import opened Frames
  import opened Machine
  import opened ConnectionRuns
  import opened ConnectionTheorems
  import opened Acceptance
  import opened ProtocolTraces

  /** There is no capacity, or the command fits as it is, or there is room to grow for it from any smaller length. */
  predicate Holds(w: Window, c: Command) {
    w.capacity == 0 || (Fixed(w) && |Encode(c)| <= w.length) ||
    (Max(w.length, w.capacity) <= TWO_31 && (|Encode(c)| <= w.length || 3 * |Encode(c)| <= w.capacity))
  }

  lemma {:induction false} DoubledBound(expand: nat, need: nat)
    requires expand > 0
    ensures Doubled(expand, need) < 2 * Max(expand, need)
    decreases need - expand
  {
    if expand < need {
      DoubledBound(2 * expand, need);
    }
  }

  lemma GrowsForOne(w: Window, p: seq<byte>, n: nat)
    requires |p| < TWO_31 && w.pos == 0 && w.capacity > 0 && Max(w.length, w.capacity) <= TWO_31
    requires |w.bytes| + |p| <= n && (n <= w.length || 3 * n <= w.capacity)
    ensures var (w', ok) := Windows.Add(w, p);
      && ok && w'.bytes == w.bytes + p && w'.pos == 0 && w'.capacity == w.capacity
      && Max(w'.length, w'.capacity) <= TWO_31 && (n <= w'.length || 3 * n <= w'.capacity)
  {
    var x := Shortfall(w, |p|);
    assert ToInt32(x) == x;
    if x > 0 {
      DoubledBound(w.length, x);
    }
  }

  lemma {:induction false} GrowsForAll(w: Window, pieces: seq<seq<byte>>, n: nat)
    requires Small(pieces) && w.pos == 0 && w.capacity > 0 && Max(w.length, w.capacity) <= TWO_31
    requires |w.bytes| + |Flat(pieces)| <= n && (n <= w.length || 3 * n <= w.capacity)
    ensures Taken(w, pieces)
    decreases |pieces|
  {
    if pieces != [] {
      GrowsForOne(w, pieces[0], n);
      GrowsForAll(Windows.Add(w, pieces[0]).0, pieces[1..], n);
    }
  }

  /** A buffer that cannot grow takes a command whole exactly if that fits. */
  lemma FixedHoldsWhatFits(w: Window, c: Command)
    requires Sized31(c) && Fixed(w)
    ensures Whole(w, c) <==> |Encode(c)| <= w.length
  {
    FlatPieces(c);
    FixedTakesWhatFits(Windows.Reset(w), Pieces(c));
  }

  lemma HoldsMeansWhole(w: Window, c: Command)
    requires Sized31(c) && Holds(w, c)
    ensures Whole(w, c)
  {
    FlatPieces(c);
    if w.capacity == 0 {
      UnboundedTakesAll(Windows.Reset(w), Pieces(c));
    } else if Fixed(w) {
      FixedHoldsWhatFits(w, c);
    } else {
      GrowsForAll(Windows.Reset(w), Pieces(c), |Encode(c)|);
    }
  }

  // ---- the buffer only grows ---------------------------------------------------------------------

  predicate Grown(w: Window, w': Window) {
    && w'.capacity == w.capacity && w.length <= w'.length
    && (w.capacity > 0 ==> w'.length <= Max(w.length, w.capacity))
    && (Fixed(w) ==> w'.length == w.length)
  }

  lemma {:induction false} AddingGrows(w: Window, pieces: seq<seq<byte>>)
    requires Small(pieces)
    ensures Grown(w, AddAll(w, pieces))
    decreases |pieces|
  {
    if pieces != [] {
      if Fixed(w) {
        FixedAdd(w, pieces[0]);
      }
      AddingGrows(Windows.Add(w, pieces[0]).0, pieces[1..]);
    }
  }

  lemma BuildingGrows(w: Window, c: Command)
    requires Sized31(c)
    ensures Grown(w, After(w, c))
  {
    AddingGrows(Windows.Reset(w), Pieces(c));
  }

  lemma {:induction false} ActingGrows(w: Window, acts: seq<UserAct>)
    requires ActsOk(acts)
    ensures Grown(w, AfterActs(w, acts))
    decreases |acts|
  {
    if acts != [] {
      assert ActOk(acts[0]);
      if acts[0].SendCommand? {
        BuildingGrows(w, acts[0].c);
      }
      ActingGrows(AfterAct(w, acts[0]), acts[1..]);
    }
  }

  /** The command buffer after a step. */
  function StepBuffer(v: Conn, cfg: Config, e: Event): Window
    requires cfg.Ok() && Enabled(v, e)
  {
    var w := v.commandBuf;
    match e
    case ConnectDone(success, acts) =>
      if success then After(After(AfterActs(w, acts), cfg.Sub()), cfg.Rdy()) else w
    case TimerFires(acts) => if v.sock.callback == ReadData then FrameBuffer(w, v.sock.readBuf.bytes[..v.size], acts) else w
    case UserActs(acts) => AfterActs(w, acts)
    case _ => w
  }

  function FrameBuffer(w: Window, f: Frame, acts: seq<UserAct>): Window
    requires FrameOk(f) && ActsOk(acts)
  {
    if IsHeartbeat(f) then NopIsSized(); After(w, Nop) else if IsMessage(f) then AfterActs(w, acts) else w
  }

  lemma {:induction false} ActsBuffer(v: Conn, acts: seq<UserAct>)
    requires ActsOk(acts)
    ensures ActAll(v, acts).commandBuf == AfterActs(v.commandBuf, acts)
    decreases |acts|
  {
    if acts != [] {
      assert ActOk(acts[0]);
      ActsBuffer(ActOne(v, acts[0]), acts[1..]);
    }
  }

  lemma HandleBuffer(v: Conn, f: Frame, acts: seq<UserAct>)
    requires FrameOk(f) && ActsOk(acts)
    ensures Handle(v, f, acts).commandBuf == FrameBuffer(v.commandBuf, f, acts)
  {
    if IsMessage(f) {
      ActsBuffer(v.(sock := v.sock.(log := v.sock.log + [Delivered(Messages.DecodeMessage(f[4..]))])), acts);
    }
  }

  lemma StepHasBuffer(v: Conn, cfg: Config, e: Event)
    requires cfg.Ok() && Enabled(v, e)
    ensures Step(v, cfg, e).commandBuf == StepBuffer(v, cfg, e)
  {
    match e
    case ConnectDone(success, acts) =>
      if success { ActsBuffer(v.(sock := Write(BecomeConnected(v.sock), Magic, MAGIC)), acts); }
    case TimerFires(acts) =>
      if v.sock.callback == ReadData {
        HandleBuffer(TakeType(v.(sock := TakeRequest(v.sock))), v.sock.readBuf.bytes[..v.size], acts);
      }
    case UserActs(acts) => ActsBuffer(v, acts);
    case _ =>
  }

  lemma StepGrows(v: Conn, cfg: Config, e: Event)
    requires cfg.Ok() && Enabled(v, e)
    ensures Grown(v.commandBuf, Step(v, cfg, e).commandBuf)
  {
    var w := v.commandBuf;
    StepHasBuffer(v, cfg, e);
    match e
    case ConnectDone(_, acts) =>
      ActingGrows(w, acts);
      BuildingGrows(AfterActs(w, acts), cfg.Sub());
      BuildingGrows(After(AfterActs(w, acts), cfg.Sub()), cfg.Rdy());
    case TimerFires(acts) =>
      NopIsSized();
      BuildingGrows(w, Nop);
      ActingGrows(w, acts);
    case UserActs(acts) => ActingGrows(w, acts);
    case _ =>
  }

  // ---- and so always has room --------------------------------------------------------------------

  /** The command buffer can take each command the connection sends by itself. */
  predicate Room(w: Window, cfg: Config) {
    Holds(w, cfg.Sub()) && Holds(w, cfg.Rdy()) && Holds(w, Nop)
  }

  lemma RoomGrows(w: Window, w': Window, cfg: Config)
    requires Room(w, cfg) && Grown(w, w')
    ensures Room(w', cfg)
  {
  }

  lemma RoomForStep(v: Conn, cfg: Config, e: Event)
    requires cfg.Ok() && Room(v.commandBuf, cfg) && Enabled(v, e)
    ensures StepWhole(v, cfg, e)
  {
    var w := v.commandBuf;
    match e
    case ConnectDone(_, acts) =>
      ActingGrows(w, acts);
      var w2 := AfterActs(w, acts);
      HoldsMeansWhole(w2, cfg.Sub());
      BuildingGrows(w2, cfg.Sub());
      HoldsMeansWhole(After(w2, cfg.Sub()), cfg.Rdy());
    case TimerFires(_) =>
      NopIsSized();
      HoldsMeansWhole(w, Nop);
    case _ =>
  }

  lemma {:induction false} RoomForAll(v: Conn, cfg: Config, es: seq<Event>)
    requires cfg.Ok() && Room(v.commandBuf, cfg) && Runnable(v, cfg, es)
    ensures AllWhole(v, cfg, es)
    decreases |es|
  {
    if es != [] {
      RoomForStep(v, cfg, es[0]);
      StepGrows(v, cfg, es[0]);
      RoomGrows(v.commandBuf, Step(v, cfg, es[0]).commandBuf, cfg);
      RoomForAll(Step(v, cfg, es[0]), cfg, es[1..]);
    }
  }

  /** With that much room, and room in the write buffer, the protocol trace is kept in every run. */
  lemma ProtocolTraceWithRoom(v: Conn, cfg: Config, es: seq<Event>)
    requires Start(v, cfg) && Room(v.commandBuf, cfg) && Runnable(v, cfg, es)
    ensures var v' := Exec(v, cfg, es); var w := v.sock.writeBuf;
      && AllOk(v'.frames) && Own(Items(v'.sock.log)) == Due(v', cfg)
      && (w.capacity == 0 || (w.length <= TWO_31 && HasRoom(v, cfg, es)) ==> Own(Kept(v'.sock.log)) == Due(v', cfg))
  {
    RoomForAll(v, cfg, es);
    HandedOver(v, cfg, es);
    ProtocolTrace(v, cfg, es);
    TakenIfRoom(v, cfg, es);
    if AllTake(v, cfg, es, true) {
      AllTakeOwn(v, cfg, es);
    }
  }

  // ---- the command buffer between events ---------------------------------------------------------

  lemma {:induction false} ActingEmpties(w: Window, acts: seq<UserAct>)
    requires ActsOk(acts) && w.bytes == []
    ensures AfterActs(w, acts).bytes == []
    decreases |acts|
  {
    if acts != [] {
      assert ActOk(acts[0]);
      ActingEmpties(AfterAct(w, acts[0]), acts[1..]);
    }
  }

  lemma StepEmpties(v: Conn, cfg: Config, e: Event)
    requires cfg.Ok() && Enabled(v, e) && v.commandBuf.bytes == []
    ensures Step(v, cfg, e).commandBuf.bytes == []
  {
    StepHasBuffer(v, cfg, e);
    match e
    case ConnectDone(_, acts) => ActingEmpties(v.commandBuf, acts);
    case TimerFires(acts) => ActingEmpties(v.commandBuf, acts);
    case UserActs(acts) => ActingEmpties(v.commandBuf, acts);
    case _ =>
  }

  /** Whatever was built in the command buffer has been handed over, in every run. */
  lemma {:induction false} CommandBufferIsEmpty(v: Conn, cfg: Config, es: seq<Event>)
    requires cfg.Ok() && Runnable(v, cfg, es) && v.commandBuf.bytes == []
    ensures Exec(v, cfg, es).commandBuf.bytes == []
    decreases |es|
  {
    if es != [] {
      StepEmpties(v, cfg, es[0]);
      CommandBufferIsEmpty(Step(v, cfg, es[0]), cfg, es[1..]);
    }
  }

  // ---- command buffers that cannot grow ----------------------------------------------------------

  /** The connection is made, and user code does nothing about it. */
  const CONNECTS: seq<Event> := [Connect(true, 3, true), ConnectDone(true, [])]

  lemma OneEvent(v: Conn, cfg: Config, e: Event)
    requires cfg.Ok() && Enabled(v, e)
    ensures Runnable(v, cfg, [e]) && Exec(v, cfg, [e]) == Step(v, cfg, e)
    ensures AllWhole(v, cfg, [e]) <==> StepWhole(v, cfg, e)
    ensures AllTake(v, cfg, [e], false) <==> StepTakes(v, cfg, e, false)
  {
    assert [e][1..] == [];
  }

  lemma ConnectsAtOnce(v: Conn, cfg: Config) returns (v1: Conn)
    requires Start(v, cfg)
    ensures v1 == v.(sock := v.sock.(state := Connecting, fd := 3))
    ensures Runnable(v, cfg, CONNECTS) && Exec(v, cfg, CONNECTS) == Step(v1, cfg, ConnectDone(true, []))
    ensures AllWhole(v, cfg, CONNECTS) <==> HandshakeWhole(v.commandBuf, cfg, [])
    ensures AllTake(v, cfg, CONNECTS, false) <==> StepTakes(v1, cfg, ConnectDone(true, []), false)
  {
    v1 := v.(sock := v.sock.(state := Connecting, fd := 3));
    assert CONNECTS[1..] == [ConnectDone(true, [])];
    OneEvent(v1, cfg, ConnectDone(true, []));
    assert StepTakes(v, cfg, CONNECTS[0], false);
  }

  lemma NopIsShort(cfg: Config)
    ensures |Encode(Nop)| <= |Encode(cfg.Sub())|
  {
  }

  /** A command buffer that cannot grow, as in the default configuration: no run sees a piece of a command of the
      connection refused if and only if SUB and RDY fit (NOP is shorter). */
  lemma FixedRoomIsExact(v: Conn, cfg: Config)
    requires Start(v, cfg) && Fixed(v.commandBuf)
    ensures (forall es | Runnable(v, cfg, es) :: AllWhole(v, cfg, es)) <==>
      |Encode(cfg.Sub())| <= v.commandBuf.length && |Encode(cfg.Rdy())| <= v.commandBuf.length
  {
    var w := v.commandBuf;
    var _ := ConnectsAtOnce(v, cfg);
    NopIsShort(cfg);
    FixedHoldsWhatFits(w, cfg.Sub());
    BuildingGrows(w, cfg.Sub());
    FixedHoldsWhatFits(After(w, cfg.Sub()), cfg.Rdy());
    if |Encode(cfg.Sub())| <= w.length && |Encode(cfg.Rdy())| <= w.length {
      forall es | Runnable(v, cfg, es)
        ensures AllWhole(v, cfg, es)
      {
        RoomForAll(v, cfg, es);
      }
    } else {
      assert !AllWhole(v, cfg, CONNECTS);
    }
  }
}
