/** How the log of a connection begins, for every run from a new connection. */
module Openings {
  import opened Windows
  import opened Commands
  import opened Frames
  import opened Machine
  import opened ConnectionRuns
  import opened ConnectionTheorems
  import opened Acceptance
  import opened ProtocolTraces

  /** First the magic, then the `k - 1` writes of the user's connect callback, then SUB, and right behind it RDY. */
  predicate OpensWith(items: seq<Item>, cfg: Config, k: nat) {
    && 1 <= k && k + 1 < |items|
    && items[0] == WroteItem(Magic, MAGIC)
    && OnlyUser(items[1..k])
    && items[k] == WroteItem(SubscribeKind, Encode(cfg.Sub()))
    && items[k + 1] == WroteItem(ReadyKind, Encode(cfg.Rdy()))
  }

  ghost predicate Opened(items: seq<Item>, cfg: Config) {
    exists k: nat :: OpensWith(items, cfg, k)
  }

  /** Nothing of the handshake. */
  predicate Later(items: seq<Item>) {
    forall i <- items :: i.WroteItem? ==> i.kind == NopKind || i.kind == User
  }

  /** The connection attempt is over. */
  predicate Past(v: Conn) {
    v.sock.state == Connected || v.sock.state == Disconnected
  }

  /** The handshake of the run, if there is one, is built whole, and the write buffer takes it. */
  predicate HandshakesGoOut(v: Conn, cfg: Config, es: seq<Event>)
    requires cfg.Ok() && Runnable(v, cfg, es)
    decreases |es|
  {
    es == [] || ((es[0].ConnectDone? ==> StepWhole(v, cfg, es[0]) && StepTakes(v, cfg, es[0], false))
                 && HandshakesGoOut(Step(v, cfg, es[0]), cfg, es[1..]))
  }

  // ---- the shape of a run's log ------------------------------------------------------------------

  lemma UserIsLater(items: seq<Item>)
    requires OnlyUser(items)
    ensures Later(items)
  {
  }

  lemma FrameIsLater(w: Window, f: Frame, acts: seq<UserAct>)
    requires FrameOk(f) && ActsOk(acts)
    ensures Later(FrameItems(w, f, acts))
  {
    ActsHoldNoMessages(w, acts);
    UserIsLater(ActItems(w, acts));
  }

  lemma StepIsLater(v: Conn, cfg: Config, e: Event)
    requires cfg.Ok() && Enabled(v, e) && Past(v)
    ensures Later(StepItems(v, cfg, e)) && !e.ConnectDone?
  {
    match e
    case TimerFires(acts) =>
      if v.sock.callback == ReadData { FrameIsLater(v.commandBuf, v.sock.readBuf.bytes[..v.size], acts); }
    case UserActs(acts) =>
      ActsHoldNoMessages(v.commandBuf, acts);
      UserIsLater(ActItems(v.commandBuf, acts));
    case _ =>
  }

  lemma PastStays(v: Conn, cfg: Config, e: Event)
    requires cfg.Ok() && Inv(v) && Enabled(v, e) && Past(v)
    ensures Past(Step(v, cfg, e))
  {
    match e
    case TimerFires(acts) => if v.sock.callback == ReadSize { SizeEffect(v); } else { DataEffect(v, acts); }
    case UserActs(acts) => if v.sock.state == Connected { ActsFollow(v, acts); } else { ActsWithoutConnection(v, acts); }
    case Readable(pending, result, chunk, retry) =>
      var _ := ReadableEffect(v.sock, pending, result, chunk, retry);
    case Writable(result, retry) => WritableEffect(v.sock, result, retry);
    case _ =>
  }

  lemma LaterTwo(log: seq<Action>, first: seq<Action>, later: seq<Action>)
    requires Later(Items(first)) && Later(Items(later))
    ensures log + first + later == log + (first + later) && Later(Items(first + later))
  {
    assert Items(first + later) == Items(first) + Items(later);
  }

  lemma TurnIsLater(s: Socket, s': Socket, items: seq<Item>) returns (more: seq<Action>)
    requires Turns(s, s', items)
    ensures s'.log == s.log + more && Items(more) == items
  {
    more := Fates(s.writeBuf, items);
    FatesAreItems(s.writeBuf, items);
  }

  lemma LaterStep(v: Conn, cfg: Config, e: Event) returns (later: seq<Action>)
    requires cfg.Ok() && Inv(v) && Enabled(v, e) && Past(v)
    ensures Inv(Step(v, cfg, e)) && Past(Step(v, cfg, e)) && !e.ConnectDone?
    ensures Step(v, cfg, e).sock.log == v.sock.log + later && Later(Items(later))
  {
    StepIsLater(v, cfg, e);
    PastStays(v, cfg, e);
    StepTurns(v, cfg, e);
    StepKeepsInv(v, cfg, e);
    later := TurnIsLater(v.sock, Step(v, cfg, e).sock, StepItems(v, cfg, e));
  }

  lemma {:induction false} RunIsLater(v: Conn, cfg: Config, es: seq<Event>) returns (later: seq<Action>)
    requires cfg.Ok() && Inv(v) && Runnable(v, cfg, es) && Past(v)
    ensures Exec(v, cfg, es).sock.log == v.sock.log + later && Later(Items(later)) && HandshakesGoOut(v, cfg, es)
    decreases |es|
  {
    later := [];
    if es == [] {
      assert v.sock.log + [] == v.sock.log;
    } else {
      var first := LaterStep(v, cfg, es[0]);
      later := RunIsLater(Step(v, cfg, es[0]), cfg, es[1..]);
      LaterTwo(v.sock.log, first, later);
      later := first + later;
    }
  }

  /** How a log begins: not at all, or with what a connect event says from some command buffer on, as far as an empty
      write buffer takes it. */
  datatype Opening = Silent | Spoken(commandBuf: Window, w: Window, acts: seq<UserAct>, later: seq<Action>)

  ghost predicate Begins(log: seq<Action>, cfg: Config, o: Opening, out: bool)
    requires cfg.Ok()
  {
    match o
    case Silent => log == []
    case Spoken(commandBuf, w, acts, later) =>
      && ActsOk(acts) && Later(Items(later)) && SmallItems(ConnectItems(commandBuf, cfg, acts))
      && log == Fates(w, ConnectItems(commandBuf, cfg, acts)) + later
      && (out <==> HandshakeWhole(commandBuf, cfg, acts) && Takes(w, ConnectItems(commandBuf, cfg, acts), false))
  }

  /** Before the connection is made nothing is written; if it is not made nothing ever is. */
  lemma NotYet(v: Conn, cfg: Config, e: Event)
    requires cfg.Ok() && Inv(v) && Enabled(v, e) && v.sock.state != Connected && !(e.ConnectDone? && e.success)
    ensures StepItems(v, cfg, e) == [] && Step(v, cfg, e).sock.state != Connected
    ensures v.sock.state == Disconnected ==> Step(v, cfg, e).sock.state == Disconnected && !e.ConnectDone?
  {
    if e.UserActs? {
      ActsWithoutConnection(v, e.acts);
    }
  }

  lemma ConnectStep(v: Conn, cfg: Config, acts: seq<UserAct>) returns (items: seq<Item>)
    requires cfg.Ok() && Inv(v) && Enabled(v, ConnectDone(true, acts))
    ensures var e := ConnectDone(true, acts); var v' := Step(v, cfg, e);
      && Inv(v') && Past(v') && items == ConnectItems(v.commandBuf, cfg, acts)
      && SmallItems(items) && v'.sock.log == Fates(v.sock.writeBuf, items)
      && (StepWhole(v, cfg, e) <==> HandshakeWhole(v.commandBuf, cfg, acts))
      && (StepTakes(v, cfg, e, false) <==> Takes(v.sock.writeBuf, items, false))
  {
    StepKeepsInv(v, cfg, ConnectDone(true, acts));
    ConnectEffect(v, cfg, acts);
    items := ConnectItems(v.commandBuf, cfg, acts);
    assert [] + Fates(v.sock.writeBuf, items) == Fates(v.sock.writeBuf, items);
  }

  lemma ConnectBegins(v: Conn, cfg: Config, acts: seq<UserAct>, rest: seq<Event>) returns (o: Opening, out: bool)
    requires cfg.Ok() && Inv(v) && Enabled(v, ConnectDone(true, acts))
    requires Runnable(Step(v, cfg, ConnectDone(true, acts)), cfg, rest)
    ensures var v' := Step(v, cfg, ConnectDone(true, acts));
      && o.Spoken? && o.acts == acts && Begins(Exec(v', cfg, rest).sock.log, cfg, o, out) && HandshakesGoOut(v', cfg, rest)
      && (out <==> StepWhole(v, cfg, ConnectDone(true, acts)) && StepTakes(v, cfg, ConnectDone(true, acts), false))
  {
    var items := ConnectStep(v, cfg, acts);
    var later := RunIsLater(Step(v, cfg, ConnectDone(true, acts)), cfg, rest);
    o := Spoken(v.commandBuf, v.sock.writeBuf, acts, later);
    out := HandshakeWhole(v.commandBuf, cfg, acts) && Takes(v.sock.writeBuf, items, false);
  }

  lemma SilentStep(v: Conn, cfg: Config, e: Event)
    requires cfg.Ok() && Inv(v) && Enabled(v, e) && v.sock.state != Connected && v.sock.log == []
    requires !(e.ConnectDone? && e.success)
    ensures var v' := Step(v, cfg, e);
      Inv(v') && v'.sock.state != Connected && v'.sock.log == [] && Turns(v.sock, v'.sock, [])
    ensures e.ConnectDone? ==> StepWhole(v, cfg, e) && StepTakes(v, cfg, e, false)
  {
    NotYet(v, cfg, e);
    StepTurns(v, cfg, e);
    StepKeepsInv(v, cfg, e);
  }

  lemma {:induction false} RunBegins(v: Conn, cfg: Config, es: seq<Event>) returns (o: Opening)
    requires cfg.Ok() && Inv(v) && Runnable(v, cfg, es) && v.sock.state != Connected && v.sock.log == []
    ensures Begins(Exec(v, cfg, es).sock.log, cfg, o, HandshakesGoOut(v, cfg, es))
    ensures o.Silent? ==> Exec(v, cfg, es).sock.state != Connected
    ensures o.Spoken? ==> ConnectDone(true, o.acts) in es
    decreases |es|
  {
    if es == [] {
      o := Silent;
    } else if es[0].ConnectDone? && es[0].success {
      assert es[0] == ConnectDone(true, es[0].acts);
      var out;
      o, out := ConnectBegins(v, cfg, es[0].acts, es[1..]);
    } else {
      SilentStep(v, cfg, es[0]);
      o := RunBegins(Step(v, cfg, es[0]), cfg, es[1..]);
    }
  }

  // ---- the handshake comes first -----------------------------------------------------------------

  lemma ItemAt(items: seq<Item>, later: seq<Item>, cfg: Config)
    requires Later(later)
    ensures Opened(items + later, cfg) <==> Opened(items, cfg)
  {
    var all := items + later;
    if Opened(all, cfg) {
      var k: nat :| OpensWith(all, cfg, k);
      assert k + 1 < |items| by {
        assert forall i :: |items| <= i < |all| ==> all[i] in later;
      }
      assert all[1..k] == items[1..k];
      assert OpensWith(items, cfg, k);
    }
    if Opened(items, cfg) {
      var k: nat :| OpensWith(items, cfg, k);
      assert all[1..k] == items[1..k];
      assert OpensWith(all, cfg, k);
    }
  }

  /** What is kept of a handshake opens as it should exactly if the magic, SUB and RDY are whole. */
  lemma ConnectOpens(cfg: Config, magic: seq<Item>, user: seq<Item>, sub: seq<Item>, rdy: seq<Item>)
    requires magic == [] || magic == [WroteItem(Magic, MAGIC)]
    requires OnlyUser(user) && OnlyOf(sub, SubscribeKind) && OnlyOf(rdy, ReadyKind)
    ensures Opened(magic + user + sub + rdy, cfg) <==>
      magic != [] && sub == [WroteItem(SubscribeKind, Encode(cfg.Sub()))] && rdy == [WroteItem(ReadyKind, Encode(cfg.Rdy()))]
  {
    var items := magic + user + sub + rdy;
    var n := |magic| + |user|;
    assert forall i :: |magic| <= i < n ==> items[i] in user;
    assert forall i :: n <= i < n + |sub| ==> items[i] in sub;
    assert forall i :: n + |sub| <= i < |items| ==> items[i] in rdy;
    if Opened(items, cfg) {
      var k: nat :| OpensWith(items, cfg, k);
      assert magic != [] && k == n && items[k] == sub[0];
    }
    if magic != [] && sub == [WroteItem(SubscribeKind, Encode(cfg.Sub()))] && rdy == [WroteItem(ReadyKind, Encode(cfg.Rdy()))] {
      assert items[1..n] == user;
      assert OpensWith(items, cfg, n);
    }
  }

  /** One write of this kind, or none. */
  predicate OnlyOf(items: seq<Item>, kind: Kind) {
    |items| <= 1 && forall i <- items :: i.WroteItem? && i.kind == kind
  }

  lemma KeptOfUser(w: Window, items: seq<Item>)
    requires SmallItems(items) && OnlyUser(items)
    ensures OnlyUser(Kept(Fates(w, items))) && Takes(w, items, false)
    decreases |items|
  {
    if items != [] {
      KeptOfUser(Took(w, items[0]), items[1..]);
      KeptTwo([FateOf(w, items[0])], Fates(Took(w, items[0]), items[1..]));
      KeptOfOne(FateOf(w, items[0]));
    }
  }

  lemma KeptOfOne(a: Action)
    ensures Kept([a]) == KeptOne(a)
  {
    assert [a][..0] == [];
  }

  lemma KeptOfOnly(w: Window, items: seq<Item>, kind: Kind, i: Item)
    requires SmallItems(items) && OnlyOf(items, kind) && kind != User
    ensures OnlyOf(Kept(Fates(w, items)), kind) && (Kept(Fates(w, items)) == [i] <==> items == [i] && Takes(w, items, false))
  {
    if items != [] {
      assert items == [items[0]];
      FatesOfOne(w, items[0]);
      KeptOfOne(FateOf(w, items[0]));
    }
  }

  lemma KeptAndTaken(w: Window, xs: seq<Item>, ys: seq<Item>)
    requires SmallItems(xs) && SmallItems(ys)
    ensures SmallItems(xs + ys) && TookAll(w, xs + ys) == TookAll(TookAll(w, xs), ys)
    ensures Kept(Fates(w, xs + ys)) == Kept(Fates(w, xs)) + Kept(Fates(TookAll(w, xs), ys))
    ensures Takes(w, xs + ys, false) <==> Takes(w, xs, false) && Takes(TookAll(w, xs), ys, false)
  {
    var w' := TookAll(w, xs);
    FatesOfTwo(w, xs, ys);
    KeptTwo(Fates(w, xs), Fates(w', ys));
    TakesIffAccepts(w, xs, false);
    TakesIffAccepts(w', ys, false);
    TakesIffAccepts(w, xs + ys, false);
    AcceptsTwo(Fates(w, xs), Fates(w', ys), false);
  }

  lemma FourOpen(w: Window, cfg: Config, user: seq<Item>, sub: seq<Item>, rdy: seq<Item>)
    requires SmallItems(user) && SmallItems(sub) && SmallItems(rdy)
    requires OnlyUser(user) && OnlyOf(sub, SubscribeKind) && OnlyOf(rdy, ReadyKind)
    ensures var items := [WroteItem(Magic, MAGIC)] + user + sub + rdy;
      && SmallItems(items)
      && (Opened(Kept(Fates(w, items)), cfg) <==>
            (&& Takes(w, items, false) && sub == [WroteItem(SubscribeKind, Encode(cfg.Sub()))]
             && rdy == [WroteItem(ReadyKind, Encode(cfg.Rdy()))]))
  {
    var magic := [WroteItem(Magic, MAGIC)];
    KeptAndTaken(w, magic, user);
    KeptAndTaken(w, magic + user, sub);
    KeptAndTaken(w, magic + user + sub, rdy);
    var w1, w2, w3 := TookAll(w, magic), TookAll(w, magic + user), TookAll(w, magic + user + sub);
    KeptOfOnly(w, magic, Magic, magic[0]);
    KeptOfUser(w1, user);
    KeptOfOnly(w2, sub, SubscribeKind, WroteItem(SubscribeKind, Encode(cfg.Sub())));
    KeptOfOnly(w3, rdy, ReadyKind, WroteItem(ReadyKind, Encode(cfg.Rdy())));
    ConnectOpens(cfg, Kept(Fates(w, magic)), Kept(Fates(w1, user)), Kept(Fates(w2, sub)), Kept(Fates(w3, rdy)));
  }

  lemma ConnectOpensIffOut(commandBuf: Window, w: Window, cfg: Config, acts: seq<UserAct>)
    requires cfg.Ok() && ActsOk(acts) && SmallItems(ConnectItems(commandBuf, cfg, acts))
    ensures var items := ConnectItems(commandBuf, cfg, acts);
      Opened(Kept(Fates(w, items)), cfg) <==> HandshakeWhole(commandBuf, cfg, acts) && Takes(w, items, false)
  {
    var w2 := AfterActs(commandBuf, acts);
    var user, sub := ActItems(commandBuf, acts), Said(w2, SubscribeKind, cfg.Sub());
    var rdy := Said(After(w2, cfg.Sub()), ReadyKind, cfg.Rdy());
    ActsHoldNoMessages(commandBuf, acts);
    SaidIffWhole(w2, SubscribeKind, cfg.Sub());
    SaidIffWhole(After(w2, cfg.Sub()), ReadyKind, cfg.Rdy());
    var magic := [WroteItem(Magic, MAGIC)];
    SmallParts(magic + user + sub, rdy);
    SmallParts(magic + user, sub);
    SmallParts(magic, user);
    FourOpen(w, cfg, user, sub, rdy);
  }

  lemma SmallParts(xs: seq<Item>, ys: seq<Item>)
    requires SmallItems(xs + ys)
    ensures SmallItems(xs) && SmallItems(ys)
  {
    assert forall i <- xs :: i in xs + ys;
    assert forall i <- ys :: i in xs + ys;
  }

  lemma {:induction false} KeptOfLater(log: seq<Action>)
    requires Later(Items(log))
    ensures Later(Kept(log))
  {
    if log != [] {
      var init, a := log[..|log| - 1], log[|log| - 1];
      assert log == init + [a];
      LogSnoc(init, a);
      KeptOfLater(init);
    }
  }

  lemma BeginsRight(log: seq<Action>, cfg: Config, o: Opening, out: bool)
    requires cfg.Ok() && Begins(log, cfg, o, out)
    ensures log != [] <==> o.Spoken?
    ensures log != [] ==> Items(log)[0] == WroteItem(Magic, MAGIC) && (Opened(Kept(log), cfg) <==> out)
  {
    match o
    case Silent =>
    case Spoken(commandBuf, w, acts, later) =>
      var items := ConnectItems(commandBuf, cfg, acts);
      FatesAreItems(w, items);
      KeptTwo(Fates(w, items), later);
      KeptOfLater(later);
      ItemAt(Kept(Fates(w, items)), Kept(later), cfg);
      ConnectOpensIffOut(commandBuf, w, cfg, acts);
  }

  /** In every run, whatever user code does and however much of it is sent, the first thing a connection writes is
      the magic; and what the write buffer takes is the magic, then writes of the user's connect callback, then SUB,
      and right behind it RDY, if and only if the command buffer refused no piece of these two and the write buffer
      none of the three. */
  lemma HandshakeComesFirst(v: Conn, cfg: Config, es: seq<Event>)
    requires Start(v, cfg) && Runnable(v, cfg, es)
    ensures var v' := Exec(v, cfg, es); var log := v'.sock.log;
      && (log != [] ==>
            Items(log)[0] == WroteItem(Magic, MAGIC) && (Opened(Kept(log), cfg) <==> HandshakesGoOut(v, cfg, es)))
      && (v'.sock.state == Connected ==> log != [])
  {
    InitialInv(v);
    var o := RunBegins(v, cfg, es);
    BeginsRight(Exec(v, cfg, es).sock.log, cfg, o, HandshakesGoOut(v, cfg, es));
  }

  predicate NoMagic(items: seq<Item>) {
    forall i <- items :: i.WroteItem? ==> i.kind != Magic
  }

  lemma OneMagic(user: seq<Item>, sub: seq<Item>, rdy: seq<Item>, later: seq<Item>)
    requires OnlyUser(user) && OnlyOf(sub, SubscribeKind) && OnlyOf(rdy, ReadyKind) && Later(later)
    ensures var items := [WroteItem(Magic, MAGIC)] + user + sub + rdy + later;
      items[0] == WroteItem(Magic, MAGIC) && NoMagic(items[1..])
  {
    var items := [WroteItem(Magic, MAGIC)] + user + sub + rdy + later;
    assert items[1..] == user + sub + rdy + later;
  }

  lemma ConnectHasOneMagic(w: Window, cfg: Config, acts: seq<UserAct>, later: seq<Item>)
    requires cfg.Ok() && ActsOk(acts) && Later(later)
    ensures var items := ConnectItems(w, cfg, acts) + later;
      items[0] == WroteItem(Magic, MAGIC) && NoMagic(items[1..])
  {
    var w2 := AfterActs(w, acts);
    ActsHoldNoMessages(w, acts);
    OneMagic(ActItems(w, acts), Said(w2, SubscribeKind, cfg.Sub()), Said(After(w2, cfg.Sub()), ReadyKind, cfg.Rdy()), later);
  }

  lemma LogItems(w: Window, items: seq<Item>, later: seq<Action>)
    requires SmallItems(items)
    ensures Items(Fates(w, items) + later) == items + Items(later)
  {
    FatesAreItems(w, items);
    assert Items(Fates(w, items) + later) == Items(Fates(w, items)) + Items(later);
  }

  lemma BeginsWithOneMagic(log: seq<Action>, cfg: Config, o: Opening, out: bool)
    requires cfg.Ok() && Begins(log, cfg, o, out) && o.Spoken?
    ensures Items(log) != [] && Items(log)[0] == WroteItem(Magic, MAGIC) && NoMagic(Items(log)[1..])
  {
    var items := ConnectItems(o.commandBuf, cfg, o.acts);
    ConnectHasOneMagic(o.commandBuf, cfg, o.acts, Items(o.later));
    LogItems(o.w, items, o.later);
  }

  /** The magic is written once. */
  lemma MagicComesOnce(v: Conn, cfg: Config, es: seq<Event>)
    requires Start(v, cfg) && Runnable(v, cfg, es) && Exec(v, cfg, es).sock.state == Connected
    ensures var items := Items(Exec(v, cfg, es).sock.log);
      items != [] && items[0] == WroteItem(Magic, MAGIC) && NoMagic(items[1..])
  {
    InitialInv(v);
    var o := RunBegins(v, cfg, es);
    BeginsWithOneMagic(Exec(v, cfg, es).sock.log, cfg, o, HandshakesGoOut(v, cfg, es));
  }
}
