/** The first bytes a connection sends, for every run, written out from the fields of the reader. */
module HandshakeBytes {
  import opened Bytes
  import opened Windows
  import opened Commands
  import opened Machine
  import opened ConnectionRuns
  import opened ConnectionTheorems
  import opened OutboundTheorems
  import opened Acceptance
  import opened ProtocolTraces
  import opened Openings
  import opened HandshakeRooms
  import opened WireLayouts

  lemma {:induction false} AcceptedTwo(xs: seq<Action>, ys: seq<Action>)
    ensures Accepted(xs + ys) == Accepted(xs) + Accepted(ys)
  {
    if ys == [] {
      assert xs + ys == xs;
    } else {
      var init, y := ys[..|ys| - 1], ys[|ys| - 1];
      AcceptedTwo(xs, init);
      assert (xs + ys)[..|xs + ys| - 1] == xs + init;
      Assoc(Accepted(xs), Accepted(init), AcceptedOne(y));
    }
  }

  /** Both parts taken, the bytes of one follow those of the other. */
  lemma PartsAccepted(w: Window, xs: seq<Item>, ys: seq<Item>)
    requires SmallItems(xs) && SmallItems(ys) && Takes(w, xs + ys, false)
    ensures Takes(w, xs, false) && Takes(TookAll(w, xs), ys, false)
    ensures Accepted(Fates(w, xs + ys)) == Accepted(Fates(w, xs)) + Accepted(Fates(TookAll(w, xs), ys))
  {
    KeptAndTaken(w, xs, ys);
    FatesOfTwo(w, xs, ys);
    AcceptedTwo(Fates(w, xs), Fates(TookAll(w, xs), ys));
  }

  lemma AcceptedOfOne(a: Action)
    ensures Accepted([a]) == AcceptedOne(a)
  {
    assert [a][..0] == [];
    assert [] + AcceptedOne(a) == AcceptedOne(a);
  }

  lemma TakenItem(w: Window, i: Item)
    requires SmallItems([i]) && Takes(w, [i], false)
    ensures Fates(w, [i]) == [FateOf(w, i)] && AcceptedAction(FateOf(w, i), false)
  {
    assert [i][0] == i && [i][1..] == [];
    assert i in [i];
  }

  lemma OneAccepted(w: Window, kind: Kind, b: seq<byte>)
    requires SmallItems([WroteItem(kind, b)]) && kind != User && Takes(w, [WroteItem(kind, b)], false)
    ensures Accepted(Fates(w, [WroteItem(kind, b)])) == b
  {
    TakenItem(w, WroteItem(kind, b));
    AcceptedOfOne(FateOf(w, WroteItem(kind, b)));
  }

  lemma FourAccepted(w: Window, m: seq<byte>, user: seq<Item>, s: seq<byte>, r: seq<byte>) returns (u: seq<byte>)
    requires var items := [WroteItem(Magic, m)] + user + [WroteItem(SubscribeKind, s)] + [WroteItem(ReadyKind, r)];
      SmallItems(items) && Takes(w, items, false)
    ensures var items := [WroteItem(Magic, m)] + user + [WroteItem(SubscribeKind, s)] + [WroteItem(ReadyKind, r)];
      Accepted(Fates(w, items)) == m + u + s + r
    ensures user == [] ==> u == []
  {
    var magic, sub, rdy := [WroteItem(Magic, m)], [WroteItem(SubscribeKind, s)], [WroteItem(ReadyKind, r)];
    SmallParts(magic + user + sub, rdy);
    SmallParts(magic + user, sub);
    SmallParts(magic, user);
    PartsAccepted(w, magic + user + sub, rdy);
    PartsAccepted(w, magic + user, sub);
    PartsAccepted(w, magic, user);
    u := Accepted(Fates(TookAll(w, magic), user));
    OneAccepted(w, Magic, m);
    OneAccepted(TookAll(w, magic + user), SubscribeKind, s);
    OneAccepted(TookAll(w, magic + user + sub), ReadyKind, r);
  }

  lemma WholeItems(w: Window, cfg: Config, acts: seq<UserAct>)
    requires cfg.Ok() && ActsOk(acts) && HandshakeWhole(w, cfg, acts)
    ensures ConnectItems(w, cfg, acts) ==
      [WroteItem(Magic, MAGIC)] + ActItems(w, acts) + [WroteItem(SubscribeKind, Encode(cfg.Sub()))]
      + [WroteItem(ReadyKind, Encode(cfg.Rdy()))]
  {
    var w2 := AfterActs(w, acts);
    SaidIffWhole(w2, SubscribeKind, cfg.Sub());
    SaidIffWhole(After(w2, cfg.Sub()), ReadyKind, cfg.Rdy());
  }

  lemma HandshakeAccepted(commandBuf: Window, w: Window, cfg: Config, acts: seq<UserAct>) returns (u: seq<byte>)
    requires cfg.Ok() && ActsOk(acts) && HandshakeWhole(commandBuf, cfg, acts)
    requires SmallItems(ConnectItems(commandBuf, cfg, acts)) && Takes(w, ConnectItems(commandBuf, cfg, acts), false)
    ensures Accepted(Fates(w, ConnectItems(commandBuf, cfg, acts)))
      == MAGIC + u + Encode(cfg.Sub()) + Encode(cfg.Rdy())
    ensures acts == [] ==> u == []
  {
    WholeItems(commandBuf, cfg, acts);
    u := FourAccepted(w, MAGIC, ActItems(commandBuf, acts), Encode(cfg.Sub()), Encode(cfg.Rdy()));
  }

  /** The first bytes on the wire: what the user's connect callback got out is `user`. */
  function Greets(cfg: Config, user: seq<byte>, count: seq<byte>): seq<byte> {
    [32, 32, 86, 50] + user + [83, 85, 66, 32] + cfg.topic + [32] + cfg.channel + [10] + [82, 68, 89, 32] + count + [10]
  }

  lemma GreetsIsHandshake(cfg: Config, user: seq<byte>)
    ensures MAGIC + user + Encode(cfg.Sub()) + Encode(cfg.Rdy()) == Greets(cfg, user, Decimal(cfg.maxInFlight))
    ensures Denotes(Decimal(cfg.maxInFlight), cfg.maxInFlight)
  {
    SubLayout(cfg.topic, cfg.channel);
    RdyLayout(cfg.maxInFlight);
  }

  /** In every run in which the handshake gets out, the bytes sent and then those pending begin with the magic, what the
      connect callback wrote, SUB with the topic and then the channel, and RDY with the count in decimal. */
  lemma HandshakeOnWire(v: Conn, cfg: Config, es: seq<Event>) returns (user: seq<byte>, count: seq<byte>)
    requires Start(v, cfg) && Runnable(v, cfg, es)
    requires HandshakesGoOut(v, cfg, es) && Exec(v, cfg, es).sock.state == Connected
    ensures var s := Exec(v, cfg, es).sock;
      && Denotes(count, cfg.maxInFlight) && Greets(cfg, user, count) <= s.sent + s.writeBuf.bytes
      && (QuietConnect(es) ==> user == [])
  {
    InitialInv(v);
    var o := RunBegins(v, cfg, es);
    user := HandshakeAccepted(o.commandBuf, o.w, cfg, o.acts);
    count := Decimal(cfg.maxInFlight);
    GreetsIsHandshake(cfg, user);
    AcceptedTwo(Fates(o.w, ConnectItems(o.commandBuf, cfg, o.acts)), o.later);
    Conservation(v, cfg, es);
  }
}
