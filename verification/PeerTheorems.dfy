/** What nsqd reads from a connection, end to end. */
module PeerTheorems {
  import opened Bytes
  import Messages
  import opened Commands
  import opened CommandDecoding
  import opened Frames
  import opened Machine
  import opened ConnectionRuns
  import opened ConnectionTheorems
  import opened OutboundTheorems
  import opened Acceptance
  import opened ProtocolTraces
  import opened Openings

  // ---- the bytes and the commands in a log -------------------------------------------------------

  /** One whole command. */
  predicate IsCommand(b: seq<byte>) {
    DecodeOne(b).Some? && DecodeOne(b).value.1 == []
  }

  lemma EncodedIsCommand(c: Command)
    requires Sendable(c)
    ensures IsCommand(Encode(c)) && DecodeOne(Encode(c)).value.0 == c
  {
    DecodeEncoded(c, []);
    assert Encode(c) + [] == Encode(c);
  }

  function CommandIn(i: Item): seq<Command> {
    if i.WroteItem? && IsCommand(i.bytes) then [DecodeOne(i.bytes).value.0] else []
  }

  function CommandsIn(items: seq<Item>): seq<Command> {
    Gather(CommandIn, items)
  }

  predicate Speaks(items: seq<Item>) {
    forall i <- items :: i.WroteItem? ==> IsCommand(i.bytes)
  }

  lemma {:induction false} EncodeTwo(cs: seq<Command>, ds: seq<Command>)
    ensures EncodeAll(cs + ds) == EncodeAll(cs) + EncodeAll(ds)
  {
    if cs == [] {
      assert cs + ds == ds;
    } else {
      EncodeTwo(cs[1..], ds);
      assert (cs + ds)[1..] == cs[1..] + ds;
      Assoc(Encode(cs[0]), EncodeAll(cs[1..]), EncodeAll(ds));
    }
  }

  lemma CommandInBytes(i: Item)
    requires i.WroteItem? ==> IsCommand(i.bytes)
    ensures BytesIn(i) == EncodeAll(CommandIn(i)) && forall c <- CommandIn(i) :: Sendable(c)
  {
    if i.WroteItem? {
      var c := DecodeOne(i.bytes).value.0;
      DecodedIsEncoded(i.bytes);
      assert Encode(c) + [] == Encode(c);
      assert EncodeAll([c][1..]) == [];
    }
  }

  lemma {:induction false} CommandsInBytes(items: seq<Item>)
    requires Speaks(items)
    ensures BytesOf(items) == EncodeAll(CommandsIn(items)) && forall c <- CommandsIn(items) :: Sendable(c)
  {
    if items != [] {
      var init, i := items[..|items| - 1], items[|items| - 1];
      CommandsInBytes(init);
      CommandInBytes(i);
      EncodeTwo(CommandsIn(init), CommandIn(i));
    }
  }

  /** What nsqd makes of the bytes `b`: the magic, and then these commands. */
  predicate Reads(b: seq<byte>, cs: seq<Command>) {
    |b| >= 4 && b[..4] == MAGIC && DecodeAll(b[4..]) == Some(cs)
  }

  lemma ReadsEncoded(b: seq<byte>, cs: seq<Command>)
    requires forall c <- cs :: Sendable(c)
    ensures Reads(b, cs) <==> b == MAGIC + EncodeAll(cs)
  {
    StreamReadBackIffSendable(cs);
    if b == MAGIC + EncodeAll(cs) {
      assert b[4..] == EncodeAll(cs);
    }
    if Reads(b, cs) {
      StreamIsEncoded(b[4..]);
      assert b == b[..4] + b[4..];
    }
  }

  /** A log of the magic and then of commands reads as those commands. */
  lemma MagicThenCommands(items: seq<Item>)
    requires items != [] && items[0] == WroteItem(Magic, MAGIC) && Speaks(items[1..])
    ensures BytesOf(items) == MAGIC + EncodeAll(CommandsIn(items[1..])) && NoneEmpty(items)
    ensures forall c <- CommandsIn(items[1..]) :: Sendable(c)
  {
    HeadBytes(items);
    CommandsInBytes(items[1..]);
    forall i <- items | i.WroteItem?
      ensures i.bytes != []
    {
      assert i == items[0] || i in items[1..];
    }
  }

  /** And what the write buffer took of it does exactly if it took all. */
  lemma ReadsIfAccepted(log: seq<Action>, cs: seq<Command>)
    requires BytesOf(Items(log)) == MAGIC + EncodeAll(cs) && NoneEmpty(Items(log)) && forall c <- cs :: Sendable(c)
    ensures Reads(Accepted(log), cs) <==> Accepts(log, true)
  {
    ReadsEncoded(Accepted(log), cs);
    AcceptedBytes(log);
  }

  // ---- the commands of the connection itself -----------------------------------------------------

  function NopFor(f: Frame): seq<Command>
    requires FrameOk(f)
  {
    if IsHeartbeat(f) then [Nop] else []
  }

  /** One NOP for every heartbeat. */
  function Nops(fs: seq<Frame>): seq<Command>
    requires AllOk(fs)
  {
    if fs == [] then [] else Nops(fs[..|fs| - 1]) + NopFor(fs[|fs| - 1])
  }

  lemma CommandItem(kind: Kind, c: Command)
    requires Sendable(c)
    ensures CommandsIn([WroteItem(kind, Encode(c))]) == [c] && Speaks([WroteItem(kind, Encode(c))])
  {
    EncodedIsCommand(c);
    GatherOne(CommandIn, WroteItem(kind, Encode(c)));
  }

  lemma NopIsSendable()
    ensures Sendable(Nop)
  {
  }

  lemma AnswerSpeaks(f: Frame)
    requires FrameOk(f)
    ensures Speaks(Answer(f)) && CommandsIn(Answer(f)) == NopFor(f)
  {
    if IsHeartbeat(f) {
      NopIsSendable();
      CommandItem(NopKind, Nop);
    } else if IsMessage(f) {
      GatherOne(CommandIn, Answer(f)[0]);
    }
  }

  lemma {:induction false} AnswersSpeak(fs: seq<Frame>)
    requires AllOk(fs)
    ensures Speaks(Answers(fs)) && CommandsIn(Answers(fs)) == Nops(fs)
  {
    if fs != [] {
      var init, f := fs[..|fs| - 1], fs[|fs| - 1];
      AnswersSpeak(init);
      AnswerSpeaks(f);
      GatherTwo(CommandIn, Answers(init), Answer(f));
    }
  }

  lemma SubIsSendable(topic: cstring, channel: cstring)
    requires Clean(topic) && Clean(channel)
    ensures Sendable(Subscribe(topic, channel))
  {
  }

  lemma RdyIsSendable(count: cint)
    ensures Sendable(Ready(count))
  {
    ParseDecimal(count);
  }

  lemma HandshakeSpeaks(cfg: Config)
    requires Clean(cfg.topic) && Clean(cfg.channel)
    ensures CommandsIn([WroteItem(SubscribeKind, Encode(cfg.Sub()))]) == [cfg.Sub()]
    ensures CommandsIn([WroteItem(ReadyKind, Encode(cfg.Rdy()))]) == [cfg.Rdy()]
    ensures Speaks([WroteItem(SubscribeKind, Encode(cfg.Sub()))]) && Speaks([WroteItem(ReadyKind, Encode(cfg.Rdy()))])
  {
    SubIsSendable(cfg.topic, cfg.channel);
    CommandItem(SubscribeKind, cfg.Sub());
    RdyIsSendable(cfg.maxInFlight);
    CommandItem(ReadyKind, cfg.Rdy());
  }

  lemma TwoThenRest(s: Item, r: Item, rest: seq<Item>, x: Command, y: Command)
    requires CommandsIn([s]) == [x] && CommandsIn([r]) == [y] && Speaks([s]) && Speaks([r]) && Speaks(rest)
    ensures Speaks([s] + [r] + rest) && CommandsIn([s] + [r] + rest) == [x, y] + CommandsIn(rest)
  {
    GatherTwo(CommandIn, [s], [r]);
    GatherTwo(CommandIn, [s] + [r], rest);
  }

  lemma DueTail(cfg: Config, answers: seq<Item>)
    ensures (Handshake(cfg) + answers)[1..] == [WroteItem(SubscribeKind, Encode(cfg.Sub()))]
                                                + [WroteItem(ReadyKind, Encode(cfg.Rdy()))] + answers
  {
  }

  lemma DueSpeaks(cfg: Config, fs: seq<Frame>)
    requires AllOk(fs) && Clean(cfg.topic) && Clean(cfg.channel)
    ensures var items := (Handshake(cfg) + Answers(fs))[1..];
      Speaks(items) && CommandsIn(items) == [cfg.Sub(), cfg.Rdy()] + Nops(fs)
  {
    DueTail(cfg, Answers(fs));
    HandshakeSpeaks(cfg);
    AnswersSpeak(fs);
    TwoThenRest(WroteItem(SubscribeKind, Encode(cfg.Sub())), WroteItem(ReadyKind, Encode(cfg.Rdy())), Answers(fs),
                cfg.Sub(), cfg.Rdy());
  }

  lemma {:induction false} InOwn(items: seq<Item>, k: nat)
    requires k < |items| && (items[k].WroteItem? ==> items[k].kind != User)
    ensures items[k] in Own(items)
  {
    if k < |items| - 1 {
      InOwn(items[..|items| - 1], k);
    }
  }

  /** What is not of user code speaks; so all of it does if user code does. */
  lemma AllSpeak(items: seq<Item>)
    requires Speaks(Own(items)) && forall i <- items :: i.WroteItem? && i.kind == User ==> IsCommand(i.bytes)
    ensures Speaks(items)
  {
    forall k | 0 <= k < |items| && items[k].WroteItem?
      ensures IsCommand(items[k].bytes)
    {
      if items[k].kind != User {
        InOwn(items, k);
      }
    }
  }

  lemma OwnTail(items: seq<Item>)
    requires items != [] && items[0] == WroteItem(Magic, MAGIC)
    ensures Own(items) == [items[0]] + Own(items[1..]) && Own(items[1..]) == Own(items)[1..]
  {
    assert items == [items[0]] + items[1..];
    GatherTwo(OwnOne, [items[0]], items[1..]);
    GatherOne(OwnOne, items[0]);
  }

  // ---- what the peer reads -----------------------------------------------------------------------

  /** The writes of user code are commands. */
  predicate UserSpeaks(items: seq<Item>) {
    forall i <- items :: i.WroteItem? && i.kind == User ==> IsCommand(i.bytes)
  }

  /** End to end, for any run in which the connection's commands are built whole and user code wrote commands: what nsqd
      gets, sent or still pending, is the magic and a stream that decodes to exactly the commands written, in order, if
      and only if the write buffer refused nothing; and leaving out those of user code, these commands are SUB, RDY and
      one NOP for every heartbeat handled. */
  lemma PeerReadsLog(v: Conn, cfg: Config, es: seq<Event>)
    requires Start(v, cfg) && Runnable(v, cfg, es) && Clean(cfg.topic) && Clean(cfg.channel)
    requires AllWhole(v, cfg, es) && Exec(v, cfg, es).sock.state == Connected
    requires UserSpeaks(Items(Exec(v, cfg, es).sock.log))
    ensures var v' := Exec(v, cfg, es); var b := v'.sock.sent + v'.sock.writeBuf.bytes;
      var items := Items(v'.sock.log);
      && |items| > 0 && AllOk(v'.frames)
      && (Reads(b, CommandsIn(items[1..])) <==> AllTake(v, cfg, es, true))
      && CommandsIn(Own(items[1..])) == [cfg.Sub(), cfg.Rdy()] + Nops(v'.frames)
  {
    var v' := Exec(v, cfg, es);
    var items := Items(v'.sock.log);
    HandedOver(v, cfg, es);
    Conservation(v, cfg, es);
    MagicComesOnce(v, cfg, es);
    OwnTail(items);
    DueSpeaks(cfg, v'.frames);
    AllSpeak(items[1..]);
    MagicThenCommands(items);
    ReadsIfAccepted(v'.sock.log, CommandsIn(items[1..]));
    AcceptedIffTaken(v, cfg, es, true);
  }

  /** No writes of user code. */
  predicate OwnOnly(items: seq<Item>) {
    forall i <- items :: i.WroteItem? ==> i.kind != User
  }

  lemma {:induction false} OwnIsAll(items: seq<Item>)
    requires OwnOnly(items)
    ensures Own(items) == items
  {
    if items != [] {
      OwnIsAll(items[..|items| - 1]);
    }
  }

  /** In particular, what nsqd gets from a connection that user code leaves alone decodes to SUB, RDY and one NOP for
      every heartbeat handled, if and only if the write buffer refused nothing. */
  lemma PeerReads(v: Conn, cfg: Config, es: seq<Event>)
    requires Start(v, cfg) && Runnable(v, cfg, es) && Clean(cfg.topic) && Clean(cfg.channel)
    requires AllWhole(v, cfg, es) && Exec(v, cfg, es).sock.state == Connected
    requires OwnOnly(Items(Exec(v, cfg, es).sock.log))
    ensures var v' := Exec(v, cfg, es); var b := v'.sock.sent + v'.sock.writeBuf.bytes;
      && AllOk(v'.frames)
      && (Reads(b, [cfg.Sub(), cfg.Rdy()] + Nops(v'.frames)) <==> AllTake(v, cfg, es, true))
  {
    var items := Items(Exec(v, cfg, es).sock.log);
    PeerReadsLog(v, cfg, es);
    OwnIsAll(items[1..]);
  }
}
