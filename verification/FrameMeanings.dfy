/** What a connection makes of the bytes it receives, for every run, with the stream and the replies written out byte by
    byte. */
module FrameMeanings {
  import opened Bytes
  import opened Messages
  import opened Commands
  import opened Frames
  import opened Machine
  import opened ConnectionRuns
  import opened ConnectionTheorems
  import opened Acceptance
  import opened ProtocolTraces
  import opened WireLayouts

  /** Frame type 2. */
  predicate StartsAsMessage(f: seq<byte>) {
    |f| >= 30 && f[..4] == [0, 0, 0, 2]
  }

  /** Frame type 0, and `_heartbeat_`. */
  predicate StartsAsHeartbeat(f: seq<byte>) {
    && |f| >= 15 && f[..4] == [0, 0, 0, 0]
    && f[4..15] == [95, 104, 101, 97, 114, 116, 98, 101, 97, 116, 95]
  }

  /** The messages in a series of frames. */
  function Payloads(fs: seq<seq<byte>>): seq<Message> {
    if fs == [] then []
    else
      var f := fs[|fs| - 1];
      Payloads(fs[..|fs| - 1]) + if StartsAsMessage(f) then [DecodeMessage(f[4..])] else []
  }

  function Reply(f: seq<byte>): seq<Item> {
    if StartsAsHeartbeat(f) then [WroteItem(NopKind, [78, 79, 80, 10])]
    else if StartsAsMessage(f) then [DeliveredItem(DecodeMessage(f[4..]))]
    else []
  }

  /** NOP for every heartbeat and every message handed over, in the order of the frames. */
  function Replies(fs: seq<seq<byte>>): seq<Item> {
    if fs == [] then [] else Replies(fs[..|fs| - 1]) + Reply(fs[|fs| - 1])
  }

  lemma FrameByBytes(f: Frame)
    requires FrameOk(f)
    ensures IsMessage(f) <==> StartsAsMessage(f)
    ensures IsHeartbeat(f) <==> StartsAsHeartbeat(f)
  {
    MessageByBytes(f);
    HeartbeatByBytes(f);
  }

  lemma {:induction false} PayloadsAreMessages(fs: seq<Frame>)
    requires AllOk(fs)
    ensures MessagesOf(fs) == Payloads(fs)
  {
    if fs != [] {
      PayloadsAreMessages(fs[..|fs| - 1]);
      FrameByBytes(fs[|fs| - 1]);
    }
  }

  lemma ReplyIsAnswer(f: Frame)
    requires FrameOk(f)
    ensures Answer(f) == Reply(f)
  {
    FrameByBytes(f);
    NopLayout();
  }

  lemma {:induction false} RepliesAreAnswers(fs: seq<Frame>)
    requires AllOk(fs)
    ensures Answers(fs) == Replies(fs)
  {
    if fs != [] {
      RepliesAreAnswers(fs[..|fs| - 1]);
      ReplyIsAnswer(fs[|fs| - 1]);
    }
  }

  // ---- the stream --------------------------------------------------------------------------------

  /** There is a length of four bytes, and that many bytes follow it. */
  predicate HasWholeFrame(b: seq<byte>) {
    |b| >= 4 && |b| - 4 >= FourValue(b)
  }

  lemma WholeIsComplete(b: seq<byte>)
    ensures Complete(b) <==> HasWholeFrame(b)
  {
    if |b| >= 4 {
      BigEndianOfFour(b[..4]);
    }
  }

  lemma NoneWhole(b: seq<byte>)
    requires AllFrames(b) == []
    ensures !HasWholeFrame(b)
  {
    WholeIsComplete(b);
  }

  /** The frames handled are framed at the front of what was received; at rest no whole frame is left. */
  lemma HandledIsFramed(v: Conn)
    requires Inv(v)
    ensures Framed(v.frames) <= v.sock.received
    ensures Quiet(v) ==> !HasWholeFrame(v.sock.received[|Framed(v.frames)|..])
  {
    var rest := Header(v) + v.sock.readBuf.bytes;
    StreamIsFramed(v.frames);
    Assoc(Stream(v.frames), Header(v), v.sock.readBuf.bytes);
    assert v.sock.received == Framed(v.frames) + rest;
    assert v.sock.received[|Framed(v.frames)|..] == rest;
    if Quiet(v) {
      HandledFrames(v);
      QuietMeansDone(v);
      NoneWhole(rest);
    }
  }

  // ---- in every run ------------------------------------------------------------------------------

  /** The bytes received are frames, each behind its length in four bytes, and a rest in which no frame is whole once
      the timer rests; and the messages delivered are those in the frames that start with 0, 0, 0, 2, in order. */
  lemma DeliveredByBytes(v: Conn, cfg: Config, es: seq<Event>)
    requires Start(v, cfg) && Runnable(v, cfg, es)
    ensures var v' := Exec(v, cfg, es); var b := v'.sock.received;
      && Framed(v'.frames) <= b && DeliveredIn(v'.sock.log) == Payloads(v'.frames)
      && (Quiet(v') ==> !HasWholeFrame(b[|Framed(v'.frames)|..]))
  {
    RunInv(v, cfg, es);
    HandledIsFramed(Exec(v, cfg, es));
    PayloadsAreMessages(Exec(v, cfg, es).frames);
  }

  /** The magic, SUB with topic and channel, RDY with the count. */
  function Greeting(cfg: Config): seq<Item> {
    [WroteItem(Magic, [32, 32, 86, 50]),
     WroteItem(SubscribeKind, [83, 85, 66, 32] + cfg.topic + [32] + cfg.channel + [10]),
     WroteItem(ReadyKind, [82, 68, 89, 32] + Decimal(cfg.maxInFlight) + [10])]
  }

  lemma GreetingIsHandshake(cfg: Config)
    ensures Handshake(cfg) == Greeting(cfg) && Denotes(Decimal(cfg.maxInFlight), cfg.maxInFlight)
  {
    SubLayout(cfg.topic, cfg.channel);
    RdyLayout(cfg.maxInFlight);
  }

  /** And what the connection itself says is the greeting and then just this: `NOP\n` for each frame that starts with
      0, 0, 0, 0 and `_heartbeat_`, each message as it comes, and nothing to any other frame; if and only if its command
      buffer refused it no piece of a command and its write buffer none of these writes. */
  lemma RepliesByBytes(v: Conn, cfg: Config, es: seq<Event>)
    requires Start(v, cfg) && Runnable(v, cfg, es) && Exec(v, cfg, es).sock.state == Connected
    ensures var v' := Exec(v, cfg, es);
      && Denotes(Decimal(cfg.maxInFlight), cfg.maxInFlight)
      && (Own(Kept(v'.sock.log)) == Greeting(cfg) + Replies(v'.frames) <==>
            AllWhole(v, cfg, es) && AllTake(v, cfg, es, false))
  {
    HandedOver(v, cfg, es);
    ProtocolTrace(v, cfg, es);
    RepliesAreAnswers(Exec(v, cfg, es).frames);
    GreetingIsHandshake(cfg);
  }
}
