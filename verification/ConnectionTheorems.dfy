/** The promises of the connection, for every run from a new connection. */
module ConnectionTheorems {
  import opened Bytes
  import opened Frames
  import opened Machine
  import opened ConnectionRuns

  predicate Start(v: Conn, cfg: Config) {
    cfg.Ok() && Initial(v)
  }

  lemma RunInv(v: Conn, cfg: Config, es: seq<Event>)
    requires Start(v, cfg) && Runnable(v, cfg, es)
    ensures Inv(Exec(v, cfg, es))
  {
    InitialInv(v);
    RunKeepsInv(v, cfg, es);
  }

  // ---- inbound -----------------------------------------------------------------------------------

  /** The frames handled are the first frames of the stream; the rest is still in front of the connection. */
  lemma HandledFrames(v: Conn)
    requires Inbound(v)
    ensures AllFrames(v.sock.received) == v.frames + AllFrames(Header(v) + v.sock.readBuf.bytes)
  {
    ParseStream(v.frames, Header(v) + v.sock.readBuf.bytes);
    Assoc(Stream(v.frames), Header(v), v.sock.readBuf.bytes);
  }

  lemma HeaderComplete(v: Conn)
    requires Inbound(v) && v.sock.callback == ReadData
    ensures var b := Header(v) + v.sock.readBuf.bytes;
      |b| >= 4 && BigEndian(b[..4]) == v.size && b[4..] == v.sock.readBuf.bytes
      && (Complete(b) <==> |v.sock.readBuf.bytes| >= v.size)
  {
    Size32Back(v.size);
    var b := Header(v) + v.sock.readBuf.bytes;
    assert b[..4] == Size32(v.size);
  }

  /** With the timer at rest no whole frame is waiting. */
  lemma QuietMeansDone(v: Conn)
    requires Inbound(v) && Awake(v) && !v.sock.timer
    ensures v.frames == AllFrames(v.sock.received)
  {
    HandledFrames(v);
    var b := Header(v) + v.sock.readBuf.bytes;
    if v.sock.callback == ReadData {
      HeaderComplete(v);
    } else {
      assert b == v.sock.readBuf.bytes;
    }
    assert !Complete(b);
    assert v.frames + [] == v.frames;
  }

  predicate Quiet(v: Conn) {
    v.sock.state == Connected && !v.sock.timer
  }

  /** The messages delivered are exactly those of the frames handled, these are the first frames of the bytes
      received, and if the timer is at rest they are all of them. */
  predicate DeliversStream(v: Conn) {
    && AllOk(v.frames) && v.frames <= AllFrames(v.sock.received)
    && DeliveredIn(v.sock.log) == MessagesOf(v.frames)
    && (Quiet(v) ==> v.frames == AllFrames(v.sock.received))
  }

  lemma InvDelivers(v: Conn)
    requires Inv(v)
    ensures DeliversStream(v)
  {
    HandledFrames(v);
    if Quiet(v) {
      QuietMeansDone(v);
    }
  }

  /** In every run. */
  lemma Delivery(v: Conn, cfg: Config, es: seq<Event>)
    requires Start(v, cfg) && Runnable(v, cfg, es)
    ensures DeliversStream(Exec(v, cfg, es))
  {
    RunInv(v, cfg, es);
    InvDelivers(Exec(v, cfg, es));
  }

  /** Chunking does not matter: two runs, over buffers of any sizes, with any chunks and any timing, that
      received the same bytes and are quiet have delivered the same messages. */
  lemma ChunkingDoesNotMatter(v1: Conn, cfg1: Config, es1: seq<Event>, v2: Conn, cfg2: Config, es2: seq<Event>)
    requires Start(v1, cfg1) && Runnable(v1, cfg1, es1)
    requires Start(v2, cfg2) && Runnable(v2, cfg2, es2)
    requires Exec(v1, cfg1, es1).sock.received == Exec(v2, cfg2, es2).sock.received
    requires Quiet(Exec(v1, cfg1, es1)) && Quiet(Exec(v2, cfg2, es2))
    ensures DeliveredIn(Exec(v1, cfg1, es1).sock.log) == DeliveredIn(Exec(v2, cfg2, es2).sock.log)
  {
    Delivery(v1, cfg1, es1);
    Delivery(v2, cfg2, es2);
  }

  lemma {:induction false} MessagesOfPrefix(fs: seq<Frame>, gs: seq<Frame>)
    requires AllOk(gs) && fs <= gs
    ensures AllOk(fs) && MessagesOf(fs) <= MessagesOf(gs)
    decreases |gs|
  {
    if |fs| < |gs| {
      MessagesOfPrefix(fs, gs[..|gs| - 1]);
    } else {
      assert fs == gs;
    }
  }

  /** Quiet or not, of two runs over streams that extend each other one has delivered a prefix of what the
      other has. */
  lemma DeliveriesNest(v1: Conn, cfg1: Config, es1: seq<Event>, v2: Conn, cfg2: Config, es2: seq<Event>)
    requires Start(v1, cfg1) && Runnable(v1, cfg1, es1)
    requires Start(v2, cfg2) && Runnable(v2, cfg2, es2)
    requires Exec(v1, cfg1, es1).sock.received <= Exec(v2, cfg2, es2).sock.received
    ensures var d1, d2 := DeliveredIn(Exec(v1, cfg1, es1).sock.log), DeliveredIn(Exec(v2, cfg2, es2).sock.log);
      d1 <= d2 || d2 <= d1
  {
    Delivery(v1, cfg1, es1);
    Delivery(v2, cfg2, es2);
    StreamsNest(Exec(v1, cfg1, es1), Exec(v2, cfg2, es2));
  }

  lemma StreamsNest(v1: Conn, v2: Conn)
    requires DeliversStream(v1) && DeliversStream(v2) && v1.sock.received <= v2.sock.received
    ensures var d1, d2 := DeliveredIn(v1.sock.log), DeliveredIn(v2.sock.log); d1 <= d2 || d2 <= d1
  {
    var b1, b2 := v1.sock.received, v2.sock.received;
    FramesGrow(b1, b2[|b1|..]);
    assert b1 + b2[|b1|..] == b2;
    PrefixesNest(v1.frames, AllFrames(b1), v2.frames, AllFrames(b2));
  }

  lemma PrefixesNest(fs: seq<Frame>, all: seq<Frame>, gs: seq<Frame>, all': seq<Frame>)
    requires AllOk(fs) && AllOk(gs) && fs <= all <= all' && gs <= all'
    ensures MessagesOf(fs) <= MessagesOf(gs) || MessagesOf(gs) <= MessagesOf(fs)
  {
    if |fs| <= |gs| {
      MessagesOfPrefix(fs, gs);
    } else {
      MessagesOfPrefix(gs, fs);
    }
  }

  /** Neither a lost nor a premature wake-up: while connected a read is registered, and the timer is armed if
      and only if the bytes it waits for are in the buffer. */
  lemma WakeUps(v: Conn, cfg: Config, es: seq<Event>)
    requires Start(v, cfg) && Runnable(v, cfg, es)
    ensures var s := Exec(v, cfg, es).sock;
      s.state == Connected ==> s.callback != NoCallback && (s.timer <==> |s.readBuf.bytes| >= s.want)
  {
    RunInv(v, cfg, es);
  }

  /** What the timer waits for is the next frame of the stream, so on a well-formed stream its callback never
      reads outside the buffer. */
  lemma WellFormedIsSafe(v: Conn, cfg: Config, es: seq<Event>)
    requires Start(v, cfg) && Runnable(v, cfg, es)
    requires WellFormed(Exec(v, cfg, es).sock.received)
    ensures Exec(v, cfg, es).sock.timer ==> TimerOk(Exec(v, cfg, es))
  {
    RunInv(v, cfg, es);
    if Exec(v, cfg, es).sock.timer {
      NextFrameIsOk(Exec(v, cfg, es));
    }
  }

  /** The frame the timer is armed for is the next of the stream. */
  lemma NextFrame(v: Conn)
    requires Inbound(v) && v.sock.callback == ReadData && |v.sock.readBuf.bytes| >= v.size
    ensures var fs := AllFrames(v.sock.received); |fs| > |v.frames| && fs[|v.frames|] == v.sock.readBuf.bytes[..v.size]
  {
    var b := Header(v) + v.sock.readBuf.bytes;
    HandledFrames(v);
    HeaderComplete(v);
    assert First(b) == v.sock.readBuf.bytes[..v.size] by { assert b[4..4 + v.size] == b[4..][..v.size]; }
  }

  lemma NextFrameIsOk(v: Conn)
    requires Inbound(v) && Awake(v) && v.sock.timer && WellFormed(v.sock.received)
    ensures TimerOk(v)
  {
    if v.sock.callback == ReadData {
      NextFrame(v);
    }
  }
}
