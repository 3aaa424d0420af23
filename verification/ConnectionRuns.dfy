/** What holds in every run of a connection, whatever the chunks, the partial sends, the timing of the timer
    and the user's writes. */
module ConnectionRuns {
  import opened Bytes
  import opened Windows
  import opened Messages
  import opened Commands
  import opened Frames
  import opened Machine

  // ---- what a log says ---------------------------------------------------------------------------

  /** An action without the fate of the bytes. */
  datatype Item = WroteItem(kind: Kind, bytes: seq<byte>) | DeliveredItem(msg: Message)

  function ItemOf(a: Action): Item {
    match a
    case Wrote(kind, bytes, _) => WroteItem(kind, bytes)
    case Delivered(msg) => DeliveredItem(msg)
  }

  function Items(log: seq<Action>): (items: seq<Item>)
    ensures |items| == |log|
  {
    seq(|log|, i requires 0 <= i < |log| => ItemOf(log[i]))
  }

  function AcceptedOne(a: Action): seq<byte> {
    if a.Wrote? && a.accepted then a.bytes else []
  }

  /** Everything the write buffer took, in order. */
  function Accepted(log: seq<Action>): seq<byte> {
    if log == [] then [] else Accepted(log[..|log| - 1]) + AcceptedOne(log[|log| - 1])
  }

  lemma LogSnoc(log: seq<Action>, a: Action)
    ensures Items(log + [a]) == Items(log) + [ItemOf(a)]
    ensures Accepted(log + [a]) == Accepted(log) + AcceptedOne(a)
  {
    assert (log + [a])[..|log|] == log;
  }

  /** What `f` finds in the items, one after the other. */
  function Gather<B>(f: Item -> seq<B>, items: seq<Item>): seq<B> {
    if items == [] then [] else Gather(f, items[..|items| - 1]) + f(items[|items| - 1])
  }

  lemma {:induction false} GatherTwo<B>(f: Item -> seq<B>, xs: seq<Item>, ys: seq<Item>)
    ensures Gather(f, xs + ys) == Gather(f, xs) + Gather(f, ys)
  {
    if ys == [] {
      assert xs + ys == xs;
    } else {
      var init, y := ys[..|ys| - 1], ys[|ys| - 1];
      GatherTwo(f, xs, init);
      assert (xs + ys)[..|xs + ys| - 1] == xs + init;
      Assoc(Gather(f, xs), Gather(f, init), f(y));
    }
  }

  lemma GatherOne<B>(f: Item -> seq<B>, i: Item)
    ensures Gather(f, [i]) == f(i)
  {
    assert [i][..0] == [];
  }

  /** The shape of a handshake: three items, and some after the first. */
  lemma GatherFour<B>(f: Item -> seq<B>, m: seq<Item>, user: seq<Item>, s: seq<Item>, r: seq<Item>)
    ensures Gather(f, m + user + s + r) == Gather(f, m) + Gather(f, user) + Gather(f, s) + Gather(f, r)
  {
    GatherTwo(f, m, user);
    GatherTwo(f, m + user, s);
    GatherTwo(f, m + user + s, r);
  }

  function MessageIn(i: Item): seq<Message> {
    match i case DeliveredItem(msg) => [msg] case WroteItem(_, _) => []
  }

  function MessagesIn(items: seq<Item>): seq<Message> {
    Gather(MessageIn, items)
  }

  /** The messages handed to the message callback, in order. */
  function DeliveredIn(log: seq<Action>): seq<Message> {
    MessagesIn(Items(log))
  }

  function BytesIn(i: Item): seq<byte> {
    match i case WroteItem(_, bytes) => bytes case DeliveredItem(_) => []
  }

  /** All bytes written. */
  function BytesOf(items: seq<Item>): seq<byte> {
    Gather(BytesIn, items)
  }

  // ---- the fate of writes ------------------------------------------------------------------------

  predicate SmallItems(items: seq<Item>) {
    forall i <- items :: i.WroteItem? ==> |i.bytes| < TWO_31
  }

  /** A write is accepted if the write buffer `w` takes it. */
  function FateOf(w: Window, i: Item): Action
    requires i.WroteItem? ==> |i.bytes| < TWO_31
  {
    match i
    case WroteItem(kind, bytes) => Wrote(kind, bytes, Windows.Add(w, bytes).1)
    case DeliveredItem(msg) => Delivered(msg)
  }

  function Took(w: Window, i: Item): Window
    requires i.WroteItem? ==> |i.bytes| < TWO_31
  {
    match i case WroteItem(_, bytes) => Windows.Add(w, bytes).0 case DeliveredItem(_) => w
  }

  /** What becomes of the items one after the other, and the write buffer behind them. */
  function Fates(w: Window, items: seq<Item>): (log: seq<Action>)
    requires SmallItems(items)
    decreases |items|
  {
    if items == [] then [] else [FateOf(w, items[0])] + Fates(Took(w, items[0]), items[1..])
  }

  function TookAll(w: Window, items: seq<Item>): Window
    requires SmallItems(items)
    decreases |items|
  {
    if items == [] then w else TookAll(Took(w, items[0]), items[1..])
  }

  lemma {:induction false} FatesOfTwo(w: Window, xs: seq<Item>, ys: seq<Item>)
    requires SmallItems(xs) && SmallItems(ys)
    ensures SmallItems(xs + ys)
    ensures Fates(w, xs + ys) == Fates(w, xs) + Fates(TookAll(w, xs), ys)
    ensures TookAll(w, xs + ys) == TookAll(TookAll(w, xs), ys)
    decreases |xs|
  {
    if xs == [] {
      assert xs + ys == ys;
    } else {
      FatesOfTwo(Took(w, xs[0]), xs[1..], ys);
      assert (xs + ys)[1..] == xs[1..] + ys;
    }
  }

  lemma FatesOfOne(w: Window, i: Item)
    requires i.WroteItem? ==> |i.bytes| < TWO_31
    ensures SmallItems([i]) && Fates(w, [i]) == [FateOf(w, i)] && TookAll(w, [i]) == Took(w, i)
  {
    assert [i][1..] == [];
  }

  lemma {:induction false} FatesAreItems(w: Window, items: seq<Item>)
    requires SmallItems(items)
    ensures Items(Fates(w, items)) == items
    decreases |items|
  {
    if items != [] {
      FatesAreItems(Took(w, items[0]), items[1..]);
    }
  }

  // ---- what writing puts into the log ------------------------------------------------------------

  /** What a builder leaves of `c` in the command buffer `w` is written, if it is anything. */
  function Said(w: Window, kind: Kind, c: Command): (items: seq<Item>)
    requires Sized31(c)
  {
    var b := Fresh(w, c).bytes;
    if b == [] then [] else [WroteItem(kind, b)]
  }

  /** The command buffer afterwards. */
  function After(w: Window, c: Command): Window
    requires Sized31(c)
  {
    var f := Fresh(w, c);
    if f.bytes == [] then f else Windows.Reset(f)
  }

  function ActItem(w: Window, a: UserAct): seq<Item>
    requires ActOk(a)
  {
    match a
    case Raw(data) => [WroteItem(User, data)]
    case SendCommand(c) => Said(w, User, c)
  }

  function AfterAct(w: Window, a: UserAct): Window
    requires ActOk(a)
  {
    match a case Raw(_) => w case SendCommand(c) => After(w, c)
  }

  function ActItems(w: Window, acts: seq<UserAct>): seq<Item>
    requires ActsOk(acts)
    decreases |acts|
  {
    if acts == [] then [] else ActItem(w, acts[0]) + ActItems(AfterAct(w, acts[0]), acts[1..])
  }

  function AfterActs(w: Window, acts: seq<UserAct>): Window
    requires ActsOk(acts)
    decreases |acts|
  {
    if acts == [] then w else AfterActs(AfterAct(w, acts[0]), acts[1..])
  }

  /** The magic, what the user's connect callback writes, SUB, RDY. */
  function ConnectItems(w: Window, cfg: Config, acts: seq<UserAct>): seq<Item>
    requires cfg.Ok() && ActsOk(acts)
  {
    var w2 := AfterActs(w, acts);
    [WroteItem(Magic, MAGIC)] + ActItems(w, acts) + Said(w2, SubscribeKind, cfg.Sub())
    + Said(After(w2, cfg.Sub()), ReadyKind, cfg.Rdy())
  }

  /** A heartbeat is answered with NOP; a message is handed over, and its callback may write. */
  function FrameItems(w: Window, f: Frame, acts: seq<UserAct>): seq<Item>
    requires FrameOk(f) && ActsOk(acts)
  {
    if IsHeartbeat(f) then NopIsSized(); Said(w, NopKind, Nop)
    else if IsMessage(f) then [DeliveredItem(DecodeMessage(f[4..]))] + ActItems(w, acts)
    else []
  }

  /** Everything an event puts into the log. */
  function StepItems(v: Conn, cfg: Config, e: Event): seq<Item>
    requires cfg.Ok() && Enabled(v, e)
  {
    match e
    case ConnectDone(success, acts) => if success then ConnectItems(v.commandBuf, cfg, acts) else []
    case TimerFires(acts) =>
      if v.sock.callback == ReadData then FrameItems(v.commandBuf, v.sock.readBuf.bytes[..v.size], acts) else []
    case UserActs(acts) => if v.sock.state == Connected then ActItems(v.commandBuf, acts) else []
    case _ => []
  }

  function RunItems(v: Conn, cfg: Config, es: seq<Event>): seq<Item>
    requires cfg.Ok() && Runnable(v, cfg, es)
    decreases |es|
  {
    if es == [] then [] else StepItems(v, cfg, es[0]) + RunItems(Step(v, cfg, es[0]), cfg, es[1..])
  }

  lemma SaidHoldsNoMessages(w: Window, kind: Kind, c: Command)
    requires Sized31(c)
    ensures MessagesIn(Said(w, kind, c)) == []
  {
    if Said(w, kind, c) != [] {
      GatherOne(MessageIn, Said(w, kind, c)[0]);
    }
  }

  lemma ActHoldsNoMessages(w: Window, a: UserAct)
    requires ActOk(a)
    ensures MessagesIn(ActItem(w, a)) == [] && OnlyUser(ActItem(w, a))
  {
    match a
    case Raw(data) => GatherOne(MessageIn, WroteItem(User, data));
    case SendCommand(c) => SaidHoldsNoMessages(w, User, c);
  }

  predicate OnlyUser(items: seq<Item>) {
    forall i <- items :: i.WroteItem? && i.kind == User
  }

  lemma {:induction false} ActsHoldNoMessages(w: Window, acts: seq<UserAct>)
    requires ActsOk(acts)
    ensures MessagesIn(ActItems(w, acts)) == [] && OnlyUser(ActItems(w, acts))
    decreases |acts|
  {
    if acts != [] {
      var w' := AfterAct(w, acts[0]);
      ActHoldsNoMessages(w, acts[0]);
      ActsHoldNoMessages(w', acts[1..]);
      GatherTwo(MessageIn, ActItem(w, acts[0]), ActItems(w', acts[1..]));
    }
  }

  lemma ConnectHoldsNoMessages(w: Window, cfg: Config, acts: seq<UserAct>)
    requires cfg.Ok() && ActsOk(acts)
    ensures MessagesIn(ConnectItems(w, cfg, acts)) == []
  {
    var w2 := AfterActs(w, acts);
    var magic, sub := [WroteItem(Magic, MAGIC)], Said(w2, SubscribeKind, cfg.Sub());
    var rdy := Said(After(w2, cfg.Sub()), ReadyKind, cfg.Rdy());
    GatherOne(MessageIn, magic[0]);
    ActsHoldNoMessages(w, acts);
    SaidHoldsNoMessages(w2, SubscribeKind, cfg.Sub());
    SaidHoldsNoMessages(After(w2, cfg.Sub()), ReadyKind, cfg.Rdy());
    GatherFour(MessageIn, magic, ActItems(w, acts), sub, rdy);
  }

  function MessageOf(f: Frame): seq<Message>
    requires FrameOk(f)
  {
    if IsMessage(f) then [DecodeMessage(f[4..])] else []
  }

  lemma FrameHoldsItsMessage(w: Window, f: Frame, acts: seq<UserAct>)
    requires FrameOk(f) && ActsOk(acts)
    ensures MessagesIn(FrameItems(w, f, acts)) == MessageOf(f)
  {
    if IsHeartbeat(f) {
      NopIsSized();
      SaidHoldsNoMessages(w, NopKind, Nop);
    } else if IsMessage(f) {
      var d := DeliveredItem(DecodeMessage(f[4..]));
      GatherOne(MessageIn, d);
      ActsHoldNoMessages(w, acts);
      GatherTwo(MessageIn, [d], ActItems(w, acts));
    }
  }

  lemma MessagesOfSnoc(fs: seq<Frame>, f: Frame)
    requires AllOk(fs) && FrameOk(f) && |f| < TWO_32
    ensures AllOk(fs + [f]) && MessagesOf(fs + [f]) == MessagesOf(fs) + MessageOf(f)
  {
    assert (fs + [f])[..|fs|] == fs;
  }

  // ---- the invariant -----------------------------------------------------------------------------

  /** Bytes sent, then bytes pending, are the bytes accepted; and pending bytes keep the writer awake. */
  predicate Outbound(s: Socket) {
    && s.sent + s.writeBuf.bytes == Accepted(s.log)
    && (s.state == Connected && s.writeBuf.bytes != [] ==> s.writing)
    && (s.writing ==> s.state == Connected)
  }

  /** The four bytes of length that were taken off the stream ahead of their frame. */
  function Header(v: Conn): seq<byte> {
    if v.sock.callback == ReadData then Size32(v.size) else []
  }

  /** The bytes received are the frames handled, the length of the next one if it was read, and the buffer. */
  predicate Inbound(v: Conn) {
    && v.sock.received == Stream(v.frames) + Header(v) + v.sock.readBuf.bytes
    && AllOk(v.frames)
    && v.size < TWO_32
  }

  predicate AllOk(fs: seq<Frame>) {
    forall f <- fs :: |f| < TWO_32 && FrameOk(f)
  }

  /** A request is registered, for what its callback will read, and the timer is armed exactly when the
      bytes are there. */
  predicate Awake(v: Conn) {
    && v.sock.callback != NoCallback
    && v.sock.want == (if v.sock.callback == ReadSize then 4 else v.size)
    && (v.sock.timer <==> |v.sock.readBuf.bytes| >= v.sock.want)
    && v.sock.reading
  }

  /** Nothing has happened on the socket yet. */
  predicate Untouched(v: Conn) {
    && v.sock.readBuf.bytes == [] && v.sock.writeBuf.bytes == [] && v.sock.received == [] && v.sock.sent == []
    && v.sock.log == [] && v.frames == [] && v.sock.callback == NoCallback
    && !v.sock.timer && !v.sock.reading && !v.sock.writing
  }

  predicate LiveBy(v: Conn) {
    match v.sock.state
    case Init => Untouched(v)
    case Connecting => Untouched(v)
    case Connected => Awake(v)
    case Disconnected => !v.sock.timer && !v.sock.reading && !v.sock.writing
  }

  /** The messages handed over are those of the frames handled. */
  predicate Delivers(v: Conn)
    requires AllOk(v.frames)
  {
    DeliveredIn(v.sock.log) == MessagesOf(v.frames)
  }

  predicate Inv(v: Conn) {
    Outbound(v.sock) && Inbound(v) && LiveBy(v) && Delivers(v)
  }

  // ---- writing -----------------------------------------------------------------------------------

  /** `v'` comes from `v` by writing `items`, and differs at most on the way out. */
  predicate Follows(v: Conn, v': Conn, commandBuf: Window, items: seq<Item>) {
    && v' == v.(commandBuf := commandBuf,
                sock := v.sock.(writeBuf := v'.sock.writeBuf, writing := v'.sock.writing, log := v'.sock.log))
    && Outbound(v'.sock)
    && Items(v'.sock.log) == Items(v.sock.log) + items
    && HasFate(v.sock, v'.sock, items)
  }

  /** The log and the write buffer are what the fate of the items makes of them. */
  predicate HasFate(s: Socket, s': Socket, items: seq<Item>) {
    SmallItems(items) && s'.log == s.log + Fates(s.writeBuf, items) && s'.writeBuf == TookAll(s.writeBuf, items)
  }

  lemma HasFateTrans(s: Socket, s': Socket, s'': Socket, xs: seq<Item>, ys: seq<Item>)
    requires HasFate(s, s', xs) && HasFate(s', s'', ys)
    ensures HasFate(s, s'', xs + ys)
  {
    FatesOfTwo(s.writeBuf, xs, ys);
    Assoc(s.log, Fates(s.writeBuf, xs), Fates(s'.writeBuf, ys));
  }

  /** Where writing starts from. */
  predicate CanWrite(v: Conn) {
    v.sock.state == Connected && Outbound(v.sock)
  }

  lemma FollowsRefl(v: Conn)
    requires CanWrite(v)
    ensures Follows(v, v, v.commandBuf, [])
  {
    assert Items(v.sock.log) + [] == Items(v.sock.log);
    assert v.sock.log + [] == v.sock.log;
  }

  lemma FollowsTrans(u: Conn, v: Conn, w: Conn, b: Window, b': Window, xs: seq<Item>, ys: seq<Item>)
    requires Follows(u, v, b, xs) && Follows(v, w, b', ys)
    ensures Follows(u, w, b', xs + ys)
  {
    Assoc(Items(u.sock.log), xs, ys);
    HasFateTrans(u.sock, v.sock, w.sock, xs, ys);
  }

  lemma WriteEffect(s: Socket, kind: Kind, data: seq<byte>)
    requires |data| < TWO_31 && Outbound(s) && s.state == Connected
    ensures Outbound(Write(s, kind, data))
    ensures Items(Write(s, kind, data).log) == Items(s.log) + [WroteItem(kind, data)]
  {
    var (w, ok) := Windows.Add(s.writeBuf, data);
    LogSnoc(s.log, Wrote(kind, data, ok));
    if ok {
      Assoc(s.sent, s.writeBuf.bytes, data);
    } else {
      assert Accepted(s.log) + [] == Accepted(s.log);
    }
  }

  lemma WriteFollows(v: Conn, kind: Kind, data: seq<byte>)
    requires CanWrite(v) && |data| < TWO_31
    ensures Follows(v, v.(sock := Write(v.sock, kind, data)), v.commandBuf, [WroteItem(kind, data)])
  {
    WriteEffect(v.sock, kind, data);
    FatesOfOne(v.sock.writeBuf, WroteItem(kind, data));
  }

  lemma CommandFollows(v: Conn, kind: Kind, c: Command)
    requires CanWrite(v) && Sized31(c)
    ensures Follows(v, WriteCommand(v, kind, c), After(v.commandBuf, c), Said(v.commandBuf, kind, c))
  {
    FollowsRefl(v);
    WriteFollows(v, kind, Fresh(v.commandBuf, c).bytes);
  }

  lemma ActFollows(v: Conn, a: UserAct)
    requires CanWrite(v) && ActOk(a)
    ensures Follows(v, ActOne(v, a), AfterAct(v.commandBuf, a), ActItem(v.commandBuf, a))
  {
    match a
    case Raw(data) => WriteFollows(v, User, data);
    case SendCommand(c) => CommandFollows(v, User, c);
  }

  lemma {:induction false} ActsFollow(v: Conn, acts: seq<UserAct>)
    requires CanWrite(v) && ActsOk(acts)
    ensures Follows(v, ActAll(v, acts), AfterActs(v.commandBuf, acts), ActItems(v.commandBuf, acts))
    decreases |acts|
  {
    if acts == [] {
      FollowsRefl(v);
    } else {
      var v1, w1 := ActOne(v, acts[0]), AfterAct(v.commandBuf, acts[0]);
      ActFollows(v, acts[0]);
      ActsFollow(v1, acts[1..]);
      FollowsTrans(v, v1, ActAll(v, acts), w1, AfterActs(w1, acts[1..]),
                   ActItem(v.commandBuf, acts[0]), ActItems(w1, acts[1..]));
    }
  }

  /** Before the connection is made, and after it is closed, writing leaves the socket alone. */
  lemma {:induction false} ActsWithoutConnection(v: Conn, acts: seq<UserAct>)
    requires v.sock.state != Connected && ActsOk(acts)
    ensures ActAll(v, acts) == v.(commandBuf := AfterActs(v.commandBuf, acts))
    decreases |acts|
  {
    if acts != [] {
      assert ActOk(acts[0]);
      ActsWithoutConnection(ActOne(v, acts[0]), acts[1..]);
    }
  }

  // ---- every step keeps the invariant: reading ---------------------------------------------------

  /** What a read event can do to a connected socket: put `c` into the buffer, arm the timer, or close. */
  lemma ReadableEffect(s: Socket, pending: int, result: int, chunk: seq<byte>, retry: bool) returns (c: seq<byte>)
    requires |chunk| == Max(result, 0) <= Wanted(pending) && s.state == Connected
    ensures var s' := OnReadable(s, pending, result, chunk, retry);
      && s'.received == s.received + c && s'.readBuf.bytes == s.readBuf.bytes + c
      && s' == s.(readBuf := s'.readBuf, received := s'.received, state := s'.state, fd := s'.fd,
                  timer := s'.timer, reading := s'.reading, writing := s'.writing)
      && (s'.state == Connected || (s'.state == Disconnected && !s'.timer && !s'.reading && !s'.writing))
      && (s'.state == Connected ==>
            s'.reading == s.reading && s'.writing == s.writing
            && (s'.timer <==> s.timer || (c != [] && s.want > 0 && |s'.readBuf.bytes| >= s.want)))
  {
    var (w, ok) := Receive(s.readBuf, pending, chunk);
    c := if ok then chunk else [];
    assert s.received + [] == s.received && s.readBuf.bytes + [] == s.readBuf.bytes;
  }

  lemma ReadableKeepsInv(v: Conn, pending: int, result: int, chunk: seq<byte>, retry: bool)
    requires Inv(v) && v.sock.reading && |chunk| == Max(result, 0) <= Wanted(pending)
    ensures Inv(v.(sock := OnReadable(v.sock, pending, result, chunk, retry)))
  {
    var c := ReadableEffect(v.sock, pending, result, chunk, retry);
    Assoc(Stream(v.frames) + Header(v), v.sock.readBuf.bytes, c);
  }

  // ---- every step keeps the invariant: writing ---------------------------------------------------

  lemma DrainBytes(w: Window, n: nat)
    ensures n <= |w.bytes| ==> Drain(w, n).bytes == w.bytes[n..]
  {
  }

  lemma WritableEffect(s: Socket, result: int, retry: bool)
    requires result <= |s.writeBuf.bytes| && s.state == Connected
    ensures var s' := OnWritable(s, result, retry);
      && s'.sent + s'.writeBuf.bytes == s.sent + s.writeBuf.bytes
      && s' == s.(writeBuf := s'.writeBuf, sent := s'.sent, state := s'.state, fd := s'.fd,
                  timer := s'.timer, reading := s'.reading, writing := s'.writing)
      && (s'.state == Connected || (s'.state == Disconnected && !s'.timer && !s'.reading && !s'.writing))
      && (s'.state == Connected ==>
            s'.reading == s.reading && s'.timer == s.timer && s'.writing == (s.writing && s'.writeBuf.bytes != []))
  {
    var b, k := s.writeBuf.bytes, Max(result, 0);
    DrainBytes(s.writeBuf, k);
    assert b == b[..k] + b[k..];
    Assoc(s.sent, b[..k], b[k..]);
    assert b[..0] == [] && s.sent + [] == s.sent;
  }

  lemma WritableKeepsInv(v: Conn, result: int, retry: bool)
    requires Inv(v) && v.sock.writing && result <= |v.sock.writeBuf.bytes|
    ensures Inv(v.(sock := OnWritable(v.sock, result, retry)))
  {
    WritableEffect(v.sock, result, retry);
  }

  // ---- every step keeps the invariant: the timer -------------------------------------------------

  lemma SizeEffect(v: Conn)
    requires |v.sock.readBuf.bytes| >= 4
    ensures var v' := OnSize(v.(sock := TakeRequest(v.sock)));
      && v' == v.(size := v'.size, sock := v.sock.(readBuf := v'.sock.readBuf, callback := ReadData, want := v'.size,
                  timer := |v'.sock.readBuf.bytes| >= v'.size))
      && v'.size < TWO_32 && v.sock.readBuf.bytes == Size32(v'.size) + v'.sock.readBuf.bytes
  {
    var b := v.sock.readBuf.bytes;
    Value32(b[..4]);
    DrainBytes(v.sock.readBuf, 4);
    assert b == b[..4] + b[4..];
  }

  lemma SizeKeepsInv(v: Conn)
    requires Inv(v) && TimerOk(v) && v.sock.callback == ReadSize
    ensures Inv(OnSize(v.(sock := TakeRequest(v.sock))))
  {
    SizeEffect(v);
    var v' := OnSize(v.(sock := TakeRequest(v.sock)));
    assert Stream(v.frames) + [] == Stream(v.frames);
    Assoc(Stream(v.frames), Size32(v'.size), v'.sock.readBuf.bytes);
  }

  /** The answer to a frame, inside its handler. */
  lemma HandleFollows(v: Conn, f: Frame, acts: seq<UserAct>) returns (w: Window)
    requires FrameOk(f) && ActsOk(acts) && CanWrite(v)
    ensures Follows(v, Handle(v, f, acts), w, FrameItems(v.commandBuf, f, acts))
  {
    w := v.commandBuf;
    if IsHeartbeat(f) {
      NopIsSized();
      CommandFollows(v, NopKind, Nop);
      w := After(w, Nop);
    } else if IsMessage(f) {
      var a := Delivered(DecodeMessage(f[4..]));
      LogSnoc(v.sock.log, a);
      assert Accepted(v.sock.log) + [] == Accepted(v.sock.log);
      var v1 := v.(sock := v.sock.(log := v.sock.log + [a]));
      FatesOfOne(v.sock.writeBuf, ItemOf(a));
      ActsFollow(v1, acts);
      w := AfterActs(w, acts);
      FollowsTrans(v, v1, Handle(v, f, acts), v.commandBuf, w, [ItemOf(a)], ActItems(v.commandBuf, acts));
    } else {
      FollowsRefl(v);
    }
  }

  lemma DrainTwice(w: Window, n: nat)
    requires 4 <= n <= |w.bytes|
    ensures Drain(Drain(w, 4), n - 4).bytes == w.bytes[n..]
  {
    DrainBytes(w, 4);
    DrainBytes(Drain(w, 4), n - 4);
    assert w.bytes[4..][n - 4..] == w.bytes[n..];
  }

  /** How `v'` follows `v` when the frame at the front of the buffer is handled. */
  predicate HasHandled(v: Conn, v': Conn, items: seq<Item>)
    requires FrameReady(v)
  {
    var f := v.sock.readBuf.bytes[..v.size];
    && Outbound(v'.sock) && HasFate(v.sock, v'.sock, items)
    && Items(v'.sock.log) == Items(v.sock.log) + items
    && v'.frames == v.frames + [f] && v'.size == v.size - 4
    && v'.sock.readBuf.bytes == v.sock.readBuf.bytes[v.size..]
    && v'.sock.callback == ReadSize && v'.sock.want == 4 && v'.sock.timer == (|v'.sock.readBuf.bytes| >= 4)
    && v'.sock.state == Connected && v'.sock.reading == v.sock.reading && v'.sock.received == v.sock.received
  }

  lemma DropBodyEffect(v: Conn)
    ensures var v' := DropBody(v);
      v' == v.(sock := v.sock.(readBuf := Drain(v.sock.readBuf, v.size), callback := ReadSize, want := 4,
                               timer := v.sock.timer || |Drain(v.sock.readBuf, v.size).bytes| >= 4))
      && (Outbound(v.sock) ==> Outbound(v'.sock))
  {
  }

  lemma DropHandled(v: Conn, v2: Conn, items: seq<Item>)
    requires FrameReady(v) && v2.size == v.size - 4 && v2.frames == v.frames + [v.sock.readBuf.bytes[..v.size]]
    requires v2.sock.readBuf == Drain(v.sock.readBuf, 4)
    requires Outbound(v2.sock) && Items(v2.sock.log) == Items(v.sock.log) + items && HasFate(v.sock, v2.sock, items)
    requires v2.sock.state == Connected && v2.sock.reading == v.sock.reading && v2.sock.received == v.sock.received
    requires !v2.sock.timer
    ensures HasHandled(v, DropBody(v2), items)
  {
    DrainTwice(v.sock.readBuf, v.size);
    DropBodyEffect(v2);
  }

  lemma DataEffect(v: Conn, acts: seq<UserAct>)
    requires FrameReady(v) && ActsOk(acts) && CanWrite(v)
    ensures HasHandled(v, OnData(v.(sock := TakeRequest(v.sock)), acts),
                       FrameItems(v.commandBuf, v.sock.readBuf.bytes[..v.size], acts))
  {
    var f := v.sock.readBuf.bytes[..v.size];
    var v1 := TakeType(v.(sock := TakeRequest(v.sock)));
    var w := HandleFollows(v1, f, acts);
    DropHandled(v, Handle(v1, f, acts), FrameItems(v.commandBuf, f, acts));
  }

  /** In the stream the frame moves from the buffer to the frames handled. */
  lemma FrameMoves(fs: seq<Frame>, n: nat, b: seq<byte>)
    requires n <= |b|
    ensures Stream(fs) + Size32(n) + b == Stream(fs + [b[..n]]) + [] + b[n..]
  {
    var f := b[..n];
    StreamSnoc(fs, f);
    assert b == f + b[n..];
    Assoc(Stream(fs) + Size32(n), f, b[n..]);
    Assoc(Stream(fs), Size32(n), f);
    assert Stream(fs + [f]) + [] == Stream(fs + [f]);
  }

  lemma HandledInbound(v: Conn, v': Conn)
    requires Inbound(v) && FrameReady(v) && v.sock.callback == ReadData
    requires v'.frames == v.frames + [v.sock.readBuf.bytes[..v.size]] && v'.size < TWO_32
    requires v'.sock.readBuf.bytes == v.sock.readBuf.bytes[v.size..]
    requires v'.sock.callback == ReadSize && v'.sock.received == v.sock.received
    ensures Inbound(v')
  {
    FrameMoves(v.frames, v.size, v.sock.readBuf.bytes);
  }

  lemma HandledDelivers(v: Conn, v': Conn, acts: seq<UserAct>)
    requires AllOk(v.frames) && FrameReady(v) && v.size < TWO_32 && ActsOk(acts) && Delivers(v)
    requires HasHandled(v, v', FrameItems(v.commandBuf, v.sock.readBuf.bytes[..v.size], acts))
    ensures AllOk(v'.frames) && Delivers(v')
  {
    var f := v.sock.readBuf.bytes[..v.size];
    MessagesOfSnoc(v.frames, f);
    FrameHoldsItsMessage(v.commandBuf, f, acts);
    GatherTwo(MessageIn, Items(v.sock.log), FrameItems(v.commandBuf, f, acts));
  }

  lemma HandledInv(v: Conn, v': Conn, acts: seq<UserAct>)
    requires Inv(v) && v.sock.callback == ReadData && FrameReady(v) && v.sock.state == Connected && ActsOk(acts)
    requires HasHandled(v, v', FrameItems(v.commandBuf, v.sock.readBuf.bytes[..v.size], acts))
    ensures Inv(v')
  {
    HandledInbound(v, v');
    HandledDelivers(v, v', acts);
  }

  // ---- every step keeps the invariant: the rest --------------------------------------------------

  /** How `v'` follows `v` when the handshake is over. */
  predicate HasConnected(v: Conn, v': Conn, items: seq<Item>) {
    && Outbound(v'.sock) && Items(v'.sock.log) == items && HasFate(v.sock, v'.sock, items)
    && v'.sock.state == Connected && v'.sock.reading && v'.sock.callback == ReadSize && v'.sock.want == 4
    && v'.sock.timer == (v.sock.timer || |v'.sock.readBuf.bytes| >= 4)
    && v'.sock.readBuf == v.sock.readBuf && v'.sock.received == v.sock.received
    && v'.frames == v.frames && v'.size == v.size
  }

  /** What is written on connecting. */
  lemma ConnectFollows(v: Conn, cfg: Config, acts: seq<UserAct>) returns (w: Window)
    requires cfg.Ok() && ActsOk(acts) && CanWrite(v)
    ensures var v1 := v.(sock := Write(v.sock, Magic, MAGIC)); var v2 := ActAll(v1, acts);
      var v3 := WriteCommand(v2, SubscribeKind, cfg.Sub());
      Follows(v, WriteCommand(v3, ReadyKind, cfg.Rdy()), w, ConnectItems(v.commandBuf, cfg, acts))
  {
    var b, magic := v.commandBuf, [WroteItem(Magic, MAGIC)];
    var v1 := v.(sock := Write(v.sock, Magic, MAGIC));
    WriteFollows(v, Magic, MAGIC);
    var v2, w2 := ActAll(v1, acts), AfterActs(b, acts);
    ActsFollow(v1, acts);
    FollowsTrans(v, v1, v2, b, w2, magic, ActItems(b, acts));
    var v3, w3 := WriteCommand(v2, SubscribeKind, cfg.Sub()), After(w2, cfg.Sub());
    CommandFollows(v2, SubscribeKind, cfg.Sub());
    FollowsTrans(v, v2, v3, w2, w3, magic + ActItems(b, acts), Said(w2, SubscribeKind, cfg.Sub()));
    w := After(w3, cfg.Rdy());
    CommandFollows(v3, ReadyKind, cfg.Rdy());
    FollowsTrans(v, v3, WriteCommand(v3, ReadyKind, cfg.Rdy()), w3, w,
                 magic + ActItems(b, acts) + Said(w2, SubscribeKind, cfg.Sub()), Said(w3, ReadyKind, cfg.Rdy()));
  }

  lemma ConnectEffect(v: Conn, cfg: Config, acts: seq<UserAct>)
    requires cfg.Ok() && ActsOk(acts) && Outbound(v.sock)
    requires v.sock.log == [] && v.sock.writeBuf.bytes == []
    ensures HasConnected(v, OnConnected(v, cfg, acts), ConnectItems(v.commandBuf, cfg, acts))
  {
    var w := ConnectFollows(v.(sock := BecomeConnected(v.sock)), cfg, acts);
    var items := ConnectItems(v.commandBuf, cfg, acts);
    assert [] + items == items;
  }

  lemma ConnectedInv(v: Conn, v': Conn, items: seq<Item>)
    requires Inbound(v) && Untouched(v) && HasConnected(v, v', items) && MessagesIn(items) == []
    ensures Inv(v')
  {
  }

  lemma TimerKeepsInv(v: Conn, acts: seq<UserAct>)
    requires Inv(v) && ActsOk(acts) && TimerOk(v)
    ensures Inv(OnTimer(v, acts))
  {
    if v.sock.callback == ReadSize {
      SizeKeepsInv(v);
    } else {
      DataEffect(v, acts);
      HandledInv(v, OnTimer(v, acts), acts);
    }
  }

  lemma ActsKeepInv(v: Conn, acts: seq<UserAct>)
    requires Inv(v) && ActsOk(acts)
    ensures Inv(ActAll(v, acts))
  {
    if v.sock.state == Connected {
      ActsFollow(v, acts);
      ActsHoldNoMessages(v.commandBuf, acts);
      GatherTwo(MessageIn, Items(v.sock.log), ActItems(v.commandBuf, acts));
      assert DeliveredIn(v.sock.log) + [] == DeliveredIn(v.sock.log);
    } else {
      ActsWithoutConnection(v, acts);
    }
  }

  lemma InboundKept(v: Conn, v': Conn)
    requires Inbound(v) && v'.frames == v.frames && v'.size == v.size && Header(v') == Header(v)
    requires v'.sock.received == v.sock.received && v'.sock.readBuf.bytes == v.sock.readBuf.bytes
    ensures Inbound(v')
  {
  }

  lemma CloseEffect(s: Socket)
    requires s.state == Connecting ==> !s.reading && !s.writing
    requires s.state == Disconnected ==> !s.timer && !s.reading && !s.writing
    ensures Close(s) ==
      s.(state := Disconnected, fd := Close(s).fd, timer := false, reading := false, writing := false)
  {
  }

  lemma CloseKeepsInv(v: Conn)
    requires Inv(v)
    ensures Inv(v.(sock := Close(v.sock)))
  {
    CloseEffect(v.sock);
    var v' := v.(sock := Close(v.sock));
    InboundKept(v, v');
    assert Outbound(v'.sock) && LiveBy(v');
  }

  lemma StepKeepsInv(v: Conn, cfg: Config, e: Event)
    requires cfg.Ok() && Inv(v) && Enabled(v, e)
    ensures Inv(Step(v, cfg, e))
  {
    match e
    case Connect(_, _, _) =>
    case ConnectDone(success, acts) =>
      if success {
        ConnectEffect(v, cfg, acts);
        ConnectHoldsNoMessages(v.commandBuf, cfg, acts);
        ConnectedInv(v, Step(v, cfg, e), ConnectItems(v.commandBuf, cfg, acts));
      } else {
        CloseKeepsInv(v);
      }
    case Readable(pending, result, chunk, retry) => ReadableKeepsInv(v, pending, result, chunk, retry);
    case Writable(result, retry) => WritableKeepsInv(v, result, retry);
    case TimerFires(acts) => TimerKeepsInv(v, acts);
    case UserActs(acts) => ActsKeepInv(v, acts);
    case Shut => CloseKeepsInv(v);
  }

  lemma {:induction false} RunKeepsInv(v: Conn, cfg: Config, es: seq<Event>)
    requires cfg.Ok() && Inv(v) && Runnable(v, cfg, es)
    ensures Inv(Exec(v, cfg, es))
    decreases |es|
  {
    if es != [] {
      StepKeepsInv(v, cfg, es[0]);
      RunKeepsInv(Step(v, cfg, es[0]), cfg, es[1..]);
    }
  }

  lemma InitialInv(v: Conn)
    requires Initial(v)
    ensures Inv(v)
  {
  }

  // ---- the log of a run --------------------------------------------------------------------------

  lemma ReadingIsSilent(s: Socket, pending: int, result: int, chunk: seq<byte>, retry: bool)
    requires |chunk| == Max(result, 0) <= Wanted(pending)
    ensures OnReadable(s, pending, result, chunk, retry).log == s.log
  {
  }

  lemma SendingIsSilent(s: Socket, result: int, retry: bool)
    requires result <= |s.writeBuf.bytes|
    ensures OnWritable(s, result, retry).log == s.log
  {
  }

  lemma NothingAdded(items: seq<Item>)
    ensures items + [] == items
  {
  }

  lemma TimerLogs(v: Conn, cfg: Config, acts: seq<UserAct>)
    requires cfg.Ok() && Inv(v) && Enabled(v, TimerFires(acts))
    ensures Items(OnTimer(v, acts).sock.log) == Items(v.sock.log) + StepItems(v, cfg, TimerFires(acts))
  {
    if v.sock.callback == ReadSize {
      SizeEffect(v);
      NothingAdded(Items(v.sock.log));
    } else {
      DataEffect(v, acts);
    }
  }

  lemma ConnectedLogs(v: Conn, v': Conn, items: seq<Item>)
    requires HasConnected(v, v', items) && v.sock.log == []
    ensures Items(v'.sock.log) == Items(v.sock.log) + items
  {
    assert [] + items == items;
  }

  lemma ActsLog(v: Conn, acts: seq<UserAct>)
    requires Inv(v) && ActsOk(acts)
    ensures Items(ActAll(v, acts).sock.log)
      == Items(v.sock.log) + if v.sock.state == Connected then ActItems(v.commandBuf, acts) else []
  {
    if v.sock.state == Connected {
      ActsFollow(v, acts);
    } else {
      ActsWithoutConnection(v, acts);
      NothingAdded(Items(v.sock.log));
    }
  }

  lemma NoFate(s: Socket, s': Socket)
    requires s'.log == s.log && s'.writeBuf == s.writeBuf
    ensures HasFate(s, s', [])
  {
    assert s.log + [] == s.log;
  }

  lemma TimerFates(v: Conn, cfg: Config, acts: seq<UserAct>)
    requires cfg.Ok() && Inv(v) && Enabled(v, TimerFires(acts))
    ensures HasFate(v.sock, OnTimer(v, acts).sock, StepItems(v, cfg, TimerFires(acts)))
  {
    if v.sock.callback == ReadSize {
      SizeEffect(v);
      NoFate(v.sock, OnTimer(v, acts).sock);
    } else {
      DataEffect(v, acts);
    }
  }

  lemma ActsFates(v: Conn, acts: seq<UserAct>)
    requires Inv(v) && ActsOk(acts)
    ensures HasFate(v.sock, ActAll(v, acts).sock,
                       if v.sock.state == Connected then ActItems(v.commandBuf, acts) else [])
  {
    if v.sock.state == Connected {
      ActsFollow(v, acts);
    } else {
      ActsWithoutConnection(v, acts);
      NoFate(v.sock, ActAll(v, acts).sock);
    }
  }

  lemma ReadingLeavesWriting(s: Socket, pending: int, result: int, chunk: seq<byte>, retry: bool)
    requires |chunk| == Max(result, 0) <= Wanted(pending)
    ensures HasFate(s, OnReadable(s, pending, result, chunk, retry), [])
  {
    ReadingIsSilent(s, pending, result, chunk, retry);
    NoFate(s, OnReadable(s, pending, result, chunk, retry));
  }

  lemma ConnectFates(v: Conn, cfg: Config, success: bool, acts: seq<UserAct>)
    requires cfg.Ok() && Inv(v) && Enabled(v, ConnectDone(success, acts))
    ensures var e := ConnectDone(success, acts);
      HasFate(v.sock, Step(v, cfg, e).sock, StepItems(v, cfg, e))
  {
    if success {
      ConnectEffect(v, cfg, acts);
    } else {
      NoFate(v.sock, Close(v.sock));
    }
  }

  /** What an event other than sending writes is accepted as far as the write buffer takes it. */
  lemma StepFates(v: Conn, cfg: Config, e: Event)
    requires cfg.Ok() && Inv(v) && Enabled(v, e) && !e.Writable?
    ensures HasFate(v.sock, Step(v, cfg, e).sock, StepItems(v, cfg, e))
  {
    match e
    case ConnectDone(success, acts) => ConnectFates(v, cfg, success, acts);
    case Readable(pending, result, chunk, retry) => ReadingLeavesWriting(v.sock, pending, result, chunk, retry);
    case TimerFires(acts) => TimerFates(v, cfg, acts);
    case UserActs(acts) => ActsFates(v, acts);
    case Connect(_, _, _) => NoFate(v.sock, Step(v, cfg, e).sock);
    case Shut => NoFate(v.sock, Close(v.sock));
  }

  /** An event adds its items to the log, and nothing else. */
  lemma StepLogs(v: Conn, cfg: Config, e: Event)
    requires cfg.Ok() && Inv(v) && Enabled(v, e)
    ensures Items(Step(v, cfg, e).sock.log) == Items(v.sock.log) + StepItems(v, cfg, e)
  {
    NothingAdded(Items(v.sock.log));
    match e
    case ConnectDone(success, acts) =>
      if success {
        ConnectEffect(v, cfg, acts);
        ConnectedLogs(v, Step(v, cfg, e), ConnectItems(v.commandBuf, cfg, acts));
      }
    case Readable(pending, result, chunk, retry) => ReadingIsSilent(v.sock, pending, result, chunk, retry);
    case Writable(result, retry) => SendingIsSilent(v.sock, result, retry);
    case TimerFires(acts) => TimerLogs(v, cfg, acts);
    case UserActs(acts) => ActsLog(v, acts);
    case _ =>
  }

  lemma {:induction false} RunLogs(v: Conn, cfg: Config, es: seq<Event>)
    requires cfg.Ok() && Inv(v) && Runnable(v, cfg, es)
    ensures Items(Exec(v, cfg, es).sock.log) == Items(v.sock.log) + RunItems(v, cfg, es)
    decreases |es|
  {
    if es == [] {
      NothingAdded(Items(v.sock.log));
    } else {
      var v' := Step(v, cfg, es[0]);
      StepKeepsInv(v, cfg, es[0]);
      StepLogs(v, cfg, es[0]);
      RunLogs(v', cfg, es[1..]);
      Assoc(Items(v.sock.log), StepItems(v, cfg, es[0]), RunItems(v', cfg, es[1..]));
    }
  }
}
