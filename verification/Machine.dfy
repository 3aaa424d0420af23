/** A connection to nsqd as a step system: the socket of buffered_socket.c with its two buffers, watchers and
    one-shot timer, driven by the callbacks of nsqd_connection.c and `nsq_reader_connect_cb`.  The classes
    `BufferedSockets.BufferedSocket` and `NsqdConnections.NsqdConnection` are proved against these steps. */
module Machine {
  import opened Bytes
  import opened Windows
  import opened Messages
  import opened Commands
  import opened Builders
  import opened Frames

  datatype State = Init | Connecting | Connected | Disconnected

  /** What `read_bytes_callback` points to. */
  datatype Callback = NoCallback | ReadSize | ReadData

  /** Who wrote. */
  datatype Kind = Magic | SubscribeKind | ReadyKind | NopKind | User

  /** What the connection did to the outside, in order. */
  datatype Action =
    | Wrote(kind: Kind, bytes: seq<byte>, accepted: bool)
    | Delivered(msg: Message)

  /** The last three fields are history. */
  datatype Socket = Socket(
    state: State, fd: int,
    readBuf: Window, writeBuf: Window,
    callback: Callback, want: nat, timer: bool,
    reading: bool, writing: bool,
    received: seq<byte>, sent: seq<byte>, log: seq<Action>)

  // ---- buffered_socket.c -------------------------------------------------------------------------

  function NewSocket(readBuf: Window, writeBuf: Window): Socket {
    Socket(Init, -1, readBuf, writeBuf, NoCallback, 0, false, false, false, [], [], [])
  }

  /** `buffered_socket_connect`, with what the system calls answer: whether the address resolves, the descriptor (-1 if
      there is none), and whether that could be made non-blocking and its connection begun.  A descriptor that is of no
      use is stored all the same. */
  function BeginConnect(s: Socket, resolved: bool, newFd: int, usable: bool): Socket {
    if s.state == Connected || s.state == Connecting || !resolved then s
    else if newFd >= 0 && usable then s.(fd := newFd, state := Connecting)
    else s.(fd := newFd)
  }

  /** `buffered_socket_close`. */
  function Close(s: Socket): Socket {
    if s.state == Disconnected then s
    else
      var stopped := if s.state == Connecting then s else s.(reading := false, writing := false);
      stopped.(fd := -1, state := Disconnected, timer := false)
  }

  /** `buffered_socket_write`: the write watcher starts whether or not the buffer took the bytes. */
  function Write(s: Socket, kind: Kind, data: seq<byte>): Socket
    requires |data| < TWO_31
  {
    if s.state != Connected then s
    else
      var (w, ok) := Windows.Add(s.writeBuf, data);
      s.(writeBuf := w, writing := true, log := s.log + [Wrote(kind, data, ok)])
  }

  /** `buffered_socket_read_bytes`. */
  function Request(s: Socket, n: nat, callback: Callback): Socket {
    s.(callback := callback, want := n, timer := s.timer || |s.readBuf.bytes| >= n)
  }

  /** `buffered_socket_read_cb`, with what FIONREAD, `recv` and `errno` answer. */
  function OnReadable(s: Socket, pending: int, result: int, chunk: seq<byte>, retry: bool): Socket
    requires |chunk| == Max(result, 0) <= Wanted(pending)
  {
    var (w, ok) := Receive(s.readBuf, pending, chunk);
    var n := if ok then result else -1;
    var s' := if ok then s.(readBuf := w, received := s.received + chunk) else s;
    if n < 0 && retry then s'
    else if n <= 0 then Close(s')
    else if s'.want > 0 && |s'.readBuf.bytes| >= s'.want then s'.(timer := true)
    else s'
  }

  /** `buffered_socket_write_cb`, with what `send` and `errno` answer. */
  function OnWritable(s: Socket, result: int, retry: bool): Socket
    requires result <= |s.writeBuf.bytes|
  {
    var k := Max(result, 0);
    var s1 := s.(writeBuf := Apply(s.writeBuf, SendOp(k)), sent := s.sent + s.writeBuf.bytes[..k]);
    var s2 := if s1.writeBuf.bytes == [] then s1.(writing := false) else s1;
    if result < 0 && retry then s2
    else if result <= 0 then Close(s2)
    else s2
  }

  /** `buffered_socket_read_bytes_cb` up to the call: the one-shot timer and the request are cleared. */
  function TakeRequest(s: Socket): Socket {
    s.(timer := false, callback := NoCallback, want := 0)
  }

  /** `buffer_drain` on the read buffer. */
  function DrainRead(s: Socket, n: nat): Socket {
    s.(readBuf := Drain(s.readBuf, n))
  }

  /** `buffered_socket_connect_cb` up to the user's callback. */
  function BecomeConnected(s: Socket): Socket {
    s.(state := Connected, reading := true, writing := false)
  }

  // ---- nsqd_connection.c -------------------------------------------------------------------------

  /** `size` and `frameType` are `current_msg_size` and `current_frame_type`; `frames` is history: the frames
      read so far. */
  datatype Conn = Conn(sock: Socket, commandBuf: Window, size: nat, frameType: nat, frames: seq<Frame>)

  /** What user code does inside or outside a callback: write bytes, or build a command in the connection's
      command buffer and write that, as the sample client does. */
  datatype UserAct = Raw(data: seq<byte>) | SendCommand(c: Command)

  predicate Sized31(c: Command) {
    Small(Pieces(c)) && |Encode(c)| < TWO_31
  }

  predicate ActOk(a: UserAct) {
    match a
    case Raw(data) => |data| < TWO_31
    case SendCommand(c) => Sized31(c)
  }

  predicate ActsOk(acts: seq<UserAct>) {
    forall a <- acts :: ActOk(a)
  }

  /** The command buffer with `c` built in it after a reset. */
  function Fresh(w: Window, c: Command): (w': Window)
    requires Sized31(c)
    ensures |w'.bytes| < TWO_31
  {
    AddAllIsNoLonger(Windows.Reset(w), Pieces(c));
    FlatPieces(c);
    Built(Windows.Reset(w), c)
  }

  /** `buffer_reset`, a builder, `buffered_socket_write_buffer`. */
  function WriteCommand(v: Conn, kind: Kind, c: Command): Conn
    requires Sized31(c)
  {
    var w := Fresh(v.commandBuf, c);
    if |w.bytes| > 0 then
      v.(sock := Write(v.sock, kind, w.bytes), commandBuf := Windows.Reset(w))
    else
      v.(commandBuf := w)
  }

  function ActOne(v: Conn, a: UserAct): Conn
    requires ActOk(a)
  {
    match a
    case Raw(data) => v.(sock := Write(v.sock, User, data))
    case SendCommand(c) => WriteCommand(v, User, c)
  }

  function ActAll(v: Conn, acts: seq<UserAct>): Conn
    requires ActsOk(acts)
    decreases |acts|
  {
    if acts == [] then v else ActAll(ActOne(v, acts[0]), acts[1..])
  }

  /** `  V2` */
  const MAGIC: seq<byte> := [32, 32, 86, 50]

  /** What the reader subscribes to (`rdr->topic`, `rdr->channel`, `rdr->max_in_flight`). */
  datatype Config = Config(topic: cstring, channel: cstring, maxInFlight: cint) {
    function Sub(): Command { Subscribe(topic, channel) }
    function Rdy(): Command { Ready(maxInFlight) }
    predicate Ok() { Sized31(Sub()) && Sized31(Rdy()) }
  }

  lemma NopIsSized()
    ensures Sized31(Nop)
  {
    assert Pieces(Nop) == [NOP, [NEWLINE]];
  }

  /** `buffered_socket_connect_cb` on success: `nsqd_connection_connect_cb` around `nsq_reader_connect_cb`,
      whose user callback does `acts`. */
  function OnConnected(v: Conn, cfg: Config, acts: seq<UserAct>): Conn
    requires cfg.Ok() && ActsOk(acts)
  {
    var v1 := v.(sock := Write(BecomeConnected(v.sock), Magic, MAGIC));
    var v2 := ActAll(v1, acts);
    var v3 := WriteCommand(v2, SubscribeKind, cfg.Sub());
    var v4 := WriteCommand(v3, ReadyKind, cfg.Rdy());
    v4.(sock := Request(v4.sock, 4, ReadSize))
  }

  /** `nsqd_connection_read_size`. */
  function OnSize(v: Conn): Conn
    requires |v.sock.readBuf.bytes| >= 4
  {
    var n := BigEndian(v.sock.readBuf.bytes[..4]);
    v.(sock := Request(DrainRead(v.sock, 4), n, ReadData), size := n)
  }

  /** The frame is in the read buffer, and it is one the connection is made for. */
  predicate FrameReady(v: Conn) {
    v.size <= |v.sock.readBuf.bytes| && FrameOk(v.sock.readBuf.bytes[..v.size])
  }

  /** The `switch` of `nsqd_connection_read_data`; `acts` is what the message callback does. */
  function Handle(v: Conn, f: Frame, acts: seq<UserAct>): Conn
    requires FrameOk(f) && ActsOk(acts)
  {
    if IsHeartbeat(f) then
      NopIsSized();
      WriteCommand(v, NopKind, Nop)
    else if IsMessage(f) then
      ActAll(v.(sock := v.sock.(log := v.sock.log + [Delivered(DecodeMessage(f[4..]))])), acts)
    else v
  }

  /** `nsqd_connection_read_data` up to its `switch`. */
  function TakeType(v: Conn): Conn
    requires FrameReady(v)
  {
    var f := v.sock.readBuf.bytes[..v.size];
    v.(sock := DrainRead(v.sock, 4),
       size := v.size - 4, frameType := FrameType(f), frames := v.frames + [f])
  }

  /** `nsqd_connection_read_data` after its `switch`. */
  function DropBody(v: Conn): Conn {
    v.(sock := Request(DrainRead(v.sock, v.size), 4, ReadSize))
  }

  /** `nsqd_connection_read_data`. */
  function OnData(v: Conn, acts: seq<UserAct>): Conn
    requires FrameReady(v) && ActsOk(acts)
  {
    DropBody(Handle(TakeType(v), v.sock.readBuf.bytes[..v.size], acts))
  }

  /** The timer may be let fire: what the registered callback reads is there. */
  predicate TimerOk(v: Conn) {
    && v.sock.timer
    && match v.sock.callback
       case NoCallback => false
       case ReadSize => |v.sock.readBuf.bytes| >= 4
       case ReadData => FrameReady(v)
  }

  function OnTimer(v: Conn, acts: seq<UserAct>): Conn
    requires TimerOk(v) && ActsOk(acts)
  {
    var v' := v.(sock := TakeRequest(v.sock));
    if v.sock.callback == ReadSize then OnSize(v') else OnData(v', acts)
  }

  // ---- events and runs ---------------------------------------------------------------------------

  datatype Event =
    | Connect(resolved: bool, newFd: int, usable: bool)
    | ConnectDone(success: bool, acts: seq<UserAct>)
    | Readable(pending: int, result: int, chunk: seq<byte>, retry: bool)
    | Writable(result: int, retry: bool)
    | TimerFires(acts: seq<UserAct>)
    | UserActs(acts: seq<UserAct>)
    | Shut

  predicate Enabled(v: Conn, e: Event) {
    match e
    case Connect(_, newFd, _) => v.sock.state == Init && newFd >= -1
    case ConnectDone(_, acts) => v.sock.state == Connecting && ActsOk(acts)
    case Readable(pending, result, chunk, _) => v.sock.reading && |chunk| == Max(result, 0) <= Wanted(pending)
    case Writable(result, _) => v.sock.writing && result <= |v.sock.writeBuf.bytes|
    case TimerFires(acts) => TimerOk(v) && ActsOk(acts)
    case UserActs(acts) => ActsOk(acts)
    case Shut => v.sock.state != Init
  }

  function Step(v: Conn, cfg: Config, e: Event): Conn
    requires cfg.Ok() && Enabled(v, e)
  {
    match e
    case Connect(resolved, newFd, usable) => v.(sock := BeginConnect(v.sock, resolved, newFd, usable))
    case ConnectDone(success, acts) =>
      if success then OnConnected(v, cfg, acts) else v.(sock := Close(v.sock))
    case Readable(pending, result, chunk, retry) =>
      v.(sock := OnReadable(v.sock, pending, result, chunk, retry))
    case Writable(result, retry) => v.(sock := OnWritable(v.sock, result, retry))
    case TimerFires(acts) => OnTimer(v, acts)
    case UserActs(acts) => ActAll(v, acts)
    case Shut => v.(sock := Close(v.sock))
  }

  /** A new connection: three empty buffers, nothing registered. */
  function NewConn(readBuf: Window, writeBuf: Window, commandBuf: Window): Conn {
    Conn(NewSocket(readBuf, writeBuf), commandBuf, 0, 0, [])
  }

  predicate Initial(v: Conn) {
    && v == NewConn(v.sock.readBuf, v.sock.writeBuf, v.commandBuf)
    && v.sock.readBuf.bytes == [] && v.sock.writeBuf.bytes == [] && v.commandBuf.bytes == []
  }

  predicate Runnable(v: Conn, cfg: Config, es: seq<Event>)
    requires cfg.Ok()
    decreases |es|
  {
    es == [] || (Enabled(v, es[0]) && Runnable(Step(v, cfg, es[0]), cfg, es[1..]))
  }

  /** The state after a run. */
  function Exec(v: Conn, cfg: Config, es: seq<Event>): Conn
    requires cfg.Ok() && Runnable(v, cfg, es)
    decreases |es|
  {
    if es == [] then v else Exec(Step(v, cfg, es[0]), cfg, es[1..])
  }
}
