/** `struct NSQDConnection` (nsqd_connection.c) with the callbacks `nsq_reader_connect_cb` gives it (reader.c),
    proved against `Machine`: each method is one event.  `acts` stands for what user code does in its callback. */
module NsqdConnections {
  import opened Bytes
  import opened Windows
  import opened Messages
  import opened Commands
  import opened CommandBuilders
  import opened Buffers
  import opened BufferedSockets
  import opened Frames
  import opened Machine

  /** `strncmp(memory + at, "_heartbeat_", 11) == 0`.  The comparison knows nothing of `body`, the frame at
      `at`; that it stays inside it is due to the body not being a proper prefix of the text. */
  method IsHeartbeatText(memory: array<byte>, at: nat, ghost body: seq<byte>) returns (equal: bool)
    requires at + |body| <= memory.Length && memory[at..at + |body|] == body
    requires !ProperPrefix(body, HEARTBEAT)
    ensures equal <==> HEARTBEAT <= body
  {
    var i := 0;
    while i < 11
      invariant 0 <= i <= 11 && i <= |body| && forall j :: 0 <= j < i ==> body[j] == HEARTBEAT[j]
    {
      assert i < |body| by { assert i == |body| ==> ProperPrefix(body, HEARTBEAT); }
      assert memory[at + i] == memory[at..at + |body|][i];
      if memory[at + i] != HEARTBEAT[i] {
        return false;
      }
      i := i + 1;
    }
    return true;
  }

  class NsqdConnection {
    const bs: BufferedSocket
    const commandBuf: Buffer
    /** `current_msg_size`, `current_frame_type`, and `current_data` as a position in the read buffer's allocation. */
    var currentMsgSize: nat
    var currentFrameType: nat
    var currentData: nat
    ghost var frames: seq<Frame>

    ghost predicate Valid()
      reads this, bs, bs.readBuf, bs.writeBuf, commandBuf
    {
      && bs.Valid() && commandBuf.Valid()
      && commandBuf != bs.readBuf && commandBuf != bs.writeBuf
      && commandBuf.orig != bs.readBuf.orig && commandBuf.orig != bs.writeBuf.orig
    }

    ghost function Repr(): set<object>
      reads this, bs, bs.readBuf, bs.writeBuf, commandBuf
    {
      {this, bs, bs.readBuf, bs.readBuf.orig, bs.writeBuf, bs.writeBuf.orig, commandBuf, commandBuf.orig}
    }

    ghost function View(): Conn
      requires Valid()
      reads this, bs, bs.readBuf, bs.readBuf.orig, bs.writeBuf, bs.writeBuf.orig, commandBuf, commandBuf.orig
    {
      Conn(bs.View(), commandBuf.View(), currentMsgSize, currentFrameType, frames)
    }

    constructor (readLen: nat, readCapacity: nat, writeLen: nat, writeCapacity: nat, commandLen: nat, commandCapacity: nat)
      requires readLen > 0 && writeLen > 0 && commandLen > 0
      ensures Valid() && fresh(Repr())
      ensures View() == NewConn(WindowState([], 0, readLen, readCapacity), WindowState([], 0, writeLen, writeCapacity),
                                WindowState([], 0, commandLen, commandCapacity))
    {
      bs := new BufferedSocket(readLen, readCapacity, writeLen, writeCapacity);
      commandBuf := new Buffer(commandLen, commandCapacity);
      currentMsgSize, currentFrameType, currentData := 0, 0, 0;
      frames := [];
    }

    // ---- writing ---------------------------------------------------------------------------------

    /** `buffered_socket_write_buffer` on the command buffer. */
    method WriteBuffer(ghost kind: Kind) returns (n: nat)
      requires Valid() && |commandBuf.View().bytes| < TWO_31
      modifies bs`writing, bs`log, bs.writeBuf, bs.writeBuf.orig, commandBuf`data, commandBuf`offset
      ensures Valid() && (bs.writeBuf.orig == old(bs.writeBuf.orig) || fresh(bs.writeBuf.orig))
      ensures var w := old(commandBuf.View());
        View() == if |w.bytes| > 0 then
          old(View()).(sock := Machine.Write(old(bs.View()), kind, w.bytes), commandBuf := Windows.Reset(w))
        else old(View())
    {
      n := commandBuf.offset;
      if n > 0 {
        var _ := bs.Write(commandBuf.orig[commandBuf.data..commandBuf.data + n], kind);
        commandBuf.Reset();
      }
    }

    /** `buffer_reset` and the builder. */
    method BuildFresh(c: Command)
      requires Valid() && Sized31(c)
      modifies commandBuf, commandBuf.orig
      ensures Valid() && (commandBuf.orig == old(commandBuf.orig) || fresh(commandBuf.orig))
      ensures View() == old(View()).(commandBuf := Fresh(old(commandBuf.View()), c))
    {
      ghost var s, w := bs.View(), commandBuf.View();
      NsqRebuild(commandBuf, c);
      assert bs.View() == s;
      assert commandBuf.View() == Fresh(w, c);
    }

    /** Reset the command buffer, build `c` in it, write it. */
    method WriteCommand(c: Command, ghost kind: Kind)
      requires Valid() && Sized31(c)
      modifies bs`writing, bs`log, bs.writeBuf, bs.writeBuf.orig, commandBuf, commandBuf.orig
      ensures Valid() && bs.readBuf.orig == old(bs.readBuf.orig)
      ensures bs.writeBuf.orig == old(bs.writeBuf.orig) || fresh(bs.writeBuf.orig)
      ensures commandBuf.orig == old(commandBuf.orig) || fresh(commandBuf.orig)
      ensures View() == Machine.WriteCommand(old(View()), kind, c)
    {
      BuildFresh(c);
      var _ := WriteBuffer(kind);
    }

    /** One thing user code does with the connection. */
    method Act(a: UserAct)
      requires Valid() && ActOk(a)
      modifies bs`writing, bs`log, bs.writeBuf, bs.writeBuf.orig, commandBuf, commandBuf.orig
      ensures Valid() && bs.readBuf.orig == old(bs.readBuf.orig)
      ensures bs.writeBuf.orig == old(bs.writeBuf.orig) || fresh(bs.writeBuf.orig)
      ensures commandBuf.orig == old(commandBuf.orig) || fresh(commandBuf.orig)
      ensures View() == ActOne(old(View()), a)
    {
      match a
      case Raw(data) => var _ := bs.Write(data, User);
      case SendCommand(c) => WriteCommand(c, User);
    }

    /** A user callback. */
    method Perform(acts: seq<UserAct>)
      requires Valid() && ActsOk(acts)
      modifies bs`writing, bs`log, bs.writeBuf, bs.writeBuf.orig, commandBuf, commandBuf.orig
      ensures Valid() && bs.readBuf.orig == old(bs.readBuf.orig)
      ensures bs.writeBuf.orig == old(bs.writeBuf.orig) || fresh(bs.writeBuf.orig)
      ensures commandBuf.orig == old(commandBuf.orig) || fresh(commandBuf.orig)
      ensures View() == ActAll(old(View()), acts)
    {
      for i := 0 to |acts|
        invariant Valid() && bs.readBuf.orig == old(bs.readBuf.orig)
        invariant bs.writeBuf.orig == old(bs.writeBuf.orig) || fresh(bs.writeBuf.orig)
        invariant commandBuf.orig == old(commandBuf.orig) || fresh(commandBuf.orig)
        invariant ActsOk(acts[i..]) && ActAll(View(), acts[i..]) == ActAll(old(View()), acts)
      {
        assert ActOk(acts[i]) && acts[i..][0] == acts[i] && acts[i..][1..] == acts[i + 1..];
        Act(acts[i]);
      }
    }

    // ---- the events ------------------------------------------------------------------------------

    /** `nsqd_connection_connect`. */
    method Connect(resolved: bool, newFd: int, usable: bool) returns (r: int)
      requires Valid() && newFd >= -1
      modifies bs`fd, bs`state
      ensures Valid() && View() == old(View()).(sock := BeginConnect(old(bs.View()), resolved, newFd, usable))
      ensures r > 0 ==> bs.state == Connecting
    {
      r := bs.Connect(resolved, newFd, usable);
    }

    /** `nsq_reader_connect_cb`. */
    method ReaderConnectCb(cfg: Config, acts: seq<UserAct>)
      requires Valid() && cfg.Ok() && ActsOk(acts)
      modifies bs`writing, bs`log, bs.writeBuf, bs.writeBuf.orig, commandBuf, commandBuf.orig
      ensures Valid() && bs.readBuf.orig == old(bs.readBuf.orig)
      ensures bs.writeBuf.orig == old(bs.writeBuf.orig) || fresh(bs.writeBuf.orig)
      ensures commandBuf.orig == old(commandBuf.orig) || fresh(commandBuf.orig)
      ensures View() == Machine.WriteCommand(Machine.WriteCommand(
        ActAll(old(View()), acts), SubscribeKind, cfg.Sub()), ReadyKind, cfg.Rdy())
    {
      Perform(acts);
      WriteCommand(Subscribe(cfg.topic, cfg.channel), SubscribeKind);
      WriteCommand(Ready(cfg.maxInFlight), ReadyKind);
    }

    /** The successful end of `buffered_socket_connect_cb` and the start of `nsqd_connection_connect_cb`. */
    method SendMagic()
      requires Valid()
      modifies bs, bs.writeBuf, bs.writeBuf.orig
      ensures Valid() && bs.readBuf.orig == old(bs.readBuf.orig)
      ensures bs.writeBuf.orig == old(bs.writeBuf.orig) || fresh(bs.writeBuf.orig)
      ensures View() == old(View()).(sock := Machine.Write(BecomeConnected(old(bs.View())), Magic, MAGIC))
    {
      bs.StartEvents();
      var _ := bs.Write(MAGIC, Magic);
    }

    /** `nsqd_connection_connect_cb`, called from the successful end of `buffered_socket_connect_cb`. */
    method OnConnected(cfg: Config, acts: seq<UserAct>)
      requires Valid() && cfg.Ok() && ActsOk(acts)
      modifies bs, bs.writeBuf, bs.writeBuf.orig, commandBuf, commandBuf.orig
      ensures Valid() && bs.readBuf.orig == old(bs.readBuf.orig)
      ensures bs.writeBuf.orig == old(bs.writeBuf.orig) || fresh(bs.writeBuf.orig)
      ensures commandBuf.orig == old(commandBuf.orig) || fresh(commandBuf.orig)
      ensures View() == Machine.OnConnected(old(View()), cfg, acts)
    {
      SendMagic();
      ReaderConnectCb(cfg, acts);
      RequestSize();
    }

    method RequestSize()
      requires Valid()
      modifies bs`callback, bs`want, bs`timer
      ensures Valid() && View() == old(View()).(sock := Request(old(bs.View()), 4, ReadSize))
    {
      bs.ReadBytes(4, ReadSize);
    }

    method DrainRead(n: nat)
      requires Valid()
      modifies bs.readBuf`data, bs.readBuf`offset
      ensures Valid() && View() == old(View()).(sock := Machine.DrainRead(old(bs.View()), n))
    {
      ghost var s, w := bs.View(), commandBuf.View();
      bs.DrainRead(n);
      assert bs.View() == Machine.DrainRead(s, n) && commandBuf.View() == w;
    }

    // ---- the timer -------------------------------------------------------------------------------

    /** The first three statements of `nsqd_connection_read_size`.  The position is taken first, the bytes are drained,
        and only then is the number read: draining moves the window and leaves the memory. */
    method TakeSize() returns (n: nat)
      requires Valid() && |bs.View().readBuf.bytes| >= 4
      modifies bs.readBuf`data, bs.readBuf`offset
      ensures Valid() && n == BigEndian(old(bs.View()).readBuf.bytes[..4])
      ensures View() == old(View()).(sock := Machine.DrainRead(old(bs.View()), 4))
    {
      var msgSizeBe := bs.readBuf.data;
      ghost var memory := bs.readBuf.orig[..];
      SubSlice(memory, msgSizeBe, msgSizeBe + bs.readBuf.offset, 0, 4);
      DrainRead(4);
      n := BigEndian(bs.readBuf.orig[msgSizeBe..msgSizeBe + 4]);
    }

    /** `nsqd_connection_read_size`. */
    method ReadSizeCb()
      requires Valid() && |bs.View().readBuf.bytes| >= 4
      modifies this`currentMsgSize, bs`callback, bs`want, bs`timer, bs.readBuf`data, bs.readBuf`offset
      ensures Valid() && View() == OnSize(old(View()))
    {
      currentMsgSize := TakeSize();
      bs.ReadBytes(currentMsgSize, ReadData);
    }

    /** The branch for responses: the body of `f` is in memory at `currentData`. */
    method AnswerResponse(ghost f: Frame)
      requires Valid() && FrameOk(f) && FrameType(f) == RESPONSE && currentMsgSize == |f| - 4
      requires currentData + currentMsgSize <= bs.readBuf.orig.Length
      requires bs.readBuf.orig[currentData..currentData + currentMsgSize] == f[4..]
      modifies bs`writing, bs`log, bs.writeBuf, bs.writeBuf.orig, commandBuf, commandBuf.orig
      ensures Valid() && bs.readBuf.orig == old(bs.readBuf.orig)
      ensures bs.writeBuf.orig == old(bs.writeBuf.orig) || fresh(bs.writeBuf.orig)
      ensures commandBuf.orig == old(commandBuf.orig) || fresh(commandBuf.orig)
      ensures View() == Handle(old(View()), f, [])
    {
      var heartbeat := IsHeartbeatText(bs.readBuf.orig, currentData, f[4..]);
      if heartbeat {
        NopIsSized();
        WriteCommand(Nop, NopKind);
      }
    }

    /** The branch for messages. */
    method DeliverMessage(ghost f: Frame, acts: seq<UserAct>)
      requires Valid() && FrameOk(f) && FrameType(f) == MESSAGE && currentMsgSize == |f| - 4 && ActsOk(acts)
      requires currentData + currentMsgSize <= bs.readBuf.orig.Length
      requires bs.readBuf.orig[currentData..currentData + currentMsgSize] == f[4..]
      modifies bs`writing, bs`log, bs.writeBuf, bs.writeBuf.orig, commandBuf, commandBuf.orig
      ensures Valid() && bs.readBuf.orig == old(bs.readBuf.orig)
      ensures bs.writeBuf.orig == old(bs.writeBuf.orig) || fresh(bs.writeBuf.orig)
      ensures commandBuf.orig == old(commandBuf.orig) || fresh(commandBuf.orig)
      ensures View() == Handle(old(View()), f, acts)
    {
      var msg := NsqDecodeMessage(bs.readBuf.orig, currentData, currentMsgSize);
      ghost var v := View();
      bs.log := bs.log + [Delivered(msg)];
      assert View() == v.(sock := v.sock.(log := v.sock.log + [Delivered(DecodeMessage(f[4..]))]));
      Perform(acts);
    }

    /** Where the parts of a frame of `n` bytes are, when the window has `offset` bytes at `at`. */
    static lemma FrameInMemory(memory: array<byte>, at: nat, offset: nat, n: nat)
      requires at + offset <= memory.Length && 4 <= n <= offset
      ensures var f := memory[at..at + offset][..n];
        memory[at..at + 4] == f[..4] && memory[at + 4..at + n] == f[4..]
    {
      var all := memory[..];
      SubSlice(all, at, at + offset, 0, n);
      SubSlice(all, at, at + n, 0, 4);
      SubSlice(all, at, at + n, 4, n);
      assert memory[at..at + offset] == all[at..at + offset];
      assert memory[at..at + 4] == all[at..at + 4] && memory[at + 4..at + n] == all[at + 4..at + n];
    }

    /** `ntohl` of the first four bytes in the read buffer. */
    method PeekType(ghost f: Frame) returns (frameType: nat)
      requires Valid() && |f| >= 4 && f <= bs.View().readBuf.bytes
      ensures frameType == FrameType(f)
    {
      assert f == bs.View().readBuf.bytes[..|f|];
      FrameInMemory(bs.readBuf.orig, bs.readBuf.data, bs.readBuf.offset, |f|);
      frameType := BigEndian(bs.readBuf.orig[bs.readBuf.data..bs.readBuf.data + 4]);
    }

    /** `buffer_drain` of the frame type; what is left of the frame `f` starts where the window now starts. */
    method SkipType(ghost f: Frame)
      requires Valid() && |f| >= 4 && f <= bs.View().readBuf.bytes
      modifies bs.readBuf`data, bs.readBuf`offset
      ensures Valid()
      ensures View() == old(View()).(sock := Machine.DrainRead(old(bs.View()), 4))
      ensures bs.readBuf.data + |f| - 4 <= bs.readBuf.orig.Length
      ensures bs.readBuf.orig[bs.readBuf.data..bs.readBuf.data + |f| - 4] == f[4..]
    {
      FrameInMemory(bs.readBuf.orig, bs.readBuf.data, bs.readBuf.offset, |f|);
      DrainRead(4);
    }

    /** The fields that remember the frame. */
    method NoteFrame(frameType: nat, ghost f: Frame)
      requires Valid() && currentMsgSize >= 4
      modifies this
      ensures Valid() && currentData == bs.readBuf.data && currentMsgSize == old(currentMsgSize) - 4
      ensures View() == old(View()).(size := old(currentMsgSize) - 4, frameType := frameType, frames := old(frames) + [f])
    {
      currentFrameType := frameType;
      currentMsgSize := currentMsgSize - 4;
      currentData := bs.readBuf.data;
      frames := frames + [f];
    }

    /** The head of `nsqd_connection_read_data`. */
    method TakeFrameType() returns (ghost f: Frame)
      requires Valid() && FrameReady(View())
      modifies this, bs.readBuf`data, bs.readBuf`offset
      ensures Valid() && f == old(View().sock.readBuf.bytes[..currentMsgSize])
      ensures View() == TakeType(old(View()))
      ensures currentData + currentMsgSize <= bs.readBuf.orig.Length
      ensures bs.readBuf.orig[currentData..currentData + currentMsgSize] == f[4..]
    {
      f := bs.View().readBuf.bytes[..currentMsgSize];
      var frameType := PeekType(f);
      SkipType(f);
      NoteFrame(frameType, f);
    }

    /** The `switch`; error frames and unknown types are skipped. */
    method HandleFrame(ghost f: Frame, acts: seq<UserAct>)
      requires Valid() && FrameOk(f) && ActsOk(acts)
      requires currentFrameType == FrameType(f) && currentMsgSize == |f| - 4
      requires currentData + currentMsgSize <= bs.readBuf.orig.Length
      requires bs.readBuf.orig[currentData..currentData + currentMsgSize] == f[4..]
      modifies bs`writing, bs`log, bs.writeBuf, bs.writeBuf.orig, commandBuf, commandBuf.orig
      ensures Valid() && bs.readBuf.orig == old(bs.readBuf.orig)
      ensures bs.writeBuf.orig == old(bs.writeBuf.orig) || fresh(bs.writeBuf.orig)
      ensures commandBuf.orig == old(commandBuf.orig) || fresh(commandBuf.orig)
      ensures View() == Handle(old(View()), f, acts)
    {
      if currentFrameType == RESPONSE {
        AnswerResponse(f);
      } else if currentFrameType == MESSAGE {
        DeliverMessage(f, acts);
      }
    }

    /** The tail of `nsqd_connection_read_data`. */
    method FinishFrame()
      requires Valid()
      modifies bs`callback, bs`want, bs`timer, bs.readBuf`data, bs.readBuf`offset
      ensures Valid() && View() == DropBody(old(View()))
    {
      DrainRead(currentMsgSize);
      RequestSize();
    }

    /** `nsqd_connection_read_data`. */
    method ReadDataCb(acts: seq<UserAct>)
      requires Valid() && FrameReady(View()) && ActsOk(acts)
      modifies Repr()
      ensures Valid() && bs.readBuf.orig == old(bs.readBuf.orig)
      ensures bs.writeBuf.orig == old(bs.writeBuf.orig) || fresh(bs.writeBuf.orig)
      ensures commandBuf.orig == old(commandBuf.orig) || fresh(commandBuf.orig)
      ensures View() == OnData(old(View()), acts)
    {
      ghost var f := TakeFrameType();
      HandleFrame(f, acts);
      FinishFrame();
    }

    /** `buffered_socket_read_bytes_cb`. */
    method OnTimer(acts: seq<UserAct>)
      requires Valid() && TimerOk(View()) && ActsOk(acts)
      modifies Repr()
      ensures Valid() && bs.readBuf.orig == old(bs.readBuf.orig)
      ensures bs.writeBuf.orig == old(bs.writeBuf.orig) || fresh(bs.writeBuf.orig)
      ensures commandBuf.orig == old(commandBuf.orig) || fresh(commandBuf.orig)
      ensures View() == Machine.OnTimer(old(View()), acts)
    {
      ghost var v := View();
      var cb := bs.ReadBytesCb();
      assert View() == v.(sock := TakeRequest(v.sock));
      match cb
      case ReadSize => ReadSizeCb();
      case ReadData => ReadDataCb(acts);
      case NoCallback => assert false;
    }

    // ---- the event loop --------------------------------------------------------------------------

    /** An event of the socket's watchers. */
    method OnIo(e: Event)
      requires Valid() && Enabled(View(), e) && (e.Readable? || e.Writable?)
      modifies bs, bs.readBuf, bs.readBuf.orig, bs.writeBuf
      ensures Valid() && bs.writeBuf.orig == old(bs.writeBuf.orig) && commandBuf.orig == old(commandBuf.orig)
      ensures bs.readBuf.orig == old(bs.readBuf.orig) || fresh(bs.readBuf.orig)
      ensures View() == old(View()).(sock :=
        if e.Readable? then Machine.OnReadable(old(bs.View()), e.pending, e.result, e.chunk, e.retry)
        else Machine.OnWritable(old(bs.View()), e.result, e.retry))
    {
      if e.Readable? {
        bs.ReadCb(e.pending, e.result, e.chunk, e.retry);
      } else {
        bs.WriteCb(e.result, e.retry);
      }
    }

    method Close()
      requires Valid()
      modifies bs
      ensures Valid() && View() == old(View()).(sock := Machine.Close(old(bs.View())))
    {
      bs.Close();
    }

    /** One turn of the event loop. */
    method Dispatch(e: Event, cfg: Config)
      requires Valid() && cfg.Ok() && Enabled(View(), e)
      modifies Repr()
      ensures Valid()
      ensures bs.readBuf.orig == old(bs.readBuf.orig) || fresh(bs.readBuf.orig)
      ensures bs.writeBuf.orig == old(bs.writeBuf.orig) || fresh(bs.writeBuf.orig)
      ensures commandBuf.orig == old(commandBuf.orig) || fresh(commandBuf.orig)
      ensures View() == Step(old(View()), cfg, e)
    {
      match e
      case Connect(resolved, newFd, usable) => var _ := Connect(resolved, newFd, usable);
      case ConnectDone(success, acts) => if success { OnConnected(cfg, acts); } else { Close(); }
      case Readable(_, _, _, _) => OnIo(e);
      case Writable(_, _) => OnIo(e);
      case TimerFires(acts) => OnTimer(acts);
      case UserActs(acts) => Perform(acts);
      case Shut => Close();
    }

    /** A run of the event loop is a run of the step system, so the theorems about runs are about this object. */
    method Loop(es: seq<Event>, cfg: Config)
      requires Valid() && cfg.Ok() && Runnable(View(), cfg, es)
      modifies Repr()
      ensures Valid() && View() == Exec(old(View()), cfg, es)
      decreases |es|
    {
      if es != [] {
        Dispatch(es[0], cfg);
        Loop(es[1..], cfg);
      }
    }
  }
}
