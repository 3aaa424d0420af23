/** `struct BufferedSocket` (buffered_socket.c), proved against the socket part of `Machine`.  The system calls
    and the event loop appear as what they answer: each callback is a method whose parameters are the answers,
    a watcher is a flag, and the zero-delay timer is a flag that its callback clears. */
module BufferedSockets {
  import opened Bytes
  import opened Windows
  import opened Buffers
  import opened Machine

  class BufferedSocket {
    const readBuf: Buffer
    const writeBuf: Buffer
    var fd: int
    var state: State
    /** `read_bytes_callback`, `read_bytes_n`, `read_bytes_timer_ev`. */
    var callback: Callback
    var want: nat
    var timer: bool
    /** `read_ev` and `write_ev`. */
    var reading: bool
    var writing: bool
    ghost var received: seq<byte>
    ghost var sent: seq<byte>
    ghost var log: seq<Action>

    ghost predicate Valid()
      reads this, readBuf, writeBuf
    {
      readBuf != writeBuf && readBuf.Valid() && writeBuf.Valid() && readBuf.orig != writeBuf.orig
    }

    ghost function Repr(): set<object>
      reads this, readBuf, writeBuf
    {
      {this, readBuf, readBuf.orig, writeBuf, writeBuf.orig}
    }

    ghost function View(): Socket
      requires Valid()
      reads this, readBuf, readBuf.orig, writeBuf, writeBuf.orig
    {
      Socket(state, fd, readBuf.View(), writeBuf.View(), callback, want, timer, reading, writing, received, sent, log)
    }

    constructor (readLen: nat, readCapacity: nat, writeLen: nat, writeCapacity: nat)
      requires readLen > 0 && writeLen > 0
      ensures Valid() && fresh(Repr())
      ensures View() == NewSocket(WindowState([], 0, readLen, readCapacity), WindowState([], 0, writeLen, writeCapacity))
    {
      readBuf := new Buffer(readLen, readCapacity);
      writeBuf := new Buffer(writeLen, writeCapacity);
      fd, state := -1, Init;
      callback, want, timer := NoCallback, 0, false;
      reading, writing := false, false;
      received, sent, log := [], [], [];
    }

    /** `buffered_socket_connect`, with the answers of the system calls (see `Machine.BeginConnect`).  The descriptor is
        stored as soon as there is one, and stays there even if it is closed again because it was of no use. */
    method Connect(resolved: bool, newFd: int, usable: bool) returns (r: int)
      requires Valid() && newFd >= -1
      modifies this`fd, this`state
      ensures Valid() && View() == BeginConnect(old(View()), resolved, newFd, usable)
      ensures var tried := old(state) != Connected && old(state) != Connecting && resolved;
        r == if tried && newFd >= 0 && usable then newFd else 0
    {
      if state == Connected || state == Connecting {
        return 0;
      }
      if !resolved {
        return 0;
      }
      fd := newFd;
      if fd == -1 {
        return 0;
      }
      if !usable {
        return 0;
      }
      state := Connecting;
      return fd;
    }

    /** `buffer_drain` on the read buffer, which moves the window and leaves the memory. */
    method DrainRead(n: nat)
      requires Valid()
      modifies readBuf`data, readBuf`offset
      ensures Valid() && View() == Machine.DrainRead(old(View()), n)
      ensures writeBuf.View() == old(writeBuf.View())
    {
      ghost var r, w := readBuf.View(), writeBuf.View();
      readBuf.Drain(n);
      assert writeBuf.View() == w;
      assert readBuf.View() == Windows.Drain(r, n);
    }

    /** The successful end of `buffered_socket_connect_cb`, up to the user's callback. */
    method StartEvents()
      requires Valid()
      modifies this`state, this`reading, this`writing
      ensures Valid() && View() == BecomeConnected(old(View()))
    {
      state := Connected;
      writing := false;
      reading := true;
    }

    /** Without a connection the watchers are not set up, and are left alone. */
    method StopEvents()
      requires Valid()
      modifies this`reading, this`writing
      ensures Valid() && state == old(state)
      ensures View() == if state == Connecting then old(View()) else old(View()).(reading := false, writing := false)
    {
      if state != Connecting {
        reading := false;
        writing := false;
      }
    }

    method Close()
      requires Valid()
      modifies this`fd, this`state, this`reading, this`writing, this`timer
      ensures Valid() && View() == Machine.Close(old(View()))
    {
      if state == Disconnected {
        return;
      }
      if fd != -1 {
        fd := -1;
      }
      StopEvents();
      state := Disconnected;
      timer := false;
    }

    method Write(data: seq<byte>, ghost kind: Kind) returns (n: nat)
      requires Valid() && |data| < TWO_31
      modifies this`writing, this`log, writeBuf, writeBuf.orig
      ensures Valid() && (writeBuf.orig == old(writeBuf.orig) || fresh(writeBuf.orig))
      ensures View() == Machine.Write(old(View()), kind, data)
      ensures n == if state == Connected then |data| else 0
    {
      if state != Connected {
        return 0;
      }
      var ok := writeBuf.Add(data);
      log := log + [Wrote(kind, data, ok)];
      writing := true;
      return |data|;
    }

    /** `buffered_socket_read_bytes`. */
    method ReadBytes(n: nat, dataCallback: Callback)
      requires Valid()
      modifies this`callback, this`want, this`timer
      ensures Valid() && View() == Request(old(View()), n, dataCallback)
    {
      callback := dataCallback;
      want := n;
      if readBuf.offset >= n {
        timer := true;
      }
    }

    /** `buffered_socket_read_bytes_cb`, which then calls `cb`. */
    method ReadBytesCb() returns (cb: Callback)
      requires Valid()
      modifies this`callback, this`want, this`timer
      ensures Valid() && cb == old(callback) && View() == TakeRequest(old(View()))
    {
      timer := false;
      cb := callback;
      callback := NoCallback;
      want := 0;
    }

    /** `buffered_socket_read_cb`; `retry` is whether `errno` asks for another try. */
    method ReadCb(pending: int, result: int, chunk: seq<byte>, retry: bool)
      requires Valid() && |chunk| == Max(result, 0) <= Wanted(pending)
      modifies this`fd, this`state, this`reading, this`writing, this`timer, this`received, readBuf, readBuf.orig
      ensures Valid() && (readBuf.orig == old(readBuf.orig) || fresh(readBuf.orig))
      ensures View() == OnReadable(old(View()), pending, result, chunk, retry)
    {
      var res := readBuf.ReadFd(pending, result, chunk);
      if MakeRoom(old(readBuf.View()), Wanted(pending)).1 {
        received := received + chunk;
      }
      assert writeBuf.View() == old(writeBuf.View());
      assert readBuf.View() == Receive(old(readBuf.View()), pending, chunk).0;
      if res < 0 {
        if retry {
          return;
        }
        Close();
        return;
      } else if res == 0 {
        Close();
        return;
      }
      if want > 0 && readBuf.offset >= want {
        timer := true;
      }
    }

    /** The `buffer_write_fd` of `buffered_socket_write_cb`. */
    method SendSome(result: int) returns (res: int)
      requires Valid() && result <= writeBuf.offset
      modifies this`sent, writeBuf`data, writeBuf`offset
      ensures Valid() && res == result
      ensures var s, k := old(View()), Max(result, 0);
        View() == s.(writeBuf := Apply(s.writeBuf, SendOp(k)), sent := s.sent + s.writeBuf.bytes[..k])
    {
      sent := sent + writeBuf.View().bytes[..Max(result, 0)];
      res := writeBuf.WriteFd(result);
    }

    /** `buffered_socket_write_cb`. */
    method WriteCb(result: int, retry: bool)
      requires Valid() && result <= writeBuf.offset
      modifies this`fd, this`state, this`reading, this`writing, this`timer, this`sent, writeBuf`data, writeBuf`offset
      ensures Valid() && View() == OnWritable(old(View()), result, retry)
    {
      var res := SendSome(result);
      if writeBuf.offset == 0 {
        writing := false;
      }
      if res < 0 {
        if retry {
          return;
        }
        Close();
      } else if res == 0 {
        Close();
      }
    }
  }
}
