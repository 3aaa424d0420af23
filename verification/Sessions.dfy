/** A connection and a reader from their creation on: the theorems about runs, stated of the objects that the methods
    change. */
module Sessions {
  import opened Windows
  import opened Machine
  import opened ConnectionRuns
  import opened ConnectionTheorems
  import opened NsqdConnections
  import OutboundTheorems
  import opened WireLayouts
  import opened FrameMeanings
  import opened Lifecycles
  import Readers
  import ReaderConnections
  import ReaderTheorems
  import opened ReaderLives

  /** The buffer sizes of `struct NSQReaderCfg`. */
  datatype Sizes = Sizes(readLen: nat, readCapacity: nat, writeLen: nat, writeCapacity: nat,
                         commandLen: nat, commandCapacity: nat)
  {
    predicate Valid() {
      readLen > 0 && writeLen > 0 && commandLen > 0
    }

    function NewConn(): Conn
      requires Valid()
    {
      Machine.NewConn(WindowState([], 0, readLen, readCapacity), WindowState([], 0, writeLen, writeCapacity),
                      WindowState([], 0, commandLen, commandCapacity))
    }
  }

  /** Any sequence of events on a new connection: the messages handed over are those of the frames received, in
      order, and all of them once the timer rests; the bytes sent and pending are the accepted writes; a wake-up is
      neither lost nor premature; the connection has ended exactly if some event ended it. */
  method Session(sizes: Sizes, cfg: Config, es: seq<Event>) returns (conn: NsqdConnection)
    requires sizes.Valid() && Start(sizes.NewConn(), cfg) && Runnable(sizes.NewConn(), cfg, es)
    ensures conn.Valid() && conn.View() == Exec(sizes.NewConn(), cfg, es)
    ensures DeliversStream(conn.View())
    ensures Framed(conn.frames) <= conn.bs.received && DeliveredIn(conn.bs.log) == Payloads(conn.frames)
    ensures conn.bs.sent + conn.bs.writeBuf.View().bytes == Accepted(conn.bs.log)
    ensures conn.bs.state == Connected ==> (conn.bs.timer <==> |conn.bs.readBuf.View().bytes| >= conn.bs.want)
    ensures conn.bs.state == Connected && conn.bs.writeBuf.View().bytes != [] ==> conn.bs.writing
    ensures conn.bs.state == Disconnected <==> SomeEnds(sizes.NewConn(), cfg, es)
    ensures conn.bs.state == Connected <==> SomeMakes(es) && !SomeEnds(sizes.NewConn(), cfg, es)
    ensures HoldsDescriptor(conn.bs.View())
  {
    conn := new NsqdConnection(sizes.readLen, sizes.readCapacity, sizes.writeLen, sizes.writeCapacity,
                               sizes.commandLen, sizes.commandCapacity);
    conn.Loop(es, cfg);
    Delivery(sizes.NewConn(), cfg, es);
    OutboundTheorems.Conservation(sizes.NewConn(), cfg, es);
    WakeUps(sizes.NewConn(), cfg, es);
    DeliveredByBytes(sizes.NewConn(), cfg, es);
    StateOfRun(sizes.NewConn(), cfg, es);
    DescriptorOfRun(sizes.NewConn(), cfg, es);
  }

  /** Any sequence of events on a new reader: its list is acyclic and names the connections in use on a positive
      descriptor; it has a lookupd exactly if it was given one; a connection waits exactly if it was closed without a
      lookupd and not retried; without lookupd, what is listed and what waits never outnumbers the calls made. */
  method ReaderSession(es: seq<Readers.Event>) returns (rdr: ReaderConnections.NsqReader)
    requires Readers.Runnable(Readers.EMPTY, es)
    ensures rdr.Valid() && rdr.View() == Readers.Run(Readers.EMPTY, es)
    ensures forall id: nat :: id < |rdr.socks| ==>
      (id in rdr.Listed() <==> Readers.Live(rdr.View(), id) && rdr.socks[id].fd != 0)
    ensures rdr.lookupd <==> Readers.AddLookupd in es
    ensures forall id :: id in rdr.waiting <==> ClosedAlone(Readers.EMPTY, es, id) && !SomeRetry(es, id)
    ensures Readers.AddLookupd !in es ==> |rdr.Listed()| + |rdr.waiting| <= ReaderTheorems.Calls(es)
  {
    rdr := new ReaderConnections.NsqReader();
    rdr.Loop(es);
    ModeOfRun(Readers.EMPTY, es);
    forall id
      ensures id in rdr.waiting <==> ClosedAlone(Readers.EMPTY, es, id) && !SomeRetry(es, id)
    {
      WaitingOfRun(Readers.EMPTY, es, id);
    }
    if Readers.AddLookupd !in es {
      ReaderTheorems.DirectModeBound(es);
    }
  }
}
