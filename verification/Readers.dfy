/** The connections of a reader (reader.c) as a step system: which connections are in the list `conns`, and which
    wait for their reconnect timer.  `ReaderConnections.NsqReader` is proved against these steps. */
module Readers {
  import opened Nodes
  import opened ListMacros
  import Machine

  datatype Endpoint = Endpoint(address: string, port: int)

  /** What the system calls of `buffered_socket_connect` end with. */
  datatype Attempt = Fails | Opens(fd: nat)

  datatype Sock = Sock(endpoint: Endpoint, fd: int, state: Machine.State)

  /** `socks` holds every connection ever made; `listed` and `waiting` name them by their position there.
      `lookupd` tells whether the reader has a lookupd endpoint. */
  datatype World = World(lookupd: bool, socks: seq<Sock>, listed: seq<nat>, waiting: set<nat>)

  datatype Event =
    | Direct(endpoint: Endpoint, attempt: Attempt)
    | Response(producers: seq<(Endpoint, Attempt)>)
    | Established(id: nat)
    | Closed(id: nat)
    | Retry(id: nat, attempt: Attempt)
    | AddLookupd

  predicate InRange(w: World) {
    forall i :: 0 <= i < |w.listed| ==> w.listed[i] < |w.socks|
  }

  predicate Known(w: World, e: Endpoint)
    requires InRange(w)
  {
    exists i :: 0 <= i < |w.listed| && w.socks[w.listed[i]].endpoint == e
  }

  /** `nsq_reader_connect_to_nsqd`: only a positive descriptor gets the connection into the list. */
  function ConnectTo(w: World, e: Endpoint, a: Attempt): (r: World)
    ensures InRange(w) ==> InRange(r)
  {
    match a
    case Fails => w.(socks := w.socks + [Sock(e, -1, Machine.Init)])
    case Opens(fd) => w.(
      socks := w.socks + [Sock(e, fd, Machine.Connecting)],
      listed := if fd > 0 then w.listed + [|w.socks|] else w.listed)
  }

  /** The producer loop of `nsq_lookupd_request_cb`. */
  function Answer(w: World, producers: seq<(Endpoint, Attempt)>): (r: World)
    requires InRange(w)
    ensures InRange(r)
    decreases |producers|
  {
    if producers == [] then w else Answer(AnswerOne(w, producers[0]), producers[1..])
  }

  /** One turn of it. */
  function AnswerOne(w: World, producer: (Endpoint, Attempt)): (r: World)
    requires InRange(w)
    ensures InRange(r)
  {
    if Known(w, producer.0) then w else ConnectTo(w, producer.0, producer.1)
  }

  lemma AnswerTurn(w: World, producers: seq<(Endpoint, Attempt)>, i: nat)
    requires InRange(w) && i < |producers|
    ensures Answer(w, producers[i..]) == Answer(AnswerOne(w, producers[i]), producers[i + 1..])
  {
    assert producers[i..][0] == producers[i] && producers[i..][1..] == producers[i + 1..];
  }

  function SetState(w: World, id: nat, fd: int, state: Machine.State): World
    requires id < |w.socks|
  {
    w.(socks := w.socks[id := w.socks[id].(fd := fd, state := state)])
  }

  /** `nsq_reader_close_cb`, after `buffered_socket_close`. */
  function CloseOne(w: World, id: nat): World
    requires id < |w.socks|
  {
    var w' := SetState(w, id, -1, Machine.Disconnected);
    w'.(listed := Without(w.listed, id), waiting := if w.lookupd then w.waiting else w.waiting + {id})
  }

  /** `nsq_reader_reconnect_cb`. */
  function Reconnect(w: World, id: nat, a: Attempt): World
    requires id < |w.socks|
  {
    var w' := w.(waiting := w.waiting - {id});
    if w.lookupd then w' else ConnectTo(w', w.socks[id].endpoint, a)
  }

  predicate Live(w: World, id: nat)
    requires id < |w.socks|
  {
    w.socks[id].state in {Machine.Connecting, Machine.Connected}
  }

  /** `LL_DELETE` follows a null head when a connection that is not listed closes and the list is empty. */
  predicate Enabled(w: World, e: Event) {
    match e
    case Direct(_, _) => true
    case Response(_) => w.lookupd
    case Established(id) => id < |w.socks| && w.socks[id].state == Machine.Connecting
    case Closed(id) => id < |w.socks| && Live(w, id) && w.listed != []
    case Retry(id, _) => id in w.waiting
    case AddLookupd => true
  }

  function Step(w: World, e: Event): World
    requires Inv(w) && Enabled(w, e)
  {
    match e
    case Direct(endpoint, a) => ConnectTo(w, endpoint, a)
    case Response(producers) => Answer(w, producers)
    case Established(id) => SetState(w, id, w.socks[id].fd, Machine.Connected)
    case Closed(id) => CloseOne(w, id)
    case Retry(id, a) => Reconnect(w, id, a)
    case AddLookupd => w.(lookupd := true)
  }

  /** The list names exactly the connections that are CONNECTING or CONNECTED on a positive descriptor, each once;
      a reconnect timer runs only for a disconnected one. */
  ghost predicate Inv(w: World) {
    && InRange(w) && Distinct(w.listed)
    && (forall id: nat :: id < |w.socks| ==> (id in w.listed <==> Live(w, id) && w.socks[id].fd != 0))
    && (forall id: nat :: id in w.waiting ==> id < |w.socks| && w.socks[id].state == Machine.Disconnected)
  }

  ghost predicate Runnable(w: World, es: seq<Event>)
    requires Inv(w)
    decreases |es|
  {
    es == [] || (Enabled(w, es[0]) && (StepKeepsInv(w, es[0]); Runnable(Step(w, es[0]), es[1..])))
  }

  ghost function Run(w: World, es: seq<Event>): (r: World)
    requires Inv(w) && Runnable(w, es)
    ensures Inv(r)
    decreases |es|
  {
    if es == [] then w else
      StepKeepsInv(w, es[0]);
      Run(Step(w, es[0]), es[1..])
  }

  const EMPTY := World(false, [], [], {})

  // ---- the list and the sockets ------------------------------------------------------------------

  lemma ConnectKeepsInv(w: World, e: Endpoint, a: Attempt)
    requires Inv(w)
    ensures Inv(ConnectTo(w, e, a))
  {
    var r := ConnectTo(w, e, a);
    assert forall id: nat :: id < |w.socks| ==> r.socks[id] == w.socks[id];
    assert forall i :: 0 <= i < |w.listed| ==> r.listed[i] == w.listed[i];
    assert forall id: nat :: id in r.listed <==> id in w.listed || (id == |w.socks| && a.Opens? && a.fd > 0);
  }

  lemma {:induction false} AnswerKeepsInv(w: World, producers: seq<(Endpoint, Attempt)>)
    requires Inv(w)
    ensures Inv(Answer(w, producers))
    decreases |producers|
  {
    if producers != [] {
      var (e, a) := producers[0];
      ConnectKeepsInv(w, e, a);
      AnswerKeepsInv(if Known(w, e) then w else ConnectTo(w, e, a), producers[1..]);
    }
  }

  lemma WithoutKeeps(s: seq<nat>, x: nat)
    requires Distinct(s)
    ensures var t := Without(s, x);
      && Distinct(t) && (forall y :: y in t <==> y in s && y != x)
      && |t| == |s| - (if x in s then 1 else 0)
  {
    if x in s {
      var i := IndexOf(s, x);
      DistinctParts(s, i);
      assert s == s[..i] + [x] + s[i + 1..];
    }
  }

  lemma CloseKeepsInv(w: World, id: nat)
    requires Inv(w) && id < |w.socks| && Live(w, id)
    ensures Inv(CloseOne(w, id))
  {
    WithoutKeeps(w.listed, id);
    var r := CloseOne(w, id);
    assert forall i :: 0 <= i < |r.listed| ==> r.listed[i] in r.listed;
  }

  lemma StepKeepsInv(w: World, e: Event)
    requires Inv(w) && Enabled(w, e)
    ensures Inv(Step(w, e))
  {
    match e
    case Direct(endpoint, a) => ConnectKeepsInv(w, endpoint, a);
    case Response(producers) => AnswerKeepsInv(w, producers);
    case Established(id) =>
    case Closed(id) => CloseKeepsInv(w, id);
    case Retry(id, a) =>
      if !w.lookupd {
        ConnectKeepsInv(w.(waiting := w.waiting - {id}), w.socks[id].endpoint, a);
      }
    case AddLookupd =>
  }
}
