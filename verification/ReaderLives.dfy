/** The life of each connection of a reader, and the reader's mode, for every run: which events a state comes from. */
module ReaderLives {
  import opened Readers
  import opened ReaderTheorems
  import Machine

  // ---- the mode ----------------------------------------------------------------------------------

  lemma StepMode(w: World, e: Event)
    requires Inv(w) && Enabled(w, e)
    ensures Step(w, e).lookupd <==> w.lookupd || e == AddLookupd
  {
    if e.Response? {
      AnswerKeepsMode(w, e.producers);
    }
  }

  /** In every run: the reader has a lookupd if and only if it had one or was given one. */
  lemma {:induction false} ModeOfRun(w: World, es: seq<Event>)
    requires Inv(w) && Runnable(w, es)
    ensures Run(w, es).lookupd <==> w.lookupd || AddLookupd in es
    decreases |es|
  {
    if es != [] {
      StepKeepsInv(w, es[0]);
      StepMode(w, es[0]);
      ModeOfRun(Step(w, es[0]), es[1..]);
    }
  }

  predicate Connects(e: Event) {
    e.Direct? || e.Response?
  }

  lemma LookupdStep(w: World, e: Event)
    requires Inv(w) && Enabled(w, e) && w.lookupd
    ensures Step(w, e).waiting <= w.waiting
    ensures !Connects(e) ==> |Step(w, e).socks| == |w.socks|
  {
    if e.Response? {
      AnswerKeepsMode(w, e.producers);
    }
  }

  /** With a lookupd no close lets a connection wait for its timer, and no timer makes a new one. */
  lemma {:induction false} NoRetriesWithLookupd(w: World, es: seq<Event>)
    requires Inv(w) && Runnable(w, es) && w.lookupd
    ensures Run(w, es).waiting <= w.waiting
    ensures (forall e <- es :: !Connects(e)) ==> |Run(w, es).socks| == |w.socks|
    decreases |es|
  {
    if es != [] {
      StepKeepsInv(w, es[0]);
      StepMode(w, es[0]);
      LookupdStep(w, es[0]);
      NoRetriesWithLookupd(Step(w, es[0]), es[1..]);
    }
  }

  /** So it is in any run that goes on after one in which a lookupd was added. */
  lemma AddingLookupdEndsRetries(before: seq<Event>, after: seq<Event>)
    requires Runnable(EMPTY, before) && AddLookupd in before && Runnable(Run(EMPTY, before), after)
    ensures var w := Run(EMPTY, before); var r := Run(w, after);
      && w.lookupd && r.lookupd && r.waiting <= w.waiting
      && ((forall e <- after :: !Connects(e)) ==> |r.socks| == |w.socks|)
  {
    ModeOfRun(EMPTY, before);
    ModeOfRun(Run(EMPTY, before), after);
    NoRetriesWithLookupd(Run(EMPTY, before), after);
  }

  // ---- the sockets -------------------------------------------------------------------------------

  /** Old sockets are as they were; new ones have not been connected yet. */
  predicate Extends(socks: seq<Sock>, socks': seq<Sock>) {
    && |socks| <= |socks'| && (forall id :: 0 <= id < |socks| ==> socks'[id] == socks[id])
    && (forall id :: |socks| <= id < |socks'| ==> IsNew(socks'[id]))
  }

  predicate IsNew(s: Sock) {
    s.state == Machine.Init || s.state == Machine.Connecting
  }

  lemma ConnectExtends(w: World, e: Endpoint, a: Attempt)
    ensures Extends(w.socks, ConnectTo(w, e, a).socks)
  {
  }

  lemma {:induction false} AnswerExtends(w: World, producers: seq<(Endpoint, Attempt)>)
    requires InRange(w)
    ensures Extends(w.socks, Answer(w, producers).socks)
    decreases |producers|
  {
    if producers != [] {
      var w' := AnswerOne(w, producers[0]);
      ConnectExtends(w, producers[0].0, producers[0].1);
      AnswerExtends(w', producers[1..]);
      assert forall id :: 0 <= id < |w.socks| ==> Answer(w, producers).socks[id] == w'.socks[id];
    }
  }

  /** Except for the one that an event is about. */
  function About(e: Event): int {
    if e.Established? || e.Closed? then e.id else -1
  }

  lemma StepExtends(w: World, e: Event)
    requires Inv(w) && Enabled(w, e) && About(e) == -1
    ensures Extends(w.socks, Step(w, e).socks)
  {
    match e
    case Direct(endpoint, a) => ConnectExtends(w, endpoint, a);
    case Response(producers) => AnswerExtends(w, producers);
    case Retry(id, a) =>
      if !w.lookupd { ConnectExtends(w.(waiting := w.waiting - {id}), w.socks[id].endpoint, a); }
    case AddLookupd =>
  }

  predicate HasState(w: World, id: nat, state: Machine.State) {
    id < |w.socks| && w.socks[id].state == state
  }

  lemma StepStates(w: World, e: Event, id: nat)
    requires Inv(w) && Enabled(w, e)
    ensures HasState(Step(w, e), id, Machine.Disconnected) <==> HasState(w, id, Machine.Disconnected) || e == Closed(id)
    ensures HasState(Step(w, e), id, Machine.Connected) <==>
      (HasState(w, id, Machine.Connected) && e != Closed(id)) || e == Established(id)
  {
    if About(e) == -1 {
      StepExtends(w, e);
      assert id < |Step(w, e).socks| && id >= |w.socks| ==> IsNew(Step(w, e).socks[id]);
    }
  }

  /** In every run a socket is disconnected if and only if it was closed, and connected if and only if its connection
      was established and not closed. */
  lemma {:induction false} StatesOfRun(w: World, es: seq<Event>, id: nat)
    requires Inv(w) && Runnable(w, es)
    ensures HasState(Run(w, es), id, Machine.Disconnected) <==> HasState(w, id, Machine.Disconnected) || Closed(id) in es
    ensures HasState(Run(w, es), id, Machine.Connected) <==>
      (HasState(w, id, Machine.Connected) || Established(id) in es) && Closed(id) !in es
    decreases |es|
  {
    if es != [] {
      var w', rest := Step(w, es[0]), es[1..];
      StepKeepsInv(w, es[0]);
      StepStates(w, es[0], id);
      StatesOfRun(w', rest, id);
      assert es == [es[0]] + rest;
      if es[0] == Closed(id) {
        NeverAgain(w', rest, id);
      }
    }
  }

  /** A disconnected socket is neither established nor closed again. */
  lemma {:induction false} NeverAgain(w: World, es: seq<Event>, id: nat)
    requires Inv(w) && Runnable(w, es) && HasState(w, id, Machine.Disconnected)
    ensures Established(id) !in es && Closed(id) !in es
    decreases |es|
  {
    if es != [] {
      StepKeepsInv(w, es[0]);
      StepStates(w, es[0], id);
      NeverAgain(Step(w, es[0]), es[1..], id);
      assert es == [es[0]] + es[1..];
    }
  }

  // ---- who waits ---------------------------------------------------------------------------------

  predicate Retries(e: Event, id: nat) {
    e.Retry? && e.id == id
  }

  predicate SomeRetry(es: seq<Event>, id: nat) {
    es != [] && (Retries(es[0], id) || SomeRetry(es[1..], id))
  }

  /** It was closed while there was no lookupd. */
  ghost predicate ClosedAlone(w: World, es: seq<Event>, id: nat)
    requires Inv(w) && Runnable(w, es)
    decreases |es|
  {
    es != [] &&
    ((es[0] == Closed(id) && !w.lookupd) || (StepKeepsInv(w, es[0]); ClosedAlone(Step(w, es[0]), es[1..], id)))
  }

  lemma StepWaits(w: World, e: Event, id: nat)
    requires Inv(w) && Enabled(w, e)
    ensures id in Step(w, e).waiting <==>
      (id in w.waiting && !Retries(e, id)) || (e == Closed(id) && !w.lookupd)
  {
    if e.Response? {
      AnswerKeepsMode(w, e.producers);
    }
  }

  lemma {:induction false} NotClosedAgain(w: World, es: seq<Event>, id: nat)
    requires Inv(w) && Runnable(w, es) && Closed(id) !in es
    ensures !ClosedAlone(w, es, id)
    decreases |es|
  {
    if es != [] {
      StepKeepsInv(w, es[0]);
      assert es[0] in es;
      NotClosedAgain(Step(w, es[0]), es[1..], id);
    }
  }

  /** Only a socket that waits is retried. */
  lemma {:induction false} RetriedWaits(w: World, es: seq<Event>, id: nat)
    requires Inv(w) && Runnable(w, es) && SomeRetry(es, id)
    ensures id in w.waiting || ClosedAlone(w, es, id)
    decreases |es|
  {
    StepKeepsInv(w, es[0]);
    StepWaits(w, es[0], id);
    if !Retries(es[0], id) {
      RetriedWaits(Step(w, es[0]), es[1..], id);
    }
  }

  /** In every run: a connection waits for its timer if and only if it was closed while there was no lookupd, and has not
      been retried. */
  lemma {:induction false} WaitingOfRun(w: World, es: seq<Event>, id: nat)
    requires Inv(w) && Runnable(w, es)
    ensures id in Run(w, es).waiting <==> (id in w.waiting || ClosedAlone(w, es, id)) && !SomeRetry(es, id)
    decreases |es|
  {
    if es != [] {
      var w', rest := Step(w, es[0]), es[1..];
      StepKeepsInv(w, es[0]);
      StepWaits(w, es[0], id);
      WaitingOfRun(w', rest, id);
      if Retries(es[0], id) {
        NeverAgain(w', rest, id);
        NotClosedAgain(w', rest, id);
      }
    }
  }

  /** A timer connects to the endpoint of the connection that waited, unless there is a lookupd, and never twice. */
  lemma RetryReconnects(w: World, id: nat, a: Attempt)
    requires Inv(w) && Enabled(w, Retry(id, a))
    ensures var r := Step(w, Retry(id, a)); var n := |w.socks|;
      && id !in r.waiting
      && (w.lookupd ==> r.socks == w.socks && r.listed == w.listed)
      && (!w.lookupd ==> |r.socks| == n + 1 && r.socks[..n] == w.socks && r.socks[n].endpoint == w.socks[id].endpoint)
      && (!w.lookupd && a.Opens? ==> r.socks[n].fd == a.fd && r.socks[n].state == Machine.Connecting)
  {
  }

  /** `nsq_reader_connect_to_nsqd` makes one connection, to this endpoint, and lists it if its descriptor is positive. */
  lemma DirectConnects(w: World, e: Endpoint, a: Attempt)
    requires Inv(w)
    ensures var r := Step(w, Direct(e, a)); var n := |w.socks|;
      && |r.socks| == n + 1 && r.socks[..n] == w.socks && r.socks[n].endpoint == e
      && r.listed == (if Succeeds(a) then w.listed + [n] else w.listed) && r.waiting == w.waiting
      && (a.Opens? ==> r.socks[n].fd == a.fd && r.socks[n].state == Machine.Connecting)
  {
  }

  // ---- descriptors -------------------------------------------------------------------------------

  /** A socket has a descriptor exactly while it is in use. */
  predicate HoldDescriptors(socks: seq<Sock>) {
    forall id :: 0 <= id < |socks| ==>
      if socks[id].state == Machine.Connecting || socks[id].state == Machine.Connected then socks[id].fd >= 0
      else socks[id].fd == -1
  }

  lemma ConnectHolds(w: World, e: Endpoint, a: Attempt)
    requires HoldDescriptors(w.socks)
    ensures HoldDescriptors(ConnectTo(w, e, a).socks)
  {
  }

  lemma {:induction false} AnswerHolds(w: World, producers: seq<(Endpoint, Attempt)>)
    requires InRange(w) && HoldDescriptors(w.socks)
    ensures HoldDescriptors(Answer(w, producers).socks)
    decreases |producers|
  {
    if producers != [] {
      ConnectHolds(w, producers[0].0, producers[0].1);
      AnswerHolds(AnswerOne(w, producers[0]), producers[1..]);
    }
  }

  /** So in every run. */
  lemma {:induction false} DescriptorsOfRun(w: World, es: seq<Event>)
    requires Inv(w) && Runnable(w, es) && HoldDescriptors(w.socks)
    ensures HoldDescriptors(Run(w, es).socks)
    decreases |es|
  {
    if es != [] {
      StepKeepsInv(w, es[0]);
      match es[0] {
        case Response(producers) => AnswerHolds(w, producers);
        case _ =>
      }
      DescriptorsOfRun(Step(w, es[0]), es[1..]);
    }
  }
}
