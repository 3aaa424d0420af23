/** What holds in every run of a reader's connections. */
module ReaderTheorems {
  import opened Nodes
  import opened ListMacros
  import opened Readers

  // ---- the list is acyclic and names the sockets in use -------------------------------------------

  /** After any run the list has no repetition and names exactly the connections in use, except one that was given
      descriptor 0, which `rc > 0` takes for a failure. */
  lemma ListIsLive(es: seq<Event>)
    requires Runnable(EMPTY, es)
    ensures var w := Run(EMPTY, es);
      && InRange(w) && Distinct(w.listed)
      && ((forall id: nat :: id < |w.socks| ==> (id in w.listed <==> Live(w, id)))
          <==> (forall id: nat :: id < |w.socks| && Live(w, id) ==> w.socks[id].fd != 0))
  {
    var w := Run(EMPTY, es);
    assert Inv(w);
  }

  /** The failing case: a socket in use that the list does not name, and whose close would follow a null head. */
  lemma DescriptorZeroIsNotListed(e: Endpoint)
    ensures var es := [Direct(e, Opens(0))];
      && Runnable(EMPTY, es) && |Run(EMPTY, es).socks| == 1
      && Live(Run(EMPTY, es), 0) && Run(EMPTY, es).listed == [] && !Enabled(Run(EMPTY, es), Closed(0))
  {
    var es := [Direct(e, Opens(0))];
    assert Inv(EMPTY);
    StepKeepsInv(EMPTY, es[0]);
    assert Runnable(Step(EMPTY, es[0]), es[1..]);
    assert Run(EMPTY, es) == Step(EMPTY, es[0]);
  }

  /** In every run a connection in use may close, unless it has descriptor 0 and is not listed, and nothing else is. */
  lemma CloseIsSafe(es: seq<Event>, id: nat)
    requires Runnable(EMPTY, es) && id < |Run(EMPTY, es).socks| && Live(Run(EMPTY, es), id)
    ensures var w := Run(EMPTY, es);
      Enabled(w, Closed(id)) <==> w.socks[id].fd != 0 || w.listed != []
  {
    var w := Run(EMPTY, es);
    assert Inv(w);
  }

  // ---- lookupd mode ------------------------------------------------------------------------------

  ghost predicate DistinctEndpoints(w: World)
    requires InRange(w)
  {
    forall i, j :: 0 <= i < j < |w.listed| ==> w.socks[w.listed[i]].endpoint != w.socks[w.listed[j]].endpoint
  }

  predicate Succeeds(a: Attempt) {
    a.Opens? && a.fd > 0
  }

  predicate Offers(producers: seq<(Endpoint, Attempt)>, e: Endpoint) {
    exists i :: 0 <= i < |producers| && producers[i].0 == e && Succeeds(producers[i].1)
  }

  lemma ConnectKnows(w: World, e: Endpoint, a: Attempt)
    requires Inv(w)
    ensures var r := ConnectTo(w, e, a);
      && w.listed <= r.listed
      && (forall e' :: Known(r, e') <==> Known(w, e') || (e' == e && Succeeds(a)))
      && (DistinctEndpoints(w) ==> (DistinctEndpoints(r) <==> !(Succeeds(a) && Known(w, e))))
  {
    var r := ConnectTo(w, e, a);
    assert forall i :: 0 <= i < |w.listed| ==> r.listed[i] == w.listed[i] && r.socks[r.listed[i]] == w.socks[w.listed[i]];
    if Succeeds(a) {
      assert r.socks[r.listed[|w.listed|]].endpoint == e;
    }
    forall e' | Known(w, e')
      ensures Known(r, e')
    {
      var i :| 0 <= i < |w.listed| && w.socks[w.listed[i]].endpoint == e';
      assert r.socks[r.listed[i]].endpoint == e';
    }
  }

  /** A response adds to the known endpoints those of its producers that could be connected to, and nothing else;
      a producer that is known or repeated is not connected to again. */
  lemma {:induction false} AnswerAddsProducers(w: World, producers: seq<(Endpoint, Attempt)>)
    requires Inv(w)
    ensures var r := Answer(w, producers);
      && w.listed <= r.listed
      && (forall e :: Known(r, e) <==> Known(w, e) || Offers(producers, e))
      && (DistinctEndpoints(w) ==> DistinctEndpoints(r))
    decreases |producers|
  {
    if producers != [] {
      var (e, a) := producers[0];
      ConnectKnows(w, e, a);
      ConnectKeepsInv(w, e, a);
      var w' := if Known(w, e) then w else ConnectTo(w, e, a);
      AnswerAddsProducers(w', producers[1..]);
      OffersFirst(producers);
    }
  }

  lemma OffersFirst(producers: seq<(Endpoint, Attempt)>)
    requires producers != []
    ensures forall e ::
      (Offers(producers, e) <==> (producers[0].0 == e && Succeeds(producers[0].1)) || Offers(producers[1..], e))
  {
    forall e | Offers(producers[1..], e)
      ensures Offers(producers, e)
    {
      var i :| 0 <= i < |producers[1..]| && producers[1..][i].0 == e && Succeeds(producers[1..][i].1);
      assert producers[i + 1] == producers[1..][i];
    }
    forall e | Offers(producers, e) && !(producers[0].0 == e && Succeeds(producers[0].1))
      ensures Offers(producers[1..], e)
    {
      var i :| 0 <= i < |producers| && producers[i].0 == e && Succeeds(producers[i].1);
      assert producers[1..][i - 1] == producers[i];
    }
  }

  /** A step that connects to an endpoint without asking whether it is connected already. */
  predicate Repeats(w: World, e: Event)
    requires InRange(w) && Enabled(w, e) && forall id: nat :: id in w.waiting ==> id < |w.socks|
  {
    match e
    case Direct(endpoint, a) => Succeeds(a) && Known(w, endpoint)
    case Retry(id, a) => !w.lookupd && Succeeds(a) && Known(w, w.socks[id].endpoint)
    case _ => false
  }

  lemma WithoutIndex(s: seq<nat>, x: nat)
    requires x in s
    ensures |Without(s, x)| == |s| - 1
    ensures forall i :: 0 <= i < |s| - 1 ==> Without(s, x)[i] == s[if i < IndexOf(s, x) then i else i + 1]
  {
  }

  lemma CloseKeepsDistinct(w: World, id: nat)
    requires Inv(w) && id < |w.socks| && Live(w, id) && DistinctEndpoints(w)
    ensures InRange(CloseOne(w, id)) && DistinctEndpoints(CloseOne(w, id))
  {
    CloseKeepsInv(w, id);
    var s, t := w.listed, CloseOne(w, id).listed;
    assert forall i: nat :: i < |w.socks| ==> CloseOne(w, id).socks[i].endpoint == w.socks[i].endpoint;
    if id in s {
      WithoutIndex(s, id);
      assert forall i :: 0 <= i < |t| ==> t[i] == s[if i < IndexOf(s, id) then i else i + 1];
    }
  }

  /** Precisely the connections made without that question put an endpoint into the list twice. */
  lemma DistinctUnlessRepeated(w: World, e: Event)
    requires Inv(w) && Enabled(w, e) && DistinctEndpoints(w)
    ensures InRange(Step(w, e)) && (DistinctEndpoints(Step(w, e)) <==> !Repeats(w, e))
  {
    StepKeepsInv(w, e);
    match e
    case Direct(endpoint, a) => ConnectKnows(w, endpoint, a);
    case Response(producers) => AnswerAddsProducers(w, producers);
    case Established(id) =>
      assert forall i: nat :: i < |w.socks| ==> Step(w, e).socks[i].endpoint == w.socks[i].endpoint;
    case Closed(id) => CloseKeepsDistinct(w, id);
    case Retry(id, a) =>
      var w' := w.(waiting := w.waiting - {id});
      assert Known(w', w.socks[id].endpoint) == Known(w, w.socks[id].endpoint);
      ConnectKnows(w', w.socks[id].endpoint, a);
    case AddLookupd =>
  }

  lemma LookupdStays(w: World, e: Event)
    requires Inv(w) && Enabled(w, e) && w.lookupd
    ensures Step(w, e).lookupd
  {
    if e.Response? {
      AnswerKeepsMode(w, e.producers);
    }
  }

  lemma {:induction false} AnswerKeepsMode(w: World, producers: seq<(Endpoint, Attempt)>)
    requires InRange(w)
    ensures Answer(w, producers).lookupd == w.lookupd && Answer(w, producers).waiting == w.waiting
    decreases |producers|
  {
    if producers != [] {
      var (e, a) := producers[0];
      AnswerKeepsMode(if Known(w, e) then w else ConnectTo(w, e, a), producers[1..]);
    }
  }

  /** With lookupd, whatever producers it reports and however connections end, no endpoint is connected twice. */
  lemma {:induction false} LookupdKeepsEndpointsDistinct(w: World, es: seq<Event>)
    requires Inv(w) && w.lookupd && DistinctEndpoints(w) && Runnable(w, es)
    requires forall e :: e in es ==> !e.Direct?
    ensures DistinctEndpoints(Run(w, es))
    decreases |es|
  {
    if es != [] {
      StepKeepsInv(w, es[0]);
      assert es[0] in es;
      DistinctUnlessRepeated(w, es[0]);
      LookupdStays(w, es[0]);
      LookupdKeepsEndpointsDistinct(Step(w, es[0]), es[1..]);
    }
  }

  // ---- direct mode -------------------------------------------------------------------------------

  ghost function LiveSet(w: World): set<nat> {
    set id: nat | id < |w.socks| && Live(w, id)
  }

  function Calls(es: seq<Event>): nat {
    if es == [] then 0 else (if es[0].Direct? then 1 else 0) + Calls(es[1..])
  }

  /** Connection attempts that failed at once; the timer of such a connection is never started. */
  function Failures(es: seq<Event>): nat {
    if es == [] then 0
    else (if (es[0].Direct? || es[0].Retry?) && es[0].attempt.Fails? then 1 else 0) + Failures(es[1..])
  }

  lemma ConnectAddsOne(w: World, e: Endpoint, a: Attempt)
    ensures |LiveSet(ConnectTo(w, e, a))| == |LiveSet(w)| + (if a.Fails? then 0 else 1)
  {
    var r := ConnectTo(w, e, a);
    assert forall id: nat :: id < |w.socks| ==> r.socks[id] == w.socks[id];
    assert LiveSet(r) == LiveSet(w) + (if a.Fails? then {} else {|w.socks|});
  }

  lemma CloseMovesOne(w: World, id: nat)
    requires Inv(w) && id < |w.socks| && Live(w, id) && !w.lookupd
    ensures |LiveSet(CloseOne(w, id))| == |LiveSet(w)| - 1
    ensures |CloseOne(w, id).waiting| == |w.waiting| + 1
  {
    var r := CloseOne(w, id);
    assert LiveSet(r) == LiveSet(w) - {id};
    assert id !in w.waiting;
  }

  lemma RetryBalance(w: World, id: nat, a: Attempt)
    requires Inv(w) && id in w.waiting && !w.lookupd
    ensures var r := Reconnect(w, id, a);
      |LiveSet(r)| + |r.waiting| + (if a.Fails? then 1 else 0) == |LiveSet(w)| + |w.waiting|
  {
    var w' := w.(waiting := w.waiting - {id});
    assert LiveSet(w') == LiveSet(w);
    ConnectAddsOne(w', w.socks[id].endpoint, a);
  }

  lemma StepBalance(w: World, e: Event)
    requires Inv(w) && Enabled(w, e) && !w.lookupd && !e.AddLookupd?
    ensures var r := Step(w, e);
      && !r.lookupd
      && |LiveSet(r)| + |r.waiting| + Failures([e]) == |LiveSet(w)| + |w.waiting| + Calls([e])
  {
    match e
    case Direct(endpoint, a) => ConnectAddsOne(w, endpoint, a);
    case Established(id) => assert LiveSet(Step(w, e)) == LiveSet(w);
    case Closed(id) => CloseMovesOne(w, id);
    case Retry(id, a) => RetryBalance(w, id, a);
  }

  /** Without lookupd every call of `nsq_reader_connect_to_nsqd` owns one connection, in use or waiting for its
      timer, until an attempt fails at once: then it is lost for good. */
  lemma {:induction false} ConnectionsAreConserved(w: World, es: seq<Event>)
    requires Inv(w) && Runnable(w, es) && !w.lookupd && AddLookupd !in es
    ensures var r := Run(w, es);
      && |LiveSet(r)| + |r.waiting| + Failures(es) == |LiveSet(w)| + |w.waiting| + Calls(es)
    decreases |es|
  {
    if es != [] {
      StepKeepsInv(w, es[0]);
      assert es[0] in es;
      StepBalance(w, es[0]);
      ConnectionsAreConserved(Step(w, es[0]), es[1..]);
    }
  }

  lemma {:induction false} DistinctCount(s: seq<nat>, live: set<nat>)
    requires Distinct(s) && forall x :: x in s ==> x in live
    ensures |s| <= |live| && ((forall x :: x in live ==> x in s) ==> |s| == |live|)
  {
    if s == [] {
      if (forall x :: x in live ==> x in s) {
        assert live == {};
      }
    } else {
      assert s[0] !in s[1..];
      assert forall x :: x in s <==> x == s[0] || x in s[1..];
      DistinctCount(s[1..], live - {s[0]});
    }
  }

  /** So listed and waiting connections together never outnumber the direct calls. */
  lemma DirectModeBound(es: seq<Event>)
    requires Runnable(EMPTY, es) && AddLookupd !in es
    ensures var r := Run(EMPTY, es);
      && |r.listed| + |r.waiting| + Failures(es) <= Calls(es)
      && ((forall id: nat :: id < |r.socks| && Live(r, id) ==> r.socks[id].fd != 0) ==>
        |r.listed| + |r.waiting| + Failures(es) == Calls(es))
  {
    var r := Run(EMPTY, es);
    ConnectionsAreConserved(EMPTY, es);
    assert LiveSet(EMPTY) == {};
    forall x | x in r.listed
      ensures x in LiveSet(r)
    {
      var i :| 0 <= i < |r.listed| && r.listed[i] == x;
      assert r.listed[i] < |r.socks|;
    }
    DistinctCount(r.listed, LiveSet(r));
  }
}
