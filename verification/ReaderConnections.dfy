/** `struct NSQReader` (reader.c) and the answer of a lookupd (nsqlookupd.c), proved against `Readers`. */
module ReaderConnections {
  import opened Nodes
  import opened ListMacros
  import opened Readers
  import Machine

  function Values(nodes: seq<Node<nat>>): (r: seq<nat>)
    ensures |r| == |nodes|
  {
    seq(|nodes|, i requires 0 <= i < |nodes| => nodes[i].val)
  }

  lemma ValuesSnoc(nodes: seq<Node<nat>>, n: Node<nat>)
    ensures Values(nodes + [n]) == Values(nodes) + [n.val]
  {
  }

  class NsqReader {
    var lookupd: bool
    /** What is known of every connection ever made, and the list link inside each of them. */
    var socks: seq<Sock>
    var links: seq<Node<nat>>
    const conns: LList<nat>
    var waiting: set<nat>

    ghost function Listed(): (r: seq<nat>)
      reads conns
      ensures |r| == |conns.nodes|
    {
      Values(conns.nodes)
    }

    ghost function View(): World
      reads this, conns
    {
      World(lookupd, socks, Listed(), waiting)
    }

    /** A list node stands for the connection that it is the link of. */
    ghost predicate Linking()
      reads this, conns
    {
      && |links| == |socks|
      && (forall id :: 0 <= id < |links| ==> links[id].val == id)
      && (forall i :: 0 <= i < |conns.nodes| ==> conns.nodes[i].val < |links| && links[conns.nodes[i].val] == conns.nodes[i])
    }

    ghost predicate Valid()
      reads this, conns, conns.nodes
    {
      conns.Valid() && Linking() && Inv(View())
    }

    constructor ()
      ensures Valid() && fresh(conns) && View() == EMPTY && links == []
    {
      lookupd, socks, links, waiting := false, [], [], {};
      conns := new LList<nat>();
      new;
      assert Listed() == [];
    }

    ghost predicate AddedLink(links0: seq<Node<nat>>, nodes0: seq<Node<nat>>, conn: Node<nat>, listed: bool)
      reads this, conns
    {
      && conn.val == |links0| && links == links0 + [conn]
      && conns.nodes == if listed then nodes0 + [conn] else nodes0
    }

    /** `new_nsqd_connection` and `LL_APPEND(rdr->conns, conn)` if `listed`. */
    method AddLink(listed: bool) returns (conn: Node<nat>)
      requires conns.Valid() && Linking()
      modifies this`links, conns, links
      ensures conns.Valid() && Listed() == if listed then old(Listed()) + [|old(links)|] else old(Listed())
      ensures fresh(conn) && AddedLink(old(links), old(conns.nodes), conn, listed)
    {
      conn := new Node<nat>(|links|);
      if listed {
        ValuesSnoc(conns.nodes, conn);
        conns.Append(conn);
      }
      links := links + [conn];
    }

    /** `nsq_reader_connect_to_nsqd`. */
    method ConnectToNsqd(endpoint: Endpoint, attempt: Attempt) returns (rc: int)
      requires Valid()
      modifies this, conns, links
      ensures Valid() && View() == ConnectTo(old(View()), endpoint, attempt)
      ensures forall k :: 0 <= k < |links| ==> links[k] in old(links) || fresh(links[k])
      ensures rc > 0 <==> attempt.Opens? && attempt.fd > 0
    {
      ConnectKeepsInv(View(), endpoint, attempt);
      rc := if attempt.Opens? then attempt.fd else 0;
      var _ := AddLink(rc > 0);
      socks := socks + [if attempt.Opens? then Sock(endpoint, attempt.fd, Machine.Connecting)
                        else Sock(endpoint, -1, Machine.Init)];
      assert View() == ConnectTo(old(View()), endpoint, attempt);
    }

    /** The search of `nsq_lookupd_request_cb` for a connection to the endpoint. */
    method IsKnown(endpoint: Endpoint) returns (found: bool)
      requires Valid()
      ensures found <==> Known(View(), endpoint)
    {
      found := false;
      var conn := conns.head;
      ghost var k := 0;
      while conn != null
        invariant k <= |conns.nodes| && conn == At(conns.nodes, k, null)
        invariant forall i :: 0 <= i < k ==> socks[Listed()[i]].endpoint != endpoint
        decreases |conns.nodes| - k
      {
        assert conn.val == Listed()[k];
        if socks[conn.val].endpoint == endpoint {
          found := true;
          break;
        }
        assert conns.nodes[k].next == At(conns.nodes, k + 1, null);
        conn, k := conn.next, k + 1;
      }
    }

    method AnswerProducer(producer: (Endpoint, Attempt))
      requires Valid()
      modifies this, conns, links
      ensures Valid() && View() == AnswerOne(old(View()), producer)
      ensures forall k :: 0 <= k < |links| ==> links[k] in old(links) || fresh(links[k])
    {
      var found := IsKnown(producer.0);
      if !found {
        var _ := ConnectToNsqd(producer.0, producer.1);
      }
    }

    /** The producer loop of `nsq_lookupd_request_cb`. */
    method LookupRequestCb(producers: seq<(Endpoint, Attempt)>)
      requires Valid()
      modifies this, conns, links
      ensures Valid() && View() == Answer(old(View()), producers)
      ensures forall k :: 0 <= k < |links| ==> links[k] in old(links) || fresh(links[k])
    {
      ghost var start := View();
      var i := 0;
      while i < |producers|
        invariant 0 <= i <= |producers| && Valid()
        invariant forall k :: 0 <= k < |links| ==> links[k] in old(links) || fresh(links[k])
        invariant Answer(View(), producers[i..]) == Answer(start, producers)
      {
        AnswerTurn(View(), producers, i);
        AnswerProducer(producers[i]);
        i := i + 1;
      }
    }

    /** `LL_DELETE(rdr->conns, conn)`. */
    method Unlist(id: nat)
      requires conns.Valid() && Linking() && conns.nodes != [] && id < |links| && Distinct(Listed())
      modifies conns, links
      ensures conns.Valid() && Linking() && View() == old(View()).(listed := Without(old(Listed()), id))
    {
      WithoutValues(conns.nodes, Listed(), links[id]);
      conns.Delete(links[id]);
      assert Listed() == Without(old(Listed()), id);
    }

    /** `buffered_socket_close`, as far as the reader sees it. */
    method CloseSocket(id: nat)
      requires conns.Valid() && Linking() && id < |socks|
      modifies this`socks
      ensures conns.Valid() && Linking() && View() == SetState(old(View()), id, -1, Machine.Disconnected)
    {
      socks := socks[id := socks[id].(fd := -1, state := Machine.Disconnected)];
      assert Listed() == old(Listed());
    }

    /** Without lookupd the reconnect timer starts. */
    method StartTimer(id: nat)
      requires conns.Valid() && Linking()
      modifies this`waiting
      ensures conns.Valid() && Linking()
      ensures View() == if lookupd then old(View()) else old(View()).(waiting := old(waiting) + {id})
    {
      if !lookupd {
        waiting := waiting + {id};
      }
      assert Listed() == old(Listed());
    }

    /** `buffered_socket_close` and `nsq_reader_close_cb`. */
    method CloseCb(id: nat)
      requires Valid() && Enabled(View(), Closed(id))
      modifies this`socks, this`waiting, conns, links
      ensures Valid() && View() == CloseOne(old(View()), id)
    {
      CloseKeepsInv(View(), id);
      CloseSocket(id);
      Unlist(id);
      StartTimer(id);
    }

    /** `nsq_reader_reconnect_cb`. */
    method ReconnectCb(id: nat, attempt: Attempt)
      requires Valid() && Enabled(View(), Retry(id, attempt))
      modifies this, conns, links
      ensures Valid() && View() == Reconnect(old(View()), id, attempt)
      ensures forall k :: 0 <= k < |links| ==> links[k] in old(links) || fresh(links[k])
    {
      ghost var w := View();
      StepKeepsInv(w, Retry(id, attempt));
      if !lookupd {
        var _ := ConnectToNsqd(socks[id].endpoint, attempt);
      }
      waiting := waiting - {id};
      assert Listed() == Reconnect(w, id, attempt).listed;
    }

    /** `buffered_socket_connect_cb` when the connection is made. */
    method ConnectCb(id: nat)
      requires Valid() && Enabled(View(), Established(id))
      modifies this`socks
      ensures Valid() && View() == Step(old(View()), Established(id))
    {
      StepKeepsInv(View(), Established(id));
      socks := socks[id := socks[id].(state := Machine.Connected)];
      assert Listed() == old(Listed());
    }

    /** The loop of `nsq_reader_add_nsqlookupd_endpoint` that stops reconnect timers: none of the listed
        connections has one that runs. */
    method StopTimers()
      requires Valid()
      modifies this`waiting
      ensures waiting == old(waiting)
    {
      var conn := conns.head;
      ghost var k := 0;
      while conn != null
        invariant k <= |conns.nodes| && conn == At(conns.nodes, k, null) && waiting == old(waiting)
        decreases |conns.nodes| - k
      {
        assert conn.val == Listed()[k] && conn.val in Listed();
        waiting := waiting - {conn.val};
        assert conns.nodes[k].next == At(conns.nodes, k + 1, null);
        conn, k := conn.next, k + 1;
      }
    }

    /** `nsq_reader_add_nsqlookupd_endpoint`. */
    method AddNsqlookupdEndpoint()
      requires Valid()
      modifies this`lookupd, this`waiting
      ensures Valid() && View() == Step(old(View()), AddLookupd)
    {
      if !lookupd {
        StopTimers();
      }
      lookupd := true;
      assert Listed() == old(Listed());
    }

    /** One event of a run. */
    method Dispatch(e: Event)
      requires Valid() && Enabled(View(), e)
      modifies this, conns, links
      ensures Valid() && View() == Step(old(View()), e)
      ensures forall k :: 0 <= k < |links| ==> links[k] in old(links) || fresh(links[k])
    {
      match e
      case Direct(endpoint, a) => var _ := ConnectToNsqd(endpoint, a);
      case Response(producers) => LookupRequestCb(producers);
      case Established(id) => ConnectCb(id);
      case Closed(id) => CloseCb(id);
      case Retry(id, a) => ReconnectCb(id, a);
      case AddLookupd => AddNsqlookupdEndpoint();
    }

    /** A run of the reader is a run of the step system; all along, the list of the object is acyclic and names what
        `Inv` says. */
    method Loop(es: seq<Event>)
      requires Valid() && Runnable(View(), es)
      modifies this, conns, links
      ensures Valid() && View() == Run(old(View()), es)
      ensures forall k :: 0 <= k < |links| ==> links[k] in old(links) || fresh(links[k])
      decreases |es|
    {
      if es != [] {
        StepKeepsInv(View(), es[0]);
        Dispatch(es[0]);
        Loop(es[1..]);
      }
    }
  }

  /** Deleting a node deletes the number it carries. */
  lemma WithoutValues(s: seq<Node<nat>>, vals: seq<nat>, x: Node<nat>)
    requires |s| == |vals| && (forall i :: 0 <= i < |s| ==> vals[i] == s[i].val)
    requires Distinct(vals) && (x in s || x.val !in vals)
    ensures |Without(s, x)| == |Without(vals, x.val)|
    ensures forall i :: 0 <= i < |Without(s, x)| ==> Without(s, x)[i].val == Without(vals, x.val)[i]
    ensures forall i :: 0 <= i < |Without(s, x)| ==> Without(s, x)[i] in s
  {
    if x in s {
      var i := IndexOf(s, x);
      assert vals[i] == x.val;
      assert IndexOf(vals, x.val) == i;
    } else {
      assert x.val !in vals;
    }
  }
}
