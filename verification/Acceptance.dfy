/** What the write buffer takes of what is written, for every run from a new connection, and exactly when it takes
    all of it. */
module Acceptance {
  import opened Bytes
  import opened Windows
  import opened Builders
  import opened Machine
  import opened ConnectionRuns
  import opened ConnectionTheorems

  // ---- logs and refusals -------------------------------------------------------------------------

  predicate AcceptedAction(a: Action, user: bool) {
    a.Wrote? && (user || a.kind != User) ==> a.accepted
  }

  /** No write was refused; or, without `user`, none but of user code. */
  predicate Accepts(log: seq<Action>, user: bool) {
    forall a <- log :: AcceptedAction(a, user)
  }

  function KeptOne(a: Action): seq<Item> {
    if a.Wrote? && !a.accepted then [] else [ItemOf(a)]
  }

  /** A log without the writes that were refused. */
  function Kept(log: seq<Action>): (items: seq<Item>) {
    if log == [] then [] else Kept(log[..|log| - 1]) + KeptOne(log[|log| - 1])
  }

  lemma {:induction false} KeptTwo(xs: seq<Action>, ys: seq<Action>)
    ensures Kept(xs + ys) == Kept(xs) + Kept(ys)
  {
    if ys == [] {
      assert xs + ys == xs;
    } else {
      var init, y := ys[..|ys| - 1], ys[|ys| - 1];
      KeptTwo(xs, init);
      assert (xs + ys)[..|xs + ys| - 1] == xs + init;
      Assoc(Kept(xs), Kept(init), KeptOne(y));
    }
  }

  lemma AcceptsTwo(xs: seq<Action>, ys: seq<Action>, user: bool)
    ensures Accepts(xs + ys, user) <==> Accepts(xs, user) && Accepts(ys, user)
  {
  }

  predicate NoneEmpty(items: seq<Item>) {
    forall i <- items :: i.WroteItem? ==> i.bytes != []
  }

  lemma BytesSnoc(log: seq<Action>, a: Action)
    ensures BytesOf(Items(log + [a])) == BytesOf(Items(log)) + BytesIn(ItemOf(a))
    ensures NoneEmpty(Items(log + [a])) ==> NoneEmpty(Items(log)) && (a.Wrote? ==> a.bytes != [])
  {
    LogSnoc(log, a);
    GatherTwo(BytesIn, Items(log), [ItemOf(a)]);
    GatherOne(BytesIn, ItemOf(a));
    assert ItemOf(a) in Items(log) + [ItemOf(a)];
  }

  /** With nothing refused, the bytes accepted are the bytes written; otherwise they are fewer, unless writes were
      empty. */
  lemma {:induction false} AcceptedBytes(log: seq<Action>)
    ensures |Accepted(log)| <= |BytesOf(Items(log))|
    ensures Accepts(log, true) ==> Accepted(log) == BytesOf(Items(log))
    ensures NoneEmpty(Items(log)) && |Accepted(log)| == |BytesOf(Items(log))| ==> Accepts(log, true)
  {
    if log != [] {
      var init, a := log[..|log| - 1], log[|log| - 1];
      AcceptedBytes(init);
      BytesSnoc(init, a);
      assert log == init + [a];
      AcceptsTwo(init, [a], true);
      assert Accepts([a], true) <==> AcceptedAction(a, true) by { assert [a][0] == a; }
      assert |BytesIn(ItemOf(a))| >= |AcceptedOne(a)|;
    }
  }

  // ---- what a write buffer takes -----------------------------------------------------------------

  /** The write buffer `w` takes one item after the other; or, without `user`, those not of user code. */
  predicate Takes(w: Window, items: seq<Item>, user: bool)
    requires SmallItems(items)
    decreases |items|
  {
    items == [] || (AcceptedAction(FateOf(w, items[0]), user) && Takes(Took(w, items[0]), items[1..], user))
  }

  lemma {:induction false} TakesIffAccepts(w: Window, items: seq<Item>, user: bool)
    requires SmallItems(items)
    ensures Takes(w, items, user) <==> Accepts(Fates(w, items), user)
    decreases |items|
  {
    if items != [] {
      TakesIffAccepts(Took(w, items[0]), items[1..], user);
      AcceptsTwo([FateOf(w, items[0])], Fates(Took(w, items[0]), items[1..]), user);
    }
  }

  predicate StepTakes(v: Conn, cfg: Config, e: Event, user: bool)
    requires cfg.Ok() && Enabled(v, e)
  {
    var items := StepItems(v, cfg, e);
    SmallItems(items) && Takes(v.sock.writeBuf, items, user)
  }

  /** The write buffer refuses nothing that is written in this run. */
  predicate AllTake(v: Conn, cfg: Config, es: seq<Event>, user: bool)
    requires cfg.Ok() && Runnable(v, cfg, es)
    decreases |es|
  {
    es == [] || (StepTakes(v, cfg, es[0], user) && AllTake(Step(v, cfg, es[0]), cfg, es[1..], user))
  }

  /** How an event changes the log and the write buffer: by what it writes, or by sending. */
  predicate Turns(s: Socket, s': Socket, items: seq<Item>) {
    SmallItems(items) && s'.log == s.log + Fates(s.writeBuf, items) &&
    (s'.writeBuf == TookAll(s.writeBuf, items) || (items == [] && Drained(s.writeBuf, s'.writeBuf)))
  }

  predicate Drained(w: Window, w': Window) {
    SameSize(w, w') && |w'.bytes| <= |w.bytes|
  }

  /** The sizes that matter are kept. */
  predicate SameSize(w: Window, w': Window) {
    w'.length == w.length && w'.capacity == w.capacity
  }

  lemma DrainShrinks(w: Window, n: nat)
    ensures Drained(w, Drain(w, n))
  {
  }

  lemma SendingIsDraining(s: Socket, result: int, retry: bool)
    requires result <= |s.writeBuf.bytes|
    ensures OnWritable(s, result, retry).writeBuf == if result > 0 then Drain(s.writeBuf, result) else s.writeBuf
  {
  }

  lemma SendingTurns(s: Socket, result: int, retry: bool)
    requires result <= |s.writeBuf.bytes|
    ensures Turns(s, OnWritable(s, result, retry), [])
  {
    SendingIsSilent(s, result, retry);
    SendingIsDraining(s, result, retry);
    if result > 0 {
      DrainShrinks(s.writeBuf, result);
    }
    assert s.log + [] == s.log;
  }

  lemma StepTurns(v: Conn, cfg: Config, e: Event)
    requires cfg.Ok() && Inv(v) && Enabled(v, e)
    ensures Turns(v.sock, Step(v, cfg, e).sock, StepItems(v, cfg, e))
  {
    match e
    case Writable(result, retry) => SendingTurns(v.sock, result, retry);
    case _ => StepFates(v, cfg, e);
  }

  lemma TurnAccepts(s: Socket, s': Socket, items: seq<Item>, user: bool)
    requires Turns(s, s', items)
    ensures Accepts(s'.log, user) <==> Accepts(s.log, user) && Takes(s.writeBuf, items, user)
  {
    TakesIffAccepts(s.writeBuf, items, user);
    AcceptsTwo(s.log, Fates(s.writeBuf, items), user);
  }

  lemma StepAccepts(v: Conn, cfg: Config, e: Event, user: bool)
    requires cfg.Ok() && Inv(v) && Enabled(v, e)
    ensures Accepts(Step(v, cfg, e).sock.log, user) <==> Accepts(v.sock.log, user) && StepTakes(v, cfg, e, user)
  {
    StepTurns(v, cfg, e);
    TurnAccepts(v.sock, Step(v, cfg, e).sock, StepItems(v, cfg, e), user);
  }

  lemma {:induction false} RunAccepts(v: Conn, cfg: Config, es: seq<Event>, user: bool)
    requires cfg.Ok() && Inv(v) && Runnable(v, cfg, es)
    ensures Accepts(Exec(v, cfg, es).sock.log, user) <==> Accepts(v.sock.log, user) && AllTake(v, cfg, es, user)
    decreases |es|
  {
    if es != [] {
      StepKeepsInv(v, cfg, es[0]);
      StepAccepts(v, cfg, es[0], user);
      RunAccepts(Step(v, cfg, es[0]), cfg, es[1..], user);
    }
  }

  lemma AcceptedIffTaken(v: Conn, cfg: Config, es: seq<Event>, user: bool)
    requires Start(v, cfg) && Runnable(v, cfg, es)
    ensures Accepts(Exec(v, cfg, es).sock.log, user) <==> AllTake(v, cfg, es, user)
  {
    InitialInv(v);
    RunAccepts(v, cfg, es, user);
  }

  lemma {:induction false} AllTakeOwn(v: Conn, cfg: Config, es: seq<Event>)
    requires cfg.Ok() && Runnable(v, cfg, es) && AllTake(v, cfg, es, true)
    ensures AllTake(v, cfg, es, false)
    decreases |es|
  {
    if es != [] {
      TakesOwn(v.sock.writeBuf, StepItems(v, cfg, es[0]));
      AllTakeOwn(Step(v, cfg, es[0]), cfg, es[1..]);
    }
  }

  lemma {:induction false} TakesOwn(w: Window, items: seq<Item>)
    requires SmallItems(items) && Takes(w, items, true)
    ensures Takes(w, items, false)
    decreases |items|
  {
    if items != [] {
      TakesOwn(Took(w, items[0]), items[1..]);
    }
  }

  // ---- write buffers that are large enough -------------------------------------------------------

  lemma HeadBytes(items: seq<Item>)
    requires items != []
    ensures BytesOf(items) == BytesIn(items[0]) + BytesOf(items[1..])
  {
    GatherTwo(BytesIn, [items[0]], items[1..]);
    GatherOne(BytesIn, items[0]);
    assert items == [items[0]] + items[1..];
  }

  predicate FitsIn(w: Window, items: seq<Item>) {
    |w.bytes| + |BytesOf(items)| <= w.length
  }

  lemma RoomTakesOne(w: Window, i: Item)
    requires w.length <= TWO_31 && (i.WroteItem? ==> |i.bytes| < TWO_31) && |w.bytes| + |BytesIn(i)| <= w.length
    ensures AcceptedAction(FateOf(w, i), true)
    ensures Took(w, i).bytes == w.bytes + BytesIn(i) && SameSize(w, Took(w, i))
  {
    if i.WroteItem? {
      var x := Shortfall(w, |i.bytes|);
      assert ToInt32(x) == x;
    } else {
      assert w.bytes + [] == w.bytes;
    }
  }

  /** What fits is taken, wherever in the buffer the pending bytes are and whatever its capacity. */
  lemma {:induction false} RoomTakes(w: Window, items: seq<Item>)
    requires SmallItems(items) && w.length <= TWO_31 && FitsIn(w, items)
    ensures Takes(w, items, true) && SameSize(w, TookAll(w, items)) && TookAll(w, items).bytes == w.bytes + BytesOf(items)
    decreases |items|
  {
    if items == [] {
      assert w.bytes + [] == w.bytes;
    } else {
      HeadBytes(items);
      RoomTakesOne(w, items[0]);
      RoomTakes(Took(w, items[0]), items[1..]);
      Assoc(w.bytes, BytesIn(items[0]), BytesOf(items[1..]));
    }
  }

  lemma UnboundedTakesOne(w: Window, i: Item)
    requires w.capacity == 0 && (i.WroteItem? ==> |i.bytes| < TWO_31)
    ensures AcceptedAction(FateOf(w, i), true) && Took(w, i).capacity == 0
  {
  }

  lemma {:induction false} UnboundedTakes(w: Window, items: seq<Item>)
    requires SmallItems(items) && w.capacity == 0
    ensures Takes(w, items, true) && TookAll(w, items).capacity == 0
    decreases |items|
  {
    if items != [] {
      UnboundedTakesOne(w, items[0]);
      UnboundedTakes(Took(w, items[0]), items[1..]);
    }
  }

  lemma FixedTakesOne(w: Window, i: Item)
    requires Fixed(w) && (i.WroteItem? ==> |i.bytes| < TWO_31)
    ensures AcceptedAction(FateOf(w, i), true) <==> |w.bytes| + |BytesIn(i)| <= w.length
    ensures Fixed(Took(w, i)) && Took(w, i).length == w.length
    ensures |Took(w, i).bytes| == |w.bytes| + if AcceptedAction(FateOf(w, i), true) then |BytesIn(i)| else 0
  {
    if i.WroteItem? {
      FixedAdd(w, i.bytes);
    }
  }

  /** A buffer that cannot grow takes exactly what fits. */
  lemma {:induction false} FixedTakes(w: Window, items: seq<Item>)
    requires SmallItems(items) && Fixed(w)
    ensures Takes(w, items, true) <==> FitsIn(w, items)
    ensures Fixed(TookAll(w, items)) && TookAll(w, items).length == w.length
    decreases |items|
  {
    if items != [] {
      HeadBytes(items);
      FixedTakesOne(w, items[0]);
      FixedTakes(Took(w, items[0]), items[1..]);
    }
  }

  /** Whatever is written finds room behind the bytes that are still pending. */
  predicate HasRoom(v: Conn, cfg: Config, es: seq<Event>)
    requires cfg.Ok() && Runnable(v, cfg, es)
    decreases |es|
  {
    es == [] || (FitsIn(v.sock.writeBuf, StepItems(v, cfg, es[0])) && HasRoom(Step(v, cfg, es[0]), cfg, es[1..]))
  }

  lemma RoomTurns(s: Socket, s': Socket, items: seq<Item>)
    requires Turns(s, s', items) && s.writeBuf.length <= TWO_31 && FitsIn(s.writeBuf, items)
    ensures Takes(s.writeBuf, items, true) && SameSize(s.writeBuf, s'.writeBuf)
    ensures |s'.writeBuf.bytes| <= |s.writeBuf.bytes| + |BytesOf(items)|
  {
    RoomTakes(s.writeBuf, items);
  }

  lemma RoomForStep(v: Conn, cfg: Config, e: Event)
    requires cfg.Ok() && Inv(v) && Enabled(v, e)
    requires v.sock.writeBuf.length <= TWO_31 && FitsIn(v.sock.writeBuf, StepItems(v, cfg, e))
    ensures StepTakes(v, cfg, e, true) && SameSize(v.sock.writeBuf, Step(v, cfg, e).sock.writeBuf)
    ensures |Step(v, cfg, e).sock.writeBuf.bytes| <= |v.sock.writeBuf.bytes| + |BytesOf(StepItems(v, cfg, e))|
  {
    StepTurns(v, cfg, e);
    RoomTurns(v.sock, Step(v, cfg, e).sock, StepItems(v, cfg, e));
  }

  lemma {:induction false} RoomTakesRun(v: Conn, cfg: Config, es: seq<Event>)
    requires cfg.Ok() && Inv(v) && Runnable(v, cfg, es) && v.sock.writeBuf.length <= TWO_31 && HasRoom(v, cfg, es)
    ensures AllTake(v, cfg, es, true)
    decreases |es|
  {
    if es != [] {
      StepKeepsInv(v, cfg, es[0]);
      RoomForStep(v, cfg, es[0]);
      RoomTakesRun(Step(v, cfg, es[0]), cfg, es[1..]);
    }
  }

  lemma UnboundedTurns(s: Socket, s': Socket, items: seq<Item>)
    requires Turns(s, s', items) && s.writeBuf.capacity == 0
    ensures Takes(s.writeBuf, items, true) && s'.writeBuf.capacity == 0
  {
    UnboundedTakes(s.writeBuf, items);
  }

  lemma {:induction false} UnboundedTakesRun(v: Conn, cfg: Config, es: seq<Event>)
    requires cfg.Ok() && Inv(v) && Runnable(v, cfg, es) && v.sock.writeBuf.capacity == 0
    ensures AllTake(v, cfg, es, true)
    decreases |es|
  {
    if es != [] {
      StepKeepsInv(v, cfg, es[0]);
      StepTurns(v, cfg, es[0]);
      UnboundedTurns(v.sock, Step(v, cfg, es[0]).sock, StepItems(v, cfg, es[0]));
      UnboundedTakesRun(Step(v, cfg, es[0]), cfg, es[1..]);
    }
  }

  lemma FixedTurns(s: Socket, s': Socket, items: seq<Item>)
    requires Turns(s, s', items) && Fixed(s.writeBuf)
    ensures Takes(s.writeBuf, items, true) <==> FitsIn(s.writeBuf, items)
    ensures Fixed(s'.writeBuf)
  {
    FixedTakes(s.writeBuf, items);
  }

  lemma {:induction false} FixedTakesRun(v: Conn, cfg: Config, es: seq<Event>)
    requires cfg.Ok() && Inv(v) && Runnable(v, cfg, es) && Fixed(v.sock.writeBuf)
    ensures AllTake(v, cfg, es, true) <==> HasRoom(v, cfg, es)
    decreases |es|
  {
    if es != [] {
      StepKeepsInv(v, cfg, es[0]);
      StepTurns(v, cfg, es[0]);
      FixedTurns(v.sock, Step(v, cfg, es[0]).sock, StepItems(v, cfg, es[0]));
      FixedTakesRun(Step(v, cfg, es[0]), cfg, es[1..]);
    }
  }

  /** In every run the write buffer takes all that finds room; a buffer that cannot grow, as in the default
      configuration, only that; and a buffer without a capacity all there is. */
  lemma TakenIfRoom(v: Conn, cfg: Config, es: seq<Event>)
    requires Start(v, cfg) && Runnable(v, cfg, es)
    ensures v.sock.writeBuf.length <= TWO_31 && HasRoom(v, cfg, es) ==> AllTake(v, cfg, es, true)
    ensures Fixed(v.sock.writeBuf) ==> (AllTake(v, cfg, es, true) <==> HasRoom(v, cfg, es))
    ensures v.sock.writeBuf.capacity == 0 ==> AllTake(v, cfg, es, true)
  {
    InitialInv(v);
    if v.sock.writeBuf.capacity == 0 {
      UnboundedTakesRun(v, cfg, es);
    } else if Fixed(v.sock.writeBuf) {
      FixedTakesRun(v, cfg, es);
    } else if v.sock.writeBuf.length <= TWO_31 && HasRoom(v, cfg, es) {
      RoomTakesRun(v, cfg, es);
    }
  }

  /** There is room for sure as long as a run writes no more than the length of the buffer. */
  lemma {:induction false} ShortRunHasRoom(v: Conn, cfg: Config, es: seq<Event>)
    requires cfg.Ok() && Inv(v) && Runnable(v, cfg, es) && v.sock.writeBuf.length <= TWO_31
    requires FitsIn(v.sock.writeBuf, RunItems(v, cfg, es))
    ensures HasRoom(v, cfg, es)
    decreases |es|
  {
    if es != [] {
      var v' := Step(v, cfg, es[0]);
      GatherTwo(BytesIn, StepItems(v, cfg, es[0]), RunItems(v', cfg, es[1..]));
      StepKeepsInv(v, cfg, es[0]);
      RoomForStep(v, cfg, es[0]);
      ShortRunHasRoom(v', cfg, es[1..]);
    }
  }
}
