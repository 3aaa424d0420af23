/** The functions of command.c, on a `Buffer`. */
module CommandBuilders {
  import opened Bytes
  import opened Windows
  import opened Commands
  import opened Builders
  import opened Buffers

  lemma {:induction false} WordPiecesSnoc(words: seq<seq<byte>>, w: seq<byte>)
    ensures WordPieces(words + [w]) == WordPieces(words) + [[SPACE], w]
  {
    if words == [] {
      assert [] + [w] == [w];
    } else {
      WordPiecesSnoc(words[1..], w);
      assert (words + [w])[1..] == words[1..] + [w];
    }
  }

  lemma {:induction false} TextsSnoc(params: seq<Param>, p: Param)
    ensures Texts(params + [p]) == Texts(params) + [Text(p)]
  {
    if params == [] {
      assert [] + [p] == [p];
    } else {
      TextsSnoc(params[1..], p);
      assert (params + [p])[1..] == params[1..] + [p];
    }
  }

  lemma {:induction false} DigitsAreShort(n: nat, k: nat, bound: nat)
    requires n < bound && bound == Power10(k) && k > 0
    ensures |Digits(n)| <= k
    decreases k
  {
    if n >= 10 {
      assert bound == 10 * Power10(k - 1);
      DigitsAreShort(n / 10, k - 1, Power10(k - 1));
    }
  }

  function Power10(k: nat): nat {
    if k == 0 then 1 else 10 * Power10(k - 1)
  }

  /** The text of an `int`, with its terminating NUL, fits the local array `b[64]`. */
  lemma DecimalFits(n: cint)
    ensures |Decimal(n)| + 1 <= 64
  {
    var m: int := n;
    assert Power10(10) == 10_000_000_000 by {
      assert Power10(2) == 100 && Power10(4) == 100 * Power10(2);
      assert Power10(6) == 100 * Power10(4) && Power10(8) == 100 * Power10(6) && Power10(10) == 100 * Power10(8);
    }
    DigitsAreShort(if m < 0 then -m else m, 10, Power10(10));
  }

  /** Adding the pieces `ps` one by one so far, the next piece is `p`. */
  lemma NextPiece(w: Window, ps: seq<seq<byte>>, p: seq<byte>)
    requires Small(ps) && |p| < TWO_31
    ensures Small(ps + [p])
    ensures AddAll(w, ps + [p]) == Windows.Add(AddAll(w, ps), p).0
  {
    AddAllOfTwo(w, ps, [p]);
  }

  method AddPiece(buf: Buffer, p: seq<byte>, ghost w0: Window, ghost done: seq<seq<byte>>) returns (ghost done': seq<seq<byte>>)
    requires buf.Valid() && |p| < TWO_31
    requires Small(done) && buf.View() == AddAll(w0, done)
    modifies buf, buf.orig
    ensures buf.Valid() && (buf.orig == old(buf.orig) || fresh(buf.orig))
    ensures done' == done + [p]
    ensures Small(done') && buf.View() == AddAll(w0, done')
  {
    NextPiece(w0, done, p);
    done' := done + [p];
    var _ := buf.Add(p);
  }

  method AddParam(buf: Buffer, p: Param, ghost w0: Window, ghost done: seq<seq<byte>>) returns (ghost done': seq<seq<byte>>)
    requires buf.Valid() && |Text(p)| < TWO_31
    requires Small(done) && buf.View() == AddAll(w0, done)
    modifies buf, buf.orig
    ensures buf.Valid() && (buf.orig == old(buf.orig) || fresh(buf.orig))
    ensures done' == done + [[SPACE], Text(p)]
    ensures Small(done') && buf.View() == AddAll(w0, done')
  {
    done' := AddPiece(buf, [SPACE], w0, done);
    match p {
      case IntParam(n) =>
        DecimalFits(n);
        done' := AddPiece(buf, Decimal(n), w0, done');
      case CharParam(text) =>
        done' := AddPiece(buf, text, w0, done');
    }
  }

  /** The loop over the parameters. */
  method AddParams(buf: Buffer, params: seq<Param>, ghost w0: Window, ghost name: seq<byte>)
    returns (ghost done: seq<seq<byte>>)
    requires buf.Valid() && |name| < TWO_31 && (forall p <- params :: |Text(p)| < TWO_31)
    requires buf.View() == AddAll(w0, [name])
    modifies buf, buf.orig
    ensures buf.Valid() && (buf.orig == old(buf.orig) || fresh(buf.orig))
    ensures done == [name] + WordPieces(Texts(params))
    ensures Small(done) && buf.View() == AddAll(w0, done)
  {
    done := [name];
    for i := 0 to |params|
      invariant buf.Valid() && (buf.orig == old(buf.orig) || fresh(buf.orig))
      invariant done == [name] + WordPieces(Texts(params[..i]))
      invariant Small(done) && buf.View() == AddAll(w0, done)
    {
      done := AddParam(buf, params[i], w0, done);
      NextWord(name, params, i);
    }
    assert params[..|params|] == params;
  }

  lemma NextWord(name: seq<byte>, params: seq<Param>, i: nat)
    requires i < |params|
    ensures [name] + WordPieces(Texts(params[..i + 1]))
      == [name] + WordPieces(Texts(params[..i])) + [[SPACE], Text(params[i])]
  {
    assert params[..i + 1] == params[..i] + [params[i]];
    TextsSnoc(params[..i], params[i]);
    WordPiecesSnoc(Texts(params[..i]), Text(params[i]));
  }

  /** The body behind its length, if there is one. */
  method AddBody(buf: Buffer, body: Option<seq<byte>>, ghost w0: Window, ghost done: seq<seq<byte>>)
    requires buf.Valid() && (body.Some? ==> |body.value| < TWO_31)
    requires Small(done) && buf.View() == AddAll(w0, done)
    modifies buf, buf.orig
    ensures buf.Valid() && (buf.orig == old(buf.orig) || fresh(buf.orig))
    ensures Small(done + BodyPieces(body)) && buf.View() == AddAll(w0, done + BodyPieces(body))
  {
    if body.Some? {
      ghost var sized := AddPiece(buf, Size32(|body.value|), w0, done);
      sized := AddPiece(buf, body.value, w0, sized);
      assert sized == done + BodyPieces(body);
    } else {
      assert done + BodyPieces(body) == done;
    }
  }

  method NsqBufferAdd(buf: Buffer, name: cstring, params: seq<Param>, body: Option<seq<byte>>)
    requires buf.Valid() && Small(LinePieces([name] + Texts(params), body))
    modifies buf, buf.orig
    ensures buf.Valid() && (buf.orig == old(buf.orig) || fresh(buf.orig))
    ensures buf.View() == AddAll(old(buf.View()), LinePieces([name] + Texts(params), body))
  {
    ghost var w0 := buf.View();
    PiecesAreSmall(name, params, body);
    ghost var done := AddPiece(buf, name, w0, []);
    done := AddParams(buf, params, w0, name);
    done := AddPiece(buf, [NEWLINE], w0, done);
    AddBody(buf, body, w0, done);
    assert ([name] + Texts(params))[1..] == Texts(params);
  }

  lemma {:induction false} TextIsWordPiece(words: seq<seq<byte>>, i: nat)
    requires i < |words|
    ensures words[i] in WordPieces(words)
  {
    if i == 0 {
      assert words[0] == WordPieces(words)[1];
    } else {
      TextIsWordPiece(words[1..], i - 1);
    }
  }

  lemma {:induction false} TextAt(params: seq<Param>, i: nat)
    requires i < |params|
    ensures |Texts(params)| == |params| && Texts(params)[i] == Text(params[i])
  {
    if i > 0 {
      TextAt(params[1..], i - 1);
    } else if |params| > 1 {
      TextAt(params[1..], 0);
    }
  }

  lemma PiecesAreSmall(name: cstring, params: seq<Param>, body: Option<seq<byte>>)
    requires Small(LinePieces([name] + Texts(params), body))
    ensures |name| < TWO_31 && (forall p <- params :: |Text(p)| < TWO_31)
    ensures body.Some? ==> |body.value| < TWO_31
  {
    var pieces := LinePieces([name] + Texts(params), body);
    assert name == pieces[0];
    if body.Some? {
      assert body.value == pieces[|pieces| - 1];
    }
    assert ([name] + Texts(params))[1..] == Texts(params);
    forall p | p in params
      ensures |Text(p)| < TWO_31
    {
      var i :| 0 <= i < |params| && params[i] == p;
      TextAt(params, i);
      TextIsWordPiece(Texts(params), i);
      assert Text(p) in pieces;
    }
  }

  lemma OneText(p: Param)
    ensures Texts([p]) == [Text(p)]
  {
    assert [p][1..] == [];
  }

  lemma TwoTexts(p: Param, q: Param)
    ensures Texts([p, q]) == [Text(p), Text(q)]
  {
    OneText(q);
    assert [p, q][1..] == [q];
  }

  // ---- the builders ------------------------------------------------------------------------------

  method NsqSubscribe(buf: Buffer, topic: cstring, channel: cstring)
    requires buf.Valid() && Small(Pieces(Subscribe(topic, channel)))
    modifies buf, buf.orig
    ensures buf.Valid() && (buf.orig == old(buf.orig) || fresh(buf.orig))
    ensures buf.View() == Built(old(buf.View()), Subscribe(topic, channel))
  {
    var params := [CharParam(topic), CharParam(channel)];
    TwoTexts(params[0], params[1]);
    assert [SUB] + Texts(params) == Words(Subscribe(topic, channel));
    NsqBufferAdd(buf, SUB, params, None);
  }

  method NsqReady(buf: Buffer, count: cint)
    requires buf.Valid() && Small(Pieces(Ready(count)))
    modifies buf, buf.orig
    ensures buf.Valid() && (buf.orig == old(buf.orig) || fresh(buf.orig))
    ensures buf.View() == Built(old(buf.View()), Ready(count))
  {
    var params := [IntParam(count)];
    OneText(params[0]);
    assert [RDY] + Texts(params) == Words(Ready(count));
    NsqBufferAdd(buf, RDY, params, None);
  }

  method NsqFinish(buf: Buffer, id: cstring)
    requires buf.Valid() && Small(Pieces(Finish(id)))
    modifies buf, buf.orig
    ensures buf.Valid() && (buf.orig == old(buf.orig) || fresh(buf.orig))
    ensures buf.View() == Built(old(buf.View()), Finish(id))
  {
    var params := [CharParam(id)];
    OneText(params[0]);
    assert [FIN] + Texts(params) == Words(Finish(id));
    NsqBufferAdd(buf, FIN, params, None);
  }

  method NsqRequeue(buf: Buffer, id: cstring, timeoutMs: cint)
    requires buf.Valid() && Small(Pieces(Requeue(id, timeoutMs)))
    modifies buf, buf.orig
    ensures buf.Valid() && (buf.orig == old(buf.orig) || fresh(buf.orig))
    ensures buf.View() == Built(old(buf.View()), Requeue(id, timeoutMs))
  {
    var params := [CharParam(id), IntParam(timeoutMs)];
    TwoTexts(params[0], params[1]);
    assert [REQ] + Texts(params) == Words(Requeue(id, timeoutMs));
    NsqBufferAdd(buf, REQ, params, None);
  }

  method NsqNop(buf: Buffer)
    requires buf.Valid()
    modifies buf, buf.orig
    ensures buf.Valid() && (buf.orig == old(buf.orig) || fresh(buf.orig))
    ensures buf.View() == Built(old(buf.View()), Nop)
  {
    assert [NOP] + Texts([]) == Words(Nop);
    NsqBufferAdd(buf, NOP, [], None);
  }

  method NsqPublish(buf: Buffer, topic: cstring, body: cstring)
    requires buf.Valid() && Small(Pieces(Publish(topic, body)))
    modifies buf, buf.orig
    ensures buf.Valid() && (buf.orig == old(buf.orig) || fresh(buf.orig))
    ensures buf.View() == Built(old(buf.View()), Publish(topic, body))
  {
    var params := [CharParam(topic)];
    OneText(params[0]);
    assert [PUB] + Texts(params) == Words(Publish(topic, body));
    NsqBufferAdd(buf, PUB, params, Some(body));
  }

  method NsqDeferPublish(buf: Buffer, topic: cstring, body: cstring, deferTimeSec: cint)
    requires buf.Valid() && Small(Pieces(DeferPublish(topic, body, deferTimeSec)))
    modifies buf, buf.orig
    ensures buf.Valid() && (buf.orig == old(buf.orig) || fresh(buf.orig))
    ensures buf.View() == Built(old(buf.View()), DeferPublish(topic, body, deferTimeSec))
  {
    var params := [CharParam(topic), IntParam(deferTimeSec)];
    TwoTexts(params[0], params[1]);
    assert [DPUB] + Texts(params) == Words(DeferPublish(topic, body, deferTimeSec));
    NsqBufferAdd(buf, DPUB, params, Some(body));
  }

  method NsqTouch(buf: Buffer, id: cstring)
    requires buf.Valid() && Small(Pieces(Touch(id)))
    modifies buf, buf.orig
    ensures buf.Valid() && (buf.orig == old(buf.orig) || fresh(buf.orig))
    ensures buf.View() == Built(old(buf.View()), Touch(id))
  {
    var params := [CharParam(id)];
    OneText(params[0]);
    assert [TOUCH] + Texts(params) == Words(Touch(id));
    NsqBufferAdd(buf, TOUCH, params, None);
  }

  method NsqCleanlyCloseConnection(buf: Buffer)
    requires buf.Valid()
    modifies buf, buf.orig
    ensures buf.Valid() && (buf.orig == old(buf.orig) || fresh(buf.orig))
    ensures buf.View() == Built(old(buf.View()), CleanlyClose)
  {
    assert [CLS] + Texts([]) == Words(CleanlyClose);
    NsqBufferAdd(buf, CLS, [], None);
  }

  method NsqAuth(buf: Buffer, secret: cstring)
    requires buf.Valid() && Small(Pieces(Auth(secret)))
    modifies buf, buf.orig
    ensures buf.Valid() && (buf.orig == old(buf.orig) || fresh(buf.orig))
    ensures buf.View() == Built(old(buf.View()), Auth(secret))
  {
    assert [AUTH] + Texts([]) == Words(Auth(secret));
    NsqBufferAdd(buf, AUTH, [], Some(secret));
  }

  method NsqIdentify(buf: Buffer, json: cstring)
    requires buf.Valid() && Small(Pieces(Identify(json)))
    modifies buf, buf.orig
    ensures buf.Valid() && (buf.orig == old(buf.orig) || fresh(buf.orig))
    ensures buf.View() == Built(old(buf.View()), Identify(json))
  {
    assert [IDENTIFY] + Texts([]) == Words(Identify(json));
    NsqBufferAdd(buf, IDENTIFY, [], Some(json));
  }

  // ---- MPUB --------------------------------------------------------------------------------------

  lemma {:induction false} SizedAllSnoc(bodies: seq<seq<byte>>, b: seq<byte>)
    ensures SizedAll(bodies + [b]) == SizedAll(bodies) + Sized(b)
  {
    if bodies == [] {
      assert [] + [b] == [b];
      assert SizedAll([b]) == Sized(b) + SizedAll([b][1..]);
    } else {
      SizedAllSnoc(bodies[1..], b);
      assert (bodies + [b])[1..] == bodies[1..] + [b];
    }
  }

  lemma {:induction false} SizedAllMonotone(bodies: seq<seq<byte>>, i: nat)
    requires i <= |bodies|
    ensures |SizedAll(bodies[..i])| <= |SizedAll(bodies)|
    decreases |bodies| - i
  {
    if i == |bodies| {
      assert bodies[..i] == bodies;
    } else {
      SizedAllMonotone(bodies, i + 1);
      assert bodies[..i + 1] == bodies[..i] + [bodies[i]];
      SizedAllSnoc(bodies[..i], bodies[i]);
    }
  }

  /** `memcpy(b + n, source, |source|)`. */
  method CopyTo(b: array<byte>, n: nat, source: seq<byte>)
    requires n + |source| <= b.Length
    modifies b
    ensures b[..n + |source|] == old(b[..n]) + source
  {
    forall i | 0 <= i < |source| {
      b[n + i] := source[i];
    }
  }

  method CopySized(b: array<byte>, n: nat, body: seq<byte>) returns (n': nat)
    requires n + |Sized(body)| <= b.Length
    modifies b
    ensures n' == n + |Sized(body)|
    ensures b[..n'] == old(b[..n]) + Sized(body)
  {
    ghost var before := b[..n];
    CopyTo(b, n, Size32(|body|));
    n' := n + 4;
    CopyTo(b, n', body);
    n' := n' + |body|;
    assert before + Size32(|body|) + body == before + Sized(body);
  }

  /** The first loop of `nsq_multi_publish`. */
  method BatchSize(bodies: seq<cstring>) returns (s: nat)
    ensures s == |Batch(bodies)|
  {
    s := 4;
    for i := 0 to |bodies|
      invariant s == 4 + |SizedAll(bodies[..i])|
    {
      s := s + |bodies[i]| + 4;
      assert bodies[..i + 1] == bodies[..i] + [bodies[i]];
      SizedAllSnoc(bodies[..i], bodies[i]);
    }
    assert bodies[..|bodies|] == bodies;
  }

  /** The second loop fills the block the first one measured, to the last byte and no further. */
  method FillBatch(bodies: seq<cstring>, s: nat) returns (b: array<byte>)
    requires s == |Batch(bodies)|
    ensures fresh(b) && b[..] == Batch(bodies)
  {
    b := new byte[s];
    var n := 0;
    CopyTo(b, n, Size32(|bodies|));
    n := n + 4;
    assert b[..n] == Size32(|bodies|) + SizedAll(bodies[..0]);
    for i := 0 to |bodies|
      invariant n == 4 + |SizedAll(bodies[..i])|
      invariant n <= b.Length && b[..n] == Size32(|bodies|) + SizedAll(bodies[..i])
    {
      assert bodies[..i + 1] == bodies[..i] + [bodies[i]];
      SizedAllSnoc(bodies[..i], bodies[i]);
      SizedAllMonotone(bodies, i + 1);
      n := CopySized(b, n, bodies[i]);
    }
    assert bodies[..|bodies|] == bodies;
    assert b[..] == b[..n];
  }

  method NsqMultiPublish(buf: Buffer, topic: cstring, bodies: seq<cstring>)
    requires buf.Valid() && Small(Pieces(MultiPublish(topic, bodies)))
    modifies buf, buf.orig
    ensures buf.Valid() && (buf.orig == old(buf.orig) || fresh(buf.orig))
    ensures buf.View() == Built(old(buf.View()), MultiPublish(topic, bodies))
  {
    var params := [CharParam(topic)];
    OneText(params[0]);
    assert [MPUB] + Texts(params) == Words(MultiPublish(topic, bodies));
    var s := BatchSize(bodies);
    var b := FillBatch(bodies, s);
    assert b[..s] == b[..];
    NsqBufferAdd(buf, MPUB, params, Some(b[..s]));
  }

  // ---- any of them -------------------------------------------------------------------------------

  method NsqBuildWithBody(buf: Buffer, c: Command)
    requires buf.Valid() && Small(Pieces(c)) && Body(c).Some?
    modifies buf, buf.orig
    ensures buf.Valid() && (buf.orig == old(buf.orig) || fresh(buf.orig))
    ensures buf.View() == Built(old(buf.View()), c)
  {
    match c
    case Publish(topic, body) => NsqPublish(buf, topic, body);
    case DeferPublish(topic, body, deferTimeSec) => NsqDeferPublish(buf, topic, body, deferTimeSec);
    case MultiPublish(topic, bodies) => NsqMultiPublish(buf, topic, bodies);
    case Auth(secret) => NsqAuth(buf, secret);
    case Identify(json) => NsqIdentify(buf, json);
  }

  method NsqBuildWithoutBody(buf: Buffer, c: Command)
    requires buf.Valid() && Small(Pieces(c)) && Body(c).None?
    modifies buf, buf.orig
    ensures buf.Valid() && (buf.orig == old(buf.orig) || fresh(buf.orig))
    ensures buf.View() == Built(old(buf.View()), c)
  {
    match c
    case Subscribe(topic, channel) => NsqSubscribe(buf, topic, channel);
    case Ready(count) => NsqReady(buf, count);
    case Finish(id) => NsqFinish(buf, id);
    case Requeue(id, timeoutMs) => NsqRequeue(buf, id, timeoutMs);
    case Nop => NsqNop(buf);
    case Touch(id) => NsqTouch(buf, id);
    case CleanlyClose => NsqCleanlyCloseConnection(buf);
  }

  /** The builder for `c`. */
  method NsqBuild(buf: Buffer, c: Command)
    requires buf.Valid() && Small(Pieces(c))
    modifies buf, buf.orig
    ensures buf.Valid() && (buf.orig == old(buf.orig) || fresh(buf.orig))
    ensures buf.View() == Built(old(buf.View()), c)
  {
    if c.Publish? || c.DeferPublish? || c.MultiPublish? || c.Auth? || c.Identify? {
      NsqBuildWithBody(buf, c);
    } else {
      NsqBuildWithoutBody(buf, c);
    }
  }

  /** `buffer_reset` and a builder. */
  method NsqRebuild(buf: Buffer, c: Command)
    requires buf.Valid() && Small(Pieces(c))
    modifies buf, buf.orig
    ensures buf.Valid() && (buf.orig == old(buf.orig) || fresh(buf.orig))
    ensures buf.View() == Built(Windows.Reset(old(buf.View())), c)
  {
    buf.Reset();
    NsqBuild(buf, c);
  }
}
