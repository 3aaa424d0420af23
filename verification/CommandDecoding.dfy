/** A stream of commands can be read back, by one reader and in one way only. */
module CommandDecoding {
  import opened Bytes
  import opened Commands

  // ---- integers ----------------------------------------------------------------------------------

  lemma {:induction false} DigitsReadBack(n: nat)
    ensures DigitsValue(Digits(n)) == n
    ensures Digits(n) != [] && forall d <- Digits(n) :: ZERO <= d <= ZERO + 9
  {
    if n < 10 {
      assert DigitsValue([ZERO + n]) == DigitsValue([ZERO + n][..0]) * 10 + n;
    } else {
      DigitsReadBack(n / 10);
      var s := Digits(n);
      assert s[..|s| - 1] == Digits(n / 10);
    }
  }

  lemma ParseDecimal(n: cint)
    ensures ParseInt(Decimal(n)) == Some(n)
    ensures Clean(Decimal(n))
  {
    if n < 0 {
      var m: int := n;
      DigitsReadBack(-m);
      assert Decimal(n)[1..] == Digits(-m);
    } else {
      DigitsReadBack(n);
      assert Digits(n)[0] in Digits(n);
    }
  }

  // ---- words and lines ---------------------------------------------------------------------------

  lemma {:induction false} CutFirst(before: seq<byte>, mark: byte, after: seq<byte>)
    requires mark !in before
    ensures Cut(before + [mark] + after, mark) == Some((before, after))
  {
    var b := before + [mark] + after;
    if before == [] {
      assert b[1..] == after;
    } else {
      CutFirst(before[1..], mark, after);
      assert b[1..] == before[1..] + [mark] + after;
      assert before == [before[0]] + before[1..];
    }
  }

  lemma CutNone(b: seq<byte>, mark: byte)
    requires mark !in b
    ensures Cut(b, mark) == None
  {
  }

  lemma {:induction false} SplitJoin(words: seq<seq<byte>>)
    requires words != [] && forall w <- words :: SPACE !in w
    ensures SplitWords(Join(words)) == words
  {
    if |words| == 1 {
      CutNone(words[0], SPACE);
    } else {
      CutFirst(words[0], SPACE, Join(words[1..]));
      SplitJoin(words[1..]);
      assert words == [words[0]] + words[1..];
    }
  }

  lemma {:induction false} JoinSplit(line: seq<byte>)
    ensures Join(SplitWords(line)) == line
    ensures forall w <- SplitWords(line) :: SPACE !in w
    decreases |line|
  {
    match Cut(line, SPACE)
    case None =>
    case Some((before, after)) =>
      JoinSplit(after);
      assert SplitWords(line)[1..] == SplitWords(after);
  }

  lemma {:induction false} JoinWithout(words: seq<seq<byte>>, mark: byte)
    requires words != [] && mark != SPACE
    ensures mark !in Join(words) <==> forall w <- words :: mark !in w
  {
    if |words| > 1 {
      JoinWithout(words[1..], mark);
      assert words == [words[0]] + words[1..];
      assert forall w :: w in words <==> w == words[0] || w in words[1..];
    }
  }

  // ---- sized bodies ------------------------------------------------------------------------------

  lemma TakeSizedBack(body: seq<byte>, rest: seq<byte>)
    requires |body| < TWO_32
    ensures TakeSized(Sized(body) + rest) == Some((body, rest))
  {
    var b := Sized(body) + rest;
    Size32Value(|body|);
    assert b[..4] == Size32(|body|);
    assert b[4..4 + |body|] == body;
    assert b[4 + |body|..] == rest;
  }

  lemma TakeSizedFaithful(b: seq<byte>)
    requires TakeSized(b).Some?
    ensures var (body, rest) := TakeSized(b).value; b == Sized(body) + rest && |body| < TWO_32
  {
    Value32(b[..4]);
    var n := BigEndian(b[..4]);
    assert b == b[..4] + b[4..4 + n] + b[4 + n..];
  }

  lemma {:induction false} TakeBodiesFaithful(n: nat, b: seq<byte>)
    requires TakeBodies(n, b).Some?
    ensures var bodies := TakeBodies(n, b).value; SizedAll(bodies) == b && |bodies| == n
    decreases n
  {
    if n > 0 {
      var (body, rest) := TakeSized(b).value;
      TakeSizedFaithful(b);
      TakeBodiesFaithful(n - 1, rest);
      assert TakeBodies(n, b).value[1..] == TakeBodies(n - 1, rest).value;
    }
  }

  lemma ParseBatchFaithful(b: seq<byte>)
    requires ParseBatch(b).Some?
    ensures var bodies := ParseBatch(b).value; Batch(bodies) == b && |bodies| < TWO_32
  {
    Value32(b[..4]);
    TakeBodiesFaithful(BigEndian(b[..4]), b[4..]);
    assert b == b[..4] + b[4..];
  }

  lemma {:induction false} TakeBodiesBack(bodies: seq<cstring>)
    requires forall b <- bodies :: |b| < TWO_32
    ensures TakeBodies(|bodies|, SizedAll(bodies)) == Some(bodies)
  {
    if bodies != [] {
      var rest := SizedAll(bodies[1..]);
      TakeSizedBack(bodies[0], rest);
      assert TakeSized(SizedAll(bodies)) == Some((bodies[0], rest));
      TakeBodiesBack(bodies[1..]);
      assert bodies == [bodies[0]] + bodies[1..];
    }
  }

  lemma {:induction false} BodiesAreShorter(bodies: seq<seq<byte>>)
    ensures forall b <- bodies :: |b| <= |SizedAll(bodies)|
  {
    if bodies != [] {
      BodiesAreShorter(bodies[1..]);
      assert bodies == [bodies[0]] + bodies[1..];
    }
  }

  lemma ParseBatchParts(count: seq<byte>, rest: seq<byte>)
    requires |count| == 4
    ensures ParseBatch(count + rest) == TakeBodies(BigEndian(count), rest)
  {
    assert (count + rest)[..4] == count && (count + rest)[4..] == rest;
  }

  lemma ParseBatchBack(bodies: seq<cstring>)
    requires |bodies| < TWO_32 && |Batch(bodies)| < TWO_32
    ensures ParseBatch(Batch(bodies)) == Some(bodies)
  {
    BodiesAreShorter(bodies);
    TakeBodiesBack(bodies);
    Size32Back(|bodies|);
    ParseBatchParts(Size32(|bodies|), SizedAll(bodies));
  }

  // ---- one command -------------------------------------------------------------------------------

  lemma ReadyBack(count: cint)
    ensures BuildPlain([RDY, Decimal(count)]) == Some(Ready(count))
  {
    ParseDecimal(count);
  }

  lemma RequeueBack(id: cstring, timeoutMs: cint)
    ensures BuildPlain([REQ, id, Decimal(timeoutMs)]) == Some(Requeue(id, timeoutMs))
  {
    ParseDecimal(timeoutMs);
  }

  lemma BuildPlainBack(c: Command)
    requires Body(c).None?
    ensures BuildPlain(Words(c)) == Some(c)
  {
    match c
    case Ready(count) => ReadyBack(count);
    case Requeue(id, timeoutMs) => RequeueBack(id, timeoutMs);
    case _ =>
  }

  lemma NameTellsBody(c: Command)
    ensures HasBody(Words(c)[0]) <==> Body(c).Some?
  {
  }

  lemma BuildWithBodyBack(c: Command)
    requires Sendable(c) && Body(c).Some?
    ensures BuildWithBody(Words(c), Body(c).value) == Some(c)
  {
    match c
    case DeferPublish(_, _, deferTimeSec) => ParseDecimal(deferTimeSec);
    case MultiPublish(_, bodies) => ParseBatchBack(bodies);
    case _ =>
  }

  lemma PlainIsFaithful(w: seq<seq<byte>>)
    requires BuildPlain(w).Some?
    ensures var c := BuildPlain(w).value; Words(c) == w && Body(c) == None
  {
  }

  lemma WithBodyIsFaithful(w: seq<seq<byte>>, body: seq<byte>)
    requires BuildWithBody(w, body).Some?
    ensures var c := BuildWithBody(w, body).value;
      Words(c) == w && Body(c) == Some(body) && (c.MultiPublish? ==> |c.bodies| < TWO_32)
  {
    if ParseBatch(body).Some? {
      ParseBatchFaithful(body);
    }
  }

  /** A sendable command is read back, whatever follows it in the stream. */
  lemma DecodeEncoded(c: Command, rest: seq<byte>)
    requires Sendable(c)
    ensures DecodeOne(Encode(c) + rest) == Some((c, rest))
  {
    var words := Words(c);
    var tail := if Body(c).Some? then Sized(Body(c).value) else [];
    JoinWithout(words, NEWLINE);
    CutFirst(Join(words), NEWLINE, tail + rest);
    assert Encode(c) + rest == Join(words) + [NEWLINE] + (tail + rest);
    SplitJoin(words);
    NameTellsBody(c);
    if Body(c).Some? {
      BuildWithBodyBack(c);
      TakeSizedBack(Body(c).value, rest);
    } else {
      BuildPlainBack(c);
      assert tail + rest == rest;
    }
  }

  /** Whatever the decoder accepts is the encoding of what it answers, and that can be sent. */
  lemma DecodedIsEncoded(b: seq<byte>)
    requires DecodeOne(b).Some?
    ensures var (c, rest) := DecodeOne(b).value; b == Encode(c) + rest && Sendable(c)
  {
    var (line, after) := Cut(b, NEWLINE).value;
    var words := SplitWords(line);
    JoinSplit(line);
    JoinWithout(words, NEWLINE);
    if HasBody(words[0]) {
      var (body, rest) := TakeSized(after).value;
      TakeSizedFaithful(after);
      WithBodyIsFaithful(words, body);
      assert line + [NEWLINE] + (Sized(body) + rest) == line + [NEWLINE] + Sized(body) + rest;
    } else {
      PlainIsFaithful(words);
      assert line + [NEWLINE] + [] == line + [NEWLINE];
    }
  }

  /** A command survives the wire exactly when it is sendable. */
  lemma ReadBackIffSendable(c: Command, rest: seq<byte>)
    ensures DecodeOne(Encode(c) + rest) == Some((c, rest)) <==> Sendable(c)
  {
    if Sendable(c) {
      DecodeEncoded(c, rest);
    } else if DecodeOne(Encode(c) + rest) == Some((c, rest)) {
      DecodedIsEncoded(Encode(c) + rest);
    }
  }

  // ---- streams -----------------------------------------------------------------------------------

  /** A whole stream is read back to exactly the commands that were written, if and only if each of them
      is sendable. */
  lemma {:induction false} StreamReadBackIffSendable(cs: seq<Command>)
    ensures DecodeAll(EncodeAll(cs)) == Some(cs) <==> forall c <- cs :: Sendable(c)
  {
    if cs != [] {
      var rest := EncodeAll(cs[1..]);
      assert cs == [cs[0]] + cs[1..];
      assert EncodeAll(cs) != [] by { assert |Encode(cs[0])| > 0; }
      if forall c <- cs :: Sendable(c) {
        DecodeEncoded(cs[0], rest);
        StreamReadBackIffSendable(cs[1..]);
      } else if DecodeAll(EncodeAll(cs)) == Some(cs) {
        StreamIsEncoded(EncodeAll(cs));
      }
    }
  }

  /** The decoder accepts nothing but streams of sendable commands. */
  lemma {:induction false} StreamIsEncoded(b: seq<byte>)
    requires DecodeAll(b).Some?
    ensures EncodeAll(DecodeAll(b).value) == b
    ensures forall c <- DecodeAll(b).value :: Sendable(c)
    decreases |b|
  {
    if b != [] {
      var (c, rest) := DecodeOne(b).value;
      DecodedIsEncoded(b);
      StreamIsEncoded(rest);
      assert DecodeAll(b).value[1..] == DecodeAll(rest).value;
    }
  }

  /** No two streams of sendable commands share their bytes. */
  lemma UniquelyDecodable(cs: seq<Command>, ds: seq<Command>)
    requires forall c <- cs :: Sendable(c)
    requires forall d <- ds :: Sendable(d)
    requires EncodeAll(cs) == EncodeAll(ds)
    ensures cs == ds
  {
    StreamReadBackIffSendable(cs);
    StreamReadBackIffSendable(ds);
  }

  /** Without clean names that fails: an id holding a newline reads as a shorter id and another command. */
  lemma NewlineInIdIsAmbiguous()
    ensures EncodeAll([Finish([97, 10, 78, 79, 80])]) == EncodeAll([Finish([97]), Nop])
    ensures !Sendable(Finish([97, 10, 78, 79, 80]))
  {
    var id: cstring := [97, 10, 78, 79, 80];
    assert !Clean(id) by { assert id[1] == NEWLINE; }
    assert id == Words(Finish(id))[1];
    FinishEncoding(id);
    FinishEncoding([97]);
    assert Encode(Nop) == NOP + [NEWLINE];
    assert EncodeAll([Finish([97]), Nop][1..]) == Encode(Nop) + EncodeAll([]);
    assert EncodeAll([Finish(id)]) == Encode(Finish(id)) + EncodeAll([]);
  }

  lemma FinishEncoding(id: cstring)
    ensures Encode(Finish(id)) == FIN + [SPACE] + id + [NEWLINE]
  {
    assert Join([FIN, id][1..]) == id;
  }
}
