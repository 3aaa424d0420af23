/** The inbound byte stream of the protocol: frames behind a four-byte length ("Data Format" in the NSQ
    TCP protocol specification), as a parser of whole byte strings. */
module Frames {
  import opened Bytes
  import opened Messages

  type Frame = seq<byte>

  const RESPONSE: nat := 0
  const MESSAGE: nat := 2

  /** `_heartbeat_` */
  const HEARTBEAT: seq<byte> := [95, 104, 101, 97, 114, 116, 98, 101, 97, 116, 95]

  // ---- the parser --------------------------------------------------------------------------------

  /** The stream starts with a whole frame. */
  predicate Complete(b: seq<byte>) {
    |b| >= 4 && |b| - 4 >= BigEndian(b[..4])
  }

  function First(b: seq<byte>): Frame
    requires Complete(b)
  {
    b[4..4 + BigEndian(b[..4])]
  }

  function Rest(b: seq<byte>): (r: seq<byte>)
    requires Complete(b)
    ensures |r| < |b|
  {
    b[4 + BigEndian(b[..4])..]
  }

  /** The whole frames of a stream, in order. */
  function AllFrames(b: seq<byte>): seq<Frame>
    decreases |b|
  {
    if Complete(b) then [First(b)] + AllFrames(Rest(b)) else []
  }

  function OnWire(f: Frame): seq<byte> {
    Size32(|f|) + f
  }

  function Stream(fs: seq<Frame>): seq<byte> {
    if fs == [] then [] else Stream(fs[..|fs| - 1]) + OnWire(fs[|fs| - 1])
  }

  lemma CompleteOnWire(f: Frame, w: seq<byte>)
    requires |f| < TWO_32
    ensures AllFrames(OnWire(f) + w) == [f] + AllFrames(w)
  {
    Size32Back(|f|);
    var b := OnWire(f) + w;
    assert b[..4] == Size32(|f|);
    assert b[4..] == f + w;
    assert b[4..4 + |f|] == f && b[4 + |f|..] == w;
    assert Complete(b) && First(b) == f && Rest(b) == w;
  }

  lemma {:induction false} StreamSnoc(fs: seq<Frame>, f: Frame)
    ensures Stream(fs + [f]) == Stream(fs) + OnWire(f)
  {
    assert (fs + [f])[..|fs|] == fs;
  }

  /** The parser finds in a stream the frames it was made of, and goes on with what follows them. */
  lemma {:induction false} ParseStream(fs: seq<Frame>, w: seq<byte>)
    requires forall f <- fs :: |f| < TWO_32
    ensures AllFrames(Stream(fs) + w) == fs + AllFrames(w)
    decreases |fs|
  {
    if fs == [] {
      assert [] + w == w;
    } else {
      var init, f := fs[..|fs| - 1], fs[|fs| - 1];
      assert fs == init + [f];
      ParseStream(init, OnWire(f) + w);
      CompleteOnWire(f, w);
      Assoc(Stream(init), OnWire(f), w);
      Assoc(init, [f], AllFrames(w));
    }
  }

  /** More bytes only add frames at the end. */
  lemma {:induction false} FramesGrow(b: seq<byte>, c: seq<byte>)
    ensures AllFrames(b) <= AllFrames(b + c)
    decreases |b|
  {
    if Complete(b) {
      assert (b + c)[..4] == b[..4];
      assert First(b + c) == First(b);
      assert Rest(b + c) == Rest(b) + c;
      FramesGrow(Rest(b), c);
    }
  }

  // ---- what a frame means ------------------------------------------------------------------------

  function FrameType(f: Frame): nat
    requires |f| >= 4
  {
    BigEndian(f[..4])
  }

  predicate ProperPrefix(a: seq<byte>, b: seq<byte>) {
    |a| < |b| && a == b[..|a|]
  }

  /** The frames the connection is made for: a type, a message header in a MESSAGE frame, and no response
      that breaks off within the heartbeat text (see `HeartbeatTestIsLocal`). */
  predicate FrameOk(f: Frame) {
    && |f| >= 4
    && (FrameType(f) == MESSAGE ==> |f| >= 4 + HEADER)
    && (FrameType(f) == RESPONSE ==> !ProperPrefix(f[4..], HEARTBEAT))
  }

  predicate WellFormed(b: seq<byte>) {
    forall f <- AllFrames(b) :: FrameOk(f)
  }

  predicate IsHeartbeat(f: Frame)
    requires FrameOk(f)
  {
    FrameType(f) == RESPONSE && HEARTBEAT <= f[4..]
  }

  predicate IsMessage(f: Frame)
    requires FrameOk(f)
  {
    FrameType(f) == MESSAGE
  }

  /** The messages in a series of frames. */
  function MessagesOf(fs: seq<Frame>): seq<Message>
    requires forall f <- fs :: FrameOk(f)
  {
    if fs == [] then []
    else
      var f := fs[|fs| - 1];
      MessagesOf(fs[..|fs| - 1]) + if IsMessage(f) then [DecodeMessage(f[4..])] else []
  }

  /** `strncmp(text, "_heartbeat_", 11) == 0` looks at memory, not at the frame: `after` are the bytes that
      happen to follow the body.  The outcome is a property of the frame alone exactly when the body is not a
      proper prefix of the heartbeat text. */
  lemma HeartbeatTestIsLocal(body: seq<byte>)
    ensures !ProperPrefix(body, HEARTBEAT) <==>
      forall after: seq<byte>, after': seq<byte> ::
        |after| >= 11 && |after'| >= 11 ==> (HEARTBEAT <= body + after <==> HEARTBEAT <= body + after')
  {
    if ProperPrefix(body, HEARTBEAT) {
      var after := HEARTBEAT[|body|..] + HEARTBEAT;
      var after': seq<byte> := [0, 0, 0, 0, 0, 0, 0, 0, 0, 0, 0];
      assert body + after == HEARTBEAT + HEARTBEAT;
      assert (body + after')[|body|] == 0;
      assert HEARTBEAT[|body|] != 0;
      assert !(HEARTBEAT <= body + after');
    } else {
      forall after: seq<byte> | |after| >= 11
        ensures HEARTBEAT <= body + after <==> HEARTBEAT <= body
      {
        HeartbeatInBody(body, after);
      }
    }
  }

  lemma HeartbeatInBody(body: seq<byte>, after: seq<byte>)
    requires !ProperPrefix(body, HEARTBEAT)
    ensures HEARTBEAT <= body + after <==> HEARTBEAT <= body
  {
    if |body| >= |HEARTBEAT| {
      assert (body + after)[..11] == body[..11];
    } else {
      assert forall i :: 0 <= i < |body| ==> (body + after)[i] == body[i];
      assert exists i :: 0 <= i < |body| && body[i] != HEARTBEAT[i];
    }
  }
}
