/** The wire formats byte by byte: numbers, commands, messages and the inbound stream, stated with literal bytes only and
    connected to the functions that the rest of the model uses. */
module WireLayouts {
  import opened Bytes
  import opened Commands
  import opened Messages
  import opened Frames

  // ---- decimal numbers ---------------------------------------------------------------------------

  predicate AreDigits(s: seq<byte>) {
    forall i :: 0 <= i < |s| ==> 48 <= s[i] <= 57
  }

  function Base10(s: seq<byte>): nat
    requires AreDigits(s)
  {
    if s == [] then 0 else 10 * Base10(s[..|s| - 1]) + (s[|s| - 1] - 48)
  }

  /** Decimal digits without a leading zero. */
  predicate DenotesNat(s: seq<byte>, n: nat) {
    s != [] && AreDigits(s) && (|s| > 1 ==> s[0] != 48) && Base10(s) == n
  }

  /** The decimal text of an integer, behind a minus sign if it is negative. */
  predicate Denotes(s: seq<byte>, n: int) {
    if n < 0 then s != [] && s[0] == 45 && DenotesNat(s[1..], -n) else DenotesNat(s, n)
  }

  lemma {:induction false} Base10Positive(s: seq<byte>)
    requires s != [] && AreDigits(s) && s[0] != 48
    ensures Base10(s) > 0
  {
    if |s| > 1 {
      Base10Positive(s[..|s| - 1]);
    }
  }

  lemma {:induction false} DigitsDenote(n: nat)
    ensures DenotesNat(Digits(n), n)
    ensures n > 0 ==> Digits(n)[0] != 48
  {
    var s := Digits(n);
    if n < 10 {
      assert s[..0] == [];
    } else {
      DigitsDenote(n / 10);
      assert s[..|s| - 1] == Digits(n / 10);
    }
  }

  lemma {:induction false} DenotedIsDigits(s: seq<byte>, n: nat)
    requires DenotesNat(s, n)
    ensures s == Digits(n)
    decreases |s|
  {
    var init, d := s[..|s| - 1], s[|s| - 1];
    if init == [] {
      assert s == [d];
    } else {
      Base10Positive(init);
      DenotedIsDigits(init, Base10(init));
      assert s == init + [d];
    }
  }

  /** What `%d` prints is the one decimal text of the number. */
  lemma DecimalIsDenoted(s: seq<byte>, n: int)
    ensures Denotes(s, n) <==> s == Decimal(n)
  {
    var m: nat := if n < 0 then -n else n;
    DigitsDenote(m);
    if Denotes(s, n) {
      DenotedIsDigits(if n < 0 then s[1..] else s, m);
    }
  }

  // ---- four bytes --------------------------------------------------------------------------------

  /** The low 32 bits of `n`, most significant byte first. */
  function FourBytes(n: nat): seq<byte> {
    [n / 0x100_0000 % 0x100, n / 0x1_0000 % 0x100, n / 0x100 % 0x100, n % 0x100]
  }

  function FourValue(b: seq<byte>): nat
    requires |b| >= 4
  {
    0x100_0000 * (b[0] as nat) + 0x1_0000 * (b[1] as nat) + 0x100 * (b[2] as nat) + b[3] as nat
  }

  lemma BigEndianOfTwo(b: seq<byte>)
    requires |b| == 2
    ensures BigEndian(b) == 0x100 * (b[0] as nat) + b[1] as nat
  {
    assert b[..1] == [b[0]];
    assert [b[0]][..0] == [];
    assert BigEndian([b[0]]) == BigEndian([]) * 0x100 + b[0];
  }

  lemma BigEndianOfFour(b: seq<byte>)
    requires |b| == 4
    ensures BigEndian(b) == FourValue(b)
  {
    BigEndianOfTwo(b[..2]);
    assert b[..3][..2] == b[..2];
    assert BigEndian(b[..3]) == BigEndian(b[..2]) * 0x100 + b[2];
  }

  lemma DivideAgain(n: nat)
    ensures n / 0x100 / 0x100 == n / 0x1_0000
    ensures n / 0x100 / 0x100 / 0x100 == n / 0x100_0000
  {
  }

  lemma LowDigit(q: nat, x: nat)
    ensures (q * 0x100 + x) % 0x100 == x % 0x100
  {
  }

  /** Taking the low 32 bits changes none of the four low bytes. */
  lemma LowBits(n: nat, m: nat)
    requires m == n % TWO_32
    ensures m / 0x100_0000 % 0x100 == n / 0x100_0000 % 0x100
    ensures m / 0x1_0000 % 0x100 == n / 0x1_0000 % 0x100
    ensures m / 0x100 % 0x100 == n / 0x100 % 0x100
    ensures m % 0x100 == n % 0x100
  {
    var q := n / TWO_32;
    assert n == q * TWO_32 + m;
    assert n / 0x100_0000 == q * 0x100 + m / 0x100_0000;
    LowDigit(q, m / 0x100_0000);
    assert n / 0x1_0000 == q * 0x100 * 0x100 + m / 0x1_0000;
    LowDigit(q * 0x100, m / 0x1_0000);
    assert n / 0x100 == q * 0x1_0000 * 0x100 + m / 0x100;
    LowDigit(q * 0x1_0000, m / 0x100);
    assert n == q * 0x100_0000 * 0x100 + m;
    LowDigit(q * 0x100_0000, m);
  }

  lemma DigitsOfFour(m: nat)
    ensures ToBigEndian(m, 4) == FourBytes(m)
  {
    DivideAgain(m);
    var m1, m2, m3 := m / 0x100, m / 0x1_0000, m / 0x100_0000;
    assert ToBigEndian(m3, 1) == [m3 % 0x100] by { assert ToBigEndian(m3 / 0x100, 0) == []; }
    assert ToBigEndian(m2, 2) == [m3 % 0x100, m2 % 0x100];
    assert ToBigEndian(m1, 3) == [m3 % 0x100, m2 % 0x100, m1 % 0x100];
  }

  lemma SizeIsFourBytes(n: nat)
    ensures Size32(n) == FourBytes(n)
  {
    LowBits(n, n % TWO_32);
    DigitsOfFour(n % TWO_32);
  }

  // ---- commands ----------------------------------------------------------------------------------

  lemma LineOfOne(c: Command, name: seq<byte>)
    requires Words(c) == [name]
    ensures Join(Words(c)) == name
  {
  }

  lemma LineOfTwo(c: Command, name: seq<byte>, a: seq<byte>)
    requires Words(c) == [name, a]
    ensures Join(Words(c)) == name + [32] + a
  {
    assert Words(c)[1..] == [a];
  }

  lemma LineOfThree(c: Command, name: seq<byte>, a: seq<byte>, b: seq<byte>)
    requires Words(c) == [name, a, b]
    ensures Join(Words(c)) == name + [32] + a + [32] + b
  {
    assert Words(c)[1..] == [a, b] && [a, b][1..] == [b];
    assert Join([a, b]) == a + [32] + b;
  }

  lemma SubLayout(topic: cstring, channel: cstring)
    ensures Encode(Subscribe(topic, channel)) == [83, 85, 66, 32] + topic + [32] + channel + [10]
  {
    LineOfThree(Subscribe(topic, channel), [83, 85, 66], topic, channel);
  }

  lemma RdyLayout(count: cint)
    ensures Denotes(Decimal(count), count) && Encode(Ready(count)) == [82, 68, 89, 32] + Decimal(count) + [10]
  {
    DecimalIsDenoted(Decimal(count), count);
    LineOfTwo(Ready(count), [82, 68, 89], Decimal(count));
  }

  lemma FinLayout(id: cstring)
    ensures Encode(Finish(id)) == [70, 73, 78, 32] + id + [10]
  {
    LineOfTwo(Finish(id), [70, 73, 78], id);
  }

  lemma ReqLayout(id: cstring, timeoutMs: cint)
    ensures Denotes(Decimal(timeoutMs), timeoutMs)
    ensures Encode(Requeue(id, timeoutMs)) == [82, 69, 81, 32] + id + [32] + Decimal(timeoutMs) + [10]
  {
    DecimalIsDenoted(Decimal(timeoutMs), timeoutMs);
    LineOfThree(Requeue(id, timeoutMs), [82, 69, 81], id, Decimal(timeoutMs));
  }

  lemma NopLayout()
    ensures Encode(Nop) == [78, 79, 80, 10]
  {
    LineOfOne(Nop, [78, 79, 80]);
  }

  lemma TouchLayout(id: cstring)
    ensures Encode(Touch(id)) == [84, 79, 85, 67, 72, 32] + id + [10]
  {
    LineOfTwo(Touch(id), [84, 79, 85, 67, 72], id);
  }

  lemma ClsLayout()
    ensures Encode(CleanlyClose) == [67, 76, 83, 10]
  {
    LineOfOne(CleanlyClose, [67, 76, 83]);
  }

  lemma PubLayout(topic: cstring, body: cstring)
    ensures Encode(Publish(topic, body)) == [80, 85, 66, 32] + topic + [10] + FourBytes(|body|) + body
  {
    LineOfTwo(Publish(topic, body), [80, 85, 66], topic);
    SizeIsFourBytes(|body|);
  }

  lemma DpubLayout(topic: cstring, body: cstring, deferTimeSec: cint)
    ensures Denotes(Decimal(deferTimeSec), deferTimeSec)
    ensures Encode(DeferPublish(topic, body, deferTimeSec)) ==
      [68, 80, 85, 66, 32] + topic + [32] + Decimal(deferTimeSec) + [10] + FourBytes(|body|) + body
  {
    DecimalIsDenoted(Decimal(deferTimeSec), deferTimeSec);
    LineOfThree(DeferPublish(topic, body, deferTimeSec), [68, 80, 85, 66], topic, Decimal(deferTimeSec));
    SizeIsFourBytes(|body|);
  }

  lemma AuthLayout(secret: cstring)
    ensures Encode(Auth(secret)) == [65, 85, 84, 72, 10] + FourBytes(|secret|) + secret
  {
    LineOfOne(Auth(secret), [65, 85, 84, 72]);
    SizeIsFourBytes(|secret|);
  }

  lemma IdentifyLayout(json: cstring)
    ensures Encode(Identify(json)) == [73, 68, 69, 78, 84, 73, 70, 89, 10] + FourBytes(|json|) + json
  {
    LineOfOne(Identify(json), [73, 68, 69, 78, 84, 73, 70, 89]);
    SizeIsFourBytes(|json|);
  }

  /** Each body behind its length. */
  function Framed(bodies: seq<seq<byte>>): seq<byte> {
    if bodies == [] then [] else FourBytes(|bodies[0]|) + bodies[0] + Framed(bodies[1..])
  }

  lemma {:induction false} FramedBodies(bodies: seq<seq<byte>>)
    ensures SizedAll(bodies) == Framed(bodies)
  {
    if bodies != [] {
      SizeIsFourBytes(|bodies[0]|);
      FramedBodies(bodies[1..]);
    }
  }

  lemma BatchLayout(bodies: seq<seq<byte>>)
    ensures Batch(bodies) == FourBytes(|bodies|) + Framed(bodies)
  {
    SizeIsFourBytes(|bodies|);
    FramedBodies(bodies);
  }

  lemma MpubLayout(topic: cstring, bodies: seq<cstring>)
    ensures var payload := FourBytes(|bodies|) + Framed(bodies);
      Encode(MultiPublish(topic, bodies)) == [77, 80, 85, 66, 32] + topic + [10] + FourBytes(|payload|) + payload
  {
    LineOfTwo(MultiPublish(topic, bodies), [77, 80, 85, 66], topic);
    BatchLayout(bodies);
    SizeIsFourBytes(|Batch(bodies)|);
  }

  // ---- messages ----------------------------------------------------------------------------------

  lemma EightBytes(b: seq<byte>)
    requires |b| == 8
    ensures BigEndian(b) == 0x1_0000_0000 * FourValue(b[..4]) + FourValue(b[4..])
  {
    BigEndianOfFour(b[..4]);
    assert b[..7][..6] == b[..6] && b[..6][..5] == b[..5] && b[..5][..4] == b[..4];
    assert BigEndian(b[..5]) == BigEndian(b[..4]) * 0x100 + b[4];
    assert BigEndian(b[..6]) == BigEndian(b[..5]) * 0x100 + b[5];
    assert BigEndian(b[..7]) == BigEndian(b[..6]) * 0x100 + b[6];
    assert BigEndian(b) == BigEndian(b[..7]) * 0x100 + b[7];
  }

  /** Eight bytes of a signed time, two of attempts, sixteen of id, and the body. */
  lemma MessageLayout(p: seq<byte>)
    requires |p| >= 26
    ensures var m := DecodeMessage(p); var u := 0x1_0000_0000 * FourValue(p[..4]) + FourValue(p[4..8]);
      && m.timestamp == (if p[0] < 128 then u else u - 0x1_0000_0000_0000_0000)
      && m.attempts == 0x100 * (p[8] as nat) + p[9] as nat
      && m.id == p[10..26] && m.body == p[26..]
  {
    EightBytes(p[..8]);
    assert p[..8][..4] == p[..4] && p[..8][4..] == p[4..8];
    BigEndianOfTwo(p[8..10]);
  }

  // ---- the inbound stream ------------------------------------------------------------------------

  lemma {:induction false} FramedTwo(a: seq<seq<byte>>, b: seq<seq<byte>>)
    ensures Framed(a + b) == Framed(a) + Framed(b)
  {
    if a == [] {
      assert a + b == b;
    } else {
      FramedTwo(a[1..], b);
      assert (a + b)[1..] == a[1..] + b;
      Assoc(FourBytes(|a[0]|) + a[0], Framed(a[1..]), Framed(b));
    }
  }

  lemma FramedOne(f: seq<byte>)
    ensures Framed([f]) == FourBytes(|f|) + f
  {
    assert Framed([f][1..]) == [];
  }

  /** A stream of frames has each of them behind its length in four bytes. */
  lemma {:induction false} StreamIsFramed(fs: seq<Frame>)
    ensures Stream(fs) == Framed(fs)
  {
    if fs != [] {
      var init, f := fs[..|fs| - 1], fs[|fs| - 1];
      StreamIsFramed(init);
      SizeIsFourBytes(|f|);
      FramedTwo(init, [f]);
      FramedOne(f);
      assert fs == init + [f];
    }
  }

  /** The connection hands a frame over as a message exactly if it starts with 0, 0, 0, 2. */
  lemma MessageByBytes(f: Frame)
    requires FrameOk(f)
    ensures IsMessage(f) <==> f[..4] == [0, 0, 0, 2]
  {
    BigEndianOfFour(f[..4]);
  }

  /** And takes it for a heartbeat exactly if it starts with 0, 0, 0, 0 and the eleven bytes of `_heartbeat_`. */
  lemma HeartbeatByBytes(f: Frame)
    requires FrameOk(f)
    ensures IsHeartbeat(f) <==> |f| >= 15 && f[..4] == [0, 0, 0, 0]
                                && f[4..15] == [95, 104, 101, 97, 114, 116, 98, 101, 97, 116, 95]
  {
    BigEndianOfFour(f[..4]);
    if |f| >= 15 {
      assert f[4..][..11] == f[4..15];
    }
  }
}
