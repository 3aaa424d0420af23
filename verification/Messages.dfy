/** The payload of a MESSAGE frame (message.c). */
module Messages {
  import opened Bytes

  /** `|` on unsigned integers, bit by bit. */
  function BitOr(a: nat, b: nat): nat {
    if a == 0 && b == 0 then 0 else Max(a % 2, b % 2) + 2 * BitOr(a / 2, b / 2)
  }

  /** `(uint64_t)x << k`. */
  function ShiftLeft(x: nat, k: nat): nat {
    x * Power2(k) % TWO_64
  }

  /** The first `j + 1` terms of `ntoh64`'s expression, from the left:
      `data[7] | data[6] << 8 | ... | data[7 - j] << 8 * j`. */
  function OrTerms(data: seq<byte>, j: nat): nat
    requires |data| >= 8 && j < 8
  {
    if j == 0 then data[7] else BitOr(OrTerms(data, j - 1), ShiftLeft(data[7 - j], 8 * j))
  }

  function Ntoh64(data: seq<byte>): nat
    requires |data| >= 8
  {
    OrTerms(data, 7)
  }

  lemma {:induction false} OrZero(b: nat)
    ensures BitOr(0, b) == b
  {
    if b > 0 {
      OrZero(b / 2);
    }
  }

  /** Or-ing a number below 2^k with a multiple of 2^k adds them. */
  lemma {:induction false} OrDisjoint(low: nat, high: nat, k: nat)
    requires low < Power2(k)
    ensures BitOr(low, high * Power2(k)) == low + high * Power2(k)
  {
    if k == 0 {
      OrZero(high);
    } else {
      var half := high * Power2(k - 1);
      assert high * Power2(k) == 2 * half;
      OrDisjoint(low / 2, high, k - 1);
    }
  }

  lemma {:induction false} Power2OfBytes(j: nat)
    ensures Power2(8 * j) == Power256(j)
  {
    if j > 0 {
      Power2OfBytes(j - 1);
      assert Power2(8 * j) == 2 * Power2(8 * j - 1);
      assert Power2(8 * j - 1) == 2 * Power2(8 * j - 2);
      assert Power2(8 * j - 2) == 2 * Power2(8 * j - 3);
      assert Power2(8 * j - 3) == 2 * Power2(8 * j - 4);
      assert Power2(8 * j - 4) == 2 * Power2(8 * j - 5);
      assert Power2(8 * j - 5) == 2 * Power2(8 * j - 6);
      assert Power2(8 * j - 6) == 2 * Power2(8 * j - 7);
      assert Power2(8 * j - 7) == 2 * Power2(8 * j - 8);
    }
  }

  lemma {:induction false} MonotonePowers(i: nat, j: nat)
    requires i <= j
    ensures Power256(i) <= Power256(j)
    decreases j - i
  {
    if i < j {
      MonotonePowers(i, j - 1);
    }
  }

  lemma NoOverflow(d: byte, j: nat)
    requires j < 8
    ensures d * Power256(j) < TWO_64
  {
    MonotonePowers(j + 1, 8);
    Powers();
    var p := Power256(j);
    assert d * p <= 0xff * p && p > 0 by { PositivePower(j); }
  }

  lemma {:induction false} PositivePower(j: nat)
    ensures Power256(j) > 0
  {
    if j > 0 {
      PositivePower(j - 1);
    }
  }

  lemma ModSmall(x: nat)
    requires x < TWO_64
    ensures x % TWO_64 == x
  {
  }

  /** Shifting a byte by `j` bytes loses nothing in 64 bits. */
  lemma ShiftIsPlace(d: byte, j: nat)
    requires j < 8
    ensures ShiftLeft(d, 8 * j) == d * Power256(j)
  {
    Power2OfBytes(j);
    NoOverflow(d, j);
    var x := d * Power2(8 * j);
    assert x == d * Power256(j);
    ModSmall(x);
  }

  /** One more byte in front of `j` bytes that are already combined. */
  lemma OrByte(low: nat, d: byte, j: nat)
    requires low < Power256(j)
    ensures BitOr(low, d * Power256(j)) == low + d * Power256(j)
  {
    Power2OfBytes(j);
    var p := Power256(j);
    OrDisjoint(low, d, 8 * j);
    assert d * Power2(8 * j) == d * p;
  }

  lemma {:induction false} LeadingByte(d: byte, rest: seq<byte>)
    ensures BigEndian([d] + rest) == d * Power256(|rest|) + BigEndian(rest)
  {
    if rest == [] {
      assert [d] + rest == [d];
      assert BigEndian([d]) == BigEndian([d][..0]) * 0x100 + d;
    } else {
      var b, front := [d] + rest, rest[..|rest| - 1];
      LeadingByte(d, front);
      assert b[..|b| - 1] == [d] + front;
      assert d * Power256(|rest|) == d * Power256(|front|) * 0x100;
    }
  }

  lemma {:induction false} OrTermsValue(data: seq<byte>, j: nat)
    requires |data| >= 8 && j < 8
    ensures OrTerms(data, j) == BigEndian(data[7 - j..8]) < Power256(j + 1)
  {
    BigEndianBound(data[7 - j..8]);
    if j == 0 {
      assert data[7..8] == [data[7]] + [];
      LeadingByte(data[7], []);
    } else {
      var d, rest := data[7 - j], data[8 - j..8];
      OrTermsValue(data, j - 1);
      ShiftIsPlace(d, j);
      OrByte(BigEndian(rest), d, j);
      LeadingByte(d, rest);
      assert data[7 - j..8] == [d] + rest;
    }
  }

  /** The shifts and ors of `ntoh64` compute the base-256 value of the first eight bytes. */
  lemma Ntoh64IsBigEndian(data: seq<byte>)
    requires |data| >= 8
    ensures Ntoh64(data) == BigEndian(data[..8]) < TWO_64
  {
    OrTermsValue(data, 7);
    Powers();
    assert data[0..8] == data[..8];
  }

  // ---- the message -------------------------------------------------------------------------------

  const HEADER: nat := 26

  datatype Message = Message(timestamp: int, attempts: nat, id: seq<byte>, body: seq<byte>) {
    /** The ranges of the C fields `int64_t`, `uint16_t` and `char[16]`. */
    predicate Valid() {
      -TWO_63 <= timestamp < TWO_63 && attempts < 0x1_0000 && |id| == 16
    }
  }

  /** `(int64_t)u`. */
  function ToInt64(u: nat): int {
    if u < TWO_63 then u else u - TWO_64
  }

  function DecodeMessage(payload: seq<byte>): Message
    requires |payload| >= HEADER
  {
    Message(ToInt64(BigEndian(payload[..8])), BigEndian(payload[8..10]), payload[10..26], payload[26..])
  }

  /** The layout the protocol prescribes: eight bytes of time, two of attempts, the id, the body. */
  function EncodeMessage(m: Message): seq<byte> {
    ToBigEndian(m.timestamp % TWO_64, 8) + ToBigEndian(m.attempts, 2) + m.id + m.body
  }

  lemma DecodeEncode(m: Message)
    requires m.Valid()
    ensures |EncodeMessage(m)| == HEADER + |m.body| && DecodeMessage(EncodeMessage(m)) == m
  {
    var p := EncodeMessage(m);
    var u := m.timestamp % TWO_64;
    Powers();
    ReadsBack(u, 8);
    ReadsBack(m.attempts, 2);
    assert p[..8] == ToBigEndian(u, 8);
    assert p[8..10] == ToBigEndian(m.attempts, 2);
    assert p[10..26] == m.id;
    assert p[26..] == m.body;
  }

  lemma EncodeDecode(payload: seq<byte>)
    requires |payload| >= HEADER
    ensures DecodeMessage(payload).Valid() && EncodeMessage(DecodeMessage(payload)) == payload
  {
    var m := DecodeMessage(payload);
    Powers();
    BigEndianBound(payload[..8]);
    BigEndianBound(payload[8..10]);
    WritesBack(payload[..8]);
    WritesBack(payload[8..10]);
    assert m.timestamp % TWO_64 == BigEndian(payload[..8]);
    assert payload == payload[..8] + payload[8..10] + payload[10..26] + payload[26..];
  }

  lemma SubSlice(s: seq<byte>, a: nat, b: nat, i: nat, j: nat)
    requires a <= b <= |s| && i <= j <= b - a
    ensures s[a..b][i..j] == s[a + i..a + j]
  {
    var l, r := s[a..b][i..j], s[a + i..a + j];
    assert |l| == |r| == j - i;
    assert forall k :: 0 <= k < j - i ==> l[k] == s[a + i + k];
    assert forall k :: 0 <= k < j - i ==> r[k] == s[a + i + k];
  }

  /** `ntoh64` on the eight bytes of memory at `at`. */
  method Ntoh64At(memory: array<byte>, at: nat) returns (u: nat)
    requires at + 8 <= memory.Length
    ensures u == BigEndian(memory[at..at + 8])
  {
    var data := memory[at..at + 8];
    u := Ntoh64(data);
    Ntoh64IsBigEndian(data);
    assert data[..8] == data;
  }

  /** `nsq_decode_message` on `dataLength` bytes of memory at `at`; the copies are the two `memcpy`s. */
  method NsqDecodeMessage(memory: array<byte>, at: nat, dataLength: nat) returns (msg: Message)
    requires HEADER <= dataLength && at + dataLength <= memory.Length
    ensures msg == DecodeMessage(memory[at..at + dataLength])
  {
    ghost var all := memory[..];
    SubSlice(all, at, at + dataLength, 0, 8);
    SubSlice(all, at, at + dataLength, 8, 10);
    SubSlice(all, at, at + dataLength, 10, 26);
    SubSlice(all, at, at + dataLength, 26, dataLength);
    var u := Ntoh64At(memory, at);
    var attempts := BigEndian(memory[at + 8..at + 10]);
    var id := memory[at + 10..at + 26];
    var bodyLength := dataLength - 26;
    var body := memory[at + 26..at + 26 + bodyLength];
    msg := Message(ToInt64(u), attempts, id, body);
    ghost var payload := all[at..at + dataLength];
    assert payload == memory[at..at + dataLength];
    assert memory[at..at + 8] == payload[..8];
    assert memory[at + 8..at + 10] == payload[8..10];
    assert id == payload[10..26];
    assert payload[26..] == payload[26..dataLength];
    assert body == payload[26..];
  }
}
