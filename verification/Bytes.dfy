/** Bytes and the big-endian integers that every length prefix, frame header and message field uses. */
module Bytes {

  type byte = x: int | 0 <= x < 0x100

  /** A C string by its characters: everything before the terminating NUL. */
  type cstring = s: seq<byte> | 0 !in s

  const TWO_31: int := 0x8000_0000
  const TWO_32: int := 0x1_0000_0000
  const TWO_63: int := 0x8000_0000_0000_0000
  const TWO_64: int := 0x1_0000_0000_0000_0000

  function Min(a: int, b: int): int {
    if a < b then a else b
  }

  function Max(a: int, b: int): int {
    if a < b then b else a
  }

  lemma Assoc<T>(a: seq<T>, b: seq<T>, c: seq<T>)
    ensures a + b + c == a + (b + c)
  {
  }

  /** The value a conversion to `int32_t` leaves: the representative modulo 2^32 in [-2^31, 2^31). */
  function ToInt32(x: int): int {
    (x + TWO_31) % TWO_32 - TWO_31
  }

  /** 2^k. */
  function Power2(k: nat): (p: nat)
    ensures p > 0
  {
    if k == 0 then 1 else 2 * Power2(k - 1)
  }

  /** 256^k. */
  function Power256(k: nat): nat {
    if k == 0 then 1 else 0x100 * Power256(k - 1)
  }

  /** The number that `b` denotes in base 256, most significant byte first. */
  function BigEndian(b: seq<byte>): nat {
    if b == [] then 0 else BigEndian(b[..|b| - 1]) * 0x100 + b[|b| - 1]
  }

  /** The `k` low base-256 digits of `n`, most significant first; `k == 4` is `htonl((uint32_t)n)`. */
  function ToBigEndian(n: nat, k: nat): (b: seq<byte>)
    ensures |b| == k
  {
    if k == 0 then [] else ToBigEndian(n / 0x100, k - 1) + [n % 0x100]
  }

  lemma {:induction false} BigEndianBound(b: seq<byte>)
    ensures BigEndian(b) < Power256(|b|)
  {
    if b != [] {
      BigEndianBound(b[..|b| - 1]);
    }
  }

  /** Writing a number that fits and reading it back gives the number. */
  lemma {:induction false} ReadsBack(n: nat, k: nat)
    requires n < Power256(k)
    ensures BigEndian(ToBigEndian(n, k)) == n
  {
    if k > 0 {
      ReadsBack(n / 0x100, k - 1);
      var b := ToBigEndian(n, k);
      assert b[..k - 1] == ToBigEndian(n / 0x100, k - 1);
    }
  }

  /** Reading digits and writing them again gives the same digits. */
  lemma {:induction false} WritesBack(b: seq<byte>)
    ensures ToBigEndian(BigEndian(b), |b|) == b
  {
    if b != [] {
      var front := b[..|b| - 1];
      WritesBack(front);
      assert BigEndian(b) / 0x100 == BigEndian(front);
      assert b == front + [b[|b| - 1]];
    }
  }

  lemma Powers()
    ensures Power256(1) == 0x100 && Power256(2) == 0x1_0000 && Power256(4) == TWO_32 && Power256(8) == TWO_64
  {
    assert Power256(2) == 0x100 * Power256(1);
    assert Power256(3) == 0x100 * Power256(2);
    assert Power256(4) == 0x100 * Power256(3);
    assert Power256(5) == 0x100 * Power256(4);
    assert Power256(6) == 0x100 * Power256(5);
    assert Power256(7) == 0x100 * Power256(6);
    assert Power256(8) == 0x100 * Power256(7);
  }

  /** `htonl((uint32_t)n)` in memory order. */
  function Size32(n: nat): (b: seq<byte>)
    ensures |b| == 4
  {
    ToBigEndian(n % TWO_32, 4)
  }

  lemma Size32Value(n: nat)
    ensures BigEndian(Size32(n)) == n % TWO_32
  {
    Powers();
    ReadsBack(n % TWO_32, 4);
  }

  lemma Size32Back(n: nat)
    requires n < TWO_32
    ensures BigEndian(Size32(n)) == n
  {
    Size32Value(n);
  }

  lemma Value32(b: seq<byte>)
    requires |b| == 4
    ensures BigEndian(b) < TWO_32 && Size32(BigEndian(b)) == b
  {
    Powers();
    BigEndianBound(b);
    WritesBack(b);
  }
}
