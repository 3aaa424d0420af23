/** `struct Buffer` (buffer.c): a window of unread bytes sliding over a heap allocation. */
module Buffers {
  import opened Bytes
  import opened Windows

  class Buffer {
    /** The allocation. */
    var orig: array<byte>
    /** `data - orig`: where the unread bytes start. */
    var data: nat
    /** How many bytes are unread. */
    var offset: nat
    var length: nat
    const capacity: nat

    ghost predicate Valid()
      reads this
    {
      orig.Length == length > 0 && data + offset <= length
    }

    ghost function View(): Window
      requires Valid()
      reads this, orig
    {
      WindowState(orig[data..data + offset], data, length, capacity)
    }

    ghost function Repr(): set<object>
      reads this
    {
      {this, orig}
    }

    constructor (length: nat, capacity: nat)
      requires length > 0
      ensures Valid() && fresh(orig)
      ensures View() == WindowState([], 0, length, capacity)
    {
      orig := new byte[length];
      data, offset := 0, 0;
      this.length, this.capacity := length, capacity;
    }

    method Reset()
      requires Valid()
      modifies this`data, this`offset
      ensures Valid()
      ensures View() == Windows.Reset(old(View()))
    {
      data := 0;
      offset := 0;
    }

    method Expand(need: nat) returns (ok: bool)
      requires Valid()
      modifies this, orig
      ensures Valid() && (orig == old(orig) || fresh(orig))
      ensures (View(), ok) == Windows.Expand(old(View()), need)
    {
      var pos := data;
      if need <= pos {
        // memmove
        forall i | 0 <= i < offset {
          orig[i] := orig[data + i];
        }
        data := 0;
        assert orig[..offset] == old(orig[data..data + offset]);
        return true;
      }
      var expand := length;
      while expand < need
        invariant expand > 0
        invariant Doubled(expand, need) == Doubled(length, need)
        decreases need - expand
      {
        expand := expand * 2;
      }
      var newSize := length + expand;
      if capacity > 0 && newSize > capacity {
        return false;
      }
      // realloc
      var grown := new byte[newSize];
      forall i | 0 <= i < length {
        grown[i] := orig[i];
      }
      orig := grown;
      data := pos;
      length := newSize;
      assert orig[data..data + offset] == old(orig[data..data + offset]);
      return true;
    }

    /** The copy behind the unread bytes, by `memcpy` or by `recv`. */
    method Store(source: seq<byte>)
      requires Valid() && data + offset + |source| <= length
      modifies this`offset, orig
      ensures Valid() && View() == old(View()).(bytes := old(View()).bytes + source)
    {
      forall i | 0 <= i < |source| {
        orig[data + offset + i] := source[i];
      }
      offset := offset + |source|;
      assert orig[data..data + offset] == old(orig[data..data + offset]) + source;
    }

    /** The test shared by `buffer_add` and `buffer_read_fd`: expand if `n` more bytes do not fit. */
    method Reserve(n: nat) returns (ok: bool)
      requires Valid() && Fits32(View(), n)
      modifies this, orig
      ensures Valid() && (orig == old(orig) || fresh(orig))
      ensures (View(), ok) == MakeRoom(old(View()), n)
      ensures ok ==> data + offset + n <= length
    {
      RoomUnlessTruncated(View(), n);
      var need := ToInt32(data + offset + n - length);
      ok := true;
      if need > 0 {
        ok := Expand(need);
      }
    }

    method Add(source: seq<byte>) returns (ok: bool)
      requires Valid() && Fits32(View(), |source|)
      modifies this, orig
      ensures Valid() && (orig == old(orig) || fresh(orig))
      ensures (View(), ok) == Windows.Add(old(View()), source)
    {
      RoomUnlessTruncated(View(), |source|);
      ok := Reserve(|source|);
      if ok {
        Store(source);
      }
    }

    method Drain(n: nat)
      requires Valid()
      modifies this`data, this`offset
      ensures Valid()
      ensures View() == Windows.Drain(old(View()), n)
    {
      if n >= offset {
        Reset();
      } else {
        data := data + n;
        offset := offset - n;
      }
    }

    /** `buffer_read_fd`: `pending` is what the FIONREAD request answers (negative if it fails), `result` what `recv`
        answers (negative: an error, 0: end of stream) and `chunk` the bytes it stores.  When there is no room `recv`
        is not called and -1 is answered. */
    method ReadFd(pending: int, result: int, chunk: seq<byte>) returns (n: int)
      requires Valid()
      requires |chunk| == Max(result, 0) <= Wanted(pending)
      modifies this, orig
      ensures Valid() && (orig == old(orig) || fresh(orig))
      ensures n == (if MakeRoom(old(View()), Wanted(pending)).1 then result else -1)
      ensures View() == Windows.Receive(old(View()), pending, chunk).0
    {
      var wanted := if pending < 0 || pending > 4096 then 4096 else pending;
      RoomUnlessTruncated(View(), wanted);
      var ok := Reserve(wanted);
      if !ok {
        return -1;
      }
      n := result;
      if n > 0 {
        Store(chunk);
      } else {
        assert View().bytes == View().bytes + chunk;
      }
    }

    /** `buffer_write_fd`: `result` is what `send` answers, having taken that many bytes from the front. */
    method WriteFd(result: int) returns (n: int)
      requires Valid() && result <= offset
      modifies this`data, this`offset
      ensures Valid() && n == result
      ensures View() == Windows.Apply(old(View()), SendOp(Max(result, 0)))
    {
      n := result;
      if n > 0 {
        Drain(n);
      }
    }
  }
}
