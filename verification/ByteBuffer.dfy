/**
The processing buffer: a store of whole 32-bit words with a window of live bytes. A node
acquires room for its output next to the live bytes, writes into it and commits it as the new
window. `AcquireExactly` says for which states and sizes the acquired room really lies in the
store.
*/
module ByteBuffer {
  import opened Arith
  import opened Bits

  const SIZE_LIMIT := 0x1_0000_0000_0000_0000

  /** The store's size in bytes and the place `acquire` hands out. */
  datatype Room = Room(bytes: nat, at: nat)

  /** `size_t` subtraction */
  function SizeMinus(a: nat, b: nat): (r: nat) {
    (a - b) % SIZE_LIMIT
  }

  /** The free bytes behind the window as `acquire` computes them, in unsigned arithmetic. */
  function SizeAtBack(bytes: nat, end: nat): (r: nat) {
    SizeMinus(SizeMinus(bytes, end), 3)
  }

  /** The store's size after making room for n more bytes. */
  function Grown(bytes: nat, end: nat, n: nat): (r: nat)
    requires SizeAtBack(bytes, end) < n
  {
    bytes + (n - SizeAtBack(bytes, end)) / 4 * 4
  }

  /** `acquire` of n bytes in a store with the window [offset, offset + size). */
  function AcquireAt(bytes: nat, offset: nat, size: nat, n: nat): (r: Room) {
    var end := offset + size;
    if offset >= n then Room(bytes, 0)
    else if SizeAtBack(bytes, end) >= n then Room(bytes, end + end % 4)
    else Room(Grown(bytes, end, n), end + end % 4)
  }

  /** A window inside a store of whole words. */
  predicate Proper(bytes: nat, offset: nat, size: nat) {
    bytes % 4 == 0 && offset + size <= bytes < SIZE_LIMIT
  }

  /**
  The room is usable: there is space in front; or at least three bytes lie behind the window, and
  the space behind suffices or growing makes up for what rounding the start by end % 4 takes.
  */
  predicate Usable(bytes: nat, offset: nat, size: nat, n: nat) {
    var end := offset + size;
    || n <= offset
    || (end + 3 <= bytes && (end + 3 + n <= bytes || end % 4 + (n + end + 3) % 4 <= 3))
  }

  lemma BackWithoutWrap(bytes: nat, end: nat)
    requires end + 3 <= bytes < SIZE_LIMIT
    ensures SizeAtBack(bytes, end) == bytes - end - 3
  {}

  /** Fewer than three bytes behind the window make the subtraction wrap around. */
  lemma BackWraps(bytes: nat, end: nat)
    requires end <= bytes < end + 3 && bytes < SIZE_LIMIT
    ensures SizeAtBack(bytes, end) == SIZE_LIMIT + bytes - end - 3
  {}

  lemma GrowthExact(bytes: nat, end: nat, n: nat)
    requires bytes % 4 == 0 && end + 3 <= bytes && bytes - end - 3 < n
    ensures var more := (n - (bytes - end - 3)) / 4 * 4;
            end + end % 4 + n <= bytes + more <==> end % 4 + (n + end + 3) % 4 <= 3
  {
    var x := n - (bytes - end - 3);
    assert x % 4 == (n + end + 3) % 4 by {
      var k := bytes / 4;
      assert x == n + end + 3 - 4 * k;
    }
  }

  /** Writing beside a window leaves it as it was. */
  lemma Overwritten(s: seq<Byte>, at: nat, data: seq<Byte>, offset: nat, size: nat)
    requires at + |data| <= |s| && offset + size <= |s| && (at + |data| <= offset || offset + size <= at)
    ensures var r := s[..at] + data + s[at + |data|..];
            |r| == |s| && r[at..at + |data|] == data && r[offset..offset + size] == s[offset..offset + size]
  {
    var r := s[..at] + data + s[at + |data|..];
    assert forall i :: offset <= i < offset + size ==> r[i] == s[i];
  }

  lemma Front(s: seq<Byte>, at: nat, data: seq<Byte>, n: nat)
    requires at + |data| <= |s| && s[at..at + |data|] == data && n <= |data|
    ensures s[at..at + n] == data[..n]
  {
    assert s[at..at + n] == s[at..at + |data|][..n];
  }

  lemma Middle(data: seq<Byte>, from: nat, to: nat)
    requires from <= to <= |data|
    ensures data[..to][from..] == data[from..to]
  {}

  /** The acquired room lies inside the store exactly when it is usable. */
  lemma AcquireExactly(bytes: nat, offset: nat, size: nat, n: nat)
    requires Proper(bytes, offset, size) && n < SIZE_LIMIT - 4
    ensures var r := AcquireAt(bytes, offset, size, n);
            r.at + n <= r.bytes <==> Usable(bytes, offset, size, n)
  {
    var end := offset + size;
    if n > offset {
      if end + 3 <= bytes {
        BackWithoutWrap(bytes, end);
        if n > bytes - end - 3 {
          GrowthExact(bytes, end, n);
        }
      } else {
        BackWraps(bytes, end);
      }
    }
  }

  /** In particular it does when the window ends on a word border with three free bytes behind it. */
  lemma AcquireOnBorder(bytes: nat, offset: nat, size: nat, n: nat)
    requires Proper(bytes, offset, size) && n < SIZE_LIMIT - 4
    requires (offset + size) % 4 == 0 && offset + size + 3 <= bytes
    ensures var r := AcquireAt(bytes, offset, size, n); r.at + n <= r.bytes
  {
    AcquireExactly(bytes, offset, size, n);
  }

  /** A full store, where the room would start behind its end. */
  lemma AcquireOutside()
    ensures Proper(4, 0, 4) && var r := AcquireAt(4, 0, 4, 1); r.at + 1 > r.bytes
  {
    BackWraps(4, 4);
  }

  /** The room never overlaps the window, and the store never shrinks. */
  lemma AcquireDisjoint(bytes: nat, offset: nat, size: nat, n: nat)
    requires Proper(bytes, offset, size)
    ensures var r := AcquireAt(bytes, offset, size, n);
            r.bytes >= bytes && r.bytes % 4 == 0 && (r.at + n <= offset || offset + size <= r.at)
  {}

  /** The room starts with the store if it fits in front, otherwise less than a word behind the window. */
  lemma AcquirePlace(bytes: nat, offset: nat, size: nat, n: nat)
    ensures var r := AcquireAt(bytes, offset, size, n);
            && (n <= offset ==> r == Room(bytes, 0))
            && (n > offset ==> offset + size <= r.at < offset + size + 4 && r.at % 2 == 0)
  {
    hide *;
    AcquireCases(bytes, offset, size, n);
    EvenBehind(offset + size);
  }

  lemma EvenBehind(end: nat)
    ensures end <= end + end % 4 < end + 4 && (end + end % 4) % 2 == 0
  {
    var k, rest := end / 4, end % 4;
    assert end + rest == 2 * (2 * k + rest);
    Doubled(2 * k + rest);
  }

  lemma Doubled(n: nat)
    ensures (2 * n) % 2 == 0
  {}

  lemma AcquireCases(bytes: nat, offset: nat, size: nat, n: nat)
    ensures var end, back := offset + size, SizeAtBack(bytes, offset + size);
            AcquireAt(bytes, offset, size, n)
            == if offset >= n then Room(bytes, 0)
               else Room(if back < n then bytes + (n - back) / 4 * 4 else bytes, end + end % 4)
  {
    hide SizeAtBack;
  }

  /** `Buffer` */
  class Buffer {
    var store: seq<Byte>
    var offset: nat
    var size: nat
    var acquiredOffset: nat

    ghost predicate Valid()
      reads this
    {
      Proper(|store|, offset, size)
    }

    /** The live bytes. */
    ghost function View(): (bytes: seq<Byte>)
      requires Valid()
      reads this
    {
      store[offset..offset + size]
    }

    /** An empty buffer with a reserved size. */
    constructor Reserve(reserved: nat)
      requires reserved < SIZE_LIMIT - 4
      ensures Valid() && View() == [] && |store| >= reserved
    {
      store := seq((reserved + 3) / 4 * 4, _ => 0);
      offset, size, acquiredOffset := 0, 0, 0;
    }

    /** A buffer that holds a copy of some data behind an offset. */
    constructor Copy(data: seq<Byte>, reserved: nat, offset: nat)
      requires |data| + offset < SIZE_LIMIT - 8 && reserved < SIZE_LIMIT - 8
      ensures Valid() && View() == data && this.offset == offset && |store| > reserved
    {
      var most := if |data| + offset >= reserved then |data| + offset else reserved;
      var words := most / 4 + 1;
      store := seq(offset, _ => 0) + data + seq(words * 4 - offset - |data|, _ => 0);
      this.offset, size, acquiredOffset := offset, |data|, 0;
    }

    /** The vector's resize: n more bytes at the end. */
    method Grow(n: nat)
      requires offset + size <= |store|
      modifies this`store
      ensures |store| == |old(store)| + n && store[offset..offset + size] == old(store[offset..offset + size])
    {
      store := store + seq(n, _ => 0);
    }

    /** `acquire`: hands out room for n bytes; the live bytes stay as they are. */
    method Acquire(n: nat) returns (at: nat)
      requires Valid() && n < SIZE_LIMIT - 4
      requires AcquireAt(|store|, offset, size, n).bytes < SIZE_LIMIT
      modifies this`store, this`acquiredOffset
      ensures Valid() && View() == old(View()) && at == acquiredOffset
      ensures Room(|store|, at) == old(AcquireAt(|store|, offset, size, n))
      ensures old(Usable(|store|, offset, size, n)) ==> at + n <= |store|
      ensures at + n <= offset || offset + size <= at
    {
      hide Usable, SizeAtBack, AcquireAt;
      AcquireExactly(|store|, offset, size, n);
      AcquireDisjoint(|store|, offset, size, n);
      AcquireCases(|store|, offset, size, n);
      if offset >= n {
        acquiredOffset := 0;
        return acquiredOffset;
      }
      var sizeAtBack := SizeAtBack(|store|, offset + size);
      if sizeAtBack < n {
        Grow((n - sizeAtBack) / 4 * 4);
      }
      acquiredOffset := offset + size;
      acquiredOffset := acquiredOffset + acquiredOffset % 4;
      return acquiredOffset;
    }

    /** What a node does with the room: writing into it leaves the live bytes alone. */
    method Fill(data: seq<Byte>)
      requires Valid() && acquiredOffset + |data| <= |store|
      requires acquiredOffset + |data| <= offset || offset + size <= acquiredOffset
      modifies this`store
      ensures Valid() && View() == old(View()) && |store| == |old(store)|
      ensures store[acquiredOffset..acquiredOffset + |data|] == data
    {
      Overwritten(store, acquiredOffset, data, offset, size);
      store := store[..acquiredOffset] + data + store[acquiredOffset + |data|..];
    }

    /** `commit`: the first bytes of the room become the live bytes. */
    method Commit(newSize: nat)
      requires |store| % 4 == 0 && acquiredOffset + newSize <= |store| < SIZE_LIMIT
      modifies this`offset, this`size
      ensures Valid() && View() == store[acquiredOffset..acquiredOffset + newSize]
    {
      offset := acquiredOffset;
      size := newSize;
    }

    /** `trimFront`: drops bytes in front; too large a request changes nothing. */
    method TrimFront(n: nat)
      requires Valid()
      modifies this`offset, this`size
      ensures Valid() && View() == if n <= |old(View())| then old(View())[n..] else old(View())
    {
      if n > size {
        return;
      }
      offset := offset + n;
      size := size - n;
    }

    /** `trimBack`: drops bytes at the end; too large a request changes nothing. */
    method TrimBack(n: nat)
      requires Valid()
      modifies this`size
      ensures Valid() && View() == if n <= |old(View())| then old(View())[..|old(View())| - n] else old(View())
    {
      if n > size {
        return;
      }
      size := size - n;
    }

    /** `shrink`: keeps at most n bytes. */
    method Shrink(n: nat)
      requires Valid()
      modifies this`size
      ensures Valid() && View() == old(View())[..Min(n, |old(View())|)]
    {
      ghost var view := View();
      size := Min(size, n);
      assert View() == view[..size];
    }

    /** `clear` */
    method Clear()
      requires Valid()
      modifies this`offset, this`size
      ensures Valid() && View() == [] && offset == 0
    {
      offset, size := 0, 0;
    }

    /** The whole cycle: acquire, write, commit part of it, trim: the matching slice is live. */
    method Replace(data: seq<Byte>, newSize: nat, front: nat, keep: nat)
      requires Valid() && |data| < SIZE_LIMIT - 4 && newSize <= |data| && front <= newSize
      requires Usable(|store|, offset, size, |data|) && AcquireAt(|store|, offset, size, |data|).bytes < SIZE_LIMIT
      modifies this
      ensures Valid() && View() == data[front..newSize][..Min(keep, newSize - front)]
    {
      hide Usable, AcquireAt, View;
      var at := Acquire(|data|);
      Fill(data);
      Front(store, at, data, newSize);
      Commit(newSize);
      assert View() == data[..newSize];
      Middle(data, front, newSize);
      TrimFront(front);
      assert View() == data[front..newSize];
      Shrink(keep);
    }
  }
}
