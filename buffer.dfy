/** The growable byte window of include/utility/net/buffer.h.

    A `Buffer` owns a backing container; the valid data is the window
    `[offset, offset + size)` of it. Bytes are committed at the tail, consumed at the head,
    and when the tail is exhausted the window is either compacted to the head or the
    container grows by one allocation unit. */
module Buffers {
  import opened Bytes

  const MAX_PACK_SIZE: nat := 4 * 1024 * 1024
  const INITIAL_SIZE: nat := 32 * 1024
  const PER_ALLOC_SIZE: nat := 32 * 1024

  function Max(a: nat, b: nat): nat { if a > b then a else b }

  /** The capacity shrink() resizes to: the window length rounded up to whole allocation
      units, never below the initial size, and no larger than needed for both. */
  function ShrinkCapacity(size: nat): (cap: nat)
    ensures cap >= size && cap >= INITIAL_SIZE
    ensures cap % PER_ALLOC_SIZE == 0
    ensures cap - PER_ALLOC_SIZE < Max(size, INITIAL_SIZE)
  {
    Max(INITIAL_SIZE, (size + PER_ALLOC_SIZE - 1) / PER_ALLOC_SIZE * PER_ALLOC_SIZE)
  }

  /** The (capacity, offset) that writable_buff() leaves behind for a window of `size`
      bytes at `offset` in a container of `capacity` bytes. */
  function WritableLayout(capacity: nat, offset: nat, size: nat): (r: (nat, nat))
    requires offset + size <= capacity
    // afterwards the window still fits and at least one tail byte is writable
    ensures r.1 + size < r.0
    // a tail with room is left alone
    ensures offset + size < capacity ==> r == (capacity, offset)
    // otherwise exactly one of: compact to the head (only once the head has advanced by a
    // whole allocation unit), or grow by exactly one unit without moving the window
    ensures r.0 == capacity || r.0 == capacity + PER_ALLOC_SIZE
    ensures r.0 == capacity + PER_ALLOC_SIZE ==> offset < PER_ALLOC_SIZE && r.1 == offset
    ensures r.1 != offset ==> r.1 == 0 && r.0 == capacity && offset >= PER_ALLOC_SIZE
    ensures offset >= PER_ALLOC_SIZE ==> r.0 == capacity
  {
    if offset + size < capacity then (capacity, offset)
    else if offset >= PER_ALLOC_SIZE then (capacity, 0)
    else (capacity + PER_ALLOC_SIZE, offset)
  }

  /** `c` with `bytes` written over it from position `at`. */
  function Overwrite(c: seq<byte>, at: nat, bytes: seq<byte>): (r: seq<byte>)
    requires at + |bytes| <= |c|
    ensures |r| == |c|
  {
    c[..at] + bytes + c[at + |bytes|..]
  }

  /** Position by position: the bytes from `at` on, the old contents elsewhere. */
  lemma OverwriteAt(c: seq<byte>, at: nat, bytes: seq<byte>)
    requires at + |bytes| <= |c|
    ensures forall j :: 0 <= j < |c| ==>
              Overwrite(c, at, bytes)[j] == if at <= j < at + |bytes| then bytes[j - at] else c[j]
  {
  }

  /** A read of k bytes issued at position `at` >= k, completing after the window was
      cleared to the head: the k bytes push_cache adds to the window are the old contents
      of the container's head, not the bytes read. */
  lemma {:induction false} StaleHead(c: seq<byte>, at: nat, bytes: seq<byte>)
    requires |bytes| <= at && at + |bytes| <= |c|
    ensures Overwrite(c, at, bytes)[..|bytes|] == c[..|bytes|]
  {
    var r := Overwrite(c, at, bytes);
    OverwriteAt(c, at, bytes);
    forall j | 0 <= j < |bytes|
      ensures r[j] == c[j]
    {
    }
  }

  class Buffer {
    var container: array<byte>
    var offset: nat
    var size: nat

    /** The window lies inside the container. */
    ghost predicate Valid()
      reads this
    {
      offset + size <= container.Length
    }

    function Capacity(): nat
      reads this
    {
      container.Length
    }

    /** data() together with size(): the bytes of the window. */
    function Data(): (w: seq<byte>)
      reads this, container
      requires Valid()
      ensures |w| == size
    {
      container[offset..offset + size]
    }

    function Empty(): (r: bool)
      reads this, container
      requires Valid()
      ensures r <==> Data() == []
    {
      size == 0
    }

    /** Bytes writable at the tail: everything after the window's end. */
    function WritableSize(): (r: nat)
      reads this
      requires Valid()
      ensures offset + |Data()| + r == Capacity()
    {
      container.Length - offset - size
    }

    /** buffer(): an empty window over `initial_size` bytes. */
    constructor ()
      ensures Valid() && fresh(container)
      ensures Capacity() == INITIAL_SIZE && offset == 0 && size == 0
    {
      container := new byte[INITIAL_SIZE];
      offset, size := 0, 0;
    }

    /** buffer(data, length): a copy of the first `length` bytes of `data`, in a
        container of at least `initial_size` bytes. */
    constructor FromBytes(data: seq<byte>, length: nat)
      requires length <= |data|
      ensures Valid() && fresh(container)
      ensures Capacity() == Max(INITIAL_SIZE, length) && offset == 0 && size == length
      ensures Data() == data[..length]
    {
      var c := new byte[Max(INITIAL_SIZE, length)];
      for i := 0 to length
        invariant forall j :: 0 <= j < i ==> c[j] == data[j]
      {
        c[i] := data[i];
      }
      container := c;
      size := length;
      offset := 0;
    }

    /** push_cache(n): the n bytes just written after the window become part of it. */
    method PushCache(n: nat)
      requires Valid() && offset + size + n <= Capacity()
      modifies this
      ensures Valid() && container == old(container)
      ensures offset == old(offset) && size == old(size) + n
      ensures Data() == old(Data()) + container[old(offset + size)..old(offset + size) + n]
    {
      size := size + n;
      assert container[offset..offset + size]
          == container[offset..old(offset + size)] + container[old(offset + size)..offset + size];
    }

    /** The transport's read of `bytes` into the container memory at `at`; the window is
        not touched. */
    method WriteAt(at: nat, bytes: seq<byte>)
      requires Valid() && at + |bytes| <= Capacity()
      modifies container
      ensures container[..] == Overwrite(old(container[..]), at, bytes)
    {
      ghost var before := container[..];
      for i := 0 to |bytes|
        invariant container[..at] == before[..at]
        invariant container[at + i..] == before[at + i..]
        invariant container[at..at + i] == bytes[..i]
      {
        container[at + i] := bytes[i];
        assert container[at..at + i + 1] == container[at..at + i] + [bytes[i]];
        assert bytes[..i + 1] == bytes[..i] + [bytes[i]];
      }
      assert container[..] == container[..at] + container[at..at + |bytes|] + container[at + |bytes|..];
    }

    /** A transport read of `bytes` into the memory at `at` that writable_buff() returned
        when the read was issued, followed by push_cache(|bytes|): the container holds the
        bytes from `at` on, and the window grows by the |bytes| container bytes after its
        end, which are exactly the bytes read when `at` is still the window's end. */
    method ReadInto(at: nat, bytes: seq<byte>)
      requires Valid() && offset + size <= at && at + |bytes| <= Capacity()
      modifies this, container
      ensures Valid() && container == old(container) && offset == old(offset)
      ensures container[..] == Overwrite(old(container[..]), at, bytes)
      ensures Data() == old(Data()) + Overwrite(old(container[..]), at, bytes)[old(offset + size)..old(offset + size) + |bytes|]
      ensures at == old(offset + size) ==> Data() == old(Data()) + bytes
    {
      WriteAt(at, bytes);
      OverwriteAt(old(container[..]), at, bytes);
      assert container[offset..offset + size] == old(Data());
      PushCache(|bytes|);
      assert container[at..at + |bytes|] == container[..][at..at + |bytes|];
    }

    /** pop_cache(n): the first n bytes of the window are consumed. */
    method PopCache(n: nat)
      requires Valid() && n <= size
      modifies this
      ensures Valid() && container == old(container)
      ensures offset == old(offset) + n && size == old(size) - n
      ensures Data() == old(Data())[n..]
    {
      offset := offset + n;
      size := size - n;
    }

    /** clear(): the window becomes empty at the head; the capacity is kept. */
    method Clear()
      requires Valid()
      modifies this
      ensures Valid() && container == old(container)
      ensures offset == 0 && size == 0 && Data() == []
    {
      offset := 0;
      size := 0;
    }

    /** move2head(): the window is shifted, in place, to the start of the container. */
    method MoveToHead()
      requires Valid()
      modifies this, container
      ensures Valid() && container == old(container)
      ensures offset == 0 && size == old(size)
      ensures Data() == old(Data())
      // memmove leaves the bytes after the moved window as they were
      ensures container[size..] == old(container[size..])
    {
      var from, n := offset, size;
      var i := 0;
      while i < n
        invariant 0 <= i <= n
        invariant forall j :: 0 <= j < i ==> container[j] == old(container[from + j])
        invariant forall j :: i <= j < container.Length ==> container[j] == old(container[j])
        modifies container
      {
        container[i] := container[from + i];
        i := i + 1;
      }
      offset := 0;
    }

    /** The backing string's resize(n): the first min(n, capacity) bytes are kept and any
        new bytes are zero. */
    method Resize(n: nat)
      requires offset + size <= n
      modifies this
      ensures Valid() && fresh(container) && container.Length == n
      ensures offset == old(offset) && size == old(size)
      ensures forall j :: 0 <= j < n ==>
                container[j] == if j < old(container.Length) then old(container[j]) else 0
    {
      var was := container[..];
      container := new byte[n]((j: int) requires 0 <= j => if j < |was| then was[j] else 0);
    }

    /** expand(): one more allocation unit of capacity, window untouched. */
    method Expand()
      requires Valid()
      modifies this
      ensures Valid() && fresh(container)
      ensures Capacity() == old(Capacity()) + PER_ALLOC_SIZE
      ensures offset == old(offset) && size == old(size) && Data() == old(Data())
    {
      Resize(container.Length + PER_ALLOC_SIZE);
    }

    /** shrink(): compact, then cut the capacity back to ShrinkCapacity(size). */
    method Shrink()
      requires Valid()
      modifies this, container
      ensures Valid() && fresh(container)
      ensures Capacity() == ShrinkCapacity(size)
      ensures offset == 0 && size == old(size) && Data() == old(Data())
    {
      MoveToHead();
      Resize(ShrinkCapacity(size));
    }

    /** writable_buff(): make room at the tail when it is exhausted, then return the index
        of the first writable byte. */
    method WritableBuff() returns (tail: nat)
      requires Valid()
      modifies this, container
      ensures Valid() && (container == old(container) || fresh(container))
      ensures (Capacity(), offset) == WritableLayout(old(Capacity()), old(offset), old(size))
      ensures size == old(size) && Data() == old(Data())
      ensures tail == offset + size && WritableSize() > 0
    {
      if container.Length <= offset + size {
        if offset >= PER_ALLOC_SIZE {
          MoveToHead();
        } else {
          Expand();
        }
      }
      tail := offset + size;
    }
  }
}
