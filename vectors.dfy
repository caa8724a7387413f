/** The kernel's growable array `vector<T>` (src/include/vectors.h). Every
    buffer is requested from the bump allocator; the Dafny array stands for
    the buffer the allocator handed out. */
module Vectors {
  import opened Bytes
  import opened Arena

  /** Capacity of the first buffer a push_back allocates. */
  const InitialCapacity := 10

  /** The capacity push_back asks reserve for when the vector is full. */
  function GrowCapacity(cap: nat): (n: nat)
    ensures n > cap
    ensures cap == 0 ==> n == InitialCapacity
    ensures cap > 0 ==> n == 2 * cap
  {
    if cap == 0 then InitialCapacity else cap * 2
  }

  /** Where push_back as written constructs the new element, as (slot,
      capacity afterwards), given whether the growth reserve got its buffer;
      None when it returns without storing. Only an empty vector returns on a
      failed growth: a full non-empty one falls through to slot `cap`. */
  function PushBackSlotAsWritten(size: nat, cap: nat, grew: bool): Option<(nat, nat)>
  {
    if size == cap && !grew then
      if cap == 0 then None else Some((size, cap))
    else if size == cap then Some((size, GrowCapacity(cap)))
    else Some((size, cap))
  }

  /** The defect: a full non-empty vector whose growth fails is written one
      past the end of its buffer. */
  lemma PushBackAsWrittenOverruns(cap: nat)
    requires cap > 0
    ensures var r := PushBackSlotAsWritten(cap, cap, false);
            r.Some? && r.value.0 == r.value.1
  {
  }

  /** The intended slot choice: a failed growth always returns. */
  function PushBackSlot(size: nat, cap: nat, grew: bool): Option<(nat, nat)>
  {
    if size == cap && !grew then None
    else if size == cap then Some((size, GrowCapacity(cap)))
    else Some((size, cap))
  }

  /** With the intended choice the new element always lands inside the buffer. */
  lemma PushBackSlotInBounds(size: nat, cap: nat, grew: bool)
    requires size <= cap
    ensures var r := PushBackSlot(size, cap, grew);
            (r.Some? ==> r.value.0 == size < r.value.1)
            && (r.None? <==> size == cap && !grew)
  {
  }

  class Vector<T(0)> {
    /** arr; null when no buffer was ever allocated. */
    var data: array?<T>
    /** current_size. */
    var size: nat
    /** cap. */
    var cap: nat
    /** sizeof(T) in bytes. */
    const elemSize: nat

    ghost predicate Valid()
      reads this
    {
      && elemSize > 0
      && (data == null <==> cap == 0)
      && (data != null ==> data.Length == cap)
      && size <= cap
    }

    /** The stored elements, in order. */
    ghost function Elements(): seq<T>
      reads this, data
      requires Valid()
    {
      if data == null then [] else data[..size]
    }

    /** The default constructor: no buffer, size 0, capacity 0. */
    constructor (elemSize: nat)
      requires elemSize > 0
      ensures Valid() && data == null && size == 0 && cap == 0 && this.elemSize == elemSize
    {
      this.elemSize := elemSize;
      data := null;
      size := 0;
      cap := 0;
    }

    /** vector(initial_capacity): the default state followed by reserve. */
    constructor WithCapacity(elemSize: nat, n: nat, heap: Heap)
      requires elemSize > 0
      modifies heap
      ensures Valid() && size == 0 && this.elemSize == elemSize
      ensures n == 0 ==> cap == 0 && heap.cursor == old(heap.cursor)
      ensures n > 0 ==>
                var (next, block) := Bump(old(heap.cursor), elemSize * n);
                heap.cursor == next && cap == (if block.Some? then n else 0)
    {
      this.elemSize := elemSize;
      data := null;
      size := 0;
      cap := 0;
      new;
      Reserve(n, heap);
    }

    /** allocate_raw: a zero-element request returns null without calling the allocator. */
    method AllocateRaw(n: nat, heap: Heap) returns (buffer: array?<T>)
      requires elemSize > 0
      modifies heap
      ensures n == 0 ==> buffer == null && heap.cursor == old(heap.cursor)
      ensures n > 0 ==>
                var (next, block) := Bump(old(heap.cursor), elemSize * n);
                heap.cursor == next
                && (block.Some? ==> buffer != null && fresh(buffer) && buffer.Length == n)
                && (block.None? ==> buffer == null)
    {
      if n == 0 {
        return null;
      }
      var block := heap.Allocate(elemSize * n);
      if block.None? {
        return null;
      }
      buffer := new T[n];
    }

    /** reserve(n): a no-op when n <= cap; otherwise the elements move, in
        order, to a fresh buffer of exactly n slots, unless the allocation
        fails, which leaves the vector unchanged. */
    method Reserve(n: nat, heap: Heap)
      requires Valid()
      modifies this, heap
      ensures Valid() && size == old(size) && Elements() == old(Elements())
      ensures n <= old(cap) ==> data == old(data) && cap == old(cap) && heap.cursor == old(heap.cursor)
      ensures n > old(cap) ==>
                var (next, block) := Bump(old(heap.cursor), elemSize * n);
                && heap.cursor == next
                && (block.Some? ==> cap == n && fresh(data))
                && (block.None? ==> cap == old(cap) && data == old(data))
    {
      if n > cap {
        var buffer := AllocateRaw(n, heap);
        if buffer == null {
          return;
        }
        var i := 0;
        while i < size
          invariant 0 <= i <= size
          invariant data != null ==> buffer[..i] == data[..i]
          modifies buffer
        {
          buffer[i] := data[i];
          i := i + 1;
        }
        data := buffer;
        cap := n;
      }
    }

    /** push_back, with the growth failure returning for every full vector.
        A vector with spare room stores v at index size; a full one first
        grows to GrowCapacity(cap), keeping its elements in order. */
    method PushBack(v: T, heap: Heap)
      requires Valid()
      modifies this, data, heap
      ensures Valid() && (data == old(data) || fresh(data))
      ensures old(size) < old(cap) ==>
                Elements() == old(Elements()) + [v] && cap == old(cap) && heap.cursor == old(heap.cursor)
      ensures old(size) == old(cap) ==>
                var (next, block) := Bump(old(heap.cursor), elemSize * GrowCapacity(old(cap)));
                && heap.cursor == next
                && (block.Some? ==> cap == GrowCapacity(old(cap)) && Elements() == old(Elements()) + [v])
                && (block.None? ==> cap == old(cap) && Elements() == old(Elements()))
    {
      if size == cap {
        var newCap := if cap == 0 then InitialCapacity else cap * 2;
        Reserve(newCap, heap);
        if cap < newCap {
          return;
        }
      }
      data[size] := v;
      size := size + 1;
    }

    /** pop_back: drops the last element of a non-empty vector. */
    method PopBack()
      requires Valid()
      modifies this`size
      ensures Valid() && cap == old(cap)
      ensures old(size) == 0 ==> Elements() == old(Elements())
      ensures old(size) > 0 ==> Elements() == old(Elements())[..old(size) - 1]
    {
      if size > 0 {
        size := size - 1;
      }
    }

    /** size(). */
    function Size(): (n: nat)
      reads this, data
      requires Valid()
      ensures n == |Elements()|
    {
      size
    }

    /** capacity(): never below the number of stored elements. */
    function Capacity(): (c: nat)
      reads this, data
      requires Valid()
      ensures c >= |Elements()|
      ensures c == 0 <==> data == null
    {
      cap
    }

    /** empty(). */
    function Empty(): (b: bool)
      reads this, data
      requires Valid()
      ensures b <==> Elements() == []
    {
      size == 0
    }

    /** operator[] on a stored index. */
    function Get(i: nat): (v: T)
      reads this, data
      requires Valid() && i < size
      ensures v == Elements()[i]
    {
      data[i]
    }

    /** clear(): size 0, capacity and buffer kept. */
    method Clear()
      requires Valid()
      modifies this`size
      ensures Valid() && Elements() == [] && cap == old(cap)
    {
      size := 0;
    }

    /** resize(n, v): growing appends copies of v, shrinking drops the tail;
        a growth whose reserve fails leaves the vector unchanged. */
    method Resize(n: nat, v: T, heap: Heap)
      requires Valid()
      modifies this, data, heap
      ensures Valid()
      ensures n <= old(size) ==>
                Elements() == old(Elements())[..n] && cap == old(cap) && heap.cursor == old(heap.cursor)
      ensures old(size) < n <= old(cap) ==>
                Elements() == old(Elements()) + seq(n - old(size), _ => v)
                && cap == old(cap) && heap.cursor == old(heap.cursor)
      ensures n > old(cap) ==>
                var (next, block) := Bump(old(heap.cursor), elemSize * n);
                && heap.cursor == next
                && (block.Some? ==> cap == n && Elements() == old(Elements()) + seq(n - old(size), _ => v))
                && (block.None? ==> cap == old(cap) && Elements() == old(Elements()))
    {
      if n > size {
        if n > cap {
          Reserve(n, heap);
          if cap < n {
            return;
          }
        }
        FillTail(n, v);
      }
      size := n;
    }

    /** The construction loop of resize: slots size..n-1 receive copies of v. */
    method FillTail(n: nat, v: T)
      requires Valid() && size < n <= cap
      modifies data
      ensures data[..n] == old(Elements()) + seq(n - size, _ => v)
    {
      ghost var before := data[..size];
      var i := size;
      while i < n
        invariant size <= i <= n
        invariant data[..size] == before
        invariant data[size..i] == seq(i - size, _ => v)
        modifies data
      {
        data[i] := v;
        i := i + 1;
      }
      assert data[..n] == data[..size] + data[size..n];
    }

    /** The copy constructor: a fresh buffer of the same capacity holding the
        same elements, or an empty vector when `other` has no capacity or the
        allocation fails. */
    constructor Copy(other: Vector<T>, heap: Heap)
      requires other.Valid()
      modifies heap
      ensures Valid() && elemSize == other.elemSize
      ensures other.cap == 0 ==> data == null && size == 0 && cap == 0 && heap.cursor == old(heap.cursor)
      ensures other.cap > 0 ==>
                var (next, block) := Bump(old(heap.cursor), other.elemSize * other.cap);
                && heap.cursor == next
                && (block.Some? ==> fresh(data) && cap == other.cap && Elements() == other.Elements())
                && (block.None? ==> data == null && size == 0 && cap == 0)
    {
      elemSize := other.elemSize;
      data := null;
      size := 0;
      cap := 0;
      new;
      if other.cap > 0 {
        var buffer := AllocateRaw(other.cap, heap);
        if buffer == null {
          return;
        }
        var i := 0;
        while i < other.size
          invariant 0 <= i <= other.size
          invariant buffer[..i] == other.data[..i]
          modifies buffer
        {
          buffer[i] := other.data[i];
          i := i + 1;
        }
        data := buffer;
        cap := other.cap;
        size := other.size;
      }
    }

    /** The move constructor: takes over other's buffer, size and capacity and
        leaves it with none. */
    constructor Move(other: Vector<T>)
      requires other.Valid()
      modifies other
      ensures Valid() && elemSize == other.elemSize
      ensures data == old(other.data) && size == old(other.size) && cap == old(other.cap)
      ensures other.Valid() && other.data == null && other.size == 0 && other.cap == 0
    {
      elemSize := other.elemSize;
      data := other.data;
      size := other.size;
      cap := other.cap;
      new;
      other.data := null;
      other.size := 0;
      other.cap := 0;
    }

    /** Move assignment; self-assignment changes nothing. */
    method MoveAssign(other: Vector<T>)
      requires Valid() && other.Valid()
      modifies this, other
      ensures Valid() && other.Valid()
      ensures other == this ==> data == old(data) && size == old(size) && cap == old(cap)
      ensures other != this ==>
                && data == old(other.data) && size == old(other.size) && cap == old(other.cap)
                && other.data == null && other.size == 0 && other.cap == 0
    {
      if other != this {
        data := other.data;
        size := other.size;
        cap := other.cap;
        other.data := null;
        other.size := 0;
        other.cap := 0;
      }
    }

    /** Copy assignment: copy `other`, then swap the copy in. A failed copy
        empties this vector. Self-assignment changes nothing. */
    method CopyAssign(other: Vector<T>, heap: Heap)
      requires Valid() && other.Valid() && elemSize == other.elemSize
      modifies this, heap
      ensures Valid()
      ensures other == this ==> data == old(data) && size == old(size) && cap == old(cap)
      ensures other != this && other.cap == 0 ==>
                data == null && size == 0 && cap == 0 && heap.cursor == old(heap.cursor)
      ensures other != this && other.cap > 0 ==>
                var (next, block) := Bump(old(heap.cursor), elemSize * other.cap);
                && heap.cursor == next
                && (block.Some? ==> fresh(data) && cap == other.cap && Elements() == other.Elements())
                && (block.None? ==> data == null && size == 0 && cap == 0)
    {
      if other != this {
        var temp := new Vector.Copy(other, heap);
        Swap(this, temp);
      }
    }
  }

  /** swap: exchanges buffer, size and capacity. */
  method Swap<T(0)>(first: Vector<T>, second: Vector<T>)
    requires first.Valid() && second.Valid() && first.elemSize == second.elemSize
    modifies first, second
    ensures first.Valid() && second.Valid()
    ensures first.data == old(second.data) && first.size == old(second.size) && first.cap == old(second.cap)
    ensures second.data == old(first.data) && second.size == old(first.size) && second.cap == old(first.cap)
  {
    var tempData := first.data;
    first.data := second.data;
    second.data := tempData;
    var tempSize := first.size;
    first.size := second.size;
    second.size := tempSize;
    var tempCap := first.cap;
    first.cap := second.cap;
    second.cap := tempCap;
  }
}
