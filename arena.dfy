/** The kernel heap: a bump allocator over a 1 MiB pool (src/memorys.cpp).
    Allocations are byte offsets into the pool; the pool contents are not
    modelled, only the cursor `pool_index`. */
module Arena {
  import opened Bytes

  /** sizeof(memory_pool). */
  const PoolSize := 1048576
  /** Every block starts on this boundary. */
  const Alignment := 16
  /** size_t is 32 bits wide. */
  const SizeLimit := 0x1_0000_0000

  /** The cursor rounded up to the next multiple of 16. */
  function AlignUp(cursor: nat): (a: nat)
    ensures a % Alignment == 0
    ensures cursor <= a < cursor + Alignment
    ensures cursor % Alignment == 0 ==> a == cursor
  {
    var remainder := cursor % Alignment;
    if remainder != 0 then cursor + (Alignment - remainder) else cursor
  }

  /** A request of `size` bytes fits iff the aligned cursor plus size stays within the pool. */
  predicate Fits(cursor: nat, size: nat)
  {
    AlignUp(cursor) + size <= PoolSize
  }

  /** The block returned by operator new[] (None for nullptr) and the new cursor.
      The alignment padding is kept even when the request fails. */
  function Bump(cursor: nat, size: nat): (nat, Option<nat>)
  {
    var aligned := AlignUp(cursor);
    if aligned + size > PoolSize then (aligned, None)
    else (aligned + size, Some(aligned))
  }

  /** What a single request promises: success iff the request fits; a returned
      block is 16-aligned, lies inside the pool at or after the old cursor, and
      the cursor then sits right after it; the cursor never decreases. */
  lemma BumpMeaning(cursor: nat, size: nat)
    requires cursor <= PoolSize
    ensures var (next, block) := Bump(cursor, size);
            && cursor <= next <= PoolSize
            && (block.Some? <==> Fits(cursor, size))
            && (block.Some? ==>
                  block.value % Alignment == 0 && cursor <= block.value
                  && block.value + size == next)
            && (block.None? ==> next == AlignUp(cursor))
  {
    assert PoolSize % Alignment == 0;
  }

  /** Serving the requests `sizes` one after another from `cursor`: the block
      (or None) of each request and the final cursor. */
  function BumpAll(cursor: nat, sizes: seq<nat>): (r: (seq<Option<nat>>, nat))
    ensures |r.0| == |sizes|
    decreases |sizes|
  {
    if sizes == [] then ([], cursor)
    else
      var (next, block) := Bump(cursor, sizes[0]);
      var rest := BumpAll(next, sizes[1..]);
      ([block] + rest.0, rest.1)
  }

  /** Successful allocations from any request sequence lie inside the pool,
      between the starting and the final cursor, and are pairwise disjoint,
      in request order. */
  lemma {:induction false} BumpAllDisjoint(cursor: nat, sizes: seq<nat>)
    requires cursor <= PoolSize
    ensures var (blocks, last) := BumpAll(cursor, sizes);
            && cursor <= last <= PoolSize
            && (forall i :: 0 <= i < |sizes| && blocks[i].Some? ==>
                  cursor <= blocks[i].value && blocks[i].value + sizes[i] <= last)
            && (forall i, j :: 0 <= i < j < |sizes| && blocks[i].Some? && blocks[j].Some? ==>
                  blocks[i].value + sizes[i] <= blocks[j].value)
    decreases |sizes|
  {
    if sizes != [] {
      var (next, block) := Bump(cursor, sizes[0]);
      BumpMeaning(cursor, sizes[0]);
      BumpAllDisjoint(next, sizes[1..]);
      var (blocks, last) := BumpAll(cursor, sizes);
      var rest := BumpAll(next, sizes[1..]);
      assert blocks == [block] + rest.0;
      forall i | 0 < i < |sizes| && blocks[i].Some?
        ensures next <= blocks[i].value && blocks[i].value + sizes[i] <= last
      {
        assert blocks[i] == rest.0[i - 1] && sizes[i] == sizes[1..][i - 1];
      }
    }
  }

  /** operator new[] as written compares `pool_index + size` in 32-bit
      unsigned arithmetic, so a huge request wraps around and passes the
      guard. */
  function BumpAsWritten(cursor: nat, size: nat): (nat, Option<nat>)
    requires cursor < SizeLimit && size < SizeLimit
  {
    var aligned := AlignUp(cursor) % SizeLimit;
    if (aligned + size) % SizeLimit > PoolSize then (aligned, None)
    else ((aligned + size) % SizeLimit, Some(aligned))
  }

  /** A request of 2^32 - 8 bytes at cursor 16 is granted a block reaching far
      past the pool, and the cursor moves backwards. */
  lemma BumpAsWrittenWraps()
    ensures var (next, block) := BumpAsWritten(16, SizeLimit - 8);
            block == Some(16) && block.value + (SizeLimit - 8) > PoolSize && next < 16
    ensures Bump(16, SizeLimit - 8).1.None?
  {
  }

  /** The allocator state: pool_index. */
  class Heap {
    var cursor: nat

    constructor ()
      ensures cursor == 0
    {
      cursor := 0;
    }

    predicate Valid()
      reads this
    {
      cursor <= PoolSize
    }

    /** operator new[]: the block's pool offset, or None for nullptr. */
    method Allocate(size: nat) returns (block: Option<nat>)
      modifies this
      ensures (cursor, block) == Bump(old(cursor), size)
      ensures old(Valid()) ==> Valid()
    {
      var remainder := cursor % Alignment;
      if remainder != 0 {
        cursor := cursor + (Alignment - remainder);
      }
      if cursor + size > PoolSize {
        return None;
      }
      block := Some(cursor);
      cursor := cursor + size;
    }

    /** operator delete[]: a no-op for a bump allocator. */
    method Free(block: Option<nat>)
      ensures cursor == old(cursor)
    {
    }
  }
}
