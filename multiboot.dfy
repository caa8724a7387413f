/** The Multiboot boot information and memory map (src/include/memorys.h) and
    the RAM summary computed from them (get_total_ram_mb in src/memorys.cpp),
    following section 3.3 of the Multiboot Specification 0.6.96. */
module Multiboot {
  import opened Bytes

  /** Bytes of multiboot_info read here: up to and including mmap_addr. */
  const BootInfoPrefixSize := 52
  /** sizeof(mmap_entry), packed. */
  const MmapEntrySize := 24
  /** The `size` field does not count itself: the next entry is size + 4 bytes on. */
  const SizeFieldWidth := 4
  /** Memory-map type of usable RAM. */
  const AvailableRam := 1
  const U32Limit := 0x1_0000_0000
  const U64Limit := 0x1_0000_0000_0000_0000
  const BytesPerMb := 1048576

  /** The multiboot_info fields get_total_ram_mb reads; mem_lower and
      mem_upper are in KiB. */
  datatype BootInfo = BootInfo(flags: nat, memLower: nat, memUpper: nat, mmapLength: nat, mmapAddr: nat)
  {
    ghost predicate Wf()
    {
      flags < U32Limit && memLower < U32Limit && memUpper < U32Limit
      && mmapLength < U32Limit && mmapAddr < U32Limit
    }
  }

  datatype MmapEntry = MmapEntry(size: nat, addr: nat, len: nat, kind: nat)
  {
    ghost predicate Wf()
    {
      size < U32Limit && addr < U64Limit && len < U64Limit && kind < U32Limit
    }
  }

  /** multiboot_info: flags at 0, mem_lower at 4, mem_upper at 8, mmap_length
      at 44 and mmap_addr at 48, each a little-endian u32. */
  function DecodeBootInfo(b: seq<Byte>): (i: BootInfo)
    requires |b| >= BootInfoPrefixSize
    ensures i.Wf()
  {
    LittleEndianBound(b[0..4]);
    LittleEndianBound(b[4..8]);
    LittleEndianBound(b[8..12]);
    LittleEndianBound(b[44..48]);
    LittleEndianBound(b[48..52]);
    BootInfo(LittleEndian(b[0..4]), LittleEndian(b[4..8]), LittleEndian(b[8..12]),
             LittleEndian(b[44..48]), LittleEndian(b[48..52]))
  }

  /** A 52-byte prefix carrying the given fields, every other byte zero. */
  function EncodeBootInfo(i: BootInfo): (b: seq<Byte>)
    requires i.Wf()
    ensures |b| == BootInfoPrefixSize
  {
    ToLittleEndian(i.flags, 4) + ToLittleEndian(i.memLower, 4) + ToLittleEndian(i.memUpper, 4)
      + seq(32, _ => 0)
      + ToLittleEndian(i.mmapLength, 4) + ToLittleEndian(i.mmapAddr, 4)
  }

  lemma DecodeEncodeBootInfo(i: BootInfo)
    requires i.Wf()
    ensures DecodeBootInfo(EncodeBootInfo(i)) == i
  {
    var b := EncodeBootInfo(i);
    assert b[0..4] == ToLittleEndian(i.flags, 4);
    assert b[4..8] == ToLittleEndian(i.memLower, 4);
    assert b[8..12] == ToLittleEndian(i.memUpper, 4);
    assert b[44..48] == ToLittleEndian(i.mmapLength, 4);
    assert b[48..52] == ToLittleEndian(i.mmapAddr, 4);
    DecodeEncodeLittleEndian(i.flags, 4);
    DecodeEncodeLittleEndian(i.memLower, 4);
    DecodeEncodeLittleEndian(i.memUpper, 4);
    DecodeEncodeLittleEndian(i.mmapLength, 4);
    DecodeEncodeLittleEndian(i.mmapAddr, 4);
  }

  /** mmap_entry: size u32 at 0, addr u64 at 4, len u64 at 12, type u32 at 20. */
  function DecodeMmapEntry(b: seq<Byte>): (e: MmapEntry)
    requires |b| == MmapEntrySize
    ensures e.Wf()
  {
    LittleEndianBound(b[0..4]);
    LittleEndianBound(b[4..12]);
    LittleEndianBound(b[12..20]);
    LittleEndianBound(b[20..24]);
    assert Pow256(8) == U64Limit;
    MmapEntry(LittleEndian(b[0..4]), LittleEndian(b[4..12]), LittleEndian(b[12..20]), LittleEndian(b[20..24]))
  }

  function EncodeMmapEntry(e: MmapEntry): (b: seq<Byte>)
    requires e.Wf()
    ensures |b| == MmapEntrySize
  {
    ToLittleEndian(e.size, 4) + ToLittleEndian(e.addr, 8) + ToLittleEndian(e.len, 8) + ToLittleEndian(e.kind, 4)
  }

  lemma DecodeEncodeMmapEntry(e: MmapEntry)
    requires e.Wf()
    ensures DecodeMmapEntry(EncodeMmapEntry(e)) == e
  {
    var b := EncodeMmapEntry(e);
    assert b[0..4] == ToLittleEndian(e.size, 4);
    assert b[4..12] == ToLittleEndian(e.addr, 8);
    assert b[12..20] == ToLittleEndian(e.len, 8);
    assert b[20..24] == ToLittleEndian(e.kind, 4);
    DecodeEncodeLittleEndian(e.size, 4);
    DecodeEncodeLittleEndian(e.addr, 8);
    DecodeEncodeLittleEndian(e.len, 8);
    DecodeEncodeLittleEndian(e.kind, 4);
  }

  /** Every 24 bytes are some entry: decoding and re-encoding gives them back. */
  lemma EncodeDecodeMmapEntry(b: seq<Byte>)
    requires |b| == MmapEntrySize
    ensures EncodeMmapEntry(DecodeMmapEntry(b)) == b
  {
    var e := DecodeMmapEntry(b);
    DecodedMmapFields(b);
    ReencodeFields(b);
    assert EncodeMmapEntry(e)
        == ToLittleEndian(e.size, 4) + ToLittleEndian(e.addr, 8) + ToLittleEndian(e.len, 8) + ToLittleEndian(e.kind, 4);
  }

  /** Each field of a decoded entry is the little-endian value of its bytes. */
  lemma DecodedMmapFields(b: seq<Byte>)
    requires |b| == MmapEntrySize
    ensures var e := DecodeMmapEntry(b);
            && e.size == LittleEndian(b[0..4]) && e.addr == LittleEndian(b[4..12])
            && e.len == LittleEndian(b[12..20]) && e.kind == LittleEndian(b[20..24])
  {
  }

  /** The four fields of 24 bytes, re-encoded and put back together. */
  lemma ReencodeFields(b: seq<Byte>)
    requires |b| == MmapEntrySize
    ensures LittleEndian(b[0..4]) < Pow256(4) && LittleEndian(b[4..12]) < Pow256(8)
    ensures LittleEndian(b[12..20]) < Pow256(8) && LittleEndian(b[20..24]) < Pow256(4)
    ensures ToLittleEndian(LittleEndian(b[0..4]), 4) + ToLittleEndian(LittleEndian(b[4..12]), 8)
            + ToLittleEndian(LittleEndian(b[12..20]), 8) + ToLittleEndian(LittleEndian(b[20..24]), 4) == b
  {
    ReencodeField(b, 0, 4);
    ReencodeField(b, 4, 12);
    ReencodeField(b, 12, 20);
    ReencodeField(b, 20, 24);
    assert b == b[0..4] + b[4..12] + b[12..20] + b[20..24];
  }

  /** A little-endian field of b, decoded and encoded again at its width. */
  lemma ReencodeField(b: seq<Byte>, lo: nat, hi: nat)
    requires lo <= hi <= |b|
    ensures LittleEndian(b[lo..hi]) < Pow256(hi - lo)
    ensures ToLittleEndian(LittleEndian(b[lo..hi]), hi - lo) == b[lo..hi]
  {
    EncodeDecodeLittleEndian(b[lo..hi]);
  }

  function BootInfoAt(mem: Memory, mbi: nat): BootInfo
  {
    DecodeBootInfo(Read(mem, mbi, BootInfoPrefixSize))
  }

  /** The memory map seen from its start: the entry at each byte offset. */
  type MemoryMap = nat -> MmapEntry

  function MapAt(mem: Memory, base: nat): MemoryMap
  {
    (offset: nat) => DecodeMmapEntry(Read(mem, base + offset, MmapEntrySize))
  }

  /** Offsets of the entries the walk visits, starting at `offset`: it goes on
      while the offset is below mmap_length, moves size + 4 bytes per entry,
      and stops after an entry whose size is 0. */
  function Walk(entries: MemoryMap, offset: nat, length: nat): seq<nat>
    decreases length - offset
  {
    if offset >= length then []
    else if entries(offset).size == 0 then [offset]
    else [offset] + Walk(entries, offset + entries(offset).size + SizeFieldWidth, length)
  }

  /** The visited offsets start at `offset`, stay below the length, each is
      the previous plus its entry's size plus 4, only the last entry may have
      size 0, and the walk ends because the last entry had size 0 or the next
      offset reached the length. */
  lemma {:induction false} WalkShape(entries: MemoryMap, offset: nat, length: nat)
    ensures var w := Walk(entries, offset, length);
            && (offset < length <==> w != [])
            && (w != [] ==> w[0] == offset)
            && (forall k :: 0 <= k < |w| ==> offset <= w[k] < length)
            && (forall k :: 0 <= k < |w| - 1 ==>
                  entries(w[k]).size != 0 && w[k + 1] == w[k] + entries(w[k]).size + SizeFieldWidth)
            && (w != [] ==>
                  entries(w[|w| - 1]).size == 0 || w[|w| - 1] + entries(w[|w| - 1]).size + SizeFieldWidth >= length)
    decreases length - offset
  {
    if offset < length && entries(offset).size != 0 {
      var next := offset + entries(offset).size + SizeFieldWidth;
      WalkShape(entries, next, length);
      var w := Walk(entries, offset, length);
      var rest := Walk(entries, next, length);
      assert w == [offset] + rest;
      forall k | 0 <= k < |w| - 1
        ensures entries(w[k]).size != 0 && w[k + 1] == w[k] + entries(w[k]).size + SizeFieldWidth
      {
        if k > 0 {
          assert w[k] == rest[k - 1] && w[k + 1] == rest[k];
        }
      }
    }
  }

  /** Length of the available-RAM entry at an offset, 0 for any other type. */
  function AvailableLen(entries: MemoryMap, offset: nat): nat
  {
    if entries(offset).kind == AvailableRam then entries(offset).len else 0
  }

  /** Bytes of available RAM among the entries at the given offsets, unbounded. */
  function AvailableBytes(entries: MemoryMap, offsets: seq<nat>): nat
  {
    if offsets == [] then 0
    else AvailableBytes(entries, offsets[..|offsets| - 1]) + AvailableLen(entries, offsets[|offsets| - 1])
  }

  lemma AvailableBytesAppend(entries: MemoryMap, offsets: seq<nat>, o: nat)
    ensures AvailableBytes(entries, offsets + [o]) == AvailableBytes(entries, offsets) + AvailableLen(entries, o)
  {
    assert (offsets + [o])[..|offsets|] == offsets;
  }

  /** The sum counts each available entry once: it is at least the length of
      every visited available entry and at most their total. */
  lemma {:induction false} AvailableBytesBounds(entries: MemoryMap, offsets: seq<nat>)
    ensures forall k :: 0 <= k < |offsets| ==> AvailableLen(entries, offsets[k]) <= AvailableBytes(entries, offsets)
    ensures (forall k :: 0 <= k < |offsets| ==> AvailableLen(entries, offsets[k]) == 0) ==> AvailableBytes(entries, offsets) == 0
  {
    if offsets != [] {
      AvailableBytesBounds(entries, offsets[..|offsets| - 1]);
    }
  }

  /** A sum of unsigned 32-bit values truncated to 32 bits. */
  function AddU32(a: nat, b: nat): nat
  {
    (a + b) % U32Limit
  }

  /** The mem_lower/mem_upper estimate in MiB (their sum is a uint32_t). */
  function BasicMemoryMb(info: BootInfo): nat
  {
    AddU32(info.memLower, info.memUpper) / 1024
  }

  predicate HasBasicMemory(info: BootInfo)
  {
    info.flags % 2 == 1
  }

  predicate HasMemoryMap(info: BootInfo)
  {
    (info.flags / 64) % 2 == 1
  }

  /** The summary for decoded boot information: 0 without the bit-0 fields;
      the mem_lower/mem_upper estimate without a (non-empty) memory map;
      otherwise the available bytes of the walked entries, summed in a
      uint64_t, in MiB, returned as a uint32_t. */
  function RamSummaryMb(info: BootInfo, entries: MemoryMap): (mb: nat)
    ensures mb < U32Limit
  {
    if !HasBasicMemory(info) then 0
    else if !HasMemoryMap(info) || info.mmapAddr == 0 || info.mmapLength == 0 then BasicMemoryMb(info)
    else ((AvailableBytes(entries, Walk(entries, 0, info.mmapLength)) % U64Limit) / BytesPerMb) % U32Limit
  }

  /** get_total_ram_mb: 0 for a null pointer, else the summary of the
      boot information and the memory map it points at. */
  function TotalRamMb(mem: Memory, mbi: nat): (mb: nat)
    ensures mb < U32Limit
  {
    if mbi == 0 then 0
    else RamSummaryMb(BootInfoAt(mem, mbi), MapAt(mem, BootInfoAt(mem, mbi).mmapAddr))
  }

  /** The three outcomes, spelled out: bit 0 is checked before bit 6, so a map
      without the basic fields still gives 0; with the map, the result is the
      available total in whole MiB whenever that fits the uint32_t result. */
  lemma RamSummaryCases(info: BootInfo, entries: MemoryMap)
    requires info.Wf()
    ensures !HasBasicMemory(info) ==> RamSummaryMb(info, entries) == 0
    ensures HasBasicMemory(info) && (!HasMemoryMap(info) || info.mmapAddr == 0 || info.mmapLength == 0) ==>
              RamSummaryMb(info, entries) == (info.memLower + info.memUpper) % U32Limit / 1024
    ensures HasBasicMemory(info) && HasMemoryMap(info) && info.mmapAddr != 0 && info.mmapLength != 0 ==>
              var total := AvailableBytes(entries, Walk(entries, 0, info.mmapLength));
              RamSummaryMb(info, entries) <= total / BytesPerMb
              && (total < U32Limit * BytesPerMb ==> RamSummaryMb(info, entries) == total / BytesPerMb)
  {
    if HasBasicMemory(info) && HasMemoryMap(info) && info.mmapAddr != 0 && info.mmapLength != 0 {
      var total := AvailableBytes(entries, Walk(entries, 0, info.mmapLength));
      assert total % U64Limit <= total;
      assert (total % U64Limit) / BytesPerMb <= total / BytesPerMb;
      if total < U32Limit * BytesPerMb {
        assert total / BytesPerMb < U32Limit;
      }
    }
  }

  lemma AddMod(a: nat, b: nat)
    ensures (a % U64Limit + b) % U64Limit == (a + b) % U64Limit
  {
  }

  /** One step of the memory-map loop on the sum: the entry at `offset`
      adds its available length to the uint64_t total. */
  lemma SumAvailableStep(entries: MemoryMap, visited: seq<nat>, offset: nat, total: nat)
    requires total == AvailableBytes(entries, visited) % U64Limit
    ensures (if entries(offset).kind == AvailableRam then (total + entries(offset).len) % U64Limit else total)
            == AvailableBytes(entries, visited + [offset]) % U64Limit
  {
    AvailableBytesAppend(entries, visited, offset);
    AddMod(AvailableBytes(entries, visited), AvailableLen(entries, offset));
  }

  /** One step of the memory-map loop on the walk: the entry at `offset`
      joins the visited ones, and the walk either ends there (size 0) or
      goes on from the next offset. */
  lemma WalkStep(entries: MemoryMap, visited: seq<nat>, offset: nat, length: nat)
    requires offset < length
    requires visited + Walk(entries, offset, length) == Walk(entries, 0, length)
    ensures entries(offset).size == 0 ==> visited + [offset] == Walk(entries, 0, length)
    ensures entries(offset).size != 0 ==>
              visited + [offset] + Walk(entries, offset + entries(offset).size + SizeFieldWidth, length)
              == Walk(entries, 0, length)
  {
    var rest := Walk(entries, offset, length)[1..];
    assert Walk(entries, offset, length) == [offset] + rest;
    assert visited + [offset] + rest == Walk(entries, 0, length);
  }

  /** The memory-map loop: the uint64_t sum of the available lengths of the
      walked entries. */
  method SumAvailable(entries: MemoryMap, length: nat) returns (total: nat)
    ensures total == AvailableBytes(entries, Walk(entries, 0, length)) % U64Limit
  {
    total := 0;
    var offset := 0;
    ghost var visited: seq<nat> := [];
    while offset < length
      invariant visited + Walk(entries, offset, length) == Walk(entries, 0, length)
      invariant total == AvailableBytes(entries, visited) % U64Limit
      decreases length - offset
    {
      var entry := entries(offset);
      SumAvailableStep(entries, visited, offset, total);
      WalkStep(entries, visited, offset, length);
      if entry.kind == AvailableRam {
        total := (total + entry.len) % U64Limit;
      }
      visited := visited + [offset];
      if entry.size == 0 {
        break;
      }
      offset := offset + entry.size + SizeFieldWidth;
    }
    if offset >= length {
      assert visited + Walk(entries, offset, length) == visited;
    }
    assert visited == Walk(entries, 0, length);
  }

  method GetTotalRamMb(mem: Memory, mbi: nat) returns (mb: nat)
    ensures mb == TotalRamMb(mem, mbi)
  {
    if mbi == 0 {
      return 0;
    }
    var info := BootInfoAt(mem, mbi);
    if info.flags % 2 == 0 {
      return 0;
    }
    if (info.flags / 64) % 2 == 1 {
      if info.mmapAddr == 0 || info.mmapLength == 0 {
        return AddU32(info.memLower, info.memUpper) / 1024;
      }
      var total := SumAvailable(MapAt(mem, info.mmapAddr), info.mmapLength);
      return (total / BytesPerMb) % U32Limit;
    } else {
      return AddU32(info.memLower, info.memUpper) / 1024;
    }
  }

  /** The offset step as written: `current_offset += entry->size + 4` in
      32-bit arithmetic, and the entry pointer moves by the same amount. */
  function NextOffsetAsWritten(offset: nat, size: nat): nat
  {
    (offset + (size + SizeFieldWidth) % U32Limit) % U32Limit
  }

  /** An entry claiming size 0xFFFFFFFC passes the size-0 guard, yet the step
      wraps to 0: offset and entry stay put and the loop never ends. */
  lemma NextOffsetAsWrittenStalls(offset: nat)
    requires offset < U32Limit
    ensures NextOffsetAsWritten(offset, U32Limit - SizeFieldWidth) == offset
  {
  }
}
