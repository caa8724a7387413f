# CinemintOS kernel core in Dafny

This project models the self-contained logic of the CinemintOS kernel, a small
32-bit x86 hobby kernel written in C++ that boots through Multiboot. The model
covers five parts:

- **ACPI table discovery and soft-off** (`src/acpi.cpp`, layouts in
  `src/include/acpi.h`). The model covers:
  - the RSDP scan of the EBDA and of the BIOS area;
  - root-table (XSDT or RSDT) selection and the table walk;
  - `acpi_init`, which writes the enable command and polls SCI_EN;
  - `acpi_power_off`, which writes SLP_TYP|SLP_EN to the PM1 control blocks.

  Physical memory is a total map from address to byte. Port writes are an
  appended trace. Every port read appends its port to a second trace, and
  its value comes from an oracle indexed by the port and by the number of
  reads before it.
- **The bump allocator** (`operator new[]`/`delete[]` in `src/memorys.cpp`):
  a class `Arena.Heap` holding the pool cursor.
- **The growable vector** (`src/include/vectors.h`): a class
  `Vectors.Vector<T>` whose buffer, size and capacity change in place. It
  allocates through `Arena.Heap`.
- **The Multiboot memory summary** (`get_total_ram_mb`, layouts in
  `src/include/memorys.h`). The walk follows section 3.3 of the Multiboot
  Specification 0.6.96.
- **The shell's text logic**:
  - `print_char`'s cursor and cell buffer, with `cls` and `scroll_screen` on
    the 80x25 VGA buffer (`src/screens.cpp`);
  - number formatting in `print_uint_base`/`print_int`;
  - the scancode tables;
  - the line editor of `input`, driven by a given sequence of scancodes;
  - the string helpers, `simple_str_to_long`, `calc` and command dispatch of
    `kernel_main` (`src/kernel.cpp`).

The code is imperative, so each loop of the source is a Dafny method with a
loop and invariants. Each method is proved against a specification function,
and the lemmas beside that function state what the code promises:
- the first accepted candidate of a scan;
- layout round trips;
- digits that read back to the number;
- backspace undoing a key;
- the calc parser reading back a printed expression.

Machine widths are written out where the code depends on them:
- 16-bit cursors and port numbers;
- the 32-bit `Length - 36`;
- the 64-bit RAM total;
- the 32-bit memory-map offset, only in the as-written step of the finding on
  `src/memorys.cpp:103`; the walk the model uses does not wrap.

A revision 2 or later RSDP candidate whose extended checksum fails is skipped
and the scan continues; there is no fallback to its version 1 fields
(`src/acpi.cpp:48-60`).

Files: `bytes.dfy` (bytes, little-endian, byte sums), `acpi_layout.dfy`,
`acpi.dfy`, `arena.dfy`, `vectors.dfy`, `multiboot.dfy`, `screens.dfy`,
`io.dfy`, `kernel.dfy`.

## Model

| member | source | states |
|---|---|---|
| Bytes.SumUpdate | src/acpi.cpp:24-31 | changing one byte changes the byte sum by exactly the difference |
| Bytes.SingleByteChangeBreaksChecksum | src/acpi.cpp:24-31 | a table whose bytes sum to 0 mod 256 no longer does after any single byte changes |
| Bytes.DecodeEncodeLittleEndian | src/include/acpi.h:14-20 | reading back an n-byte little-endian encoding of v < 256^n gives v |
| Bytes.EncodeDecodeLittleEndian | src/include/acpi.h:14-20 | every byte string is below 256^length as a little-endian number, and re-encoding it gives the same bytes |
| Bytes.U16 | src/acpi.cpp:36 | the word read at an address is below 2^16 (the EBDA segment read) |
| Bytes.U32 | src/include/acpi.h:19 | a 32-bit field read from memory is below 2^32 |
| Bytes.U64 | src/include/acpi.h:26 | a 64-bit field read from memory is below 2^64 |
| AcpiLayout.DecodeEncodeRsdp | src/include/acpi.h:14-20 | decoding the 20 encoded bytes of an RSDP descriptor gives back every field |
| AcpiLayout.EncodeDecodeRsdp | src/include/acpi.h:14-20 | re-encoding any decoded 20-byte RSDP gives the same bytes, so the layout covers every byte |
| AcpiLayout.DecodeEncodeRsdp20 | src/include/acpi.h:23-29 | decoding the 36 encoded bytes of an RSDP 2.0 descriptor (Length, XsdtAddress, ExtendedChecksum) gives back every field |
| AcpiLayout.EncodeDecodeRsdp20 | src/include/acpi.h:23-29 | re-encoding any decoded 36-byte RSDP 2.0 gives the same bytes, so the layout covers every byte |
| AcpiLayout.Rsdp20ExtendsRsdp | src/include/acpi.h:23-24 | the first 20 bytes of an RSDP 2.0 decode exactly as a version 1 RSDP |
| AcpiLayout.DecodeEncodeSdtHeader | src/include/acpi.h:32-42 | decoding the 36 encoded bytes of an SDT header gives back every field |
| AcpiLayout.EncodeDecodeSdtHeader | src/include/acpi.h:32-42 | re-encoding any decoded 36-byte SDT header gives the same bytes, so the layout covers every byte |
| AcpiLayout.DecodeEncodeFadt | src/include/acpi.h:45-63 | decoding the encoded FADT prefix gives back the header and every port field at its offset |
| AcpiLayout.EncodedFadtFields | src/include/acpi.h:45-63 | the FADT fields sit at their offsets: SCI_Interrupt at 46, SMI_CommandPort at 48, AcpiEnable at 52, PM1a/PM1b event blocks at 56/60, PM1a/PM1b control blocks at 64/68 |
| AcpiLayout.SoftOffValue | src/include/acpi.h:136-138 | SLP_TYP_S5 \| SLP_EN is 0x3400: SLP_TYP = 5 in bits 10-12, SLP_EN in bit 13, no other bit set |
| Acpi.CompareZeroIffEqual | src/acpi.cpp:11-19 | memcmp_custom returns 0 exactly when the byte strings are equal |
| Acpi.CompareAntisymmetric | src/acpi.cpp:11-19 | swapping the arguments of memcmp_custom negates the result |
| Acpi.MemCmp | src/acpi.cpp:11-19 | the byte loop returns the first-difference comparison (-1, 0 or 1) of memory against the literal |
| Acpi.ByteSum | src/acpi.cpp:43-46 | the summing loop returns the byte sum of n bytes mod 256 |
| Acpi.ValidateSdtChecksum | src/acpi.cpp:24-31 | true exactly when the table address is non-null and its first Length bytes sum to 0 mod 256 |
| Acpi.CheckRsdpCandidate | src/acpi.cpp:41-65 | a candidate is accepted exactly when it has the "RSD PTR " signature and a good 20-byte sum, and either its revision is below 2 or its Length is at least 36 and all Length bytes sum to 0 mod 256 |
| Acpi.ScanFromFindsFirst | src/acpi.cpp:72-98 | the 16-byte-step scan returns an accepted candidate in the window with no accepted candidate before it, or reports that none exists |
| Acpi.LocateRsdpFindsFirst | src/acpi.cpp:33-102 | find_rsdp returns the first accepted candidate of the EBDA window (searched only when the segment at 0x40E is non-zero) and then of 0xE0000..0xFFFFF, or none when neither has one |
| Acpi.FindRsdp | src/acpi.cpp:33-102 | the two scanning loops compute exactly the specified first accepted candidate |
| Acpi.FirstTableFromFindsFirst | src/acpi.cpp:150-186 | the entry walk returns the first entry whose table has the signature and a valid checksum; non-matching, null and bad-checksum entries are skipped |
| Acpi.FindSdtFindsFirst | src/acpi.cpp:104-196 | the XSDT (width 8) is used iff revision >= 2 and XsdtAddress != 0, else the RSDT (width 4); the result exists iff the root table is valid and some entry matches, and it is then the first such entry |
| Acpi.FindSdtFromRsdp | src/acpi.cpp:104-196 | the method returns exactly FindSdt, including null for a bad XSDT with no RSDT fallback |
| Acpi.ScanEntries | src/acpi.cpp:150-186 | the loop over the entries returns the first matching, checksum-valid entry among the first `entries` |
| Acpi.FirstSetPollIsFirst | src/acpi.cpp:231-239 | the poll of a port stops at the first read with bit 0 set, and every earlier read of that port had bit 0 clear |
| Acpi.AcpiController.ReadWord | src/acpi.cpp:232 | an inw of a port returns the oracle's value for that port at the current read number and records the port as the next read |
| Acpi.AcpiController.Enable | src/acpi.cpp:226-250 | exactly one write of AcpiEnable to SMI_CommandPort; then every read is of the PM1a event block (not the control block): the poll's reads up to the first with bit 0 set, at most 500000, plus one diagnostic read after a timeout; ACPI counts as enabled iff a poll read has bit 0 set |
| Acpi.AcpiController.PollSciEnabled | src/acpi.cpp:228-239 | the poll loop reads only the given port, reports success iff a read with bit 0 set occurs within 500000 reads, and makes exactly the reads up to and including that one |
| Acpi.AcpiController.Init | src/acpi.cpp:198-258 | a missing RSDP, a missing FADT and a FADT without SMI_CommandPort/AcpiEnable/PM1aEventBlock each stop with no port write or read; otherwise g_fadt is set, the enable write happens, and every read (poll and timeout diagnostic) is of PM1aEventBlock |
| Acpi.AcpiController.PowerOff | src/acpi.cpp:260-306 | with no FADT or a zero PM1aControlBlock, no write and a return; otherwise one SCI_EN read of PM1aEventBlock when that field is non-zero, interrupts off, 0x3400 written to PM1a (then PM1b when it is non-zero and different), and a halt |
| Acpi.SoftOffWritesShape | src/acpi.cpp:288-298 | the soft-off trace is one or two OutW of 0x3400, the first to PM1a, and has two writes iff PM1b is non-zero and differs from PM1a |
| Arena.AlignUp | src/memorys.cpp:17-21 | the cursor rounded up to the next multiple of 16, unchanged when already aligned |
| Arena.BumpMeaning | src/memorys.cpp:14-31 | a request succeeds iff aligned cursor + size <= 1 MiB; on success the block is 16-aligned at the aligned cursor and the cursor moves past it; on failure only the alignment padding persists |
| Arena.BumpAllDisjoint | src/memorys.cpp:14-31 | successive successful allocations lie inside the pool, in increasing order, without overlap |
| Arena.BumpAsWrittenWraps | src/memorys.cpp:23 | with a 32-bit size_t the guard `pool_index + size > MEMORY_POOL_SIZE` lets size 2^32-8 at cursor 16 through and wraps the cursor |
| Arena.Heap.constructor | src/memorys.cpp:9 | the pool cursor starts at 0 |
| Arena.Heap.Allocate | src/memorys.cpp:14-31 | operator new[] updates the cursor and returns the block exactly as the bump rule says |
| Arena.Heap.Free | src/memorys.cpp:33-37 | operator delete[] changes nothing |
| Vectors.GrowCapacity | src/include/vectors.h:74 | the grown capacity is 10 from 0 and doubles otherwise |
| Vectors.PushBackAsWrittenOverruns | src/include/vectors.h:76-96 | as written, a full non-empty vector whose growth fails constructs the element at index cap, past the buffer |
| Vectors.PushBackSlotInBounds | src/include/vectors.h:72-98 | with the corrected OOM exit, the slot written is always the old size and below the capacity, and the push is refused exactly when the vector is full and could not grow |
| Vectors.Vector.constructor | src/include/vectors.h:54-57 | the default vector has no buffer, size 0 and capacity 0 |
| Vectors.Vector.WithCapacity | src/include/vectors.h:60-62 | vector(n) is empty and has capacity n when the allocation succeeds, 0 otherwise |
| Vectors.Vector.AllocateRaw | src/include/vectors.h:39-43 | zero elements allocate nothing; otherwise the heap is asked for sizeof(T)*n bytes and a buffer of n slots or null comes back |
| Vectors.Vector.Reserve | src/include/vectors.h:217-241 | no-op when n <= cap; otherwise capacity becomes exactly n with the elements kept in order, and on allocation failure nothing but the heap's padding changes |
| Vectors.Vector.PushBack | src/include/vectors.h:72-98 | with room, the value is appended and capacity is unchanged; when full, capacity grows to 10 or 2*cap and the value is appended, or, when growth fails, the vector is unchanged |
| Vectors.Vector.PopBack | src/include/vectors.h:121-126 | removes the last element when non-empty, does nothing when empty, and keeps the capacity |
| Vectors.Vector.Size | src/include/vectors.h:129-131 | the number of elements |
| Vectors.Vector.Capacity | src/include/vectors.h:134-136 | the capacity is at least the size, and is 0 exactly when there is no buffer |
| Vectors.Vector.Empty | src/include/vectors.h:138-140 | true exactly when there are no elements |
| Vectors.Vector.Get | src/include/vectors.h:143-153 | operator[] returns the i-th element |
| Vectors.Vector.Clear | src/include/vectors.h:211-214 | leaves no elements and keeps the capacity |
| Vectors.Vector.Resize | src/include/vectors.h:248-269 | shrinking drops the tail; growing appends copies of the value, after reserving when needed; a failed reserve leaves the elements unchanged |
| Vectors.Vector.FillTail | src/include/vectors.h:262-264 | the placement-new loop fills slots [size, n) with the value and keeps the elements before them |
| Vectors.Vector.Copy | src/include/vectors.h:156-171 | the copy has its own fresh buffer with the same capacity and elements; when other.cap is 0 or allocation fails it is empty with capacity 0 |
| Vectors.Vector.Move | src/include/vectors.h:186-191 | the new vector takes the source's buffer, size and capacity; the source is left null/0/0 |
| Vectors.Vector.MoveAssign | src/include/vectors.h:194-208 | except for self-assignment, the target takes the source's buffer, size and capacity, and the source becomes null/0/0 |
| Vectors.Vector.CopyAssign | src/include/vectors.h:174-183 | except for self-assignment, the target becomes a fresh copy of the source, or empty with capacity 0 when the source has none or allocation fails |
| Vectors.Swap | src/include/vectors.h:272-285 | the two vectors exchange buffer, size and capacity |
| Multiboot.DecodeEncodeBootInfo | src/include/memorys.h:31-42 | decoding the encoded multiboot_info prefix gives back flags, mem_lower, mem_upper, mmap_length (offset 44) and mmap_addr (offset 48) |
| Multiboot.DecodeEncodeMmapEntry | src/include/memorys.h:77-83 | decoding an encoded 24-byte mmap_entry gives back size, addr, len and type |
| Multiboot.EncodeDecodeMmapEntry | src/include/memorys.h:77-83 | re-encoding any decoded 24-byte entry gives the same bytes: size at 0, addr at 4, len at 12, type at 20 |
| Multiboot.WalkShape | src/memorys.cpp:86-113 | the walk starts at offset 0, stays below mmap_length, steps by size + 4, and stops after an entry of size 0 (which is still visited) or when the next offset reaches mmap_length |
| Multiboot.AvailableBytesBounds | src/memorys.cpp:88-90 | each type 1 entry's len is counted in the total, and the total is 0 when no visited entry is available RAM |
| Multiboot.RamSummaryCases | src/memorys.cpp:63-119 | 0 when flags bit 0 is clear; (mem_lower + mem_upper)/1024 when bit 6 is clear or mmap_addr/mmap_length is 0; otherwise the available bytes of the walk divided by 2^20 |
| Multiboot.RamSummaryMb | src/memorys.cpp:63 | the summary fits the uint32_t return type |
| Multiboot.SumAvailable | src/memorys.cpp:85-113 | the loop sums the len of every visited type 1 entry, in the 64-bit total |
| Multiboot.GetTotalRamMb | src/memorys.cpp:63-119 | get_total_ram_mb returns the specified summary |
| Multiboot.NextOffsetAsWrittenStalls | src/memorys.cpp:103 | as written, an entry of size 0xFFFFFFFC makes the 32-bit offset step wrap back to the same offset |
| Screens.ScrolledCells | src/screens.cpp:22-40 | after scrolling, row y holds the old row y+1 for y in 0..23, row 24 is blank (0x0720) and cells past the screen are kept |
| Screens.ScrollScreen | src/screens.cpp:22-40 | the in-place ascending row copy followed by blanking the last row produces exactly the scrolled buffer |
| Screens.CopyRowUp | src/screens.cpp:28-30 | the inner loop copies row y+1 into row y and touches nothing else |
| Screens.BlankLastRow | src/screens.cpp:33-36 | row 24 becomes blank and nothing else changes |
| Screens.Screen.constructor | src/screens.cpp:5-7 | the cursor starts at (0,0) |
| Screens.Screen.Cls | src/screens.cpp:11-20 | every one of the 2000 cells is 0x0720, the cursor is (0,0), and cells past the screen are kept |
| Io.PutChar | src/io.cpp:19-68 | after any character the cursor is on the screen (x < 80, y < 25) and the buffer keeps its size |
| Io.NewlineMovesDown | src/io.cpp:20-22 | '\n' moves the cursor to column 0 of the next row, scrolling when it was on the last row |
| Io.TabToNextStop | src/io.cpp:23-28 | '\t' moves the cursor to the next multiple of 4 (wrapping to the next row at the right edge) |
| Io.SpacesAdvance | src/io.cpp:24-27 | k spaces that fit on the row move the cursor k columns right |
| Io.GlyphWritten | src/io.cpp:49-61 | another character writes (color << 8) \| c at the cursor cell and advances (unless in place), wrapping at column 80 and scrolling past row 24 |
| Io.PrintChar | src/io.cpp:19-68 | the method changes the screen's cells and cursor exactly as PutChar says |
| Io.PutStringAppend | src/io.cpp:70-74 | printing a + b is printing a then b |
| Io.PrintString | src/io.cpp:70-74 | print_string prints the characters before the first NUL, one print_char each |
| Io.CStringIsPrefixBeforeNul | src/io.cpp:71 | the printed C string is the prefix before the first NUL |
| Io.DigitsRoundTrip | src/io.cpp:92-99 | reading the digits of n back in its base gives n |
| Io.DigitsNoLeadingZero | src/io.cpp:92-99 | the digits of a positive number do not start with '0' |
| Io.DigitsAtMost | src/io.cpp:83 | a number below 2^k has at most k digits in any base from 2 to 16 |
| Io.DigitsAtLeast | src/io.cpp:83 | a number of at least base^k has more than k digits |
| Io.LowDigitsFirstReversed | src/io.cpp:95-98 | the loop emits the digits least significant first, the reverse of the printed order |
| Io.BufferOverflowAsWritten | src/io.cpp:83 | as written, base 2 with the prefix for n >= 2^62 needs more than the 65 chars of buffer |
| Io.BufferSuffices | src/io.cpp:82-117 | the corrected 67-char buffer holds every 64-bit number in every base with prefix and NUL |
| Io.UintText | src/io.cpp:92-104 | the printed text contains no NUL |
| Io.ConvertDigits | src/io.cpp:92-99 | the digit loop fills the buffer with the low-first digits and returns their count |
| Io.ReverseInPlace | src/io.cpp:108-115 | the swap loop reverses the first i chars in place and keeps the rest |
| Io.WriteReversedPrefix | src/io.cpp:101-104 | the prefix is appended as "x0" or "b0" for bases 16 and 2 with print_prefix, and nothing otherwise |
| Io.FormatUint | src/io.cpp:92-115 | the buffer ends up holding the optional "0x"/"0b" prefix then the most-significant-first digits |
| Io.PrintUintBase | src/io.cpp:82-117 | "[Invalid Base]" in light red iff base is outside 2..16, otherwise the prefix and digits of n |
| Io.IntText | src/io.cpp:119-134 | print_int's text contains no NUL |
| Io.LLongMinText | src/io.cpp:125-128 | the special LLONG_MIN text is exactly the decimal digits of 2^63 |
| Io.PrintInt | src/io.cpp:119-134 | prints "0" for 0, '-' then the magnitude for negatives (including LLONG_MIN), and the digits for positives |
| Io.PrintHex | src/io.cpp:136-138 | prints "0x" then the hex digits |
| Io.PrintHex32 | src/io.cpp:140-142 | prints "0x" then the hex digits of the 32-bit value |
| Io.KeyTable | src/consts.cpp:11-35 | for every scancode below KEY_LIMIT the two table entries are ASCII; shift never changes whether a key types; it maps exactly a..z to A..Z; only ENTER gives '\n' and only BACKSPACE gives 0x0E |
| Io.ScancodeToAscii | src/io.cpp:146-153 | 0 for scancodes >= 59, else the shifted or normal table entry |
| Io.ShiftKeepsPrintable | src/io.cpp:146-153 | a key types a character with shift iff it does without |
| Io.ShiftCapitalizes | src/io.cpp:146-153 | with shift, a lowercase letter key gives its capital |
| Io.SpecialKeysUnique | src/io.cpp:146-153 | only scancode 0x1C maps to '\n', only 0x0E to the backspace character |
| Io.Edit | src/io.cpp:206-257 | one key adds at most one character to the line |
| Io.BackspaceUndoesKey | src/io.cpp:211-213 | a key that types a character adds exactly one, and BACKSPACE then restores the line and shift state |
| Io.ReleasesIgnored | src/io.cpp:244-246 | a release code (bit 7 set) other than a shift release changes nothing |
| Io.EditKeepsClean | src/io.cpp:244-257 | the line never holds NUL, '\n' or the backspace character |
| Io.FirstEnter | src/io.cpp:203-204 | the index of the first ENTER, with no ENTER before it |
| Io.RunInvariant | src/io.cpp:183-259 | over the keys before ENTER the line stays clean and within the vector's capacity, and the capacity and heap cursor never decrease |
| Io.RunWithinCapacity | src/io.cpp:252 | when the capacity suffices, the storage is untouched and the line is the keys' edit |
| Io.TypedLength | src/io.cpp:183-259 | the line is never longer than the number of keys |
| Io.ApplyKey | src/io.cpp:206-257 | one key changes the vector, shift flags and heap exactly as Step says, growing through the corrected push_back (see "## Left out") |
| Io.InputKey | src/io.cpp:183-258 | one iteration of the input loop extends the run by one key |
| Io.Input | src/io.cpp:172-259 | input clears the vector, stops at the first ENTER without storing it, and leaves the vector holding the edit of the keys before it |
| Kernel.LiteralLength | src/kernel.cpp:13-16 | the strlen loop returns the literal's length |
| Kernel.StrEq | src/kernel.cpp:12-26 | true iff the vector's characters equal the C string |
| Kernel.StrStarts | src/kernel.cpp:28-42 | true iff the C string is a prefix of the vector |
| Kernel.ArgText | src/kernel.cpp:44-58 | nothing when start >= size, else vec[start..start + min(size - start, 255)) |
| Kernel.CopiedArgument | src/kernel.cpp:50-58 | the NUL-terminated buffer copy prints as the argument text |
| Kernel.CopyRange | src/kernel.cpp:49-58 | the copy loop puts vec[start..start+count) then NUL into a fresh 256-char buffer |
| Kernel.PrintVectorCharRange | src/kernel.cpp:44-60 | prints the argument text up to its first NUL |
| Kernel.Echo | src/kernel.cpp:155-161 | "echo " prints the text from index 5 then a newline |
| Kernel.EchoAloneIsNewline | src/kernel.cpp:159-160 | "echo " with nothing after it prints only a newline |
| Kernel.SkippedAreSpaces | src/kernel.cpp:69-71 | everything skipped is a space, and the stop is at a non-space or the end |
| Kernel.ParseLongCharacterized | src/kernel.cpp:63-101 | wherever the maximal run of spaces from the start index ends, one optional sign follows and then a maximal digit run: the value is that run's decimal value (0 when empty), negated after '-', and parsing stops at the run's end |
| Kernel.ParseLongConsumes | src/kernel.cpp:63-101 | only spaces, signs and digits are consumed, and the value is 0 when no digit was read |
| Kernel.SimpleStrToLong | src/kernel.cpp:63-101 | simple_str_to_long returns the parsed value and advances the index exactly past what it read |
| Kernel.AccumulateDigits | src/kernel.cpp:85-89 | the digit loop returns the decimal value of the maximal digit run and stops at its end |
| Kernel.ParseLongReadsIntText | src/kernel.cpp:63-101 | parsing the text print_int prints for n gives back n and stops right after it |
| Kernel.TruncDivRemainder | src/kernel.cpp:215 | the C++ quotient leaves a remainder smaller than the divisor with the sign of the dividend |
| Kernel.TruncDivQuotient | src/kernel.cpp:215 | the truncated quotient never exceeds the dividend in magnitude |
| Kernel.Apply | src/kernel.cpp:205-225 | a value comes out exactly for + - * and for / with a non-zero divisor; other operators and division by zero are errors |
| Kernel.Calc | src/kernel.cpp:162-235 | the calc branch computes exactly CalcSpec of the line: first number from index 5, operator as the next non-space, second number starting with a digit or sign, then evaluation |
| Kernel.UsageIffMissingOperator | src/kernel.cpp:231-233 | the usage line (printed on an error that leaves `op` at 0) appears, for a line without NUL, exactly when no operator follows the first number |
| Kernel.CalcNoOperator | src/kernel.cpp:179-184 | when only spaces follow the first number, calc reports a missing operator |
| Kernel.CalcNoSecondNumber | src/kernel.cpp:192-201 | when nothing, or no digit or sign, follows the operator, calc reports a missing second number |
| Kernel.CalcEvaluatesPrintedOperands | src/kernel.cpp:162-225 | "calc a op b" written with print_int's texts evaluates to op applied to a and b |
| Kernel.ParseCalcReadsPrinted | src/kernel.cpp:163-201 | calc's parser reads back both operands and the operator of a printed expression |
| Kernel.ClassifyCases | src/kernel.cpp:142-244 | each command is chosen by exactly its own test after the earlier ones fail: empty, "help", "cls", "echo " prefix, "calc " prefix, "shutdown", else unknown |
| Kernel.Dispatch | src/kernel.cpp:142-244 | the chain of streq/strstarts tests yields exactly the classification of the line |

## Left out

- Inline-asm port primitives, `cli`/`hlt` and the `volatile` delay loop: ports are a write trace plus a read oracle, interrupts are a flag, and the halt is the `Halted` outcome.
- Raw pointer casts: memory is a total map from address to byte, so a null table address is the address 0 and every address reads some byte.
- 64-bit XSDT entries and XsdtAddress: the full value is used as the address; the truncation to a 32-bit `uintptr_t` is not modelled.
- The diagnostic `print_string`/`print_int`/`print_hex32` calls inside acpi.cpp and kernel.cpp: they are screen output; only the `inw` read inside the timeout message is kept, because it advances the port-read sequence.
- The help text and the other message strings of `kernel_main`; the boot banner and the multiboot printout; the infinite REPL loop. Dispatch and calc are modelled per line.
- `scankey` hardware polling: `input` takes the scancodes as a sequence.
- The screen side of `input`: the temporary '_' cursor, its erasing and the backspace cursor moves are console rendering and are not modelled.
- Kernel.SimpleStrToLong: `long long` overflow in the digit accumulation is not modelled; numbers are unbounded.
- Kernel.Apply: `long long` overflow of + - * and LLONG_MIN / -1 are not modelled; results are unbounded.
- Vectors.Vector.Reserve: `sizeof(T) * n` is computed without 32-bit `size_t` wrap-around.
- Multiboot.GetTotalRamMb: the walk is the corrected, non-wrapping one; the 32-bit wrap of the offset is the finding on src/memorys.cpp:103.
- Io.Input: uses the corrected push_back, so a character is dropped when growth fails; on heap exhaustion the source's push_back writes past the buffer instead (the finding on src/include/vectors.h:76-96).
- Arena.Heap.Allocate: the corrected rule compares `aligned + size` without 32-bit wrap; the as-written wrap is the finding below.
- Multiboot.RamSummaryCases: `mem_lower + mem_upper` wraps at 2^32 as in the code; the mmap total is only bounded by total/2^20 when it exceeds the uint32_t result, where the return value truncates.
- Sign extension of a negative `char` in the cell write (src/io.cpp:52): printing is modelled for ASCII characters only.
- Vectors.Vector.Resize: the one-argument `resize(n)` (default `T()`) is the same operation with a default value and is not modelled separately.
- The move overload of `push_back` (src/include/vectors.h:101-117) behaves like the copy overload for a value type and is not modelled separately.
- Placement new and destructors: `T` is a value type whose destructor does nothing.
- Vectors.Vector.Get: operator[] is given the precondition i < size; the code does no bounds check.
- The scalar `operator new`/`operator delete` in src/memorys.cpp:41-58 are commented out in the source.
- `acpi_reboot` and `acpi_keyboard_reboot` are declared but defined in no file of this model.
- src/consts.cpp and src/include/consts.h hold only constants: the scancode tables, KEY_LIMIT and the key codes, the colours and the screen size are transcribed in `io.dfy` and `screens.dfy`.

## Findings

| source | as written | input that shows it | evidently intended | confidence | as-written member | corrected member |
|---|---|---|---|---|---|---|
| src/include/vectors.h:76-96 | when growth fails on a full non-empty vector, the OOM test needs `arr == nullptr`, so execution falls through and constructs at `arr[cap]` | `push_back` on a vector with size = cap = 10 when the heap has less than 20*sizeof(T) bytes left | return without writing when growth fails | not executed | Vectors.PushBackAsWrittenOverruns | Vectors.PushBackSlotInBounds |
| src/io.cpp:83 | `char buffer[65]` holds 64 digits, 2 prefix chars and the NUL only when the digits are at most 62 | `print_uint_base(1ULL << 63, 2, color, true)` writes 67 chars | a buffer of 67 chars | not executed | Io.BufferOverflowAsWritten | Io.BufferSuffices |
| src/memorys.cpp:23 | `pool_index + size` is computed in 32-bit `size_t` and can wrap past the guard | `new char[0xFFFFFFF8]` with pool_index 16 returns a block and sets pool_index to 8 | refuse any request that does not fit in the 1 MiB pool | not executed | Arena.BumpAsWrittenWraps | Arena.BumpMeaning |
| src/memorys.cpp:103 | `current_offset += entry->size + 4` wraps in 32 bits, so an entry of size 0xFFFFFFFC sends the offset (and the entry pointer) back to the same entry forever | an mmap entry whose size field is 0xFFFFFFFC | the walk always advances and ends | not executed | Multiboot.NextOffsetAsWrittenStalls | Multiboot.WalkShape |
