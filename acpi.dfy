/** ACPI table discovery, ACPI-mode enable and S5 soft-off (src/acpi.cpp).
    Physical memory is a total map from address to byte; port I/O is an
    appended trace of writes, an appended trace of the ports read, and a
    read oracle indexed by the port and by how many port reads happened
    before. */
module Acpi {
  import opened Bytes
  import opened AcpiLayout

  /** The BDA word holding the EBDA segment. */
  const EbdaSegmentAddress := 0x40E
  /** Bytes of the EBDA searched for the RSDP. */
  const EbdaWindow := 1024
  /** The main BIOS area searched next: [BiosAreaStart, BiosAreaEnd). */
  const BiosAreaStart := 0xE0000
  const BiosAreaEnd := 0xFFFFF
  /** Candidates sit on 16-byte boundaries. */
  const ScanStep := 16
  /** MAX_TIMEOUT_ITERATIONS of the ACPI-enable poll. */
  const MaxPollIterations := 500000

  // ---------------------------------------------------------------------
  // memcmp_custom

  /** Three-way comparison of equal-length byte strings, first difference decides. */
  function Compare(a: seq<Byte>, b: seq<Byte>): (r: int)
    requires |a| == |b|
    ensures -1 <= r <= 1
  {
    if a == [] then 0
    else if a[0] < b[0] then -1
    else if a[0] > b[0] then 1
    else Compare(a[1..], b[1..])
  }

  lemma {:induction false} CompareZeroIffEqual(a: seq<Byte>, b: seq<Byte>)
    requires |a| == |b|
    ensures Compare(a, b) == 0 <==> a == b
  {
    if a != [] {
      CompareZeroIffEqual(a[1..], b[1..]);
      if a[0] == b[0] && a[1..] == b[1..] {
        assert a == [a[0]] + a[1..] && b == [b[0]] + b[1..];
      }
    }
  }

  lemma {:induction false} CompareAntisymmetric(a: seq<Byte>, b: seq<Byte>)
    requires |a| == |b|
    ensures Compare(a, b) == -Compare(b, a)
  {
    if a != [] {
      CompareAntisymmetric(a[1..], b[1..]);
    }
  }

  method MemCmp(mem: Memory, addr: nat, lit: seq<Byte>) returns (r: int)
    ensures r == Compare(Read(mem, addr, |lit|), lit)
  {
    ghost var a := Read(mem, addr, |lit|);
    var i := 0;
    while i < |lit|
      invariant 0 <= i <= |lit|
      invariant Compare(a, lit) == Compare(a[i..], lit[i..])
    {
      assert a[i..][1..] == a[i + 1..] && lit[i..][1..] == lit[i + 1..];
      if mem(addr + i) < lit[i] {
        return -1;
      }
      if mem(addr + i) > lit[i] {
        return 1;
      }
      i := i + 1;
    }
    return 0;
  }

  // ---------------------------------------------------------------------
  // Byte-sum checksums

  /** The `unsigned char sum` loops: the running sum wraps modulo 256. */
  method ByteSum(mem: Memory, addr: nat, n: nat) returns (sum: Byte)
    ensures sum == Sum(Read(mem, addr, n)) % 256
  {
    sum := 0;
    var i := 0;
    while i < n
      invariant i <= n
      invariant sum == Sum(Read(mem, addr, i)) % 256
    {
      ReadNext(mem, addr, i);
      SumAppend(Read(mem, addr, i), mem(addr + i));
      sum := (sum + mem(addr + i)) % 256;
      i := i + 1;
    }
  }

  function SdtHeaderAt(mem: Memory, t: nat): SdtHeader
  {
    DecodeSdtHeader(Read(mem, t, SdtHeaderSize))
  }

  /** A table is valid iff it is not null and the first Length bytes sum to 0 mod 256. */
  predicate SdtChecksumValid(mem: Memory, t: nat)
  {
    t != 0 && ChecksumOk(Read(mem, t, SdtHeaderAt(mem, t).length))
  }

  method ValidateSdtChecksum(mem: Memory, table: nat) returns (ok: bool)
    ensures ok <==> table != 0 && Sum(Read(mem, table, SdtHeaderAt(mem, table).length)) % 256 == 0
  {
    if table == 0 {
      return false;
    }
    var sum := ByteSum(mem, table, SdtHeaderAt(mem, table).length);
    return sum == 0;
  }

  // ---------------------------------------------------------------------
  // find_rsdp

  function RsdpAt(mem: Memory, a: nat): RsdpDescriptor
  {
    DecodeRsdp(Read(mem, a, RsdpV1Size))
  }

  function Rsdp20At(mem: Memory, a: nat): RsdpDescriptor20
  {
    DecodeRsdp20(Read(mem, a, RsdpV2Size))
  }

  /** A candidate address is accepted iff it carries the signature and its
      20-byte checksum holds, and, when its revision says ACPI 2.0+, its
      declared length is at least 36 and the extended checksum over that
      length holds as well. A 2.0+ candidate failing the second test is
      rejected outright; there is no fall-back to its 1.0 part. */
  predicate RsdpAccepted(mem: Memory, a: nat)
  {
    && Read(mem, a, 8) == RsdpSignature
    && ChecksumOk(Read(mem, a, RsdpV1Size))
    && (IsAcpi2(RsdpAt(mem, a).revision) ==>
          var len := Rsdp20At(mem, a).length;
          len >= RsdpV2Size && ChecksumOk(Read(mem, a, len)))
  }

  method CheckRsdpCandidate(mem: Memory, a: nat) returns (ok: bool)
    ensures ok == RsdpAccepted(mem, a)
  {
    var cmp := MemCmp(mem, a, RsdpSignature);
    CompareZeroIffEqual(Read(mem, a, 8), RsdpSignature);
    if cmp != 0 {
      return false;
    }
    var sum := ByteSum(mem, a, RsdpV1Size);
    if sum != 0 {
      return false;
    }
    var rsdp := RsdpAt(mem, a);
    if rsdp.revision >= 2 && rsdp.revision != 0 {
      var rsdp20 := Rsdp20At(mem, a);
      if rsdp20.length >= RsdpV2Size {
        sum := ByteSum(mem, a, rsdp20.length);
        if sum == 0 {
          return true;
        }
      }
      return false;
    }
    return true;
  }

  /** q is one of the 16-byte-aligned candidates of the window [p, end). */
  predicate Candidate(q: nat, p: nat, end: nat)
  {
    p <= q < end && (q - p) % ScanStep == 0
  }

  /** The first accepted candidate of [p, end), scanning upwards. */
  function ScanFrom(mem: Memory, p: nat, end: nat): Option<nat>
    decreases end - p
  {
    if p >= end then None
    else if RsdpAccepted(mem, p) then Some(p)
    else ScanFrom(mem, p + ScanStep, end)
  }

  lemma {:induction false} ScanFromFindsFirst(mem: Memory, p: nat, end: nat)
    ensures ScanFrom(mem, p, end).Some? ==>
              var a := ScanFrom(mem, p, end).value;
              Candidate(a, p, end) && RsdpAccepted(mem, a)
              && forall q :: Candidate(q, p, a) ==> !RsdpAccepted(mem, q)
    ensures ScanFrom(mem, p, end).None? ==>
              forall q :: Candidate(q, p, end) ==> !RsdpAccepted(mem, q)
    decreases end - p
  {
    if p < end && !RsdpAccepted(mem, p) {
      var rest := ScanFrom(mem, p + ScanStep, end);
      ScanFromFindsFirst(mem, p + ScanStep, end);
      var bound := if rest.Some? then rest.value else end;
      forall q | Candidate(q, p, bound)
        ensures !RsdpAccepted(mem, q)
      {
        if q != p {
          CandidateNext(q, p, bound);
        }
      }
      if rest.Some? {
        CandidateNext(rest.value, p, end);
      }
    }
  }

  /** The candidates after p are those of the window that starts one step on. */
  lemma CandidateNext(q: nat, p: nat, end: nat)
    ensures Candidate(q, p + ScanStep, end) <==> Candidate(q, p, end) && q != p
  {
    if q >= p + ScanStep {
      assert (q - p) % ScanStep == (q - (p + ScanStep)) % ScanStep;
    }
  }

  function EbdaBase(mem: Memory): nat
  {
    U16(mem, EbdaSegmentAddress) * 16
  }

  /** The search order of find_rsdp: the first KiB of the EBDA, only when the
      segment word is non-zero, then the BIOS area. */
  function LocateRsdp(mem: Memory): Option<nat>
  {
    var inEbda := if U16(mem, EbdaSegmentAddress) != 0
                  then ScanFrom(mem, EbdaBase(mem), EbdaBase(mem) + EbdaWindow)
                  else None;
    if inEbda.Some? then inEbda else ScanFrom(mem, BiosAreaStart, BiosAreaEnd)
  }

  /** find_rsdp returns the first accepted candidate in search order, and
      null only when no candidate of either window is accepted. */
  lemma LocateRsdpFindsFirst(mem: Memory)
    ensures var seg := U16(mem, EbdaSegmentAddress);
            var base := EbdaBase(mem);
            match LocateRsdp(mem)
            case Some(a) =>
              RsdpAccepted(mem, a)
              && ((seg != 0 && Candidate(a, base, base + EbdaWindow)
                   && forall q :: Candidate(q, base, a) ==> !RsdpAccepted(mem, q))
                  || (Candidate(a, BiosAreaStart, BiosAreaEnd)
                      && (seg != 0 ==> forall q :: Candidate(q, base, base + EbdaWindow) ==> !RsdpAccepted(mem, q))
                      && forall q :: Candidate(q, BiosAreaStart, a) ==> !RsdpAccepted(mem, q)))
            case None =>
              (seg != 0 ==> forall q :: Candidate(q, base, base + EbdaWindow) ==> !RsdpAccepted(mem, q))
              && forall q :: Candidate(q, BiosAreaStart, BiosAreaEnd) ==> !RsdpAccepted(mem, q)
  {
    ScanFromFindsFirst(mem, EbdaBase(mem), EbdaBase(mem) + EbdaWindow);
    ScanFromFindsFirst(mem, BiosAreaStart, BiosAreaEnd);
  }

  method FindRsdp(mem: Memory) returns (r: Option<nat>)
    ensures r == LocateRsdp(mem)
  {
    var ebdaSegment := U16(mem, EbdaSegmentAddress);
    if ebdaSegment != 0 {
      var ebda := ebdaSegment * 16;
      var i := 0;
      while i < EbdaWindow
        invariant 0 <= i <= EbdaWindow && i % ScanStep == 0
        invariant ScanFrom(mem, ebda, ebda + EbdaWindow) == ScanFrom(mem, ebda + i, ebda + EbdaWindow)
      {
        var ok := CheckRsdpCandidate(mem, ebda + i);
        if ok {
          return Some(ebda + i);
        }
        i := i + ScanStep;
      }
    }
    var ptr := BiosAreaStart;
    while ptr < BiosAreaEnd
      invariant BiosAreaStart <= ptr <= BiosAreaEnd + ScanStep
      invariant ScanFrom(mem, BiosAreaStart, BiosAreaEnd) == ScanFrom(mem, ptr, BiosAreaEnd)
    {
      var ok := CheckRsdpCandidate(mem, ptr);
      if ok {
        return Some(ptr);
      }
      ptr := ptr + ScanStep;
    }
    return None;
  }

  // ---------------------------------------------------------------------
  // find_sdt_from_rsdp

  /** The XSDT is used iff the revision says ACPI 2.0+ and XsdtAddress is non-zero. */
  predicate UseXsdt(mem: Memory, rsdp: nat)
  {
    IsAcpi2(RsdpAt(mem, rsdp).revision) && Rsdp20At(mem, rsdp).xsdtAddress != 0
  }

  /** (Length - 36) / width, the subtraction done in 32-bit unsigned arithmetic. */
  function EntryCount(length: nat, width: nat): nat
    requires width > 0
  {
    ((length - SdtHeaderSize) % 0x1_0000_0000) / width
  }

  /** Entry i of a root table: a little-endian pointer of `width` bytes after the header. */
  function EntryAt(mem: Memory, root: nat, width: nat, i: nat): nat
  {
    LittleEndian(Read(mem, root + SdtHeaderSize + width * i, width))
  }

  /** h is a non-null table with the wanted signature and a valid checksum. */
  predicate TableMatches(mem: Memory, h: nat, sig: seq<Byte>)
  {
    h != 0 && Read(mem, h, 4) == sig && SdtChecksumValid(mem, h)
  }

  /** The first matching entry among entries i .. count-1. */
  function FirstTableFrom(mem: Memory, root: nat, width: nat, sig: seq<Byte>, i: nat, count: nat): Option<nat>
    decreases count - i
  {
    if i >= count then None
    else if TableMatches(mem, EntryAt(mem, root, width, i), sig) then Some(EntryAt(mem, root, width, i))
    else FirstTableFrom(mem, root, width, sig, i + 1, count)
  }

  lemma {:induction false} FirstTableFromFindsFirst(mem: Memory, root: nat, width: nat, sig: seq<Byte>, i: nat, count: nat)
    ensures FirstTableFrom(mem, root, width, sig, i, count).Some? ==>
              exists k :: i <= k < count && FirstTableFrom(mem, root, width, sig, i, count).value == EntryAt(mem, root, width, k)
                && TableMatches(mem, EntryAt(mem, root, width, k), sig)
                && forall j :: i <= j < k ==> !TableMatches(mem, EntryAt(mem, root, width, j), sig)
    ensures FirstTableFrom(mem, root, width, sig, i, count).None? ==>
              forall j :: i <= j < count ==> !TableMatches(mem, EntryAt(mem, root, width, j), sig)
    decreases count - i
  {
    if i < count && !TableMatches(mem, EntryAt(mem, root, width, i), sig) {
      FirstTableFromFindsFirst(mem, root, width, sig, i + 1, count);
    }
  }

  /** The root table and its entry width chosen from the RSDP, or None when
      the RSDT is needed but its address is 0. */
  function RootTable(mem: Memory, rsdp: nat): Option<(nat, nat)>
  {
    if UseXsdt(mem, rsdp) then Some((Rsdp20At(mem, rsdp).xsdtAddress, 8))
    else if RsdpAt(mem, rsdp).rsdtAddress == 0 then None
    else Some((RsdpAt(mem, rsdp).rsdtAddress, 4))
  }

  function FindSdt(mem: Memory, rsdp: nat, sig: seq<Byte>): Option<nat>
  {
    if rsdp == 0 then None
    else match RootTable(mem, rsdp)
      case None => None
      case Some((root, width)) =>
        if !SdtChecksumValid(mem, root) then None
        else FirstTableFrom(mem, root, width, sig, 0, EntryCount(SdtHeaderAt(mem, root).length, width))
  }

  /** find_sdt_from_rsdp returns a table iff the chosen root table is valid and
      some entry matches; the result is then the first matching entry. A
      corrupt XSDT gives null even when the RSDT would be usable. */
  lemma FindSdtFindsFirst(mem: Memory, rsdp: nat, sig: seq<Byte>)
    ensures UseXsdt(mem, rsdp) ==> RootTable(mem, rsdp) == Some((Rsdp20At(mem, rsdp).xsdtAddress, 8))
    ensures !UseXsdt(mem, rsdp) && RsdpAt(mem, rsdp).rsdtAddress != 0 ==>
              RootTable(mem, rsdp) == Some((RsdpAt(mem, rsdp).rsdtAddress, 4))
    ensures FindSdt(mem, rsdp, sig).Some? <==>
              rsdp != 0 && RootTable(mem, rsdp).Some?
              && var (root, width) := RootTable(mem, rsdp).value;
              SdtChecksumValid(mem, root)
              && exists k :: 0 <= k < EntryCount(SdtHeaderAt(mem, root).length, width)
                   && TableMatches(mem, EntryAt(mem, root, width, k), sig)
    ensures FindSdt(mem, rsdp, sig).Some? ==>
              var (root, width) := RootTable(mem, rsdp).value;
              exists k :: 0 <= k < EntryCount(SdtHeaderAt(mem, root).length, width)
                && FindSdt(mem, rsdp, sig).value == EntryAt(mem, root, width, k)
                && TableMatches(mem, EntryAt(mem, root, width, k), sig)
                && forall j :: 0 <= j < k ==> !TableMatches(mem, EntryAt(mem, root, width, j), sig)
  {
    if rsdp != 0 && RootTable(mem, rsdp).Some? {
      var (root, width) := RootTable(mem, rsdp).value;
      FirstTableFromFindsFirst(mem, root, width, sig, 0, EntryCount(SdtHeaderAt(mem, root).length, width));
    }
  }

  method FindSdtFromRsdp(mem: Memory, rsdp: nat, sig: seq<Byte>) returns (r: Option<nat>)
    requires |sig| == 4
    ensures r == FindSdt(mem, rsdp, sig)
  {
    if rsdp == 0 {
      return None;
    }
    var rsdpV1 := RsdpAt(mem, rsdp);
    var root := 0;
    var entries := 0;
    var useXsdt := rsdpV1.revision >= 2 && rsdpV1.revision != 0;
    if useXsdt {
      var rsdpV2 := Rsdp20At(mem, rsdp);
      if rsdpV2.xsdtAddress == 0 {
        useXsdt := false;
      } else {
        root := rsdpV2.xsdtAddress;
        var ok := ValidateSdtChecksum(mem, root);
        if root == 0 || !ok {
          return None;
        }
        entries := EntryCount(SdtHeaderAt(mem, root).length, 8);
      }
    }
    if !useXsdt {
      if rsdpV1.rsdtAddress == 0 {
        return None;
      }
      root := rsdpV1.rsdtAddress;
      var ok := ValidateSdtChecksum(mem, root);
      if root == 0 || !ok {
        return None;
      }
      entries := EntryCount(SdtHeaderAt(mem, root).length, 4);
    }
    var width := if useXsdt then 8 else 4;
    assert RootTable(mem, rsdp) == Some((root, width));
    assert FindSdt(mem, rsdp, sig) == FirstTableFrom(mem, root, width, sig, 0, entries);
    r := ScanEntries(mem, root, width, sig, entries);
  }

  /** The entry loop of find_sdt_from_rsdp: the first non-null entry with the
      wanted signature and a valid checksum. */
  method ScanEntries(mem: Memory, root: nat, width: nat, sig: seq<Byte>, entries: nat) returns (r: Option<nat>)
    requires |sig| == 4
    ensures r == FirstTableFrom(mem, root, width, sig, 0, entries)
  {
    var i := 0;
    while i < entries
      invariant 0 <= i <= entries
      invariant FirstTableFrom(mem, root, width, sig, 0, entries) == FirstTableFrom(mem, root, width, sig, i, entries)
    {
      var h := EntryAt(mem, root, width, i);
      if h != 0 {
        var cmp := MemCmp(mem, h, sig);
        CompareZeroIffEqual(Read(mem, h, 4), sig);
        if cmp == 0 {
          var ok := ValidateSdtChecksum(mem, h);
          if ok {
            return Some(h);
          }
        }
      }
      i := i + 1;
    }
    return None;
  }

  // ---------------------------------------------------------------------
  // acpi_init and acpi_power_off

  type Word = w: int | 0 <= w < 0x1_0000

  /** One port write: outb or outw. */
  datatype PortWrite = OutB(port: Word, byte: Byte) | OutW(port: Word, word: Word)

  /** The port-read oracle: the k-th port read since boot (counting from 0),
      when it reads port p, returns inw(p, k). */
  type PortReads = (Word, nat) -> Word

  /** The ports of n consecutive reads of the same port. */
  function Repeat(port: Word, n: nat): (ps: seq<Word>)
    ensures |ps| == n && forall i :: 0 <= i < n ==> ps[i] == port
  {
    seq(n, _ => port)
  }

  /** The port argument of outb/outw/inw is a uint16_t: a 32-bit FADT port
      field is truncated to its low 16 bits. */
  function Port(field: nat): Word
  {
    field % 0x1_0000
  }

  function FadtAt(mem: Memory, f: nat): Fadt
  {
    DecodeFadt(Read(mem, f, FadtPrefixSize))
  }

  /** SMI_CommandPort, AcpiEnable and PM1aEventBlock are all non-zero. */
  predicate EnableSupported(f: Fadt)
  {
    f.smiCommandPort != 0 && f.acpiEnable != 0 && f.pm1aEventBlock != 0
  }

  /** One more read of the same port extends the run of reads by one. */
  lemma RepeatSnoc(prefix: seq<Word>, port: Word, n: nat)
    ensures (prefix + Repeat(port, n)) + [port] == prefix + Repeat(port, n + 1)
  {
    assert Repeat(port, n + 1) == Repeat(port, n) + [port];
  }

  /** Index (among the poll reads k, k+1, ... of `port`, the first of them
      being read number start) of the first read with bit 0 set, or
      MaxPollIterations when none of the remaining reads has it. */
  function FirstSetPoll(inw: PortReads, port: Word, start: nat, k: nat): (j: nat)
    requires k <= MaxPollIterations
    ensures k <= j <= MaxPollIterations
    decreases MaxPollIterations - k
  {
    if k == MaxPollIterations then MaxPollIterations
    else if inw(port, start + k) % 2 == 1 then k
    else FirstSetPoll(inw, port, start, k + 1)
  }

  lemma {:induction false} FirstSetPollIsFirst(inw: PortReads, port: Word, start: nat, k: nat)
    requires k <= MaxPollIterations
    ensures var j := FirstSetPoll(inw, port, start, k);
            (j < MaxPollIterations ==> inw(port, start + j) % 2 == 1)
            && forall r :: start + k <= r < start + j ==> inw(port, r) % 2 == 0
    decreases MaxPollIterations - k
  {
    if k < MaxPollIterations && inw(port, start + k) % 2 == 0 {
      FirstSetPollIsFirst(inw, port, start, k + 1);
    }
  }

  /** One poll: a set bit 0 ends the search there, a clear one moves it on. */
  lemma FirstSetPollStep(inw: PortReads, port: Word, start: nat, k: nat)
    requires k < MaxPollIterations
    ensures inw(port, start + k) % 2 == 1 ==> FirstSetPoll(inw, port, start, k) == k
    ensures inw(port, start + k) % 2 != 1 ==> FirstSetPoll(inw, port, start, k) == FirstSetPoll(inw, port, start, k + 1)
  {
  }

  /** Reads made by acpi_init's enable path: the poll stops right after the
      first read with bit 0 set; a poll that times out is followed by one
      more read of the status register for the diagnostic. */
  function EnableReads(inw: PortReads, port: Word, start: nat): nat
  {
    var j := FirstSetPoll(inw, port, start, 0);
    if j < MaxPollIterations then j + 1 else MaxPollIterations + 1
  }

  /** The port writes of acpi_power_off once it gets past its two checks:
      the soft-off value to PM1a_CNT, then to PM1b_CNT iff that field is
      non-zero and differs from PM1a_CNT. */
  function SoftOffWrites(f: Fadt): seq<PortWrite>
  {
    var v := SoftOffValue() as int;
    [OutW(Port(f.pm1aControlBlock), v)]
      + if f.pm1bControlBlock != 0 && f.pm1bControlBlock != f.pm1aControlBlock
        then [OutW(Port(f.pm1bControlBlock), v)] else []
  }

  datatype InitStatus = RsdpNotFound | FadtNotFound | EnableUnsupported | AcpiEnabled | EnableTimedOut

  datatype PowerOffOutcome = NoFadt | NoPm1aControlBlock | Halted

  /** The ACPI state of the kernel: g_fadt, plus the port traffic and the
      interrupt flag that acpi_init and acpi_power_off act on. */
  class AcpiController {
    /** g_fadt; None stands for nullptr. */
    var fadt: Option<nat>
    /** Every port write so far, oldest first. */
    var writes: seq<PortWrite>
    /** The port of every inw so far, oldest first; the next read of port p
        returns inw(p, |readPorts|). */
    var readPorts: seq<Word>
    /** Cleared by `cli`. */
    var interruptsEnabled: bool

    constructor ()
      ensures fadt == None && writes == [] && readPorts == [] && interruptsEnabled
    {
      fadt := None;
      writes := [];
      readPorts := [];
      interruptsEnabled := true;
    }

    /** One inw of `port`: records the port and returns the oracle's value. */
    method ReadWord(port: Word, inw: PortReads) returns (v: Word)
      modifies this`readPorts
      ensures v == inw(port, |old(readPorts)|) && readPorts == old(readPorts) + [port]
    {
      v := inw(port, |readPorts|);
      readPorts := readPorts + [port];
    }

    /** The ACPI-enable handshake once the FADT allows it: write AcpiEnable to
        the SMI command port, then poll PM1a_EVT_BLK for SCI_EN (bit 0) at
        most MaxPollIterations times; on a timeout read it once more for the
        diagnostic. */
    method Enable(f: Fadt, inw: PortReads) returns (enabled: bool)
      modifies this`writes, this`readPorts
      ensures writes == old(writes) + [OutB(Port(f.smiCommandPort), f.acpiEnable)]
      ensures readPorts == old(readPorts) + Repeat(Port(f.pm1aEventBlock), EnableReads(inw, Port(f.pm1aEventBlock), |old(readPorts)|))
      ensures enabled <==> FirstSetPoll(inw, Port(f.pm1aEventBlock), |old(readPorts)|, 0) < MaxPollIterations
    {
      writes := writes + [OutB(Port(f.smiCommandPort), f.acpiEnable)];
      enabled := PollSciEnabled(Port(f.pm1aEventBlock), inw);
      if !enabled {
        var current := ReadWord(Port(f.pm1aEventBlock), inw);
      }
    }

    /** The polling loop of acpi_init: read PM1a_EVT_BLK until bit 0 is set,
        at most MaxPollIterations times. */
    method PollSciEnabled(port: Word, inw: PortReads) returns (found: bool)
      modifies this`readPorts
      ensures found <==> FirstSetPoll(inw, port, |old(readPorts)|, 0) < MaxPollIterations
      ensures found ==> readPorts == old(readPorts) + Repeat(port, FirstSetPoll(inw, port, |old(readPorts)|, 0) + 1)
      ensures !found ==> readPorts == old(readPorts) + Repeat(port, MaxPollIterations)
    {
      ghost var before := readPorts;
      ghost var start := |readPorts|;
      var timeoutCounter := 0;
      while timeoutCounter < MaxPollIterations
        invariant timeoutCounter <= MaxPollIterations
        invariant readPorts == before + Repeat(port, timeoutCounter)
        invariant |readPorts| == start + timeoutCounter
        invariant FirstSetPoll(inw, port, start, 0) == FirstSetPoll(inw, port, start, timeoutCounter)
      {
        var status := ReadWord(port, inw);
        assert status == inw(port, start + timeoutCounter);
        RepeatSnoc(before, port, timeoutCounter);
        FirstSetPollStep(inw, port, start, timeoutCounter);
        if status % 2 == 1 {
          assert FirstSetPoll(inw, port, start, 0) == timeoutCounter;
          return true;
        }
        timeoutCounter := timeoutCounter + 1;
      }
      assert FirstSetPoll(inw, port, start, 0) == MaxPollIterations;
      return false;
    }

    method Init(mem: Memory, inw: PortReads) returns (status: InitStatus)
      modifies this
      ensures interruptsEnabled == old(interruptsEnabled)
      ensures status == RsdpNotFound <==> LocateRsdp(mem).None?
      ensures status == RsdpNotFound ==> fadt == old(fadt)
      ensures status != RsdpNotFound ==> fadt == FindSdt(mem, LocateRsdp(mem).value, FacpSignature)
      ensures status == FadtNotFound <==> status != RsdpNotFound && fadt.None?
      ensures status in {EnableUnsupported, AcpiEnabled, EnableTimedOut} ==>
                fadt.Some? && (status == EnableUnsupported <==> !EnableSupported(FadtAt(mem, fadt.value)))
      ensures status in {AcpiEnabled, EnableTimedOut} ==>
                var f := FadtAt(mem, fadt.value);
                var p := Port(f.pm1aEventBlock);
                && writes == old(writes) + [OutB(Port(f.smiCommandPort), f.acpiEnable)]
                && readPorts == old(readPorts) + Repeat(p, EnableReads(inw, p, |old(readPorts)|))
                && (status == AcpiEnabled <==> FirstSetPoll(inw, p, |old(readPorts)|, 0) < MaxPollIterations)
      ensures status !in {AcpiEnabled, EnableTimedOut} ==> writes == old(writes) && readPorts == old(readPorts)
    {
      var rsdp := FindRsdp(mem);
      if rsdp.None? {
        return RsdpNotFound;
      }
      fadt := FindSdtFromRsdp(mem, rsdp.value, FacpSignature);
      if fadt.None? {
        return FadtNotFound;
      }
      var f := FadtAt(mem, fadt.value);
      if !(f.smiCommandPort != 0 && f.acpiEnable != 0 && f.pm1aEventBlock != 0) {
        return EnableUnsupported;
      }
      var enabled := Enable(f, inw);
      status := if enabled then AcpiEnabled else EnableTimedOut;
    }

    method PowerOff(mem: Memory, inw: PortReads) returns (outcome: PowerOffOutcome)
      modifies this
      ensures fadt == old(fadt)
      ensures outcome == (if fadt.None? then NoFadt
                          else if FadtAt(mem, fadt.value).pm1aControlBlock == 0 then NoPm1aControlBlock
                          else Halted)
      ensures outcome == Halted ==>
                var f := FadtAt(mem, fadt.value);
                && writes == old(writes) + SoftOffWrites(f)
                && readPorts == old(readPorts) + (if f.pm1aEventBlock != 0 then [Port(f.pm1aEventBlock)] else [])
                && !interruptsEnabled
      ensures outcome != Halted ==>
                writes == old(writes) && readPorts == old(readPorts) && interruptsEnabled == old(interruptsEnabled)
    {
      if fadt.None? {
        return NoFadt;
      }
      var f := FadtAt(mem, fadt.value);
      if f.pm1aControlBlock == 0 {
        return NoPm1aControlBlock;
      }
      if f.pm1aEventBlock != 0 {
        // The SCI_EN warning: read and reported, control flow unchanged.
        var status := ReadWord(Port(f.pm1aEventBlock), inw);
      }
      var value := SoftOffValue() as int;
      interruptsEnabled := false;
      writes := writes + [OutW(Port(f.pm1aControlBlock), value)];
      if f.pm1bControlBlock != 0 && f.pm1bControlBlock != f.pm1aControlBlock {
        writes := writes + [OutW(Port(f.pm1bControlBlock), value)];
      }
      return Halted;
    }
  }

  /** acpi_power_off writes only the soft-off value, always to PM1a_CNT
      first, and to at most one further port. */
  lemma SoftOffWritesShape(f: Fadt)
    ensures var w := SoftOffWrites(f);
            1 <= |w| <= 2 && w[0] == OutW(Port(f.pm1aControlBlock), 0x3400)
            && (forall i :: 0 <= i < |w| ==> w[i].OutW? && w[i].word == 0x3400)
            && (|w| == 2 <==> f.pm1bControlBlock != 0 && f.pm1bControlBlock != f.pm1aControlBlock)
  {
  }
}
