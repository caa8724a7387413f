/** Packed layouts of the ACPI structures the kernel reads (src/include/acpi.h):
    the Root System Description Pointer in its 1.0 and 2.0+ forms (section
    5.2.5.3 of the ACPI Specification), the common System Description Table
    header (section 5.2.6) and the leading part of the Fixed ACPI Description
    Table (section 5.2.9), with the soft-off constants for PM1x_CNT. Each
    layout is a decoder from bytes and an encoder back to bytes. */
module AcpiLayout {
  import opened Bytes

  const RsdpV1Size := 20
  const RsdpV2Size := 36
  const SdtHeaderSize := 36
  /** Bytes of the FADT up to and including PM1bControlBlock. */
  const FadtPrefixSize := 72

  /** "RSD PTR ", trailing space included. */
  const RsdpSignature: seq<Byte> := [0x52, 0x53, 0x44, 0x20, 0x50, 0x54, 0x52, 0x20]
  /** "FACP", the signature of the FADT. */
  const FacpSignature: seq<Byte> := [0x46, 0x41, 0x43, 0x50]

  /** Revision 0 denotes ACPI 1.0 and 2 denotes ACPI 2.0 and later. */
  predicate IsAcpi2(revision: Byte)
  {
    revision >= 2 && revision != 0
  }

  // ---------------------------------------------------------------------
  // RSDP, ACPI 1.0 part: 20 bytes

  datatype RsdpDescriptor = RsdpDescriptor(
    signature: seq<Byte>,  // 8 bytes
    checksum: Byte,
    oemId: seq<Byte>,      // 6 bytes
    revision: Byte,
    rsdtAddress: nat)      // little-endian u32
  {
    predicate Wf()
    {
      |signature| == 8 && |oemId| == 6 && rsdtAddress < Pow256(4)
    }
  }

  function DecodeRsdp(b: seq<Byte>): (d: RsdpDescriptor)
    requires |b| >= RsdpV1Size
    ensures d.Wf()
  {
    LittleEndianBound(b[16..20]);
    RsdpDescriptor(b[0..8], b[8], b[9..15], b[15], LittleEndian(b[16..20]))
  }

  function EncodeRsdp(d: RsdpDescriptor): (b: seq<Byte>)
    requires d.Wf()
    ensures |b| == RsdpV1Size
  {
    d.signature + [d.checksum] + d.oemId + [d.revision] + ToLittleEndian(d.rsdtAddress, 4)
  }

  lemma DecodeEncodeRsdp(d: RsdpDescriptor)
    requires d.Wf()
    ensures DecodeRsdp(EncodeRsdp(d)) == d
  {
    var b := EncodeRsdp(d);
    assert b[16..20] == ToLittleEndian(d.rsdtAddress, 4);
    DecodeEncodeLittleEndian(d.rsdtAddress, 4);
    assert b[0..8] == d.signature;
    assert b[9..15] == d.oemId;
  }

  lemma EncodeDecodeRsdp(b: seq<Byte>)
    requires |b| == RsdpV1Size
    ensures EncodeRsdp(DecodeRsdp(b)) == b
  {
    EncodeDecodeLittleEndian(b[16..20]);
    assert b == b[0..8] + [b[8]] + b[9..15] + [b[15]] + b[16..20];
  }

  // ---------------------------------------------------------------------
  // RSDP, ACPI 2.0+ form: 36 bytes extending the 1.0 part

  datatype RsdpDescriptor20 = RsdpDescriptor20(
    firstPart: RsdpDescriptor,
    length: nat,             // little-endian u32, the whole structure
    xsdtAddress: nat,        // little-endian u64
    extendedChecksum: Byte,
    reserved: seq<Byte>)     // 3 bytes
  {
    predicate Wf()
    {
      firstPart.Wf() && length < Pow256(4) && xsdtAddress < Pow256(8) && |reserved| == 3
    }
  }

  function DecodeRsdp20(b: seq<Byte>): (d: RsdpDescriptor20)
    requires |b| >= RsdpV2Size
    ensures d.Wf()
  {
    LittleEndianBound(b[20..24]);
    LittleEndianBound(b[24..32]);
    RsdpDescriptor20(DecodeRsdp(b), LittleEndian(b[20..24]), LittleEndian(b[24..32]), b[32], b[33..36])
  }

  function EncodeRsdp20(d: RsdpDescriptor20): (b: seq<Byte>)
    requires d.Wf()
    ensures |b| == RsdpV2Size
  {
    EncodeRsdp(d.firstPart) + ToLittleEndian(d.length, 4) + ToLittleEndian(d.xsdtAddress, 8)
      + [d.extendedChecksum] + d.reserved
  }

  lemma DecodeEncodeRsdp20(d: RsdpDescriptor20)
    requires d.Wf()
    ensures DecodeRsdp20(EncodeRsdp20(d)) == d
  {
    var b := EncodeRsdp20(d);
    assert b[..20] == EncodeRsdp(d.firstPart);
    DecodeEncodeRsdp(d.firstPart);
    Rsdp20ExtendsRsdp(b);
    assert b[20..24] == ToLittleEndian(d.length, 4);
    assert b[24..32] == ToLittleEndian(d.xsdtAddress, 8);
    DecodeEncodeLittleEndian(d.length, 4);
    DecodeEncodeLittleEndian(d.xsdtAddress, 8);
    assert b[33..36] == d.reserved;
  }

  /** Every 36 bytes are the encoding of the descriptor they decode to. */
  lemma EncodeDecodeRsdp20(b: seq<Byte>)
    requires |b| == RsdpV2Size
    ensures EncodeRsdp20(DecodeRsdp20(b)) == b
  {
    EncodeDecodeRsdp(b[..RsdpV1Size]);
    Rsdp20ExtendsRsdp(b);
    EncodeDecodeLittleEndian(b[20..24]);
    EncodeDecodeLittleEndian(b[24..32]);
    assert b == b[..20] + b[20..24] + b[24..32] + [b[32]] + b[33..36];
  }

  /** The ACPI 1.0 view of a 2.0+ descriptor is its first 20 bytes. */
  lemma Rsdp20ExtendsRsdp(b: seq<Byte>)
    requires |b| >= RsdpV2Size
    ensures DecodeRsdp20(b).firstPart == DecodeRsdp(b[..RsdpV1Size])
  {
    assert b[..20][0..8] == b[0..8];
    assert b[..20][9..15] == b[9..15];
    assert b[..20][16..20] == b[16..20];
  }

  // ---------------------------------------------------------------------
  // System Description Table header: 36 bytes

  datatype SdtHeader = SdtHeader(
    signature: seq<Byte>,    // 4 bytes
    length: nat,             // little-endian u32, header included
    revision: Byte,
    checksum: Byte,
    oemId: seq<Byte>,        // 6 bytes
    oemTableId: seq<Byte>,   // 8 bytes
    oemRevision: nat,        // little-endian u32
    creatorId: nat,          // little-endian u32
    creatorRevision: nat)    // little-endian u32
  {
    predicate Wf()
    {
      |signature| == 4 && length < Pow256(4) && |oemId| == 6 && |oemTableId| == 8
      && oemRevision < Pow256(4) && creatorId < Pow256(4) && creatorRevision < Pow256(4)
    }
  }

  function DecodeSdtHeader(b: seq<Byte>): (h: SdtHeader)
    requires |b| >= SdtHeaderSize
    ensures h.Wf()
  {
    LittleEndianBound(b[4..8]);
    LittleEndianBound(b[24..28]);
    LittleEndianBound(b[28..32]);
    LittleEndianBound(b[32..36]);
    SdtHeader(b[0..4], LittleEndian(b[4..8]), b[8], b[9], b[10..16], b[16..24],
              LittleEndian(b[24..28]), LittleEndian(b[28..32]), LittleEndian(b[32..36]))
  }

  function EncodeSdtHeader(h: SdtHeader): (b: seq<Byte>)
    requires h.Wf()
    ensures |b| == SdtHeaderSize
  {
    h.signature + ToLittleEndian(h.length, 4) + [h.revision, h.checksum] + h.oemId + h.oemTableId
      + ToLittleEndian(h.oemRevision, 4) + ToLittleEndian(h.creatorId, 4)
      + ToLittleEndian(h.creatorRevision, 4)
  }

  lemma DecodeEncodeSdtHeader(h: SdtHeader)
    requires h.Wf()
    ensures DecodeSdtHeader(EncodeSdtHeader(h)) == h
  {
    var b := EncodeSdtHeader(h);
    assert b[0..4] == h.signature;
    assert b[4..8] == ToLittleEndian(h.length, 4);
    assert b[10..16] == h.oemId;
    assert b[16..24] == h.oemTableId;
    assert b[24..28] == ToLittleEndian(h.oemRevision, 4);
    assert b[28..32] == ToLittleEndian(h.creatorId, 4);
    assert b[32..36] == ToLittleEndian(h.creatorRevision, 4);
    DecodeEncodeLittleEndian(h.length, 4);
    DecodeEncodeLittleEndian(h.oemRevision, 4);
    DecodeEncodeLittleEndian(h.creatorId, 4);
    DecodeEncodeLittleEndian(h.creatorRevision, 4);
  }

  /** Every 36 bytes are the encoding of the header they decode to. */
  lemma EncodeDecodeSdtHeader(b: seq<Byte>)
    requires |b| == SdtHeaderSize
    ensures EncodeSdtHeader(DecodeSdtHeader(b)) == b
  {
    EncodeDecodeLittleEndian(b[4..8]);
    EncodeDecodeLittleEndian(b[24..28]);
    EncodeDecodeLittleEndian(b[28..32]);
    EncodeDecodeLittleEndian(b[32..36]);
    assert b == b[0..4] + b[4..8] + [b[8], b[9]] + b[10..16] + b[16..24] + b[24..28] + b[28..32] + b[32..36];
  }

  // ---------------------------------------------------------------------
  // Fixed ACPI Description Table, up to PM1bControlBlock: 72 bytes

  datatype Fadt = Fadt(
    header: SdtHeader,
    firmwareCtrl: nat,       // u32 at 36
    dsdt: nat,               // u32 at 40
    reserved1: Byte,         // at 44
    preferredProfile: Byte,  // at 45
    sciInterrupt: nat,       // u16 at 46
    smiCommandPort: nat,     // u32 at 48
    acpiEnable: Byte,        // at 52
    acpiDisable: Byte,       // at 53
    s4BiosReq: Byte,         // at 54
    pstateControl: Byte,     // at 55
    pm1aEventBlock: nat,     // u32 at 56
    pm1bEventBlock: nat,     // u32 at 60
    pm1aControlBlock: nat,   // u32 at 64
    pm1bControlBlock: nat)   // u32 at 68
  {
    predicate Wf()
    {
      header.Wf() && firmwareCtrl < Pow256(4) && dsdt < Pow256(4) && sciInterrupt < Pow256(2)
      && smiCommandPort < Pow256(4) && pm1aEventBlock < Pow256(4) && pm1bEventBlock < Pow256(4)
      && pm1aControlBlock < Pow256(4) && pm1bControlBlock < Pow256(4)
    }
  }

  function U32At(b: seq<Byte>, off: nat): (v: nat)
    requires off + 4 <= |b|
    ensures v < Pow256(4)
  {
    LittleEndianBound(b[off..off + 4]);
    LittleEndian(b[off..off + 4])
  }

  function DecodeFadt(b: seq<Byte>): (f: Fadt)
    requires |b| >= FadtPrefixSize
    ensures f.Wf()
  {
    LittleEndianBound(b[46..48]);
    Fadt(DecodeSdtHeader(b), U32At(b, 36), U32At(b, 40), b[44], b[45],
         LittleEndian(b[46..48]), U32At(b, 48), b[52], b[53], b[54], b[55],
         U32At(b, 56), U32At(b, 60), U32At(b, 64), U32At(b, 68))
  }

  function EncodeFadt(f: Fadt): (b: seq<Byte>)
    requires f.Wf()
    ensures |b| == FadtPrefixSize
  {
    EncodeSdtHeader(f.header)
      + ToLittleEndian(f.firmwareCtrl, 4) + ToLittleEndian(f.dsdt, 4)
      + [f.reserved1, f.preferredProfile] + ToLittleEndian(f.sciInterrupt, 2)
      + ToLittleEndian(f.smiCommandPort, 4)
      + [f.acpiEnable, f.acpiDisable, f.s4BiosReq, f.pstateControl]
      + ToLittleEndian(f.pm1aEventBlock, 4) + ToLittleEndian(f.pm1bEventBlock, 4)
      + ToLittleEndian(f.pm1aControlBlock, 4) + ToLittleEndian(f.pm1bControlBlock, 4)
  }

  lemma DecodeEncodeU32(b: seq<Byte>, off: nat, v: nat)
    requires v < Pow256(4) && off + 4 <= |b| && b[off..off + 4] == ToLittleEndian(v, 4)
    ensures U32At(b, off) == v
  {
    DecodeEncodeLittleEndian(v, 4);
  }

  /** Every power-management field sits at its own offset: decoding an
      encoded FADT gives back each field unchanged. */
  lemma DecodeEncodeFadt(f: Fadt)
    requires f.Wf()
    ensures DecodeFadt(EncodeFadt(f)) == f
  {
    var b := EncodeFadt(f);
    EncodedFadtHeader(f);
    EncodedFadtFields(f);
    DecodeEncodeU32(b, 36, f.firmwareCtrl);
    DecodeEncodeU32(b, 40, f.dsdt);
    DecodeEncodeLittleEndian(f.sciInterrupt, 2);
    DecodeEncodeU32(b, 48, f.smiCommandPort);
    DecodeEncodeU32(b, 56, f.pm1aEventBlock);
    DecodeEncodeU32(b, 60, f.pm1bEventBlock);
    DecodeEncodeU32(b, 64, f.pm1aControlBlock);
    DecodeEncodeU32(b, 68, f.pm1bControlBlock);
  }

  /** The header of an encoded FADT decodes back to f's header. */
  lemma EncodedFadtHeader(f: Fadt)
    requires f.Wf()
    ensures DecodeSdtHeader(EncodeFadt(f)) == f.header
  {
    var b := EncodeFadt(f);
    assert b[..36] == EncodeSdtHeader(f.header);
    DecodeEncodeSdtHeader(f.header);
    assert DecodeSdtHeader(b) == DecodeSdtHeader(b[..36]) by {
      assert b[..36][0..4] == b[0..4];
      assert b[..36][4..8] == b[4..8];
      assert b[..36][10..16] == b[10..16];
      assert b[..36][16..24] == b[16..24];
      assert b[..36][24..28] == b[24..28];
      assert b[..36][28..32] == b[28..32];
      assert b[..36][32..36] == b[32..36];
    }
  }

  /** Where EncodeFadt puts each field after the header. */
  lemma EncodedFadtFields(f: Fadt)
    requires f.Wf()
    ensures var b := EncodeFadt(f);
            && b[36..40] == ToLittleEndian(f.firmwareCtrl, 4)
            && b[40..44] == ToLittleEndian(f.dsdt, 4)
            && b[44] == f.reserved1 && b[45] == f.preferredProfile
            && b[46..48] == ToLittleEndian(f.sciInterrupt, 2)
            && b[48..52] == ToLittleEndian(f.smiCommandPort, 4)
            && b[52] == f.acpiEnable && b[53] == f.acpiDisable
            && b[54] == f.s4BiosReq && b[55] == f.pstateControl
            && b[56..60] == ToLittleEndian(f.pm1aEventBlock, 4)
            && b[60..64] == ToLittleEndian(f.pm1bEventBlock, 4)
            && b[64..68] == ToLittleEndian(f.pm1aControlBlock, 4)
            && b[68..72] == ToLittleEndian(f.pm1bControlBlock, 4)
  {
    var b := EncodeFadt(f);
    assert b[36..40] == ToLittleEndian(f.firmwareCtrl, 4);
    assert b[40..44] == ToLittleEndian(f.dsdt, 4);
    assert b[46..48] == ToLittleEndian(f.sciInterrupt, 2);
    assert b[48..52] == ToLittleEndian(f.smiCommandPort, 4);
    assert b[56..60] == ToLittleEndian(f.pm1aEventBlock, 4);
    assert b[60..64] == ToLittleEndian(f.pm1bEventBlock, 4);
    assert b[64..68] == ToLittleEndian(f.pm1aControlBlock, 4);
    assert b[68..72] == ToLittleEndian(f.pm1bControlBlock, 4);
  }

  // ---------------------------------------------------------------------
  // Soft-off value for PM1x_CNT (section 4.8.3.2.1 of the ACPI Specification)

  /** SLP_TYP for S5 as the fixed guess 5, placed in bits 10-12. */
  const SlpTypS5: bv16 := 5 << 10
  /** SLP_EN, bit 13. */
  const SlpEn: bv16 := 1 << 13

  /** The value written to PM1a_CNT (and PM1b_CNT): sleep type 5 in bits
      10-12, the sleep-enable bit 13, every other bit clear. */
  function SoftOffValue(): (v: bv16)
    ensures v == 0x3400
    ensures (v >> 10) & 7 == 5
    ensures (v >> 13) & 1 == 1
    ensures v & 0x03FF == 0 && v >> 14 == 0
  {
    SlpTypS5 | SlpEn
  }
}
