/** Bytes, little-endian fields and byte sums shared by the firmware-table
    and boot-information layouts. */
module Bytes {

  type Byte = b: int | 0 <= b < 256

  /** Physical memory: every address reads as some byte. */
  type Memory = nat -> Byte

  datatype Option<T> = None | Some(value: T)

  /** 256^n, the number of values an n-byte field can hold. */
  function Pow256(n: nat): (p: nat)
    ensures p >= 1
  {
    if n == 0 then 1 else 256 * Pow256(n - 1)
  }

  /** The n bytes of memory starting at addr, in address order. */
  function Read(mem: Memory, addr: nat, n: nat): (r: seq<Byte>)
    ensures |r| == n
  {
    seq(n, i requires 0 <= i < n => mem(addr + i))
  }

  lemma ReadNext(mem: Memory, addr: nat, n: nat)
    ensures Read(mem, addr, n + 1) == Read(mem, addr, n) + [mem(addr + n)]
  {
    assert Read(mem, addr, n + 1)[..n] == Read(mem, addr, n);
  }

  lemma ReadPrefix(mem: Memory, addr: nat, n: nat, k: nat)
    requires k <= n
    ensures Read(mem, addr, n)[..k] == Read(mem, addr, k)
  {
  }

  lemma ReadSlice(mem: Memory, addr: nat, n: nat, i: nat, j: nat)
    requires i <= j <= n
    ensures Read(mem, addr, n)[i..j] == Read(mem, addr + i, j - i)
  {
  }

  /** Sum of all bytes, as an unbounded integer. */
  function Sum(s: seq<Byte>): nat
  {
    if s == [] then 0 else Sum(s[..|s| - 1]) + s[|s| - 1]
  }

  /** A checksummed region is valid iff its bytes add up to 0 modulo 256. */
  predicate ChecksumOk(s: seq<Byte>)
  {
    Sum(s) % 256 == 0
  }

  lemma SumAppend(s: seq<Byte>, b: Byte)
    ensures Sum(s + [b]) == Sum(s) + b
  {
    assert (s + [b])[..|s|] == s;
  }

  /** Replacing one byte changes the sum by exactly the difference. */
  lemma {:induction false} SumUpdate(s: seq<Byte>, k: nat, b: Byte)
    requires k < |s|
    ensures Sum(s[k := b]) == Sum(s) - s[k] + b
  {
    var n := |s| - 1;
    var t := s[k := b];
    assert t[..n] == if k < n then s[..n][k := b] else s[..n];
    if k < n {
      SumUpdate(s[..n], k, b);
    }
  }

  /** Corrupting any single byte of a region with a valid checksum makes the
      checksum fail: the byte sum detects every single-byte error. */
  lemma SingleByteChangeBreaksChecksum(s: seq<Byte>, k: nat, b: Byte)
    requires k < |s| && b != s[k]
    requires ChecksumOk(s)
    ensures !ChecksumOk(s[k := b])
  {
    SumUpdate(s, k, b);
  }

  /** Value of a little-endian field: least significant byte first. */
  function LittleEndian(s: seq<Byte>): nat
  {
    if s == [] then 0 else s[0] + 256 * LittleEndian(s[1..])
  }

  lemma {:induction false} LittleEndianBound(s: seq<Byte>)
    ensures LittleEndian(s) < Pow256(|s|)
  {
    if s != [] {
      LittleEndianBound(s[1..]);
    }
  }

  /** The n little-endian bytes of v. */
  function ToLittleEndian(v: nat, n: nat): (r: seq<Byte>)
    requires v < Pow256(n)
    ensures |r| == n
  {
    if n == 0 then [] else [v % 256] + ToLittleEndian(v / 256, n - 1)
  }

  lemma {:induction false} DecodeEncodeLittleEndian(v: nat, n: nat)
    requires v < Pow256(n)
    ensures LittleEndian(ToLittleEndian(v, n)) == v
  {
    if n > 0 {
      DecodeEncodeLittleEndian(v / 256, n - 1);
      assert ToLittleEndian(v, n)[1..] == ToLittleEndian(v / 256, n - 1);
    }
  }

  lemma {:induction false} EncodeDecodeLittleEndian(s: seq<Byte>)
    ensures LittleEndian(s) < Pow256(|s|)
    ensures ToLittleEndian(LittleEndian(s), |s|) == s
  {
    LittleEndianBound(s);
    if s != [] {
      EncodeDecodeLittleEndian(s[1..]);
      assert LittleEndian(s) % 256 == s[0];
      assert LittleEndian(s) / 256 == LittleEndian(s[1..]);
    }
  }

  /** Unsigned little-endian reads from memory. */
  function U16(mem: Memory, addr: nat): (v: nat)
    ensures v < 0x1_0000
  {
    LittleEndianBound(Read(mem, addr, 2));
    LittleEndian(Read(mem, addr, 2))
  }

  function U32(mem: Memory, addr: nat): (v: nat)
    ensures v < 0x1_0000_0000
  {
    LittleEndianBound(Read(mem, addr, 4));
    LittleEndian(Read(mem, addr, 4))
  }

  function U64(mem: Memory, addr: nat): (v: nat)
    ensures v < 0x1_0000_0000_0000_0000
  {
    LittleEndianBound(Read(mem, addr, 8));
    LittleEndian(Read(mem, addr, 8))
  }
}
