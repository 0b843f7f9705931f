/** The IPv4 netmask that tuntap_set_ip computes from a prefix length
    (tuntap.c), against the prefixes of section 3.1 of RFC 4632. */
module Netmask {

  /** The mask before `htonl`; a shift by 32 is undefined in C, hence the branch. */
  function PrefixMask(n: bv32): bv32
    requires n <= 32
  {
    if n == 32 then 0xFFFF_FFFF else !(0xFFFF_FFFF >> n)
  }

  /** `htonl` on a host that stores the low byte first. */
  function Htonl(x: bv32): bv32 {
    (x << 24) | ((x & 0xFF00) << 8) | ((x >> 8) & 0xFF00) | (x >> 24)
  }

  /** Byte `i` in memory of a stored word, low byte first. */
  function MemoryByte(x: bv32, i: bv32): bv32
    requires i < 4
  {
    (x >> (8 * i)) & 0xFF
  }

  /** What is stored in the request: the mask in network order. */
  function StoredMask(n: bv32): bv32
    requires n <= 32
  {
    Htonl(PrefixMask(n))
  }

  /** The netmask branch of tuntap_set_ip. */
  method ComputeMask(netmask: int) returns (mask: bv32)
    requires 0 <= netmask <= 32
    ensures mask == StoredMask(netmask as bv32)
    ensures forall i: bv32 | i < 32 :: WireBit(mask, i) <==> i < netmask as bv32
  {
    forall i: bv32 {:trigger WireBit(StoredMask(netmask as bv32), i)} | i < 32
      ensures WireBit(StoredMask(netmask as bv32), i) <==> i < netmask as bv32
    {
      MaskBits(netmask as bv32, i);
    }
    hide WireBit;
    if netmask == 32 {
      mask := Htonl(0xFFFF_FFFF);
    } else {
      mask := 0xFFFF_FFFF;
      mask := !(mask >> (netmask as bv32));
      mask := Htonl(mask);
    }
  }

  /** Bit `i` of a stored address, counted from the first bit on the wire. */
  predicate WireBit(stored: bv32, i: bv32)
    requires i < 32
  {
    MemoryByte(stored, i / 8) & (0x80 >> (i % 8)) != 0
  }

  predicate SameNetwork(a: bv32, b: bv32, n: bv32)
    requires n <= 32
  {
    a & StoredMask(n) == b & StoredMask(n)
  }

  /** On the wire the mask is n one bits and then zero bits. */
  lemma MaskBits(n: bv32, i: bv32)
    requires n <= 32 && i < 32
    ensures WireBit(StoredMask(n), i) <==> i < n
  {
  }

  /** Masks as they lie in memory on a host that stores the low byte first. */
  lemma FamiliarMasks()
    ensures StoredMask(0) == 0 && StoredMask(8) == 0x0000_00FF && StoredMask(16) == 0x0000_FFFF
    ensures StoredMask(20) == 0x00F0_FFFF && StoredMask(24) == 0x00FF_FFFF && StoredMask(32) == 0xFFFF_FFFF
  {
  }

  /** Each stored byte is the prefix mask of the bits that fall into it. */
  lemma MaskBytes(n: bv32, i: bv32)
    requires n <= 32 && i < 4
    ensures MemoryByte(StoredMask(n), i) ==
      if n <= 8 * i then 0 else if n >= 8 * i + 8 then 0xFF else 0xFF & (0xFF << (8 * i + 8 - n))
  {
  }

  lemma AgreeOnBit(a: bv32, b: bv32, n: bv32, i: bv32)
    requires n <= 32 && i < n && SameNetwork(a, b, n)
    ensures WireBit(a, i) == WireBit(b, i)
  {
  }

  lemma OneBitMore(a: bv32, b: bv32, n: bv32)
    requires n < 32 && SameNetwork(a, b, n) && WireBit(a, n) == WireBit(b, n)
    ensures SameNetwork(a, b, n + 1)
  {
  }

  lemma EmptyMask()
    ensures StoredMask(0) == 0
  {
  }

  lemma {:induction false} AgreeingBitsSuffice(a: bv32, b: bv32, n: bv32)
    requires n <= 32
    requires forall i: bv32 | i < n :: WireBit(a, i) == WireBit(b, i)
    ensures SameNetwork(a, b, n)
  {
    if n == 0 {
      EmptyMask();
    } else {
      hide SameNetwork, WireBit;
      AgreeingBitsSuffice(a, b, n - 1);
      OneBitMore(a, b, n - 1);
    }
  }

  /** The mask groups addresses by their first n bits on the wire. */
  lemma NetworksArePrefixes(a: bv32, b: bv32, n: bv32)
    requires n <= 32
    ensures SameNetwork(a, b, n) <==> forall i: bv32 | i < n :: WireBit(a, i) == WireBit(b, i)
  {
    hide SameNetwork, WireBit;
    if SameNetwork(a, b, n) {
      forall i: bv32 | i < n
        ensures WireBit(a, i) == WireBit(b, i)
      {
        AgreeOnBit(a, b, n, i);
      }
    } else if forall i: bv32 | i < n :: WireBit(a, i) == WireBit(b, i) {
      AgreeingBitsSuffice(a, b, n);
    }
  }

  lemma LongerSplitsMore(a: bv32, b: bv32, n: bv32, m: bv32)
    requires n < m <= 32 && SameNetwork(a, b, m)
    ensures SameNetwork(a, b, n)
  {
  }

  /** An address whose only one bit on the wire is bit `i`. */
  function OneBit(i: bv32): bv32
    requires i < 32
  {
    Htonl(0x8000_0000 >> i)
  }

  lemma OneBitSeparates(n: bv32, m: bv32)
    requires n < m <= 32
    ensures SameNetwork(0, OneBit(n), n) && !SameNetwork(0, OneBit(n), m)
  {
  }

  /** A shorter prefix gives a strictly coarser partition. */
  lemma ShorterIsCoarser(n: bv32, m: bv32)
    requires n < m <= 32
    ensures forall a, b | SameNetwork(a, b, m) :: SameNetwork(a, b, n)
    ensures exists a, b :: SameNetwork(a, b, n) && !SameNetwork(a, b, m)
  {
    forall a, b | SameNetwork(a, b, m)
      ensures SameNetwork(a, b, n)
    {
      LongerSplitsMore(a, b, n, m);
    }
    OneBitSeparates(n, m);
  }

  /** As a number, the mask is 2^32 less the size of the network; 64 bits hold both. */
  lemma MaskValue(n: bv32)
    requires n <= 32
    ensures PrefixMask(n) as bv64 == 0x1_0000_0000 - (1 << (32 - n as bv64))
  {
  }
}
