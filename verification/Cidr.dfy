/**
 IPv4 addresses and CIDR prefixes as `rest_router.py` computes them: an address is a 32-bit
 number, and the network it lies in is its bitwise AND with a shifted mask.
 */
module Cidr {

  const UINT32_MAX: nat := 0xffff_ffff

  type Ip = n: nat | n <= UINT32_MAX

  type PrefixLen = n: nat | n <= 32

  datatype Prefix = Prefix(addr: Ip, len: PrefixLen)

  /** Bitwise AND. */
  function And(a: nat, b: nat): nat {
    if a == 0 then 0 else (if a % 2 == 1 && b % 2 == 1 then 1 else 0) + 2 * And(a / 2, b / 2)
  }

  /** `a << k` */
  function Shl(a: nat, k: nat): nat {
    if k == 0 then a else 2 * Shl(a, k - 1)
  }

  /** `a >> k` */
  function Shr(a: nat, k: nat): nat {
    if k == 0 then a else Shr(a / 2, k - 1)
  }

  /** `(UINT32_MAX << (32 - mask)) & UINT32_MAX` */
  function MaskNtob(mask: PrefixLen): nat {
    And(Shl(UINT32_MAX, 32 - mask), UINT32_MAX)
  }

  /** The number with its low `k` bits cleared. */
  function ClearLow(a: nat, k: nat): (r: nat)
    ensures r <= a
  {
    if k == 0 then a else 2 * ClearLow(a / 2, k - 1)
  }

  /** `ipv4_apply_mask`, which `ApplyMaskIsAnd` ties to the bitwise AND. */
  function ApplyMask(ip: Ip, len: PrefixLen): Ip {
    ClearLow(ip, 32 - len)
  }

  predicate Covers(net: Prefix, ip: Ip) {
    ApplyMask(ip, net.len) == net.addr
  }

  /** The network of the given length that contains `ip`. */
  function NetOf(ip: Ip, len: PrefixLen): Prefix {
    Prefix(ApplyMask(ip, len), len)
  }

  // ---------------------------------------------------------------- bit arithmetic

  lemma {:induction false} AndShiftedRight(a: nat, b: nat, k: nat)
    ensures And(a, Shl(b, k)) == Shl(And(Shr(a, k), b), k)
  {
    if k > 0 {
      AndShiftedRight(a / 2, b, k - 1);
    }
  }

  lemma {:induction false} AndShiftedLeft(a: nat, b: nat, k: nat)
    ensures And(Shl(a, k), b) == Shl(And(a, Shr(b, k)), k)
  {
    if k > 0 {
      AndShiftedLeft(a, b / 2, k - 1);
    }
  }

  /** `2^j - 1` */
  function Ones(j: nat): nat {
    if j == 0 then 0 else 1 + 2 * Ones(j - 1)
  }

  lemma {:induction false} AndOnes(a: nat, j: nat)
    requires a <= Ones(j)
    ensures And(a, Ones(j)) == And(Ones(j), a) == a
  {
    if j > 0 {
      AndOnes(a / 2, j - 1);
    }
  }

  lemma {:induction false} ShrOnes(a: nat, k: nat, j: nat)
    requires a <= Ones(k + j)
    ensures Shr(a, k) <= Ones(j)
    ensures a == Ones(k + j) ==> Shr(a, k) == Ones(j)
  {
    if k > 0 {
      ShrOnes(a / 2, k - 1, j);
    }
  }

  lemma {:induction false} ShlShr(a: nat, k: nat)
    ensures Shl(Shr(a, k), k) == ClearLow(a, k)
  {
    if k > 0 {
      ShlShr(a / 2, k - 1);
    }
  }

  lemma OnesOf32()
    ensures Ones(32) == UINT32_MAX
  {
    assert Ones(8) == 0xff;
    assert Ones(16) == 0xffff;
    assert Ones(24) == 0xff_ffff;
  }

  /** `mask_ntob` yields `mask` ones followed by zeros. */
  lemma MaskValue(mask: PrefixLen)
    ensures MaskNtob(mask) == Shl(Ones(mask), 32 - mask)
  {
    var k := 32 - mask;
    calc {
      MaskNtob(mask);
      { AndShiftedLeft(UINT32_MAX, UINT32_MAX, k); }
      Shl(And(UINT32_MAX, Shr(UINT32_MAX, k)), k);
      { OnesOf32(); ShrOnes(UINT32_MAX, k, mask); }
      Shl(And(UINT32_MAX, Ones(mask)), k);
      { OnesOf32(); OnesMonotone(mask, 32); AndOnes(Ones(mask), 32); }
      Shl(Ones(mask), k);
    }
  }

  lemma {:induction false} OnesMonotone(i: nat, j: nat)
    requires i <= j
    ensures Ones(i) <= Ones(j)
  {
    if i > 0 {
      OnesMonotone(i - 1, j - 1);
    }
  }

  /** Rounding down to the block is what AND with the netmask computes, for every prefix length. */
  lemma ApplyMaskIsAnd(ip: Ip, len: PrefixLen)
    ensures And(ip, MaskNtob(len)) == ApplyMask(ip, len)
  {
    var k := 32 - len;
    MaskValue(len);
    AndShiftedRight(ip, Ones(len), k);
    OnesOf32();
    ShrOnes(ip, k, len);
    AndOnes(Shr(ip, k), len);
    ShlShr(ip, k);
  }

  // ---------------------------------------------------------------- networks

  lemma {:induction false} ClearLowNested(a: nat, j: nat, k: nat)
    requires j <= k
    ensures ClearLow(ClearLow(a, j), k) == ClearLow(a, k)
  {
    if j > 0 {
      ClearLowNested(a / 2, j - 1, k - 1);
    }
  }

  /** Masking to a longer prefix first loses nothing for a shorter one. */
  lemma ApplyMaskNested(ip: Ip, long: PrefixLen, short: PrefixLen)
    requires short <= long
    ensures ApplyMask(ApplyMask(ip, long), short) == ApplyMask(ip, short)
  {
    ClearLowNested(ip, 32 - long, 32 - short);
  }

  lemma {:induction false} ClearAll(a: nat, k: nat)
    requires a <= Ones(k)
    ensures ClearLow(a, k) == 0
  {
    if k > 0 {
      ClearAll(a / 2, k - 1);
    }
  }

  /** The prefix of length 0 covers everything and the prefix of length 32 one host. */
  lemma ApplyMaskEnds(ip: Ip)
    ensures ApplyMask(ip, 0) == 0 && ApplyMask(ip, 32) == ip
  {
    OnesOf32();
    ClearAll(ip, 32);
  }

  /** A host always lies in its own network, and a network contains its own base address. */
  lemma NetOfCovers(ip: Ip, len: PrefixLen)
    ensures Covers(NetOf(ip, len), ip)
    ensures Covers(NetOf(ip, len), ApplyMask(ip, len))
  {
    ApplyMaskNested(ip, len, len);
  }

  ghost predicate Overlap(a: Prefix, b: Prefix) {
    exists ip: Ip :: Covers(a, ip) && Covers(b, ip)
  }

  /** The two-way gateway test of `AddressData.add`. */
  predicate GatewayTest(gw: Ip, len: PrefixLen, otherGw: Ip, otherLen: PrefixLen) {
    || NetOf(otherGw, otherLen).addr == ApplyMask(gw, otherLen)
    || NetOf(gw, len).addr == ApplyMask(otherGw, len)
  }

  /**
   Masking each side's configured host address with the other's length detects exactly the
   pairs of networks that share an address, for every pair of prefix lengths.
   */
  lemma GatewayTestIsOverlap(gw: Ip, len: PrefixLen, otherGw: Ip, otherLen: PrefixLen)
    ensures GatewayTest(gw, len, otherGw, otherLen)
       <==> Overlap(NetOf(gw, len), NetOf(otherGw, otherLen))
  {
    var a, b := NetOf(gw, len), NetOf(otherGw, otherLen);
    NetOfCovers(gw, len);
    NetOfCovers(otherGw, otherLen);
    if b.addr == ApplyMask(gw, otherLen) {
      assert Covers(a, gw) && Covers(b, gw);
    } else if a.addr == ApplyMask(otherGw, len) {
      assert Covers(a, otherGw) && Covers(b, otherGw);
    } else if ip: Ip :| Covers(a, ip) && Covers(b, ip) {
      if len <= otherLen {
        ApplyMaskNested(ip, otherLen, len);
        ApplyMaskNested(otherGw, otherLen, len);
      } else {
        ApplyMaskNested(ip, len, otherLen);
        ApplyMaskNested(gw, len, otherLen);
      }
      assert false;
    }
  }
}
