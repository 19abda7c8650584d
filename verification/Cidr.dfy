/** IP addresses and networks, as Python's `ipaddress` has them. */
module Cidr {
  datatype Address = Address(version: int, value: nat)

  /** `base` is the lowest address of the block. */
  datatype Network = Network(version: int, base: nat, width: nat)

  /** The number of the block of `size` addresses that holds address `x`. */
  function Block(x: nat, size: nat): (q: nat)
    requires size > 0
  {
    x / size
  }

  lemma BlockBounds(x: nat, size: nat, q: nat)
    requires size > 0
    ensures Block(x, size) == q <==> q * size <= x < q * size + size
  {
    var k := x / size;
    assert x == k * size + x % size;
    if q < k {
      LessTimes(q, k, size);
    } else if k < q {
      LessTimes(k, q, size);
    }
  }

  lemma LessTimes(p: nat, q: nat, d: nat)
    requires p < q
    ensures p * d + d <= q * d
  {
    assert (q - p) * d >= d by {
      assert (q - p - 1) * d >= 0;
    }
  }

  function Pow2(n: nat): (p: nat)
    ensures p > 0
  {
    if n == 0 then 1 else 2 * Pow2(n - 1)
  }

  function Bits(version: int): nat {
    if version == 4 then 32 else 128
  }

  predicate ValidAddress(a: Address) {
    (a.version == 4 || a.version == 6) && a.value < Pow2(Bits(a.version))
  }

  /** The number of addresses in a block. */
  function Size(version: int, width: nat): (size: nat)
    ensures size > 0
  {
    if width <= Bits(version) then Pow2(Bits(version) - width) else 1
  }

  predicate ValidNetwork(n: Network) {
    && (n.version == 4 || n.version == 6)
    && n.width <= Bits(n.version)
    && n.base < Pow2(Bits(n.version))
    && Block(n.base, Size(n.version, n.width)) * Size(n.version, n.width) == n.base
  }

  /** `ip_network(f"{a}/{width}", strict=False)` */
  function NetworkOf(a: Address, width: nat): Network {
    Network(a.version, Block(a.value, Size(a.version, width)) * Size(a.version, width), width)
  }

  /** `a in n`: they agree on the first `width` bits. */
  predicate Contains(n: Network, a: Address) {
    && a.version == n.version
    && Block(a.value, Size(n.version, n.width)) == Block(n.base, Size(n.version, n.width))
  }

  function First(n: Network): Address {
    Address(n.version, n.base)
  }

  /** `broadcast_address` */
  function Last(n: Network): Address {
    Address(n.version, n.base + Size(n.version, n.width) - 1)
  }

  lemma {:induction false} Pow2Adds(m: nat, n: nat)
    ensures Pow2(m + n) == Pow2(m) * Pow2(n)
  {
    if m > 0 {
      Pow2Adds(m - 1, n);
      assert Pow2(m + n) == 2 * (Pow2(m - 1) * Pow2(n)) == 2 * Pow2(m - 1) * Pow2(n);
    }
  }

  /** Blocks of `big * small` addresses are made of `big` blocks of `small`. */
  lemma BlockOfBlock(x: nat, small: nat, big: nat)
    requires small > 0 && big > 0
    ensures big * small > 0 && Block(x, big * small) == Block(Block(x, small), big)
  {
    hide Block;
    var a := Block(x, small);
    var b := Block(a, big);
    assert big * small > 0;
    BlockBounds(x, small, a);
    BlockBounds(a, big, b);
    assert a * small >= b * big * small by { LessEqTimes(b * big, a, small); }
    assert a * small + small <= (b * big + big) * small by { LessTimes(a, b * big + big, small); }
    assert b * big * small == b * (big * small);
    assert (b * big + big) * small == b * (big * small) + big * small;
    BlockBounds(x, big * small, b);
  }

  lemma LessEqTimes(p: nat, q: nat, d: nat)
    requires p <= q
    ensures p * d <= q * d
  {
    if p < q {
      LessTimes(p, q, d);
    }
  }

  lemma BlockOfMultiple(k: nat, size: nat)
    requires size > 0
    ensures Block(k * size, size) == k
  {
    BlockBounds(k * size, size, k);
  }

  /** Two blocks that share an address are nested: the longer prefix is inside. */
  lemma {:induction false} BlocksNest(outer: Network, inner: Network, shared: Address, a: Address)
    requires outer.width <= inner.width <= Bits(outer.version)
    requires Contains(outer, shared) && Contains(inner, shared) && Contains(inner, a)
    ensures Contains(outer, a)
  {
    var small, ratio := Size(inner.version, inner.width), Pow2(inner.width - outer.width);
    Pow2Adds(inner.width - outer.width, Bits(outer.version) - inner.width);
    assert Size(outer.version, outer.width) == ratio * small;
    hide Pow2, Size, Block;
    BlockOfBlock(a.value, small, ratio);
    BlockOfBlock(shared.value, small, ratio);
  }

  /** A block holds exactly the addresses from its first to its last. */
  lemma {:induction false} BlockIsRange(n: Network, a: Address)
    requires ValidNetwork(n) && a.version == n.version
    ensures Contains(n, a) <==> First(n).value <= a.value <= Last(n).value
  {
    hide Pow2, Size, Block, Bits;
    var size := Size(n.version, n.width);
    BlockBounds(a.value, size, Block(n.base, size));
  }

  lemma FirstAndLastInside(n: Network)
    requires ValidNetwork(n)
    ensures Contains(n, First(n)) && Contains(n, Last(n))
  {
    BlockIsRange(n, First(n));
    BlockIsRange(n, Last(n));
    hide Pow2, Size, Block, Bits;
  }

  /** Masking off the host bits keeps the block. */
  lemma NetworkOfContains(a: Address, width: nat, b: Address)
    requires ValidAddress(a) && width <= Bits(a.version)
    ensures ValidNetwork(NetworkOf(a, width))
    ensures Contains(NetworkOf(a, width), b) <==>
      b.version == a.version && Block(b.value, Size(a.version, width)) == Block(a.value, Size(a.version, width))
  {
    hide Pow2, Size, Block, Bits;
    var size := Size(a.version, width);
    var q := Block(a.value, size);
    BlockBounds(a.value, size, q);
    BlockOfMultiple(q, size);
  }

  /** By value: the two addresses lie between the same multiples of the block's size. */
  lemma {:induction false} NetworkOfMeans(a: Address, width: nat, b: Address)
    requires ValidAddress(a) && width <= Bits(a.version)
    ensures var size := Size(a.version, width);
      Contains(NetworkOf(a, width), b) <==>
        && b.version == a.version
        && exists k: nat :: k * size <= a.value < k * size + size && k * size <= b.value < k * size + size
  {
    var size := Size(a.version, width);
    NetworkOfContains(a, width, b);
    BlockBounds(a.value, size, Block(a.value, size));
    BlockBounds(b.value, size, Block(a.value, size));
    hide Block, Size, NetworkOf, ValidNetwork, Contains;
    if k: nat :| k * size <= a.value < k * size + size && k * size <= b.value < k * size + size {
      BlockBounds(a.value, size, k);
      BlockBounds(b.value, size, k);
    }
  }

  /** A full-length prefix holds one address. */
  lemma HostBlock(a: Address, b: Address)
    requires ValidAddress(a)
    ensures ValidNetwork(NetworkOf(a, Bits(a.version)))
    ensures Contains(NetworkOf(a, Bits(a.version)), b) <==> a == b
  {
    assert Size(a.version, Bits(a.version)) == Pow2(0) == 1;
    hide Pow2, Size, Bits;
    NetworkOfContains(a, Bits(a.version), b);
  }

  /** The default route holds every address of its family. */
  lemma DefaultBlock(version: int, b: Address)
    requires ValidAddress(b) && b.version == version
    ensures ValidNetwork(Network(version, 0, 0)) && Contains(Network(version, 0, 0), b)
  {
    hide Pow2, Block;
    BlockBounds(b.value, Size(version, 0), 0);
    BlockBounds(0, Size(version, 0), 0);
  }

  /** A block is halved with each further bit, from all addresses of the family down to
    one; there are 2 to the 32 and 2 to the 128 of them. */
  lemma {:induction false} BlockSizes(version: int, width: nat)
    requires width < Bits(version)
    ensures Size(version, width) == 2 * Size(version, width + 1)
    ensures Size(version, Bits(version)) == 1
    ensures Size(version, 0) == if version == 4 then 0x1_0000_0000 else 0x1_0000_0000_0000_0000_0000_0000_0000_0000
  {
    LargePowers();
    Pow2Adds(120, 8);
    SmallPowers();
    assert Pow2(0) == 1;
  }

  // ------------------------------------------------------ the blocks named in the code

  /** 224.0.0.0/4 and ff00::/8 */
  function Multicast(version: int): Network {
    if version == 4 then Network(4, 14 * Pow2(28), 4) else Network(6, 255 * Pow2(120), 8)
  }

  /** 255.255.255.255 */
  function Broadcast(): Address {
    Address(4, Pow2(32) - 1)
  }

  predicate InMulticast(a: Address) {
    Contains(Multicast(a.version), a)
  }

  /** `ipv4_mapped`: ::ffff:a.b.c.d stands for the IPv4 address in its last 32 bits. */
  function Unmapped(a: Address): Address {
    if a.version == 6 && Block(a.value, Pow2(32)) == 65535
    then (BlockBounds(a.value, Pow2(32), 65535); Address(4, a.value - 65535 * Pow2(32)))
    else a
  }

  /** `is_multicast` and `is_unspecified` look through the mapping (since Python 3.13). */
  predicate IsMulticast(a: Address) {
    InMulticast(Unmapped(a))
  }

  predicate IsUnspecified(a: Address) {
    Unmapped(a).value == 0
  }

  lemma MappedIsLow()
    ensures 65536 * Pow2(32) <= Pow2(120)
  {
    Pow2Adds(8, 8);
    Pow2Adds(16, 32);
    Pow2Adds(72, 48);
    SmallPowers();
    hide Pow2;
    LessEqTimes(1, Pow2(72), Pow2(48));
  }

  lemma HighIsNotMapped(value: nat)
    requires Block(value, Pow2(120)) == 255
    ensures Block(value, Pow2(32)) != 65535
  {
    hide Pow2, Block;
    MappedIsLow();
    BlockBounds(value, Pow2(120), 255);
    BlockBounds(value, Pow2(32), 65535);
  }

  lemma LargePowers()
    ensures Pow2(28) == 0x1000_0000 && Pow2(32) == 0x1_0000_0000
    ensures Pow2(120) == 0x1_00_0000_0000_0000_0000_0000_0000_0000
  {
    SmallPowers();
    Pow2Adds(8, 8);
    Pow2Adds(16, 8);
    Pow2Adds(24, 4);
    Pow2Adds(28, 4);
    Pow2Adds(32, 28);
    Pow2Adds(60, 60);
  }

  /** The blocks by value: 224.0.0.0 to 239.255.255.255, ff00:: to the last address, and
    255.255.255.255. */
  lemma {:induction false} FixedBlocks(a: Address)
    requires ValidAddress(a)
    ensures a.version == 4 ==> (InMulticast(a) <==> 0xe000_0000 <= a.value <= 0xefff_ffff)
    ensures a.version == 6 ==>
      (InMulticast(a) <==> 0xff00_0000_0000_0000_0000_0000_0000_0000 <= a.value
                           <= 0xffff_ffff_ffff_ffff_ffff_ffff_ffff_ffff)
    ensures a == Broadcast() <==> a.version == 4 && a.value == 0xffff_ffff
  {
    LargePowers();
    MulticastIsValid(a.version);
    hide Pow2, Block, Contains;
    BlockIsRange(Multicast(a.version), a);
  }

  /** No address of ff00::/8 is a mapped one. */
  lemma MulticastIsNotMapped(a: Address)
    requires InMulticast(a)
    ensures IsMulticast(a)
  {
    hide Pow2, Block;
    if a.version == 6 {
      BlockOfMultiple(255, Pow2(120));
      assert Size(6, 8) == Pow2(120);
      HighIsNotMapped(a.value);
    }
  }

  lemma SmallPowers()
    ensures Pow2(4) == 16 && Pow2(8) == 256
  {
    Pow2Adds(4, 4);
  }

  lemma MulticastIsValid(version: int)
    requires version == 4 || version == 6
    ensures ValidNetwork(Multicast(version))
  {
    SmallPowers();
    Pow2Adds(4, 28);
    Pow2Adds(8, 120);
    hide Pow2, Block;
    if version == 4 {
      BlockOfMultiple(14, Pow2(28));
    } else {
      BlockOfMultiple(255, Pow2(120));
    }
  }

  /** A block below a multicast address that is at least as long is multicast throughout,
    so both of its ends are. */
  lemma {:induction false} BlockOfMulticast(n: Network, shared: Address)
    requires ValidNetwork(n) && Contains(n, shared) && InMulticast(shared)
    requires n.width >= Multicast(n.version).width
    ensures IsMulticast(First(n)) && IsMulticast(Last(n))
  {
    MulticastIsValid(n.version);
    FirstAndLastInside(n);
    hide Pow2, Block, Size;
    BlocksNest(Multicast(n.version), n, shared, First(n));
    BlocksNest(Multicast(n.version), n, shared, Last(n));
    MulticastIsNotMapped(First(n));
    MulticastIsNotMapped(Last(n));
  }

  /** Broadcast is outside the multicast block: 240.0.0.0/4 is not 224.0.0.0/4. */
  lemma BroadcastIsNotMulticast()
    ensures ValidAddress(Broadcast()) && !InMulticast(Broadcast())
    ensures !IsUnspecified(Broadcast())
  {
    Pow2Adds(4, 28);
    assert Pow2(4) == 16;
    assert Size(4, 4) == Pow2(28);
    hide Pow2, Size, Block;
    var size := Pow2(28);
    BlockBounds(Pow2(32) - 1, size, 15);
    BlockOfMultiple(14, size);
  }
}
