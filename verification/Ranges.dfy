/** Address ranges, and the two tables of ranges that addresses are judged by. */
module Ranges {
  import opened Wrappers

  const TWO32: nat := 0x1_0000_0000
  const TWO128: nat := 0x1_0000_0000_0000_0000_0000_0000_0000_0000

  type U32 = n: nat | n < TWO32
  type U128 = n: nat | n < TWO128

  datatype Ip = V4(v4: U32) | V6(v6: U128)

  datatype Cidr = Cidr4(base: U32, prefix: nat) | Cidr6(wide: U128, prefix: nat)

  function Pow2(n: nat): (r: nat)
    ensures r > 0
  {
    if n == 0 then 1 else 2 * Pow2(n - 1)
  }

  /** The leading `prefix` bits agree; the two families never match each other. */
  predicate Contains(net: Cidr, ip: Ip) {
    match (net, ip)
    case (Cidr4(base, prefix), V4(a)) => prefix <= 32 && a / Pow2(32 - prefix) == base / Pow2(32 - prefix)
    case (Cidr6(base, prefix), V6(a)) => prefix <= 128 && a / Pow2(128 - prefix) == base / Pow2(128 - prefix)
    case _ => false
  }

  predicate InAny(nets: seq<Cidr>, ip: Ip) {
    exists i :: 0 <= i < |nets| && Contains(nets[i], ip)
  }

  const RFC1918: seq<Cidr> := [Cidr4(0x0A00_0000, 8), Cidr4(0xAC10_0000, 12), Cidr4(0xC0A8_0000, 16)]
  const LOOPBACK4: Cidr := Cidr4(0x7F00_0000, 8)
  const LINK_LOCAL4: Cidr := Cidr4(0xA9FE_0000, 16)
  const LOOPBACK6: Cidr := Cidr6(1, 128)
  const UNIQUE_LOCAL: Cidr := Cidr6(0xFC00_0000_0000_0000_0000_0000_0000_0000, 7)
  const LINK_LOCAL6: Cidr := Cidr6(0xFE80_0000_0000_0000_0000_0000_0000_0000, 10)
  const MAPPED: Cidr := Cidr6(0xFFFF_0000_0000, 96)

  const PRIVATE_RANGES: seq<Cidr> :=
    RFC1918 + [LOOPBACK4, LINK_LOCAL4, LOOPBACK6, UNIQUE_LOCAL, LINK_LOCAL6]

  const BLOCKED4: seq<Cidr> :=
    [ Cidr4(0x0000_0000, 8),
      RFC1918[0],
      Cidr4(0x6440_0000, 10),
      LOOPBACK4,
      LINK_LOCAL4,
      RFC1918[1],
      Cidr4(0xC000_0000, 24),
      Cidr4(0xC000_0200, 24),
      RFC1918[2],
      Cidr4(0xC612_0000, 15),
      Cidr4(0xC633_6400, 24),
      Cidr4(0xCB00_7100, 24),
      Cidr4(0xE000_0000, 4),
      Cidr4(0xF000_0000, 4),
      Cidr4(0xFFFF_FFFF, 32) ]

  const BLOCKED6: seq<Cidr> :=
    [ Cidr6(0, 128),
      LOOPBACK6,
      MAPPED,
      Cidr6(0x0064_FF9B_0000_0000_0000_0000_0000_0000, 96),
      Cidr6(0x0064_FF9B_0001_0000_0000_0000_0000_0000, 48),
      Cidr6(0x0100_0000_0000_0000_0000_0000_0000_0000, 64),
      Cidr6(0x2001_0DB8_0000_0000_0000_0000_0000_0000, 32),
      Cidr6(0x2002_0000_0000_0000_0000_0000_0000_0000, 16),
      UNIQUE_LOCAL,
      LINK_LOCAL6,
      Cidr6(0xFF00_0000_0000_0000_0000_0000_0000_0000, 8) ]

  const DEFAULT_BLOCKED: seq<Cidr> := BLOCKED4 + BLOCKED6

  // ------------------------------------------------------- what a range holds

  lemma BlockStart(a: nat, size: nat)
    requires 0 < size
    ensures a - a % size == size * (a / size)
    ensures size * (a / size) <= a < size * (a / size) + size
  {
  }

  lemma SameBlock(a: nat, b: nat, size: nat)
    requires 0 < size
    ensures a / size == b / size <==> b - b % size <= a < b - b % size + size
  {
    BlockStart(a, size);
    BlockStart(b, size);
    MulGap(size, a / size, b / size);
    MulGap(size, b / size, a / size);
  }

  /** A range holds exactly the addresses from its network address up to its size. */
  lemma ContainsIsRange(net: Cidr, ip: Ip)
    requires net.prefix <= if net.Cidr4? then 32 else 128
    ensures Contains(net, ip) <==>
            match (net, ip)
            case (Cidr4(base, prefix), V4(a)) => InBlock(a, base, Pow2(32 - prefix))
            case (Cidr6(base, prefix), V6(a)) => InBlock(a, base, Pow2(128 - prefix))
            case _ => false
  {
    match (net, ip)
    case (Cidr4(base, prefix), V4(a)) => SameBlock(a, base, Pow2(32 - prefix));
    case (Cidr6(base, prefix), V6(a)) => SameBlock(a, base, Pow2(128 - prefix));
    case _ =>
  }

  predicate InBlock(a: nat, base: nat, size: nat)
    requires 0 < size
  {
    base - base % size <= a < base - base % size + size
  }

  lemma PowOf32()
    ensures Pow2(32) == TWO32
  {
    assert Pow2(8) == 256;
    assert Pow2(16) == 0x1_0000;
    assert Pow2(24) == 0x100_0000;
  }

  // ------------------------------------------- the two tables, in plain notation

  lemma Powers()
    ensures Pow2(0) == 1 && Pow2(8) == 0x100 && Pow2(16) == 0x1_0000 && Pow2(17) == 0x2_0000
    ensures Pow2(20) == 0x10_0000 && Pow2(22) == 0x40_0000 && Pow2(24) == 0x100_0000 && Pow2(28) == 0x1000_0000
  {
    assert Pow2(8) == 0x100;
    assert Pow2(16) == 0x1_0000;
    assert Pow2(24) == 0x100_0000;
  }

  /** A range whose base is aligned holds the addresses from its base on. */
  lemma Aligned4(base: U32, prefix: nat, size: nat, x: U32)
    requires prefix <= 32 && size == Pow2(32 - prefix) && base % size == 0
    ensures Contains(Cidr4(base, prefix), V4(x)) <==> base <= x < base + size
  {
    ContainsIsRange(Cidr4(base, prefix), V4(x));
  }

  /** The address `a.b.c.d`. */
  function Dotted(a: nat, b: nat, c: nat, d: nat): U32
    requires a < 256 && b < 256 && c < 256 && d < 256
  {
    a * 0x100_0000 + b * 0x1_0000 + c * 0x100 + d
  }

  /** What each range of the IPv4 table holds. */
  lemma Entry4(i: nat, x: U32)
    requires i < |BLOCKED4|
    ensures Contains(BLOCKED4[i], V4(x)) <==>
            match i
            case 0 => 0x0000_0000 <= x < 0x0100_0000
            case 1 => 0x0A00_0000 <= x < 0x0B00_0000
            case 2 => 0x6440_0000 <= x < 0x6480_0000
            case 3 => 0x7F00_0000 <= x < 0x8000_0000
            case 4 => 0xA9FE_0000 <= x < 0xA9FF_0000
            case 5 => 0xAC10_0000 <= x < 0xAC20_0000
            case 6 => 0xC000_0000 <= x < 0xC000_0100
            case 7 => 0xC000_0200 <= x < 0xC000_0300
            case 8 => 0xC0A8_0000 <= x < 0xC0A9_0000
            case 9 => 0xC612_0000 <= x < 0xC614_0000
            case 10 => 0xC633_6400 <= x < 0xC633_6500
            case 11 => 0xCB00_7100 <= x < 0xCB00_7200
            case 12 => 0xE000_0000 <= x < 0xF000_0000
            case 13 => 0xF000_0000 <= x < 0x1_0000_0000
            case _ => 0xFFFF_FFFF <= x < 0x1_0000_0000
  {
    Powers();
    match i
    case 0 => Aligned4(0x0000_0000, 8, 0x100_0000, x);
    case 1 => Aligned4(0x0A00_0000, 8, 0x100_0000, x);
    case 2 => Aligned4(0x6440_0000, 10, 0x40_0000, x);
    case 3 => Aligned4(0x7F00_0000, 8, 0x100_0000, x);
    case 4 => Aligned4(0xA9FE_0000, 16, 0x1_0000, x);
    case 5 => Aligned4(0xAC10_0000, 12, 0x10_0000, x);
    case 6 => Aligned4(0xC000_0000, 24, 0x100, x);
    case 7 => Aligned4(0xC000_0200, 24, 0x100, x);
    case 8 => Aligned4(0xC0A8_0000, 16, 0x1_0000, x);
    case 9 => Aligned4(0xC612_0000, 15, 0x2_0000, x);
    case 10 => Aligned4(0xC633_6400, 24, 0x100, x);
    case 11 => Aligned4(0xCB00_7100, 24, 0x100, x);
    case 12 => Aligned4(0xE000_0000, 4, 0x1000_0000, x);
    case 13 => Aligned4(0xF000_0000, 4, 0x1000_0000, x);
    case _ => Aligned4(0xFFFF_FFFF, 32, 1, x);
  }
  predicate Private4(a: nat, b: nat) {
    a == 10 || a == 127 || (a == 169 && b == 254) || (a == 172 && 16 <= b < 32) || (a == 192 && b == 168)
  }

  /** Besides private space: this network, carrier-grade, protocol, test, benchmark, multicast and up. */
  predicate Reserved4(a: nat, b: nat, c: nat) {
    || Private4(a, b) || a == 0 || (a == 100 && 64 <= b < 128)
    || (a == 192 && b == 0 && (c == 0 || c == 2))
    || (a == 198 && (b == 18 || b == 19 || (b == 51 && c == 100))) || (a == 203 && b == 0 && c == 113)
    || 224 <= a
  }

  predicate Holds4(i: nat, a: nat, b: nat, c: nat, d: nat) {
    match i
    case 0 => a == 0
    case 1 => a == 10
    case 2 => a == 100 && 64 <= b < 128
    case 3 => a == 127
    case 4 => a == 169 && b == 254
    case 5 => a == 172 && 16 <= b < 32
    case 6 => a == 192 && b == 0 && c == 0
    case 7 => a == 192 && b == 0 && c == 2
    case 8 => a == 192 && b == 168
    case 9 => a == 198 && 18 <= b < 20
    case 10 => a == 198 && b == 51 && c == 100
    case 11 => a == 203 && b == 0 && c == 113
    case 12 => 224 <= a < 240
    case 13 => 240 <= a
    case _ => a == b == c == d == 255
  }

  /** What each range of the IPv4 table holds, byte by byte. */
  lemma Bytes4(i: nat, a: nat, b: nat, c: nat, d: nat)
    requires i < |BLOCKED4| && a < 256 && b < 256 && c < 256 && d < 256
    ensures Contains(BLOCKED4[i], V4(Dotted(a, b, c, d))) <==> Holds4(i, a, b, c, d)
  {
    if i in {6, 7, 10, 11} {
      ThreeBytes4(i, a, b, c, d);
    } else {
      Entry4(i, Dotted(a, b, c, d));
    }
  }

  lemma ByteIs(u: nat, c: nat, v: nat, r: nat)
    requires c < 256 && r < 256
    ensures u * 256 + c == v * 256 + r <==> u == v && c == r
  {
  }

  lemma UpperThree(a: nat, b: nat, c: nat, d: nat, p: nat, q: nat, r: nat)
    requires a < 256 && b < 256 && c < 256 && d < 256 && p < 256 && q < 256 && r < 256
    ensures Dotted(p, q, r, 0) <= Dotted(a, b, c, d) <= Dotted(p, q, r, 255) <==> a == p && b == q && c == r
  {
    var t, u := (a * 256 + b) * 256 + c, (p * 256 + q) * 256 + r;
    assert Dotted(a, b, c, d) == t * 256 + d && Dotted(p, q, r, 0) == u * 256 && Dotted(p, q, r, 255) == u * 256 + 255;
    Upper(t, d, u);
    ByteIs(a * 256 + b, c, p * 256 + q, r);
    ByteIs(a, b, p, q);
  }

  lemma Upper(t: nat, d: nat, u: nat)
    requires d < 256
    ensures u * 256 <= t * 256 + d <= u * 256 + 255 <==> t == u
  {
  }

  lemma ThreeBytes4(i: nat, a: nat, b: nat, c: nat, d: nat)
    requires i in {6, 7, 10, 11} && a < 256 && b < 256 && c < 256 && d < 256
    ensures Contains(BLOCKED4[i], V4(Dotted(a, b, c, d))) <==> Holds4(i, a, b, c, d)
  {
    Entry4(i, Dotted(a, b, c, d));
    UpperThree(a, b, c, d, 192, 0, 0);
    UpperThree(a, b, c, d, 192, 0, 2);
    UpperThree(a, b, c, d, 198, 51, 100);
    UpperThree(a, b, c, d, 203, 0, 113);
  }

  lemma NoFamilyMix(ip: Ip)
    ensures ip.V4? ==> !InAny(BLOCKED6, ip)
    ensures ip.V6? ==> !InAny(BLOCKED4, ip)
  {
  }

  /** Strict mode's table blocks exactly the reserved IPv4 addresses. */
  lemma Blocked4Exactly(a: nat, b: nat, c: nat, d: nat)
    requires a < 256 && b < 256 && c < 256 && d < 256
    ensures InAny(DEFAULT_BLOCKED, V4(Dotted(a, b, c, d))) <==> Reserved4(a, b, c)
  {
    InAnyConcat(BLOCKED4, BLOCKED6, V4(Dotted(a, b, c, d)));
    NoFamilyMix(V4(Dotted(a, b, c, d)));
    forall i | 0 <= i < |BLOCKED4|
      ensures Contains(BLOCKED4[i], V4(Dotted(a, b, c, d))) ==> Reserved4(a, b, c)
    {
      Bytes4(i, a, b, c, d);
    }
    if Reserved4(a, b, c) {
      Bytes4(Place4(a, b, c), a, b, c, d);
    }
  }

  /** The range of the table that holds a reserved address. */
  function Place4(a: nat, b: nat, c: nat): (i: nat)
    requires Reserved4(a, b, c)
    ensures i < |BLOCKED4|
  {
    if a == 0 then 0 else if a == 10 then 1 else if a == 100 then 2 else if a == 127 then 3 else if a == 169 then 4
    else if a == 172 then 5 else if a == 192 && b == 0 && c == 0 then 6 else if a == 192 && b == 0 then 7
    else if a == 192 then 8 else if a == 198 && b < 20 then 9 else if a == 198 then 10 else if a == 203 then 11
    else if a < 240 then 12 else 13
  }

  /** Where the private IPv4 ranges stand in the blocked table. */
  function Origin(i: nat): nat {
    match i
    case 0 => 1
    case 1 => 5
    case 2 => 8
    case 3 => 3
    case _ => 4
  }

  lemma PrivateEntry4(i: nat, a: nat, b: nat, c: nat, d: nat)
    requires i < 8 && a < 256 && b < 256 && c < 256 && d < 256
    ensures Contains(PRIVATE_RANGES[i], V4(Dotted(a, b, c, d))) <==> i < 5 && Holds4(Origin(i), a, b, c, d)
  {
    PrivatePlaces();
    if i < 5 {
      Bytes4(Origin(i), a, b, c, d);
    }
  }

  /** Permissive mode's table holds exactly the private IPv4 addresses. */
  lemma Private4Exactly(a: nat, b: nat, c: nat, d: nat)
    requires a < 256 && b < 256 && c < 256 && d < 256
    ensures InAny(PRIVATE_RANGES, V4(Dotted(a, b, c, d))) <==> Private4(a, b)
  {
    var ip := V4(Dotted(a, b, c, d));
    if i :| 0 <= i < |PRIVATE_RANGES| && Contains(PRIVATE_RANGES[i], ip) {
      PrivatePlaces();
      PrivateEntry4(i, a, b, c, d);
    }
    if Private4(a, b) {
      PrivateEntry4(
        if a == 10 then 0 else if a == 172 then 1 else if a == 192 then 2 else if a == 127 then 3 else 4, a, b, c, d);
    }
  }

  lemma Byte(n: nat)
    ensures Pow2(n + 8) == 0x100 * Pow2(n)
  {
    assert Pow2(n + 2) == 4 * Pow2(n);
    assert Pow2(n + 4) == 16 * Pow2(n);
    assert Pow2(n + 6) == 64 * Pow2(n);
  }

  /** Shifting by the widths the IPv6 table needs. */
  lemma WidePowers(n: nat)
    ensures Pow2(n + 32) == TWO32 * Pow2(n)
    ensures Pow2(n + 64) == 0x1_0000_0000_0000_0000 * Pow2(n)
    ensures Pow2(n + 80) == 0x1_0000_0000_0000_0000_0000 * Pow2(n)
    ensures Pow2(n + 96) == 0x1_0000_0000_0000_0000_0000_0000 * Pow2(n)
    ensures Pow2(n + 112) == 0x1_0000_0000_0000_0000_0000_0000_0000 * Pow2(n)
    ensures Pow2(n + 118) == 0x40_0000_0000_0000_0000_0000_0000_0000 * Pow2(n)
    ensures Pow2(n + 120) == 0x100_0000_0000_0000_0000_0000_0000_0000 * Pow2(n)
    ensures Pow2(n + 121) == 0x200_0000_0000_0000_0000_0000_0000_0000 * Pow2(n)
  {
    Word(n);
    Word(n + 16);
    Word(n + 32);
    Word(n + 48);
    Word(n + 64);
    Word(n + 80);
    Word(n + 96);
    Byte(n + 112);
    assert Pow2(n + 114) == 4 * Pow2(n + 112);
    assert Pow2(n + 116) == 16 * Pow2(n + 112);
  }

  lemma Word(n: nat)
    ensures Pow2(n + 16) == 0x1_0000 * Pow2(n)
  {
    Byte(n);
    Byte(n + 8);
  }

  lemma Multiple(size: nat, q: nat)
    requires 0 < size
    ensures (size * q) % size == 0
  {
    var p := (size * q) / size;
    BlockStart(size * q, size);
    MulGap(size, p, q);
    MulGap(size, q, p);
  }

  /** A range whose base is the `q`-th multiple of its size. */
  lemma Aligned6(net: Cidr, q: nat, size: nat, x: U128)
    requires net.Cidr6? && net.prefix <= 128 && size == Pow2(128 - net.prefix) && net.wide == size * q
    ensures Contains(net, V6(x)) <==> net.wide <= x < net.wide + size
  {
    Multiple(size, q);
    ContainsIsRange(net, V6(x));
  }

  /** The bounds of each range of the IPv6 table. */
  predicate Within6(i: nat, x: nat) {
    match i
    case 0 => 0x0 <= x < 0x1
    case 1 => 0x1 <= x < 0x2
    case 2 => 0xFFFF_0000_0000 <= x < 0x1_0000_0000_0000
    case 3 => 0x64_FF9B_0000_0000_0000_0000_0000_0000 <= x < 0x64_FF9B_0000_0000_0000_0001_0000_0000
    case 4 => 0x64_FF9B_0001_0000_0000_0000_0000_0000 <= x < 0x64_FF9B_0002_0000_0000_0000_0000_0000
    case 5 => 0x100_0000_0000_0000_0000_0000_0000_0000 <= x < 0x100_0000_0000_0001_0000_0000_0000_0000
    case 6 => 0x2001_0DB8_0000_0000_0000_0000_0000_0000 <= x < 0x2001_0DB9_0000_0000_0000_0000_0000_0000
    case 7 => 0x2002_0000_0000_0000_0000_0000_0000_0000 <= x < 0x2003_0000_0000_0000_0000_0000_0000_0000
    case 8 => 0xFC00_0000_0000_0000_0000_0000_0000_0000 <= x < 0xFE00_0000_0000_0000_0000_0000_0000_0000
    case 9 => 0xFE80_0000_0000_0000_0000_0000_0000_0000 <= x < 0xFEC0_0000_0000_0000_0000_0000_0000_0000
    case _ => 0xFF00_0000_0000_0000_0000_0000_0000_0000 <= x < 0x1_0000_0000_0000_0000_0000_0000_0000_0000
  }

  /** The size of each range of the IPv6 table. */
  function Size6(i: nat): nat {
    match i
    case 0 => 1
    case 1 => 1
    case 2 => 0x1_0000_0000
    case 3 => 0x1_0000_0000
    case 4 => 0x1_0000_0000_0000_0000_0000
    case 5 => 0x1_0000_0000_0000_0000
    case 6 => 0x1_0000_0000_0000_0000_0000_0000
    case 7 => 0x1_0000_0000_0000_0000_0000_0000_0000
    case 8 => 0x200_0000_0000_0000_0000_0000_0000_0000
    case 9 => 0x40_0000_0000_0000_0000_0000_0000_0000
    case _ => 0x100_0000_0000_0000_0000_0000_0000_0000
  }

  /** Which multiple of its size each range begins at. */
  function Index6(i: nat): nat {
    match i
    case 0 => 0
    case 1 => 1
    case 2 => 0xFFFF
    case 3 => 0x64_FF9B_0000_0000_0000_0000
    case 4 => 0x64_FF9B_0001
    case 5 => 0x100_0000_0000_0000
    case 6 => 0x2001_0DB8
    case 7 => 0x2002
    case 8 => 0x7E
    case 9 => 0x3FA
    case _ => 0xFF
  }

  /** How many bits each range of the IPv6 table leaves open. */
  function Bits6(i: nat): nat {
    match i
    case 0 => 0
    case 1 => 0
    case 2 => 32
    case 3 => 32
    case 4 => 80
    case 5 => 64
    case 6 => 96
    case 7 => 112
    case 8 => 121
    case 9 => 118
    case _ => 120
  }

  lemma Sizes6(i: nat)
    requires i < |BLOCKED6|
    ensures BLOCKED6[i].Cidr6? && BLOCKED6[i].prefix <= 128 && Pow2(128 - BLOCKED6[i].prefix) == Size6(i)
  {
    assert BLOCKED6[i].Cidr6? && BLOCKED6[i].prefix + Bits6(i) == 128;
    BitsOfSize6(i, 0);
  }

  /** `n` is zero: a literal there would be unfolded bit by bit. */
  lemma BitsOfSize6(i: nat, n: nat)
    requires n == 0
    ensures Pow2(Bits6(i)) == Size6(i)
  {
    WidePowers(n);
    assert Pow2(n) == 1;
    assert Bits6(i) == n + Bits6(i);
  }

  lemma Bases6(i: nat)
    requires i < |BLOCKED6|
    ensures BLOCKED6[i].Cidr6? && BLOCKED6[i].wide == Size6(i) * Index6(i)
    ensures forall x: nat :: Within6(i, x) <==> BLOCKED6[i].wide <= x < BLOCKED6[i].wide + Size6(i)
  {
  }

  /** What each range of the IPv6 table holds. */
  lemma Entry6(i: nat, x: U128)
    requires i < |BLOCKED6|
    ensures Contains(BLOCKED6[i], V6(x)) <==> Within6(i, x)
  {
    Sizes6(i);
    Bases6(i);
    Aligned6(BLOCKED6[i], Index6(i), Size6(i), x);
  }

  /** The address with the upper half `hi` and the lower half `low`. */
  function Halved(hi: nat, low: nat): U128
    requires hi < 0x1_0000_0000_0000_0000 && low < 0x1_0000_0000_0000_0000
  {
    hi * 0x1_0000_0000_0000_0000 + low
  }

  /** Two 16-bit groups. */
  function Pair(g: nat, h: nat): (p: nat)
    requires g < 0x1_0000 && h < 0x1_0000
    ensures p < TWO32
  {
    g * 0x1_0000 + h
  }

  /** The upper half `g0:g1:g2:g3`. */
  function Groups(g0: nat, g1: nat, g2: nat, g3: nat): (hi: nat)
    requires g0 < 0x1_0000 && g1 < 0x1_0000 && g2 < 0x1_0000 && g3 < 0x1_0000
    ensures hi < 0x1_0000_0000_0000_0000
  {
    Pair(g0, g1) * TWO32 + Pair(g2, g3)
  }

  lemma Halves6(i: nat, hi: nat, low: nat)
    requires i < |BLOCKED6| && hi < 0x1_0000_0000_0000_0000 && low < 0x1_0000_0000_0000_0000
    ensures Contains(BLOCKED6[i], V6(Halved(hi, low))) <==>
            match i
            case 0 => hi == 0 && low == 0
            case 1 => hi == 0 && low == 1
            case 2 => hi == 0 && 0xFFFF_0000_0000 <= low < 0x1_0000_0000_0000
            case 3 => hi == 0x0064_FF9B_0000_0000 && low < TWO32
            case 4 => 0x0064_FF9B_0001_0000 <= hi < 0x0064_FF9B_0002_0000
            case 5 => hi == 0x0100_0000_0000_0000
            case 6 => 0x2001_0DB8_0000_0000 <= hi < 0x2001_0DB9_0000_0000
            case 7 => 0x2002_0000_0000_0000 <= hi < 0x2003_0000_0000_0000
            case 8 => 0xFC00_0000_0000_0000 <= hi < 0xFE00_0000_0000_0000
            case 9 => 0xFE80_0000_0000_0000 <= hi < 0xFEC0_0000_0000_0000
            case _ => 0xFF00_0000_0000_0000 <= hi
  {
    Entry6(i, Halved(hi, low));
  }

  /** Loopback, unique local and link-local. */
  predicate Private6(g0: nat, g1: nat, g2: nat, g3: nat, low: nat) {
    || (g0 == g1 == g2 == g3 == 0 && low == 1)
    || 0xFC00 <= g0 < 0xFE00 || 0xFE80 <= g0 < 0xFEC0
  }

  /** Besides private space: unspecified, mapped, translation, discard, documentation, 6to4, multicast. */
  predicate Reserved6(g0: nat, g1: nat, g2: nat, g3: nat, low: nat) {
    || Private6(g0, g1, g2, g3, low)
    || (g0 == g1 == g2 == g3 == 0 && (low == 0 || 0xFFFF_0000_0000 <= low < 0x1_0000_0000_0000))
    || (g0 == 0x64 && g1 == 0xFF9B && ((g2 == g3 == 0 && low < TWO32) || g2 == 1))
    || (g0 == 0x100 && g1 == g2 == g3 == 0)
    || (g0 == 0x2001 && g1 == 0xDB8) || g0 == 0x2002 || 0xFF00 <= g0
  }

  predicate Holds6(i: nat, g0: nat, g1: nat, g2: nat, g3: nat, low: nat) {
    match i
    case 0 => g0 == g1 == g2 == g3 == low == 0
    case 1 => g0 == g1 == g2 == g3 == 0 && low == 1
    case 2 => g0 == g1 == g2 == g3 == 0 && 0xFFFF_0000_0000 <= low < 0x1_0000_0000_0000
    case 3 => g0 == 0x64 && g1 == 0xFF9B && g2 == g3 == 0 && low < TWO32
    case 4 => g0 == 0x64 && g1 == 0xFF9B && g2 == 1
    case 5 => g0 == 0x100 && g1 == g2 == g3 == 0
    case 6 => g0 == 0x2001 && g1 == 0xDB8
    case 7 => g0 == 0x2002
    case 8 => 0xFC00 <= g0 < 0xFE00
    case 9 => 0xFE80 <= g0 < 0xFEC0
    case _ => 0xFF00 <= g0
  }

  lemma PairIs(g: nat, h: nat, p: nat, q: nat)
    requires g < 0x1_0000 && h < 0x1_0000 && p < 0x1_0000 && q < 0x1_0000
    ensures Pair(g, h) == p * 0x1_0000 + q <==> g == p && h == q
  {
  }

  lemma PairFrom(g: nat, h: nat, p: nat)
    requires g < 0x1_0000 && h < 0x1_0000
    ensures p * 0x1_0000 <= Pair(g, h) <==> p <= g
  {
  }

  lemma PairsAre(a: nat, b: nat, p: nat, q: nat)
    requires a < TWO32 && b < TWO32 && p < TWO32 && q < TWO32
    ensures a * TWO32 + b == p * TWO32 + q <==> a == p && b == q
  {
  }

  lemma PairsFrom(a: nat, b: nat, p: nat)
    requires a < TWO32 && b < TWO32
    ensures p * TWO32 <= a * TWO32 + b <==> p <= a
  {
  }

  lemma GroupsAre(g0: nat, g1: nat, g2: nat, g3: nat, p0: nat, p1: nat, p2: nat, p3: nat)
    requires g0 < 0x1_0000 && g1 < 0x1_0000 && g2 < 0x1_0000 && g3 < 0x1_0000
    requires p0 < 0x1_0000 && p1 < 0x1_0000 && p2 < 0x1_0000 && p3 < 0x1_0000
    ensures Groups(g0, g1, g2, g3) == Groups(p0, p1, p2, p3) <==> g0 == p0 && g1 == p1 && g2 == p2 && g3 == p3
  {
    PairsAre(Pair(g0, g1), Pair(g2, g3), Pair(p0, p1), Pair(p2, p3));
    PairIs(g0, g1, p0, p1);
    PairIs(g2, g3, p2, p3);
  }

  lemma WholeGroups(g0: nat, g1: nat, g2: nat, g3: nat)
    requires g0 < 0x1_0000 && g1 < 0x1_0000 && g2 < 0x1_0000 && g3 < 0x1_0000
    ensures Groups(g0, g1, g2, g3) == 0 <==> g0 == g1 == g2 == g3 == 0
    ensures Groups(g0, g1, g2, g3) == 0x0064_FF9B_0000_0000 <==> g0 == 0x64 && g1 == 0xFF9B && g2 == g3 == 0
    ensures Groups(g0, g1, g2, g3) == 0x0100_0000_0000_0000 <==> g0 == 0x100 && g1 == g2 == g3 == 0
  {
    GroupsAre(g0, g1, g2, g3, 0, 0, 0, 0);
    GroupsAre(g0, g1, g2, g3, 0x64, 0xFF9B, 0, 0);
    GroupsAre(g0, g1, g2, g3, 0x100, 0, 0, 0);
  }

  /** What each range of the IPv6 table holds, group by group. */
  lemma Groups6(i: nat, g0: nat, g1: nat, g2: nat, g3: nat, low: nat)
    requires i < |BLOCKED6| && low < 0x1_0000_0000_0000_0000
    requires g0 < 0x1_0000 && g1 < 0x1_0000 && g2 < 0x1_0000 && g3 < 0x1_0000
    ensures Contains(BLOCKED6[i], V6(Halved(Groups(g0, g1, g2, g3), low))) <==> Holds6(i, g0, g1, g2, g3, low)
  {
    Halves6(i, Groups(g0, g1, g2, g3), low);
    if i == 4 {
      Translated(g0, g1, g2, g3);
    } else if i < 6 {
      WholeGroups(g0, g1, g2, g3);
    } else {
      UpperGroups(i, g0, g1, g2, g3);
    }
  }

  lemma Translated(g0: nat, g1: nat, g2: nat, g3: nat)
    requires g0 < 0x1_0000 && g1 < 0x1_0000 && g2 < 0x1_0000 && g3 < 0x1_0000
    ensures 0x0064_FF9B_0001_0000 <= Groups(g0, g1, g2, g3) < 0x0064_FF9B_0002_0000 <==>
            g0 == 0x64 && g1 == 0xFF9B && g2 == 1
  {
    var a, b := Pair(g0, g1), Pair(g2, g3);
    PairsFrom(a, b, 0x0064_FF9B);
    PairsFrom(a, b, 0x0064_FF9C);
    PairIs(g0, g1, 0x64, 0xFF9B);
    PairFrom(g2, g3, 1);
    PairFrom(g2, g3, 2);
  }

  lemma UpperGroups(i: nat, g0: nat, g1: nat, g2: nat, g3: nat)
    requires 6 <= i && g0 < 0x1_0000 && g1 < 0x1_0000 && g2 < 0x1_0000 && g3 < 0x1_0000
    ensures match i
            case 6 => 0x2001_0DB8_0000_0000 <= Groups(g0, g1, g2, g3) < 0x2001_0DB9_0000_0000 <==>
                      g0 == 0x2001 && g1 == 0xDB8
            case 7 => 0x2002_0000_0000_0000 <= Groups(g0, g1, g2, g3) < 0x2003_0000_0000_0000 <==> g0 == 0x2002
            case 8 => 0xFC00_0000_0000_0000 <= Groups(g0, g1, g2, g3) < 0xFE00_0000_0000_0000 <==>
                      0xFC00 <= g0 < 0xFE00
            case 9 => 0xFE80_0000_0000_0000 <= Groups(g0, g1, g2, g3) < 0xFEC0_0000_0000_0000 <==>
                      0xFE80 <= g0 < 0xFEC0
            case _ => 0xFF00_0000_0000_0000 <= Groups(g0, g1, g2, g3) <==> 0xFF00 <= g0
  {
    var (first, last) := match i
      case 6 => (0x2001_0DB8, 0x2001_0DB9)
      case 7 => (0x2002_0000, 0x2003_0000)
      case 8 => (0xFC00_0000, 0xFE00_0000)
      case 9 => (0xFE80_0000, 0xFEC0_0000)
      case _ => (0xFF00_0000, 0x1_0000_0000);
    PairsFrom(Pair(g0, g1), Pair(g2, g3), first);
    PairsFrom(Pair(g0, g1), Pair(g2, g3), last);
    if i == 6 {
      PairIs(g0, g1, 0x2001, 0xDB8);
    } else {
      PairFrom(g0, g1, first / 0x1_0000);
      PairFrom(g0, g1, last / 0x1_0000);
    }
  }

  function Place6(g0: nat, g1: nat, g2: nat, low: nat): (i: nat)
    ensures i < |BLOCKED6|
  {
    if g0 == 0 then (if low == 0 then 0 else if low == 1 then 1 else 2)
    else if g0 == 0x64 then (if g2 == 0 then 3 else 4)
    else if g0 == 0x100 then 5 else if g0 == 0x2001 then 6 else if g0 == 0x2002 then 7
    else if g0 < 0xFE00 then 8 else if g0 < 0xFF00 then 9 else 10
  }

  lemma HoldsReserved6(i: nat, g0: nat, g1: nat, g2: nat, g3: nat, low: nat)
    ensures Holds6(i, g0, g1, g2, g3, low) ==> Reserved6(g0, g1, g2, g3, low)
    ensures Reserved6(g0, g1, g2, g3, low) ==> Holds6(Place6(g0, g1, g2, low), g0, g1, g2, g3, low)
  {
  }

  /** Strict mode's table blocks exactly the reserved IPv6 addresses. */
  lemma Blocked6Exactly(g0: nat, g1: nat, g2: nat, g3: nat, low: nat)
    requires low < 0x1_0000_0000_0000_0000
    requires g0 < 0x1_0000 && g1 < 0x1_0000 && g2 < 0x1_0000 && g3 < 0x1_0000
    ensures InAny(DEFAULT_BLOCKED, V6(Halved(Groups(g0, g1, g2, g3), low))) <==> Reserved6(g0, g1, g2, g3, low)
  {
    var ip := V6(Halved(Groups(g0, g1, g2, g3), low));
    InAnyConcat(BLOCKED4, BLOCKED6, ip);
    NoFamilyMix(ip);
    InTable6(g0, g1, g2, g3, low);
  }

  lemma InTable6(g0: nat, g1: nat, g2: nat, g3: nat, low: nat)
    requires low < 0x1_0000_0000_0000_0000
    requires g0 < 0x1_0000 && g1 < 0x1_0000 && g2 < 0x1_0000 && g3 < 0x1_0000
    ensures InAny(BLOCKED6, V6(Halved(Groups(g0, g1, g2, g3), low))) <==> Reserved6(g0, g1, g2, g3, low)
  {
    var ip := V6(Halved(Groups(g0, g1, g2, g3), low));
    if i :| 0 <= i < |BLOCKED6| && Contains(BLOCKED6[i], ip) {
      Groups6(i, g0, g1, g2, g3, low);
      HoldsReserved6(i, g0, g1, g2, g3, low);
    }
    var place := Place6(g0, g1, g2, low);
    Groups6(place, g0, g1, g2, g3, low);
    HoldsReserved6(place, g0, g1, g2, g3, low);
  }

  /** Permissive mode's table holds exactly the private IPv6 addresses. */
  lemma Private6Exactly(g0: nat, g1: nat, g2: nat, g3: nat, low: nat)
    requires low < 0x1_0000_0000_0000_0000
    requires g0 < 0x1_0000 && g1 < 0x1_0000 && g2 < 0x1_0000 && g3 < 0x1_0000
    ensures InAny(PRIVATE_RANGES, V6(Halved(Groups(g0, g1, g2, g3), low))) <==> Private6(g0, g1, g2, g3, low)
  {
    var ip := V6(Halved(Groups(g0, g1, g2, g3), low));
    PrivatePlaces();
    assert forall i :: 0 <= i < 5 ==> !Contains(PRIVATE_RANGES[i], ip);
    Groups6(1, g0, g1, g2, g3, low);
    Groups6(8, g0, g1, g2, g3, low);
    Groups6(9, g0, g1, g2, g3, low);
    assert Contains(PRIVATE_RANGES[5], ip) <==> Contains(BLOCKED6[1], ip);
    assert Contains(PRIVATE_RANGES[6], ip) <==> Contains(BLOCKED6[8], ip);
    assert Contains(PRIVATE_RANGES[7], ip) <==> Contains(BLOCKED6[9], ip);
  }

  /** Where each private range stands in the blocked tables. */
  lemma PrivatePlaces()
    ensures |PRIVATE_RANGES| == 8
    ensures PRIVATE_RANGES[0] == BLOCKED4[1] && PRIVATE_RANGES[1] == BLOCKED4[5] && PRIVATE_RANGES[2] == BLOCKED4[8]
    ensures PRIVATE_RANGES[3] == BLOCKED4[3] && PRIVATE_RANGES[4] == BLOCKED4[4]
    ensures PRIVATE_RANGES[5] == BLOCKED6[1] && PRIVATE_RANGES[6] == BLOCKED6[8] && PRIVATE_RANGES[7] == BLOCKED6[9]
  {
  }

  lemma PrivateIsBlocked(ip: Ip)
    ensures InAny(PRIVATE_RANGES, ip) ==> InAny(DEFAULT_BLOCKED, ip)
  {
    PrivatePlaces();
    InAnyConcat(BLOCKED4, BLOCKED6, ip);
  }

  lemma InAnyConcat(a: seq<Cidr>, b: seq<Cidr>, ip: Ip)
    ensures InAny(a + b, ip) <==> InAny(a, ip) || InAny(b, ip)
  {
    if i :| 0 <= i < |a| && Contains(a[i], ip) {
      assert (a + b)[i] == a[i];
    }
    if i :| 0 <= i < |b| && Contains(b[i], ip) {
      assert (a + b)[|a| + i] == b[i];
    }
  }
}
