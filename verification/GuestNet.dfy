/** Per-VM addressing of boot_linux.go: carving /30 blocks out of the guest
    range, and the identifiers printed from them. */
module GuestNet {
  import opened Wrappers
  import opened Words
  import opened Counting
  import opened Numerals
  import opened IPv4

  // ----- choosing the range -----

  datatype NetError = BadCidr | TooSmall(available: nat)

  /** Number of /30 blocks in a range with prefix length `ones`. */
  function Available(ones: nat): nat
    requires ones <= 32
  {
    Pow2(32 - ones) / 4
  }

  /** The first address of the guest range, or why it is refused. */
  function Resolved(cidr: string, vms: int): Result<nat, NetError> {
    match ParseCIDR(cidr)
    case None => Err(BadCidr)
    case Some((ip, ones)) =>
      if Available(ones) < vms then Err(TooSmall(Available(ones))) else Ok(RangeOf(ip, ones).base)
  }

  /** The smallest address of ip/ones. */
  ghost predicate FirstOf(base: nat, ip: uint32, ones: nat)
    requires ones <= 32
  {
    InPrefix(base, ip, ones) && forall v: nat :: InPrefix(v, ip, ones) ==> base <= v
  }

  /** A /30 block, on a /30 boundary, whose addresses are all in ip/ones. */
  ghost predicate BlockInside(b: nat, ip: uint32, ones: nat)
    requires ones <= 32
  {
    b % 4 == 0 && forall v :: b <= v < b + 4 ==> InPrefix(v, ip, ones)
  }

  /** `vms` different such blocks. */
  ghost predicate Placement(ip: uint32, ones: nat, vms: nat, blocks: seq<nat>)
    requires ones <= 32
  {
    && |blocks| == vms
    && (forall k :: 0 <= k < vms ==> BlockInside(blocks[k], ip, ones))
    && (forall j, k :: 0 <= j < k < vms ==> blocks[j] != blocks[k])
  }

  lemma {:induction false} InsideIff(b: nat, ip: uint32, ones: nat)
    requires ones <= 32
    ensures var r := RangeOf(ip, ones);
      BlockInside(b, ip, ones) <==> b % 4 == 0 && r.base <= b && b + 4 <= r.base + r.size
  {
    hide RangeOf, InPrefix;
    RangeIsPrefix(ip, ones, b);
    RangeIsPrefix(ip, ones, b + 3);
    forall v | b <= v < b + 4
      ensures var r := RangeOf(ip, ones); r.base <= v < r.base + r.size <==> InPrefix(v, ip, ones)
    {
      RangeIsPrefix(ip, ones, v);
    }
    if BlockInside(b, ip, ones) {
      assert InPrefix(b, ip, ones) && InPrefix(b + 3, ip, ones);
    }
  }

  function BlocksFrom(base: nat, vms: nat): seq<nat> {
    seq(vms, i => base + 4 * i)
  }

  lemma {:induction false} BlocksArePlaced(ip: uint32, ones: nat, vms: nat)
    requires ones <= 32
    requires var r := RangeOf(ip, ones); r.base % 4 == 0 && vms <= r.size / 4
    ensures Placement(ip, ones, vms, BlocksFrom(RangeOf(ip, ones).base, vms))
  {
    var r := RangeOf(ip, ones);
    hide RangeOf, BlockInside;
    forall k: nat | k < vms
      ensures BlockInside(r.base + 4 * k, ip, ones)
    {
      InsideIff(r.base + 4 * k, ip, ones);
    }
  }

  /** The number of a block within its range. */
  lemma {:induction false} SlotOf(base: nat, size: nat, block: nat)
    requires base % 4 == 0 && block % 4 == 0 && base <= block && block + 4 <= base + size
    ensures block == base + 4 * ((block - base) / 4)
    ensures (block - base) / 4 < size / 4
  {
  }

  lemma {:induction false} SlotsBound(base: nat, size: nat, blocks: seq<nat>)
    requires base % 4 == 0
    requires forall k :: 0 <= k < |blocks| ==>
      blocks[k] % 4 == 0 && base <= blocks[k] && blocks[k] + 4 <= base + size
    requires forall j, k :: 0 <= j < k < |blocks| ==> blocks[j] != blocks[k]
    ensures |blocks| <= size / 4
  {
    forall k | 0 <= k < |blocks|
      ensures blocks[k] == base + 4 * ((blocks[k] - base) / 4) && (blocks[k] - base) / 4 < size / 4
    {
      SlotOf(base, size, blocks[k]);
    }
    DistinctBelow(seq(|blocks|, k requires 0 <= k < |blocks| => (blocks[k] - base) / 4), size / 4);
  }

  lemma {:induction false} PlacementBound(ip: uint32, ones: nat, vms: nat, blocks: seq<nat>)
    requires ones <= 32 && Placement(ip, ones, vms, blocks)
    requires var r := RangeOf(ip, ones); r.size >= 4 ==> r.base % 4 == 0
    ensures vms <= RangeOf(ip, ones).size / 4
  {
    var r := RangeOf(ip, ones);
    hide RangeOf, BlockInside;
    forall k | 0 <= k < vms
      ensures blocks[k] % 4 == 0 && r.base <= blocks[k] && blocks[k] + 4 <= r.base + r.size
    {
      InsideIff(blocks[k], ip, ones);
    }
    if vms > 0 {
      assert r.base <= blocks[0] && blocks[0] + 4 <= r.base + r.size;
      SlotsBound(r.base, r.size, blocks);
    }
  }

  lemma {:induction false} AvailableIsQuarter(ip: uint32, ones: nat)
    requires ones <= 32
    ensures var r := RangeOf(ip, ones); Available(ones) == r.size / 4 && (r.size >= 4 ==> r.base % 4 == 0)
  {
    RangeAligned(ip, ones);
    hide Pow2, RoundDown;
  }

  lemma {:induction false} AvailableIffPlaced(ip: uint32, ones: nat, vms: nat)
    requires ones <= 32 && vms > 0
    ensures vms <= Available(ones) <==> exists blocks :: Placement(ip, ones, vms, blocks)
  {
    AvailableIsQuarter(ip, ones);
    hide RangeOf, Available, Placement, BlocksFrom;
    if vms <= Available(ones) {
      BlocksArePlaced(ip, ones, vms);
    }
    if blocks :| Placement(ip, ones, vms, blocks) {
      PlacementBound(ip, ones, vms, blocks);
    }
  }

  /** The check on -guest-net is exact: for a positive number of VMs it accepts
      if and only if that many disjoint aligned /30 blocks fit the range. */
  lemma {:induction false} AcceptsIffFits(cidr: string, vms: nat)
    requires vms > 0 && ParseCIDR(cidr).Some?
    ensures var (ip, ones) := ParseCIDR(cidr).value;
      Resolved(cidr, vms).Ok? <==> exists blocks :: Placement(ip, ones, vms, blocks)
  {
    hide ParseCIDR, RangeOf, Placement, Available;
    AvailableIffPlaced(ParseCIDR(cidr).value.0, ParseCIDR(cidr).value.1, vms);
  }

  /** Ranges of one or two addresses hold no /30 and are refused. */
  lemma {:induction false} TinyRangesRefused(cidr: string, vms: nat)
    requires vms > 0 && ParseCIDR(cidr).Some? && ParseCIDR(cidr).value.1 > 30
    ensures Resolved(cidr, vms) == Err(TooSmall(0))
  {
    RangeAligned(ParseCIDR(cidr).value.0, ParseCIDR(cidr).value.1);
  }

  /** A number of VMs that is not positive is accepted with any range, however
      small; judging no outcomes at all is then out of range. */
  lemma {:induction false} NonPositiveAccepted(cidr: string, vms: int)
    requires vms <= 0
    ensures Resolved(cidr, vms).Ok? <==> ParseCIDR(cidr).Some?
  {
    hide ParseCIDR, Pow2, RangeOf;
  }

  /** What acceptance guarantees about the base address. */
  predicate Accepted(base: nat, vms: nat) {
    base % 4 == 0 && base + 4 * vms <= LIMIT && (vms > 0 ==> base < LIMIT)
  }

  // ----- per-VM values -----

  /** All arithmetic is on 32-bit words, as in the source. */
  function VmBase(base: uint32, i: nat): uint32 {
    Wrap32(base + Wrap32(Wrap32(i) * 4))
  }

  function HostAddr(base: uint32, i: nat): uint32 {
    Wrap32(VmBase(base, i) + 1)
  }

  function GuestAddr(base: uint32, i: nat): uint32 {
    Wrap32(VmBase(base, i) + 2)
  }

  function VmHostIP(base: uint32, i: nat): string {
    IpString(HostAddr(base, i))
  }

  function VmGuestIP(base: uint32, i: nat): string {
    IpString(GuestAddr(base, i))
  }

  function VmTap(i: nat): string {
    "fcpf" + Decimal(i)
  }

  /** `06:00:%02X:%02X:%02X:%02X`. */
  function VmMAC(base: uint32, i: nat): string {
    JoinOn(["06", "00"] + HexPairs(Octets(GuestAddr(base, i))), ':')
  }

  function HexPairs(o: (octet, octet, octet, octet)): seq<string> {
    [HexPad(o.0, 2), HexPad(o.1, 2), HexPad(o.2, 2), HexPad(o.3, 2)]
  }

  /** A reader of colon-separated hexadecimal pairs. */
  function ParsePairs(parts: seq<string>): (r: Option<seq<nat>>)
    ensures r.Some? ==> |r.value| == |parts|
  {
    if parts == [] then Some([])
    else if |parts[0]| != 2 then None
    else
      match (ParseHex(parts[0]), ParsePairs(parts[1..]))
      case (Some(v), Some(vs)) => Some([v] + vs)
      case _ => None
  }

  function ParseMAC(s: string): Option<seq<nat>> {
    var parts := SplitOn(s, ':');
    if |parts| == 6 then ParsePairs(parts) else None
  }

  // ----- allocation -----

  lemma {:induction false} WrapSmall(n: nat)
    requires n < LIMIT
    ensures Wrap32(n) == n
  {
  }

  lemma {:induction false} BlockArithmetic(base: uint32, vms: nat, i: nat)
    requires Accepted(base, vms) && i < vms
    ensures VmBase(base, i) == base + 4 * i
    ensures HostAddr(base, i) == base + 4 * i + 1
    ensures GuestAddr(base, i) == base + 4 * i + 2
  {
    WrapSmall(i);
    WrapSmall(4 * i);
    WrapSmall(base + 4 * i);
    WrapSmall(base + 4 * i + 1);
    WrapSmall(base + 4 * i + 2);
    hide Wrap32;
  }

  lemma {:induction false} AcceptedRange(cidr: string, vms: nat)
    requires vms > 0 && Resolved(cidr, vms).Ok?
    ensures var base := Resolved(cidr, vms).value; var (ip, ones) := ParseCIDR(cidr).value;
      var r := RangeOf(ip, ones);
      base == r.base && Accepted(base, vms) && base + 4 * vms <= r.base + r.size <= LIMIT
  {
    var (ip, ones) := ParseCIDR(cidr).value;
    RangeBounds(ip, ones);
    RangeAligned(ip, ones);
    hide Pow2, ParseCIDR;
  }

  /** VM `i` has its own aligned /30 inside ip/ones, computed without wrapping,
      with host and guest at its two usable addresses. */
  ghost predicate SoundBlock(ip: uint32, ones: nat, base: uint32, i: nat)
    requires ones <= 32
  {
    var b := VmBase(base, i);
    && b == base + 4 * i && b + 3 < LIMIT
    && BlockInside(b, ip, ones)
    && HostAddr(base, i) == b + 1 && GuestAddr(base, i) == b + 2
    && HostAddr(base, i) / 4 == GuestAddr(base, i) / 4 == b / 4
  }

  lemma {:induction false} SameBlock(b: nat)
    requires b % 4 == 0
    ensures (b + 1) / 4 == b / 4 && (b + 2) / 4 == b / 4
  {
  }

  lemma {:induction false} BlockIsSound(ip: uint32, ones: nat, base: uint32, vms: nat, i: nat)
    requires Accepted(base, vms) && i < vms && ones <= 32
    requires var r := RangeOf(ip, ones); r.base == base && base + 4 * vms <= r.base + r.size <= LIMIT
    ensures SoundBlock(ip, ones, base, i) && VmBase(base, i) == base + 4 * i
  {
    hide RangeOf, BlockInside, VmBase, HostAddr, GuestAddr;
    var b := base + 4 * i;
    BlockArithmetic(base, vms, i);
    InsideIff(b, ip, ones);
    SameBlock(b);
  }

  predicate DisjointBlocks(base: uint32, i: nat, j: nat) {
    VmBase(base, i) + 3 < VmBase(base, j) || VmBase(base, j) + 3 < VmBase(base, i)
  }

  /** Whenever a range is accepted, every VM's block is sound and the blocks of
      different VMs are disjoint. */
  lemma {:induction false} AllocationSound(cidr: string, vms: nat)
    requires vms > 0 && Resolved(cidr, vms).Ok?
    ensures var base := Resolved(cidr, vms).value; var (ip, ones) := ParseCIDR(cidr).value;
      && Accepted(base, vms) && FirstOf(base, ip, ones)
      && (forall i :: 0 <= i < vms ==> SoundBlock(ip, ones, base, i))
      && (forall i, j :: 0 <= i < j < vms ==> DisjointBlocks(base, i, j))
  {
    AcceptedRange(cidr, vms);
    var base := Resolved(cidr, vms).value;
    var (ip, ones) := ParseCIDR(cidr).value;
    BaseIsFirst(ip, ones);
    hide InPrefix, ParseCIDR, Resolved, RangeOf, SoundBlock, VmBase;
    forall i: nat | i < vms
      ensures SoundBlock(ip, ones, base, i) && VmBase(base, i) == base + 4 * i
    {
      BlockIsSound(ip, ones, base, vms, i);
    }
  }

  lemma {:induction false} HexFits(n: nat, width: nat)
    requires n < Pow16(width)
    ensures |HexPad(n, width)| == width && ParseHex(HexPad(n, width)) == Some(n)
    ensures ':' !in HexPad(n, width)
  {
    hide HexPad, ParseHex, Pow16;
    HexWidth(n, width);
    HexRoundTrip(n, width);
  }

  lemma {:induction false} HexPair(n: octet)
    ensures |HexPad(n, 2)| == 2 && ParseHex(HexPad(n, 2)) == Some(n)
    ensures ':' !in HexPad(n, 2)
  {
    hide HexPad, ParseHex, HexValue;
    assert Pow16(2) == 256;
    HexFits(n, 2);
  }

  lemma {:induction false} PairsRead(parts: seq<string>, v: nat)
    requires parts != [] && |parts[0]| == 2 && ParseHex(parts[0]) == Some(v) && ParsePairs(parts[1..]).Some?
    ensures ParsePairs(parts) == Some([v] + ParsePairs(parts[1..]).value)
  {
  }

  lemma {:induction false} HexPairsRead(o: (octet, octet, octet, octet))
    ensures ParsePairs(HexPairs(o)) == Some([o.0, o.1, o.2, o.3])
    ensures forall p :: p in HexPairs(o) ==> ':' !in p
  {
    HexPair(o.0);
    HexPair(o.1);
    HexPair(o.2);
    HexPair(o.3);
    hide HexPad, ParseHex;
    var p := HexPairs(o);
    assert ParsePairs([]) == Some([]);
    hide ParsePairs;
    assert p[1..] == [p[1], p[2], p[3]] && [p[1], p[2], p[3]][1..] == [p[2], p[3]];
    assert [p[2], p[3]][1..] == [p[3]] && [p[3]][1..] == [];
    PairsRead([p[3]], o.3);
    PairsRead([p[2], p[3]], o.2);
    PairsRead([p[1], p[2], p[3]], o.1);
    PairsRead(p, o.0);
    var vs: seq<nat> := [o.3] + [];
    assert [o.0] + ([o.1] + ([o.2] + vs)) == [o.0, o.1, o.2, o.3];
  }

  lemma {:induction false} PrefixReads()
    ensures ParseHex("06") == Some(6) && ParseHex("00") == Some(0)
  {
    assert "06"[..1] == "0" && "00"[..1] == "0" && "0"[..0] == "";
  }

  /** Bit 0 clear and bit 1 set: a unicast, locally administered address. */
  predicate UnicastLocal(firstOctet: nat) {
    firstOctet % 2 == 0 && firstOctet / 2 % 2 == 1
  }

  /** The hardware address reads back as a unicast, locally administered prefix
      and the guest's four bytes. */
  lemma {:induction false} MACRoundTrip(base: uint32, i: nat)
    ensures var o := Octets(GuestAddr(base, i));
      && ParseMAC(VmMAC(base, i)) == Some([6, 0, o.0, o.1, o.2, o.3])
      && UnicastLocal(ParseMAC(VmMAC(base, i)).value[0])
  {
    var o := Octets(GuestAddr(base, i));
    HexPairsRead(o);
    PrefixReads();
    hide GuestAddr, Octets, ParseHex, ParsePairs, SplitOn, JoinOn;
    var pairs := HexPairs(o);
    hide HexPairs;
    var parts := ["06", "00"] + pairs;
    forall p | p in parts ensures ':' !in p {}
    SplitJoin(parts, ':');
    assert parts[1..] == ["00"] + pairs && (["00"] + pairs)[1..] == pairs;
    PairsRead(["00"] + pairs, 0);
    PairsRead(parts, 6);
    assert [6] + ([0] + [o.0, o.1, o.2, o.3]) == [6, 0, o.0, o.1, o.2, o.3];
  }

  /** The identifiers of different VMs differ. */
  lemma {:induction false} IdentifiersDistinct(base: uint32, vms: nat, i: nat, j: nat)
    requires Accepted(base, vms) && i < vms && j < vms && i != j
    ensures VmHostIP(base, i) != VmHostIP(base, j)
    ensures VmGuestIP(base, i) != VmGuestIP(base, j)
    ensures VmHostIP(base, i) != VmGuestIP(base, j)
    ensures VmTap(i) != VmTap(j)
    ensures VmMAC(base, i) != VmMAC(base, j)
  {
    BlockArithmetic(base, vms, i);
    BlockArithmetic(base, vms, j);
    MACRoundTrip(base, i);
    MACRoundTrip(base, j);
    OctetsInverse(GuestAddr(base, i), (0, 0, 0, 0));
    OctetsInverse(GuestAddr(base, j), (0, 0, 0, 0));
    hide IpString, Octets, Decimal, VmMAC, HostAddr, GuestAddr, ParseMAC;
    if VmHostIP(base, i) == VmHostIP(base, j) { IpStringInjective(HostAddr(base, i), HostAddr(base, j)); }
    if VmGuestIP(base, i) == VmGuestIP(base, j) { IpStringInjective(GuestAddr(base, i), GuestAddr(base, j)); }
    if VmHostIP(base, i) == VmGuestIP(base, j) { IpStringInjective(HostAddr(base, i), GuestAddr(base, j)); }
    if VmTap(i) == VmTap(j) {
      assert VmTap(i)[4..] == Decimal(i) && VmTap(j)[4..] == Decimal(j);
      DecimalInjective(i, j);
    }
  }

  // ----- the global -----

  /** The package-level base address, set once at startup. */
  class GuestNetwork {
    var base: uint32

    method Resolve(cidr: string, vms: int) returns (r: Result<(), NetError>)
      modifies `base
      ensures r.Ok? <==> Resolved(cidr, vms).Ok?
      ensures r.Ok? ==> base == Resolved(cidr, vms).value
      ensures r.Ok? ==> FirstOf(base, ParseCIDR(cidr).value.0, ParseCIDR(cidr).value.1)
      ensures r.Err? ==> base == old(base) && r.error == Resolved(cidr, vms).error
    {
      match ParseCIDR(cidr) {
        case None => return Err(BadCidr);
        case Some((ip, ones)) =>
          var avail := Pow2(32 - ones) / 4;
          if avail < vms {
            return Err(TooSmall(avail));
          }
          RangeBounds(ip, ones);
          BaseIsFirst(ip, ones);
          base := RangeOf(ip, ones).base;
          return Ok(());
      }
    }
  }
}
