/** Dotted-quad IPv4 addresses and CIDR ranges: printing, parsing, and the
    proof that the two are inverse. */
module IPv4 {
  import opened Wrappers
  import opened Words
  import opened Numerals
  import opened Strings

  // ----- splitting at a character -----

  function SplitOn(s: string, c: char): (parts: seq<string>)
    ensures |parts| >= 1
  {
    if s == "" then [""]
    else
      var rest := SplitOn(s[1..], c);
      if s[0] == c then [""] + rest else [[s[0]] + rest[0]] + rest[1..]
  }

  function JoinOn(parts: seq<string>, c: char): string {
    if parts == [] then ""
    else if |parts| == 1 then parts[0]
    else parts[0] + [c] + JoinOn(parts[1..], c)
  }

  lemma {:induction false} JoinSplit(s: string, c: char)
    ensures JoinOn(SplitOn(s, c), c) == s
  {
    if s != "" {
      JoinSplit(s[1..], c);
      var rest := SplitOn(s[1..], c);
      if s[0] == c {
        assert ([""] + rest)[1..] == rest;
      } else {
        assert ([[s[0]] + rest[0]] + rest[1..])[1..] == rest[1..];
        assert s == [s[0]] + s[1..];
      }
    }
  }

  lemma {:induction false} SplitFirst(w: string, c: char, rest: string)
    requires c !in w
    ensures SplitOn(w, c) == [w]
    ensures SplitOn(w + [c] + rest, c) == [w] + SplitOn(rest, c)
  {
    if w == "" {
      assert (w + [c] + rest)[1..] == rest;
    } else {
      SplitFirst(w[1..], c, rest);
      assert w == [w[0]] + w[1..];
      assert (w + [c] + rest)[1..] == w[1..] + [c] + rest;
      var r := [w[1..]] + SplitOn(rest, c);
      assert r[1..] == SplitOn(rest, c);
    }
  }

  lemma {:induction false} SplitJoin(parts: seq<string>, c: char)
    requires parts != [] && forall p :: p in parts ==> c !in p
    ensures SplitOn(JoinOn(parts, c), c) == parts
  {
    hide SplitOn;
    assert parts[0] in parts;
    if |parts| == 1 {
      SplitFirst(parts[0], c, "");
      assert [parts[0]] == parts;
    } else {
      SplitJoin(parts[1..], c);
      SplitFirst(parts[0], c, JoinOn(parts[1..], c));
      assert [parts[0]] + parts[1..] == parts;
    }
  }

  // ----- addresses -----

  type octet = n: nat | n < 256

  /** The four bytes of an address, most significant first. */
  function Octets(v: uint32): (octet, octet, octet, octet) {
    (v / 0x100_0000, v / 0x1_0000 % 256, v / 0x100 % 256, v % 256)
  }

  function FromOctets(o: (octet, octet, octet, octet)): uint32 {
    o.0 * 0x100_0000 + o.1 * 0x1_0000 + o.2 * 0x100 + o.3
  }

  lemma {:induction false} MulMonotone(m: nat, n: nat, p: nat)
    requires m <= n
    ensures m * p <= n * p
  {
  }

  lemma {:induction false} DivMod(v: nat, p: nat, q: nat, r: nat)
    requires v == q * p + r && r < p
    ensures v / p == q && v % p == r
  {
    if v / p < q {
      MulMonotone(v / p + 1, q, p);
    } else if v / p > q {
      MulMonotone(q + 1, v / p, p);
    }
  }

  /** The digits of a number in base 256. */
  lemma {:induction false} FromOctetsDigits(a: octet, b: octet, c: octet, d: octet)
    ensures Octets(FromOctets((a, b, c, d))) == (a, b, c, d)
  {
    var v := FromOctets((a, b, c, d));
    DivMod(v, 0x100, a * 0x1_0000 + b * 0x100 + c, d);
    DivMod(v, 0x1_0000, a * 0x100 + b, c * 0x100 + d);
    DivMod(v, 0x100_0000, a, b * 0x1_0000 + c * 0x100 + d);
    DivMod(a * 0x1_0000 + b * 0x100 + c, 0x100, a * 0x100 + b, c);
    DivMod(a * 0x100 + b, 0x100, a, b);
  }

  lemma {:induction false} OctetsDigits(v: uint32)
    ensures FromOctets(Octets(v)) == v
  {
    var w := v / 0x100;
    var x := w / 0x100;
    DivMod(v, 0x1_0000, x, w % 0x100 * 0x100 + v % 0x100);
    DivMod(v, 0x100_0000, x / 0x100, x % 0x100 * 0x1_0000 + w % 0x100 * 0x100 + v % 0x100);
  }

  lemma {:induction false} OctetsInverse(v: uint32, o: (octet, octet, octet, octet))
    ensures FromOctets(Octets(v)) == v
    ensures Octets(FromOctets(o)) == o
  {
    OctetsDigits(v);
    FromOctetsDigits(o.0, o.1, o.2, o.3);
  }

  function QuadParts(o: (octet, octet, octet, octet)): seq<string> {
    [Decimal(o.0), Decimal(o.1), Decimal(o.2), Decimal(o.3)]
  }

  /** `%d.%d.%d.%d`. */
  function IpString(v: uint32): string {
    var o := Octets(v);
    Decimal(o.0) + "." + Decimal(o.1) + "." + Decimal(o.2) + "." + Decimal(o.3)
  }

  /** Go's reading of one octet: no sign, no leading zero, at most 255. */
  function ParseOctet(s: string): Option<octet> {
    if s != "" && AllDigits(s) && (|s| > 1 ==> s[0] != '0') && DecimalValue(s) < 256 then Some(DecimalValue(s))
    else None
  }

  function ParseIPv4(s: string): Option<uint32> {
    var parts := SplitOn(s, '.');
    if |parts| != 4 then None
    else
      match (ParseOctet(parts[0]), ParseOctet(parts[1]), ParseOctet(parts[2]), ParseOctet(parts[3]))
      case (Some(a), Some(b), Some(c), Some(d)) => Some(FromOctets((a, b, c, d)))
      case _ => None
  }

  lemma {:induction false} OctetRoundTrip(n: octet, s: string)
    ensures ParseOctet(s) == Some(n) <==> s == Decimal(n)
  {
    DecimalRoundTrip(n);
    if ParseOctet(s) == Some(n) {
      CanonicalDecimal(s);
    }
  }

  lemma {:induction false} QuadIsJoin(v: uint32)
    ensures IpString(v) == JoinOn(QuadParts(Octets(v)), '.')
  {
    hide Octets, Decimal;
    var p := QuadParts(Octets(v));
    assert p[1..][1..][1..] == [p[3]];
    assert p[1..][1..][0] == p[2] && p[1..][0] == p[1];
    assert JoinOn(p[1..], '.') == p[1] + "." + JoinOn(p[1..][1..], '.');
    assert JoinOn(p[1..][1..], '.') == p[2] + "." + JoinOn([p[3]], '.');
    assert IpString(v) == p[0] + "." + (p[1] + "." + (p[2] + "." + p[3]));
  }

  /** Printing and parsing addresses are inverse: a string parses to an address
      if and only if it is the print of that address. */
  lemma {:induction false} ParseIsInverseOfPrint(s: string, v: uint32)
    ensures ParseIPv4(s) == Some(v) <==> s == IpString(v)
  {
    hide Decimal, ParseOctet, SplitOn, JoinOn, IpString;
    var o := Octets(v);
    var parts := SplitOn(s, '.');
    QuadIsJoin(v);
    if s == IpString(v) {
      forall p | p in QuadParts(o) ensures '.' !in p {}
      SplitJoin(QuadParts(o), '.');
      OctetRoundTrip(o.0, parts[0]);
      OctetRoundTrip(o.1, parts[1]);
      OctetRoundTrip(o.2, parts[2]);
      OctetRoundTrip(o.3, parts[3]);
      OctetsInverse(v, o);
    }
    if ParseIPv4(s) == Some(v) {
      var a, b := ParseOctet(parts[0]).value, ParseOctet(parts[1]).value;
      var c, d := ParseOctet(parts[2]).value, ParseOctet(parts[3]).value;
      OctetsInverse(v, (a, b, c, d));
      OctetRoundTrip(a, parts[0]);
      OctetRoundTrip(b, parts[1]);
      OctetRoundTrip(c, parts[2]);
      OctetRoundTrip(d, parts[3]);
      assert parts == QuadParts(o);
      JoinSplit(s, '.');
    }
  }

  lemma {:induction false} IpStringInjective(v: uint32, w: uint32)
    requires IpString(v) == IpString(w)
    ensures v == w
  {
    ParseIsInverseOfPrint(IpString(v), v);
    ParseIsInverseOfPrint(IpString(v), w);
  }

  lemma {:induction false} IpStringVisible(v: uint32)
    ensures NoSpace(IpString(v)) && IpString(v) != ""
  {
    hide Octets;
  }

  // ----- ranges -----

  function Pow2(k: nat): (p: nat)
    ensures p >= 1
  {
    if k == 0 then 1 else 2 * Pow2(k - 1)
  }

  /** net.ParseCIDR on dotted-quad input: the address and the prefix length. */
  function ParseCIDR(s: string): (r: Option<(uint32, nat)>)
    ensures r.Some? ==> r.value.1 <= 32
  {
    match Cut(s, "/")
    case NotFound => None
    case Found(addr, bits) =>
      match ParseIPv4(addr)
      case None => None
      case Some(ip) =>
        if bits != "" && AllDigits(bits) && DecimalValue(bits) <= 32 then Some((ip, DecimalValue(bits))) else None
  }

  /** The digits of `n`, perhaps after zeros. */
  predicate Numeral(bits: string, n: nat) {
    bits != "" && AllDigits(bits) && DecimalValue(bits) == n
  }

  lemma {:induction false} CidrParses(ip: uint32, bits: string, ones: nat)
    requires ones <= 32 && Numeral(bits, ones)
    ensures ParseCIDR(IpString(ip) + "/" + bits) == Some((ip, ones))
  {
    ParseIsInverseOfPrint(IpString(ip), ip);
    var addr := IpString(ip);
    hide Octets, ParseIPv4, Decimal, DecimalValue, Cut;
    assert '/' !in addr;
    hide IpString;
    forall k | 0 <= k < |addr|
      ensures !OccursAt(addr + "/" + bits, "/", k)
    {
      assert (addr + "/" + bits)[k] == addr[k];
    }
    CutIsFirst(addr, "/", bits);
  }

  lemma {:induction false} CidrRoundTrip(ip: uint32, ones: nat)
    requires ones <= 32
    ensures ParseCIDR(IpString(ip) + "/" + Decimal(ones)) == Some((ip, ones))
  {
    DecimalRoundTrip(ones);
    CidrParses(ip, Decimal(ones), ones);
  }

  /** The ranges that parse are exactly the printed addresses with a prefix
      length of at most 32 behind a slash. */
  lemma {:induction false} CidrIff(s: string, ip: uint32, ones: nat)
    ensures ParseCIDR(s) == Some((ip, ones))
       <==> ones <= 32 && exists bits :: Numeral(bits, ones) && s == IpString(ip) + "/" + bits
  {
    if ParseCIDR(s) == Some((ip, ones)) {
      var r := Cut(s, "/");
      hide ParseIPv4, IpString, Cut, DecimalValue;
      ParseIsInverseOfPrint(r.before, ip);
      assert Numeral(r.after, ones) && s == IpString(ip) + "/" + r.after;
    }
    if ones <= 32 {
      if bits :| Numeral(bits, ones) && s == IpString(ip) + "/" + bits {
        CidrParses(ip, bits, ones);
      }
    }
  }

  /** A block of consecutive addresses. */
  datatype Range = Range(base: nat, size: nat)

  function RoundDown(v: nat, p: nat): nat
    requires p > 0
  {
    v / p * p
  }

  /** Masking an address clears its host bits. */
  function RangeOf(ip: uint32, ones: nat): (r: Range)
    requires ones <= 32
  {
    var size := Pow2(32 - ones);
    Range(RoundDown(ip, size), size)
  }

  lemma {:induction false} Pow2Splits(a: nat, b: nat)
    ensures Pow2(a + b) == Pow2(a) * Pow2(b)
  {
    if a > 0 {
      Pow2Splits(a - 1, b);
      assert Pow2(a + b) == 2 * Pow2(a - 1 + b);
      assert Pow2(a) * Pow2(b) == 2 * (Pow2(a - 1) * Pow2(b));
    }
  }

  lemma {:induction false} Multiples(v: nat, p: nat, q: nat)
    requires p > 0
    ensures v / p * p <= v < v / p * p + p
    ensures v < q * p ==> v / p * p + p <= q * p
  {
    assert v == v / p * p + v % p;
    if v / p + 1 <= q {
      MulMonotone(v / p + 1, q, p);
    } else {
      MulMonotone(q, v / p, p);
    }
  }

  lemma {:induction false} Pow2Of32()
    ensures Pow2(32) == LIMIT
  {
    assert Pow2(4) == 16;
    Pow2Splits(4, 4);
    Pow2Splits(8, 8);
    Pow2Splits(16, 16);
  }

  lemma {:induction false} QuadMultiple(n: nat, p: nat, h: nat)
    requires p == h * 4
    ensures p % 4 == 0
    ensures n * p % 4 == 0
  {
    assert n * p == (n * h) * 4;
  }

  lemma {:induction false} SmallPowers()
    ensures Pow2(0) == 1 && Pow2(1) == 2 && Pow2(2) == 4
  {
  }

  /** A masked range contains its address and ends within 32 bits. */
  lemma {:induction false} RangeBounds(ip: uint32, ones: nat)
    requires ones <= 32
    ensures var r := RangeOf(ip, ones); r.base <= ip < r.base + r.size <= LIMIT
  {
    hide Pow2;
    Pow2Splits(ones, 32 - ones);
    Pow2Of32();
    Multiples(ip, Pow2(32 - ones), Pow2(ones));
  }

  /** A range is aligned on /30 boundaries unless it is smaller than one. */
  lemma {:induction false} RangeAligned(ip: uint32, ones: nat)
    requires ones <= 32
    ensures var r := RangeOf(ip, ones);
      && (ones <= 30 ==> r.size >= 4 && r.base % 4 == 0 && r.size % 4 == 0)
      && (ones > 30 ==> r.size < 4)
  {
    hide Pow2;
    SmallPowers();
    var p := Pow2(32 - ones);
    if ones <= 30 {
      Pow2Splits(30 - ones, 2);
      QuadMultiple(ip / p, p, Pow2(30 - ones));
    }
  }

  /** `v` agrees with `ip` in its first `ones` bits: `v` is in ip/ones. */
  predicate InPrefix(v: nat, ip: uint32, ones: nat)
    requires ones <= 32
  {
    v / Pow2(32 - ones) == ip / Pow2(32 - ones)
  }

  lemma {:induction false} QuotientIff(v: nat, p: nat, q: nat)
    requires p > 0
    ensures v / p == q <==> q * p <= v < q * p + p
  {
    Multiples(v, p, q);
    if q * p <= v < q * p + p {
      DivMod(v, p, q, v - q * p);
    }
  }

  /** The masked range is the prefix: it holds exactly the addresses that agree
      with the given one in the prefix. */
  lemma {:induction false} RangeIsPrefix(ip: uint32, ones: nat, v: nat)
    requires ones <= 32
    ensures var r := RangeOf(ip, ones); r.base <= v < r.base + r.size <==> InPrefix(v, ip, ones)
  {
    hide Pow2;
    QuotientIff(v, Pow2(32 - ones), ip / Pow2(32 - ones));
  }

  /** Its first address is the smallest that does. */
  lemma {:induction false} BaseIsFirst(ip: uint32, ones: nat)
    requires ones <= 32
    ensures InPrefix(RangeOf(ip, ones).base, ip, ones)
    ensures forall v: nat :: InPrefix(v, ip, ones) ==> RangeOf(ip, ones).base <= v
  {
    var base := RangeOf(ip, ones).base;
    RangeIsPrefix(ip, ones, base);
    forall v: nat | InPrefix(v, ip, ones)
      ensures base <= v
    {
      RangeIsPrefix(ip, ones, v);
    }
  }
}
