/**
 IPv4 addresses and CIDR blocks (`proxy/src/lib/ipv4-cidr.ts`, `toNetworkCidr` of
 `proxy/src/network/lan-subnet.ts`). JavaScript's bitwise operators are written out on
 unsigned 32-bit values; the shift count is taken modulo 32, as the language does.
 */
module Ipv4 {
  import opened Wrappers
  import opened Text

  // ---------------------------------------------------------------- 32-bit operators

  const WORD: nat := 0x1_0000_0000

  function Pow2(k: nat): (p: nat)
    ensures p >= 1
  {
    if k == 0 then 1 else 2 * Pow2(k - 1)
  }

  /** `(x << k) >>> 0` for a count below 32: each step doubles and drops the 33rd bit. */
  function Shifted(x: nat, k: nat): (r: nat)
    ensures r < WORD
  {
    if k == 0 then x % WORD else (2 * Shifted(x, k - 1)) % WORD
  }

  function ShiftLeft(x: nat, k: nat): nat {
    Shifted(x, k % 32)
  }

  /** `x >>> k` for a count below 32: each step halves. */
  function Halved(x: nat, k: nat): nat {
    if k == 0 then x else Halved(x / 2, k - 1)
  }

  function ShiftRight(x: nat, k: nat): nat {
    Halved(x, k % 32)
  }

  /** `(x & y) >>> 0`, bit by bit. */
  function BitAnd(x: nat, y: nat): nat {
    if x == 0 || y == 0 then 0
    else (if x % 2 == 1 && y % 2 == 1 then 1 else 0) + 2 * BitAnd(x / 2, y / 2)
  }

  /** `(x | y) >>> 0`, bit by bit. */
  function BitOr(x: nat, y: nat): nat {
    if x == 0 then y
    else if y == 0 then x
    else (if x % 2 == 1 || y % 2 == 1 then 1 else 0) + 2 * BitOr(x / 2, y / 2)
  }

  // ---------------------------------------------------------------- what the operators compute

  /** `m` with `k` zero bits appended. */
  function Scaled(m: nat, k: nat): nat {
    if k == 0 then m else 2 * Scaled(m, k - 1)
  }

  lemma {:induction false} ScaledPow2(n: nat, k: nat)
    ensures Scaled(Pow2(n), k) == Pow2(n + k)
  {
    if k > 0 {
      ScaledPow2(n, k - 1);
    }
  }

  lemma {:induction false} ScaledLess(m: nat, k: nat)
    requires m >= 1
    ensures Scaled(m - 1, k) == Scaled(m, k) - Pow2(k)
  {
    if k > 0 {
      ScaledLess(m, k - 1);
    }
  }

  lemma {:induction false} HalvedScaled(m: nat, k: nat)
    ensures Halved(Scaled(m, k), k) == m
  {
    if k > 0 {
      HalvedScaled(m, k - 1);
    }
  }

  /** Clearing the low bits never increases a value. */
  lemma {:induction false} ScaledHalvedBelow(x: nat, k: nat)
    ensures Scaled(Halved(x, k), k) <= x
  {
    if k > 0 {
      ScaledHalvedBelow(x / 2, k - 1);
    }
  }

  lemma {:induction false} HalvedBound(x: nat, n: nat, k: nat)
    requires x < Pow2(n + k)
    ensures Halved(x, k) < Pow2(n)
  {
    if k > 0 {
      HalvedBound(x / 2, n, k - 1);
    }
  }

  lemma {:induction false} ShiftedWithoutLoss(x: nat, k: nat, room: nat)
    requires x < Pow2(room) && room + k <= 32
    ensures Shifted(x, k) == Scaled(x, k) && Scaled(x, k) < Pow2(room + k)
  {
    Pow2Word();
    Pow2Grows(room, 32);
    Pow2Grows(room + k, 32);
    if k == 0 {
      RemainderOfSmall(x, WORD);
    } else {
      ShiftedWithoutLoss(x, k - 1, room);
      RemainderOfSmall(2 * Scaled(x, k - 1), WORD);
    }
  }

  lemma {:induction false} Pow2Grows(a: nat, b: nat)
    requires a <= b
    ensures Pow2(a) <= Pow2(b)
  {
    if a < b {
      Pow2Grows(a, b - 1);
    }
  }

  lemma Pow2Word()
    ensures Pow2(32) == WORD
  {
    assert Pow2(8) == 256;
    assert Pow2(16) == 65536;
    assert Pow2(24) == 0x100_0000;
  }

  /** Halving `k` times is dividing by 2^k. */
  lemma {:induction false} HalvedIsQuotient(x: nat, k: nat)
    ensures Halved(x, k) == x / Pow2(k)
  {
    if k > 0 {
      HalvedIsQuotient(x / 2, k - 1);
      HalfOfDouble(Pow2(k - 1), x);
    }
  }

  lemma MultipleBound(e: int, d: nat)
    requires d > 0
    ensures e >= 1 ==> e * d >= d
    ensures e <= -1 ==> e * d <= -1 * d
  {
  }

  lemma QuotientUnique(x: nat, d: nat, q: nat, r: nat)
    requires d > 0 && r < d && x == q * d + r
    ensures x / d == q && x % d == r
  {
    var q', r' := x / d, x % d;
    assert x == q' * d + r' by {
      assert x == d * (x / d) + x % d;
    }
    assert (q' - q) * d == q' * d - q * d;
    MultipleBound(q' - q, d);
  }

  lemma RemainderOfSmall(x: nat, d: nat)
    requires x < d
    ensures x % d == x
  {
  }

  lemma HalfOfDouble(d: nat, x: nat)
    requires d > 0
    ensures (x / 2) / d == x / (2 * d)
    ensures (x % 2) + 2 * ((x / 2) % d) == x % (2 * d)
  {
    var h := x / 2;
    var q, r := h / d, h % d;
    assert h == q * d + r by {
      assert h == d * (h / d) + h % d;
    }
    assert q * (2 * d) == 2 * (q * d);
    QuotientUnique(x, 2 * d, q, 2 * r + x % 2);
  }

  /** A mask of `k` low ones keeps the remainder. */
  lemma {:induction false} AndLowMask(x: nat, k: nat)
    ensures BitAnd(x, Pow2(k) - 1) == x % Pow2(k)
  {
    if k > 0 {
      AndLowMask(x / 2, k - 1);
      HalfOfDouble(Pow2(k - 1), x);
      assert (Pow2(k) - 1) / 2 == Pow2(k - 1) - 1;
    }
  }

  lemma AndDouble(x: nat, y: nat)
    ensures BitAnd(x, 2 * y) == 2 * BitAnd(x / 2, y)
  {
    assert (2 * y) / 2 == y && (2 * y) % 2 == 0;
  }

  /** A mask with `k` low zeros sees only the remaining bits. */
  lemma {:induction false} AndScaledMask(x: nat, m: nat, k: nat)
    ensures BitAnd(x, Scaled(m, k)) == Scaled(BitAnd(Halved(x, k), m), k)
  {
    if k > 0 {
      AndScaledMask(x / 2, m, k - 1);
      AndDouble(x, Scaled(m, k - 1));
    }
  }

  /** Or of values with no bit in common is their sum. */
  lemma {:induction false} OrDisjoint(hi: nat, k: nat, lo: nat)
    requires lo < Pow2(k)
    ensures BitOr(Scaled(hi, k), lo) == Scaled(hi, k) + lo
  {
    if k > 0 && lo != 0 && Scaled(hi, k) != 0 {
      OrDisjoint(hi, k - 1, lo / 2);
    }
  }

  // ---------------------------------------------------------------- addresses as text

  /** `\d{1,3}`, at most 255. */
  predicate IsOctetText(s: string) {
    1 <= |s| <= 3 && AllDigits(s) && Numeral(s) <= 255
  }

  type Octets = o: seq<nat> | |o| == 4 && forall i :: 0 <= i < 4 ==> o[i] <= 255
    witness [0, 0, 0, 0]

  /** The four octets of a dotted quad, or None when the text is not one. */
  function ParseIpv4(s: string): (r: Option<Octets>)
  {
    var parts := Split(s, '.');
    if |parts| == 4 && (forall i | 0 <= i < 4 :: IsOctetText(parts[i])) then
      Some([Numeral(parts[0]), Numeral(parts[1]), Numeral(parts[2]), Numeral(parts[3])])
    else None
  }

  predicate IsIpv4Address(s: string) {
    ParseIpv4(s).Some?
  }

  /** `octets.join(".")`. */
  function RenderIpv4(o: Octets): string {
    Join([Decimal(o[0]), Decimal(o[1]), Decimal(o[2]), Decimal(o[3])], '.')
  }

  lemma ParseRender(o: Octets)
    ensures ParseIpv4(RenderIpv4(o)) == Some(o)
  {
    var parts := [Decimal(o[0]), Decimal(o[1]), Decimal(o[2]), Decimal(o[3])];
    forall i | 0 <= i < 4 ensures IsOctetText(parts[i]) && Numeral(parts[i]) == o[i] && '.' !in parts[i] {
      NumeralDecimal(o[i]);
      DecimalLength(o[i]);
    }
    SplitJoin(parts, '.');
    assert Split(RenderIpv4(o), '.') == parts;
    assert ParseIpv4(RenderIpv4(o)).value == o;
  }

  // ---------------------------------------------------------------- CIDR blocks as text

  datatype Cidr = Cidr(octets: Octets, prefix: nat)

  function ParseCidr(s: string): (r: Option<Cidr>)
    ensures r.Some? ==> r.value.prefix <= 32
  {
    var parts := Split(s, '/');
    if |parts| == 2 && IsIpv4Address(parts[0]) && 1 <= |parts[1]| <= 2 && AllDigits(parts[1])
       && Numeral(parts[1]) <= 32 then
      Some(Cidr(ParseIpv4(parts[0]).value, Numeral(parts[1])))
    else None
  }

  predicate IsIpv4Cidr(s: string) {
    ParseCidr(s).Some?
  }

  function RenderCidr(c: Cidr): string {
    RenderIpv4(c.octets) + "/" + Decimal(c.prefix)
  }

  lemma ParseRenderCidr(c: Cidr)
    requires c.prefix <= 32
    ensures ParseCidr(RenderCidr(c)) == Some(c)
  {
    ParseRender(c.octets);
    NumeralDecimal(c.prefix);
    DecimalLength(c.prefix);
    var address, prefix := RenderIpv4(c.octets), Decimal(c.prefix);
    NoSlash(c.octets);
    SplitWhole(address, '/');
    SplitWhole(prefix, '/');
    SplitAppend(address, prefix, '/');
    assert RenderCidr(c) == address + ['/'] + prefix;
  }

  lemma NoSlash(o: Octets)
    ensures '/' !in RenderIpv4(o)
  {
    var d3 := [Decimal(o[3])];
    var d2 := [Decimal(o[2])] + d3;
    var d1 := [Decimal(o[1])] + d2;
    assert [Decimal(o[0]), Decimal(o[1]), Decimal(o[2]), Decimal(o[3])] == [Decimal(o[0])] + d1;
    assert '/' !in Join(d2, '.') by { assert d2[1..] == d3; }
    assert '/' !in Join(d1, '.') by { assert d1[1..] == d2; }
  }

  // ---------------------------------------------------------------- the arithmetic

  /** `((o0 << 24) | (o1 << 16) | (o2 << 8) | o3) >>> 0`. */
  function ToUint32(o: Octets): nat {
    BitOr(BitOr(BitOr(ShiftLeft(o[0], 24), ShiftLeft(o[1], 16)), ShiftLeft(o[2], 8)), o[3])
  }

  /** `prefix === 0 ? 0 : (0xffffffff << (32 - prefix)) >>> 0`. */
  function Mask(prefix: nat): nat
    requires prefix <= 32
  {
    if prefix == 0 then 0 else ShiftLeft(WORD - 1, 32 - prefix)
  }

  predicate IsIpv4InCidr(address: string, cidr: string) {
    match (ParseIpv4(address), ParseCidr(cidr))
    case (Some(a), Some(c)) => BitAnd(ToUint32(a), Mask(c.prefix)) == BitAnd(ToUint32(c.octets), Mask(c.prefix))
    case _ => false
  }

  function NetworkOctets(network: nat): (r: seq<nat>)
    ensures |r| == 4
  {
    [BitAnd(ShiftRight(network, 24), 255), BitAnd(ShiftRight(network, 16), 255),
     BitAnd(ShiftRight(network, 8), 255), BitAnd(ShiftRight(network, 0), 255)]
  }

  function ToNetworkCidr(hostCidr: string): (r: Option<string>)
  {
    match ParseCidr(hostCidr)
    case None => None
    case Some(c) =>
      var network := NetworkOctets(BitAnd(ToUint32(c.octets), Mask(c.prefix)));
      MaskedOctets(c);
      Some(RenderCidr(Cidr(network, c.prefix)))
  }

  // ---------------------------------------------------------------- what the arithmetic means

  /** The address as a number in base 256, most significant octet first. */
  function Value(o: Octets): (v: nat)
    ensures v < WORD
  {
    0x100_0000 * o[0] + 0x1_0000 * o[1] + 0x100 * o[2] + o[3]
  }

  function OctetsOf(v: nat): (o: Octets)
    requires v < WORD
    ensures Value(o) == v
  {
    var high3 := v / 256;
    var high2 := high3 / 256;
    var high1 := high2 / 256;
    [high1, high2 % 256, high3 % 256, v % 256]
  }

  lemma ScaledByByte(x: nat)
    ensures Scaled(x, 8) == 256 * x
  {
    assert Scaled(x, 1) == 2 * x;
    assert Scaled(x, 2) == 4 * x;
    assert Scaled(x, 3) == 8 * x;
    assert Scaled(x, 4) == 16 * x;
    assert Scaled(x, 5) == 32 * x;
    assert Scaled(x, 6) == 64 * x;
    assert Scaled(x, 7) == 128 * x;
  }

  lemma ShiftOctet(x: nat, k: nat)
    requires x <= 255 && k <= 24
    ensures ShiftLeft(x, k) == Scaled(x, k)
  {
    assert Pow2(8) == 256;
    ShiftedWithoutLoss(x, k, 8);
    assert k % 32 == k;
  }

  /** Or-ing in eight more bits appends a base-256 digit. */
  lemma OrByte(hi: nat, k: nat, lo: nat)
    requires lo <= 255
    ensures BitOr(Scaled(Scaled(hi, 8), k), Scaled(lo, k)) == Scaled(Scaled(hi, 8) + lo, k)
    decreases k
  {
    if k == 0 {
      assert Pow2(8) == 256;
      OrDisjoint(hi, 8, lo);
    } else {
      OrByte(hi, k - 1, lo);
    }
  }

  /** Shifting and or-ing the octets together builds exactly the base-256 value. */
  lemma ToUint32Value(o: Octets)
    ensures ToUint32(o) == Value(o)
  {
    ShiftOctet(o[0], 24);
    ShiftOctet(o[1], 16);
    ShiftOctet(o[2], 8);
    var v1 := Scaled(o[0], 8) + o[1];
    var v2 := Scaled(v1, 8) + o[2];
    ScaledTwice(o[0], 8, 16);
    OrByte(o[0], 16, o[1]);
    ScaledTwice(v1, 8, 8);
    OrByte(v1, 8, o[2]);
    OrByte(v2, 0, o[3]);
    assert ToUint32(o) == Scaled(v2, 8) + o[3];
    ScaledByByte(o[0]);
    ScaledByByte(v1);
    ScaledByByte(v2);
  }

  lemma {:induction false} ScaledTwice(x: nat, a: nat, b: nat)
    ensures Scaled(x, a + b) == Scaled(Scaled(x, a), b)
  {
    if b > 0 {
      ScaledTwice(x, a, b - 1);
    }
  }

  /** The wrapped shift leaves ones above `k` zeros. */
  lemma {:induction false} ShiftedOnes(k: nat)
    requires k <= 32
    ensures Shifted(WORD - 1, k) == WORD - Pow2(k)
  {
    Pow2Word();
    Pow2Grows(k, 32);
    if k > 0 {
      ShiftedOnes(k - 1);
    }
  }

  lemma ScaledOnes(n: nat, k: nat)
    ensures Scaled(Pow2(n) - 1, k) == Pow2(n + k) - Pow2(k)
  {
    ScaledPow2(n, k);
    ScaledLess(Pow2(n), k);
  }

  lemma MaskValue(prefix: nat)
    requires prefix <= 32
    ensures Mask(prefix) == Pow2(32) - Pow2(32 - prefix)
  {
    hide Pow2, Shifted;
    Pow2Word();
    if prefix > 0 {
      ShiftedOnes(32 - prefix);
    }
  }

  lemma MaskIsScaledOnes(prefix: nat)
    requires prefix <= 32
    ensures Mask(prefix) == Scaled(Pow2(prefix) - 1, 32 - prefix)
  {
    hide Mask, Pow2, Scaled;
    MaskValue(prefix);
    ScaledOnes(prefix, 32 - prefix);
  }

  /** The mask clears exactly the host bits, for every prefix. */
  lemma MaskKeepsBlock(v: nat, prefix: nat)
    requires prefix <= 32 && v < WORD
    ensures BitAnd(v, Mask(prefix)) == Scaled(Halved(v, 32 - prefix), 32 - prefix)
  {
    Pow2Word();
    MaskIsScaledOnes(prefix);
    AndScaledMask(v, Pow2(prefix) - 1, 32 - prefix);
    var q := Halved(v, 32 - prefix);
    HalvedBound(v, prefix, 32 - prefix);
    AndLowMask(q, prefix);
    RemainderOfSmall(q, Pow2(prefix));
  }

  lemma LowByte(x: nat)
    ensures BitAnd(x, 255) == x % 256
  {
    AndLowMask(x, 8);
    assert Pow2(8) == 256;
  }

  lemma HalvedByByte(v: nat)
    ensures Halved(v, 8) == v / 0x100
  {
    assert Pow2(8) == 256;
    HalvedIsQuotient(v, 8);
  }

  lemma {:induction false} HalvedTwice(v: nat, a: nat, b: nat)
    ensures Halved(v, a + b) == Halved(Halved(v, a), b)
  {
    if a > 0 {
      HalvedTwice(v / 2, a - 1, b);
    }
  }

  /** The octet `8 * n` bits up, when the octets above it form the number `high`. */
  lemma NetworkOctet(v: nat, shift: nat, high: nat)
    requires shift < 32 && high == Halved(v, shift)
    ensures BitAnd(ShiftRight(v, shift), 255) == high % 256
    ensures Halved(v, shift + 8) == high / 256
  {
    LowByte(high);
    HalvedTwice(v, shift, 8);
    HalvedByByte(high);
    assert shift % 32 == shift;
  }

  lemma NetworkOctetsOf(v: nat)
    requires v < WORD
    ensures NetworkOctets(v) == OctetsOf(v)
  {
    var high3 := v / 256;
    var high2 := high3 / 256;
    var high1 := high2 / 256;
    NetworkOctet(v, 0, v);
    NetworkOctet(v, 8, high3);
    NetworkOctet(v, 16, high2);
    NetworkOctet(v, 24, high1);
    assert high1 % 256 == high1;
  }

  /** The network of a block: the host's value with its host bits cleared. */
  lemma MaskedOctets(c: Cidr)
    requires c.prefix <= 32
    ensures var network := BitAnd(ToUint32(c.octets), Mask(c.prefix));
            && network < WORD
            && NetworkOctets(network) == OctetsOf(network)
            && network == Scaled(Halved(Value(c.octets), 32 - c.prefix), 32 - c.prefix)
  {
    ToUint32Value(c.octets);
    MaskKeepsBlock(Value(c.octets), c.prefix);
    ScaledHalvedBelow(Value(c.octets), 32 - c.prefix);
    NetworkOctetsOf(BitAnd(ToUint32(c.octets), Mask(c.prefix)));
  }

  // ---------------------------------------------------------------- theorems

  /**
   An address is in a block exactly when both texts are well formed and both lie in the same aligned
   run of 2^(32-n) addresses.
   */
  lemma InCidrIsSameBlock(address: string, cidr: string)
    ensures IsIpv4InCidr(address, cidr) <==>
            && IsIpv4Address(address) && IsIpv4Cidr(cidr)
            && var p := Pow2(32 - ParseCidr(cidr).value.prefix);
               Value(ParseIpv4(address).value) / p == Value(ParseCidr(cidr).value.octets) / p
  {
    hide ParseIpv4, ParseCidr, ToUint32, Mask, Pow2, Value, BitAnd;
    if IsIpv4Address(address) && IsIpv4Cidr(cidr) {
      SameBlock(ParseIpv4(address).value, ParseCidr(cidr).value);
    }
  }

  lemma SameBlock(a: Octets, c: Cidr)
    requires c.prefix <= 32
    ensures BitAnd(ToUint32(a), Mask(c.prefix)) == BitAnd(ToUint32(c.octets), Mask(c.prefix))
            <==> Value(a) / Pow2(32 - c.prefix) == Value(c.octets) / Pow2(32 - c.prefix)
  {
    MaskedOctets(c);
    MaskedOctets(Cidr(a, c.prefix));
    var k := 32 - c.prefix;
    HalvedScaled(Halved(Value(a), k), k);
    HalvedScaled(Halved(Value(c.octets), k), k);
    HalvedIsQuotient(Value(a), k);
    HalvedIsQuotient(Value(c.octets), k);
  }

  lemma CidrTextParses(address: string, prefix: string)
    requires IsIpv4Address(address) && IsIpv4Cidr(address + "/" + prefix)
    ensures AllDigits(prefix)
    ensures ParseCidr(address + "/" + prefix) == Some(Cidr(ParseIpv4(address).value, Numeral(prefix)))
  {
    SplitAppend(address, prefix, '/');
    var parts := Split(address + "/" + prefix, '/');
    assert address + "/" + prefix == address + ['/'] + prefix;
    assert |Split(address, '/')| == 1;
    JoinSplit(address, '/');
    JoinSplit(prefix, '/');
    assert parts == [address, prefix];
  }

  /** Membership and network computation agree: same block, same network text. */
  lemma InCidrIffSameNetwork(a: string, b: string, prefix: string)
    requires IsIpv4Address(a) && IsIpv4Address(b)
    requires IsIpv4Cidr(a + "/" + prefix) && IsIpv4Cidr(b + "/" + prefix)
    ensures IsIpv4InCidr(a, b + "/" + prefix)
            <==> ToNetworkCidr(a + "/" + prefix) == ToNetworkCidr(b + "/" + prefix)
  {
    CidrTextParses(a, prefix);
    CidrTextParses(b, prefix);
    var ca, cb := ParseCidr(a + "/" + prefix).value, ParseCidr(b + "/" + prefix).value;
    MaskedOctets(ca);
    MaskedOctets(cb);
    var na, nb := BitAnd(ToUint32(ca.octets), Mask(ca.prefix)), BitAnd(ToUint32(cb.octets), Mask(cb.prefix));
    ParseRenderCidr(Cidr(OctetsOf(na), ca.prefix));
    ParseRenderCidr(Cidr(OctetsOf(nb), cb.prefix));
    if ToNetworkCidr(a + "/" + prefix) == ToNetworkCidr(b + "/" + prefix) {
      assert Value(OctetsOf(na)) == Value(OctetsOf(nb));
    }
  }

  /** A host lies in its own network, and taking the network again changes nothing. */
  lemma NetworkContainsHostAndIsFixed(host: string, prefix: string)
    requires IsIpv4Address(host) && IsIpv4Cidr(host + "/" + prefix)
    ensures ToNetworkCidr(host + "/" + prefix).Some?
    ensures IsIpv4InCidr(host, ToNetworkCidr(host + "/" + prefix).value)
    ensures ToNetworkCidr(ToNetworkCidr(host + "/" + prefix).value) == ToNetworkCidr(host + "/" + prefix)
  {
    CidrTextParses(host, prefix);
    var c := ParseCidr(host + "/" + prefix).value;
    MaskedOctets(c);
    var k := 32 - c.prefix;
    var n := BitAnd(ToUint32(c.octets), Mask(c.prefix));
    var network := Cidr(OctetsOf(n), c.prefix);
    ParseRenderCidr(network);
    MaskedOctets(network);
    HalvedScaled(Halved(Value(c.octets), k), k);
  }
}
