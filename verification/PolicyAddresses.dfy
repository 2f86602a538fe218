/** Addresses and prefixes of a policy. Addresses are numbers, and a prefix contains the ones that
    agree with it in its leading bits. */
module PolicyAddresses {
  import opened Options

  datatype Addr = NoAddr | V4(n: nat) | V6(n: nat, zone: string)

  datatype Prefix = Prefix(addr: Addr, bits: nat)

  const LOW32 := 0x1_0000_0000
  const ALL128 := 0x1_00000000_00000000_00000000_00000000

  predicate InWidth(a: Addr) {
    match a
    case NoAddr => true
    case V4(n) => n < LOW32
    case V6(n, _) => n < ALL128
  }

  predicate ValidPrefix(p: Prefix) {
    match p.addr
    case NoAddr => false
    case V4(n) => n < LOW32 && p.bits <= 32
    case V6(n, zone) => n < ALL128 && p.bits <= 128 && zone == ""
  }

  function Pow2(k: nat): (r: nat)
    ensures r > 0
  {
    if k == 0 then 1 else 2 * Pow2(k - 1)
  }

  /** ::ffff:0:0/96, section 2.5.5.2 of RFC 4291. */
  predicate Is4In6(a: Addr) {
    a.V6? && a.n / LOW32 == 0xffff
  }

  /** The zone of a mapped address is dropped. */
  function Unmap(a: Addr): Addr {
    if Is4In6(a) then V4(a.n % LOW32) else a
  }

  /** The IPv6 form of an IPv4 address. */
  function Mapped(a: Addr): Addr {
    if a.V4? then V6(0xffff * LOW32 + a.n, "") else a
  }

  predicate Contains(p: Prefix, a: Addr)
    requires ValidPrefix(p)
  {
    match (p.addr, a)
    case (V4(n), V4(m)) => n / Pow2(32 - p.bits) == m / Pow2(32 - p.bits)
    case (V6(n, _), V6(m, zone)) => zone == "" && n / Pow2(128 - p.bits) == m / Pow2(128 - p.bits)
    case _ => false
  }

  function HostBits(p: Prefix): nat
    requires ValidPrefix(p)
  {
    if p.addr.V4? then 32 - p.bits else 128 - p.bits
  }

  function Masked(p: Prefix): (r: Prefix)
    requires ValidPrefix(p)
    ensures ValidPrefix(r) && forall a :: Contains(r, a) == Contains(p, a)
  {
    var size := Pow2(HostBits(p));
    MaskedQuotient(p.addr.n, size);
    if p.addr.V4? then Prefix(V4(p.addr.n - p.addr.n % size), p.bits)
    else Prefix(V6(p.addr.n - p.addr.n % size, ""), p.bits)
  }

  lemma MaskedQuotient(n: nat, size: nat)
    requires size > 0
    ensures n % size <= n && (n - n % size) / size == n / size
  {
    assert n == size * (n / size) + n % size;
    QuotientIs(n - n % size, size, n / size, 0);
  }

  /** What the policy keeps for a prefix: a mapped one becomes its IPv4 prefix, and one that is too
      wide for that is refused. */
  function CompilePrefix(p: Prefix): (r: Option<Prefix>)
    requires ValidPrefix(p)
    ensures r.Some? ==> ValidPrefix(r.value)
  {
    if !Is4In6(p.addr) then Some(Masked(p))
    else if p.bits < 96 then None
    else Some(Masked(Prefix(Unmap(p.addr), p.bits - 96)))
  }

  lemma {:induction false} DivSplit(q: nat, r: nat, a: nat, b: nat)
    requires 0 < a && 0 < b && r < a * b
    ensures (q * (a * b) + r) / a == q * b + r / a && r / a < b
  {
    var n := q * (a * b) + r;
    assert r == a * (r / a) + r % a;
    assert n == a * (q * b + r / a) + r % a;
    QuotientIs(n, a, q * b + r / a, r % a);
    if r / a >= b {
      MulKeepsOrder(a, b, r / a);
    }
  }

  lemma MulKeepsOrder(a: nat, x: nat, y: nat)
    requires x <= y
    ensures a * x <= a * y
  {
  }

  lemma QuotientIs(n: nat, a: nat, q: nat, r: nat)
    requires 0 < a && n == a * q + r && r < a
    ensures n / a == q
  {
    var d := n / a;
    if d < q {
      MulKeepsOrder(a, d + 1, q);
    } else if d > q {
      MulKeepsOrder(a, q + 1, d);
    }
  }

  lemma {:induction false} Pow2Sum(j: nat, k: nat)
    ensures Pow2(j + k) == Pow2(j) * Pow2(k)
  {
    if j > 0 {
      Pow2Sum(j - 1, k);
      assert Pow2(j + k) == 2 * Pow2(j - 1 + k);
    }
  }

  lemma Pow2Of32()
    ensures Pow2(32) == LOW32
  {
    assert Pow2(8) == 256;
    Pow2Sum(8, 8);
    Pow2Sum(16, 16);
  }

  lemma PairIsUnique(q: nat, r: nat, p: nat, s: nat, b: nat)
    requires r < b && s < b && q * b + r == p * b + s
    ensures q == p && r == s
  {
    QuotientIs(q * b + r, b, q, r);
    QuotientIs(p * b + s, b, p, s);
  }

  /** Dividing by `a` keeps the part above `a * b` and divides the part below. */
  lemma HighAndLow(n: nat, a: nat, b: nat)
    requires 0 < a && 0 < b
    ensures a * b > 0 && n / a == n / (a * b) * b + n % (a * b) / a && n % (a * b) / a < b
  {
    MulKeepsOrder(a, 1, b);
    var w := a * b;
    DivSplit(n / w, n % w, a, b);
    assert n == n / w * w + n % w;
  }

  lemma HighAndLowAgree(n: nat, m: nat, a: nat, b: nat)
    requires 0 < a && 0 < b
    ensures a * b > 0 && (n / a == m / a <==> n / (a * b) == m / (a * b) && n % (a * b) / a == m % (a * b) / a)
  {
    HighAndLow(n, a, b);
    HighAndLow(m, a, b);
    if n / a == m / a {
      PairIsUnique(n / (a * b), n % (a * b) / a, m / (a * b), m % (a * b) / a, b);
    }
  }

  /** Comparing leading bits of two numbers, where at most the low 32 bits are ignored. */
  lemma LeadingBits(n: nat, m: nat, k: nat)
    requires k <= 32
    ensures n / Pow2(k) == m / Pow2(k) <==>
            n / LOW32 == m / LOW32 && (n % LOW32) / Pow2(k) == (m % LOW32) / Pow2(k)
  {
    Pow2Of32();
    Pow2Sum(k, 32 - k);
    HighAndLowAgree(n, m, Pow2(k), Pow2(32 - k));
  }

  /** A mapped prefix of at least 96 bits contains the same addresses before and after unmapping. */
  lemma UnmappingKeepsMembers(p: Prefix, a: Addr)
    requires ValidPrefix(p) && Is4In6(p.addr) && p.bits >= 96
    requires a.V6? && a.zone == "" && InWidth(a)
    ensures Contains(p, a) <==> Contains(CompilePrefix(p).value, Unmap(a))
  {
    assert ValidPrefix(Prefix(Unmap(p.addr), p.bits - 96));
    LeadingBits(p.addr.n, a.n, 128 - p.bits);
    assert 32 - (p.bits - 96) == 128 - p.bits;
  }

  /** Same members in both notations. */
  ghost predicate SameMembers(p: Prefix, q: Prefix)
    requires ValidPrefix(p) && ValidPrefix(q)
  {
    forall a: Addr | a.V6? && a.zone == "" && InWidth(a) :: Contains(p, a) <==> Contains(q, Unmap(a))
  }

  /** The policy refuses exactly the mapped prefixes that no IPv4 prefix can stand for. */
  lemma RefusedIsAmbiguous(p: Prefix)
    requires ValidPrefix(p) && Is4In6(p.addr)
    ensures CompilePrefix(p).Some? <==> exists q :: ValidPrefix(q) && q.addr.V4? && SameMembers(p, q)
  {
    if p.bits >= 96 {
      forall a: Addr | a.V6? && a.zone == "" && InWidth(a) ensures Contains(p, a) <==>
        Contains(CompilePrefix(p).value, Unmap(a)) {
        UnmappingKeepsMembers(p, a);
      }
      assert SameMembers(p, CompilePrefix(p).value);
    } else {
      forall q | ValidPrefix(q) && q.addr.V4? ensures !SameMembers(p, q) {
        var a := V6(p.addr.n - LOW32, "");
        NeighbourIsContained(p);
        assert !Is4In6(a) && Unmap(a) == a;
      }
    }
  }

  /** A mapped prefix shorter than 96 bits also contains an address that is not mapped. */
  lemma NeighbourIsContained(p: Prefix)
    requires ValidPrefix(p) && Is4In6(p.addr) && p.bits < 96
    ensures p.addr.n >= LOW32 && Contains(p, V6(p.addr.n - LOW32, ""))
  {
    var k := 128 - p.bits;
    Pow2Of32();
    Pow2Sum(1, 32);
    Pow2Sum(33, k - 33);
    var a, b := Pow2(33), Pow2(k - 33);
    var n := p.addr.n;
    QuotientOfQuotient(n, a, b);
    QuotientOfQuotient(n - LOW32, a, b);
    assert n / a == 0x7fff == (n - LOW32) / a;
  }

  lemma QuotientOfQuotient(n: nat, a: nat, b: nat)
    requires 0 < a && 0 < b
    ensures a * b > 0 && n / (a * b) == n / a / b
  {
    HighAndLow(n, a, b);
    QuotientIs(n / a, b, n / (a * b), n % (a * b) / a);
  }

  /** What a rule means for an address in either notation: rules for IPv4 see IPv4 and mapped
      addresses alike, and rules for IPv6 see only addresses that are not mapped. */
  predicate InRule(p: Prefix, a: Addr)
    requires ValidPrefix(p)
  {
    if p.addr.V4? || Is4In6(p.addr) then
      Unmap(a).V4? && if p.addr.V4? then Contains(p, Unmap(a)) else Contains(p, Mapped(Unmap(a)))
    else Contains(p, Unmap(a))
  }

  lemma CompiledPrefixIsRule(p: Prefix, a: Addr)
    requires ValidPrefix(p) && InWidth(a) && CompilePrefix(p).Some?
    ensures Contains(CompilePrefix(p).value, Unmap(a)) <==> InRule(p, a)
  {
    if Is4In6(p.addr) && Unmap(a).V4? {
      var m := Mapped(Unmap(a));
      assert Unmap(m) == Unmap(a) && m.n < ALL128;
      UnmappingKeepsMembers(p, m);
    }
  }

  /** Mapping and unmapping undo each other, and what is mapped is ::ffff:0:0/96. */
  lemma MappedBack(a: Addr)
    requires InWidth(a)
    ensures a.V4? ==> Is4In6(Mapped(a)) && InWidth(Mapped(a)) && Unmap(Mapped(a)) == a
    ensures Is4In6(a) && a.zone == "" ==> Unmap(a).V4? && Mapped(Unmap(a)) == a
    ensures Is4In6(a) <==> a.V6? && 0xffff * LOW32 <= a.n < 0x1_0000 * LOW32
    ensures !Is4In6(Unmap(a)) && InWidth(Unmap(a)) && (!Is4In6(a) ==> Unmap(a) == a)
  {
  }

  lemma SameQuotient(n: nat, m: nat, size: nat)
    requires size > 0
    ensures n / size == m / size <==> n - n % size <= m < n - n % size + size
  {
    var q := n / size;
    assert n == size * q + n % size && m == size * (m / size) + m % size;
    if size * q <= m < size * q + size {
      QuotientIs(m, size, q, m - size * q);
    }
  }

  /** A prefix contains the addresses of its family from its first one on, as many as its host bits allow. */
  lemma ContainsIsRange(p: Prefix, a: Addr)
    requires ValidPrefix(p) && InWidth(a)
    ensures Contains(p, a) <==>
            && (p.addr.V4? <==> a.V4?) && !a.NoAddr? && (a.V6? ==> a.zone == "")
            && Masked(p).addr.n <= a.n < Masked(p).addr.n + Pow2(HostBits(p))
  {
    hide Pow2;
    if !a.NoAddr? {
      SameQuotient(p.addr.n, a.n, Pow2(HostBits(p)));
    }
  }

  /** netip's tests for the addresses that are not public. The caller has unmapped. */
  predicate IsPrivate(a: Addr) {
    match a
    case NoAddr => true
    case V4(n) =>
      var o0, o1, o2 := n / 0x100_0000, n / 0x1_0000 % 256, n / 0x100 % 256;
      || o0 == 10 || (o0 == 172 && o1 / 16 == 1) || (o0 == 192 && o1 == 168)
      || o0 == 127
      || (o0 == 169 && o1 == 254)
      || (o0 == 224 && o1 == 0 && o2 == 0)
      || n == 0
      || (o0 == 100 && o1 / 64 == 1)
    case V6(n, zone) =>
      var head := n / 0x1_00000000_00000000_00000000_0000;
      || head / 0x200 == 0xfc00 / 0x200
      || n == 1
      || head / 0x40 == 0xfe80 / 0x40
      || (head / 0x100 == 0xff && head % 16 == 2)
      || (n == 0 && zone == "")
  }

  /** The number of a dotted IPv4 address. */
  function Octets(a: nat, b: nat, c: nat, d: nat): nat {
    ((a * 256 + b) * 256 + c) * 256 + d
  }

  const GROUP7 := 0x1_0000_0000_0000_0000_0000_0000_0000

  /** An IPv6 prefix written by its first group and its last one, the others being zero. */
  function Groups(first: nat, last: nat, bits: nat): Prefix {
    Prefix(V6(first * GROUP7 + last, ""), bits)
  }

  /** The IPv4 addresses that are not public: private networks, loopback, link-local unicast and
      multicast, the unspecified address and shared address space. */
  function NotPublic4(): seq<Prefix> {
    [Prefix(V4(Octets(10, 0, 0, 0)), 8), Prefix(V4(Octets(172, 16, 0, 0)), 12), Prefix(V4(Octets(192, 168, 0, 0)), 16),
     Prefix(V4(Octets(127, 0, 0, 0)), 8), Prefix(V4(Octets(169, 254, 0, 0)), 16), Prefix(V4(Octets(224, 0, 0, 0)), 24),
     Prefix(V4(Octets(0, 0, 0, 0)), 32), Prefix(V4(Octets(100, 64, 0, 0)), 10)]
  }

  /** The same of IPv6: unique local, loopback, link-local unicast and the unspecified address. */
  function NotPublic6(): seq<Prefix> {
    [Groups(0xfc00, 0, 7), Groups(0, 1, 128), Groups(0xfe80, 0, 10), Groups(0, 0, 128)]
  }

  /** Multicast of link-local scope has a prefix for each set of flags. */
  function LinkLocalMulticast(flags: nat): Prefix {
    Groups(0xff02 + 16 * flags, 0, 16)
  }

  ghost predicate InPrefix(p: Prefix, a: Addr) {
    ValidPrefix(p) && Contains(p, a)
  }

  ghost predicate ListedNotPublic(a: Addr) {
    || (exists i :: 0 <= i < 8 && InPrefix(NotPublic4()[i], a))
    || (exists i :: 0 <= i < 4 && InPrefix(NotPublic6()[i], a))
    || (exists flags: nat :: flags < 16 && InPrefix(LinkLocalMulticast(flags), a))
  }

  lemma SmallPowers()
    ensures Pow2(0) == 1 && Pow2(8) == 0x100 && Pow2(16) == 0x1_0000 && Pow2(20) == 0x10_0000
    ensures Pow2(22) == 0x40_0000 && Pow2(24) == 0x100_0000
  {
    assert Pow2(4) == 16 && Pow2(6) == 64 && Pow2(8) == 256;
    Pow2Sum(8, 8);
    Pow2Sum(16, 4);
    Pow2Sum(16, 6);
    Pow2Sum(16, 8);
  }

  lemma SeventhGroup()
    ensures Pow2(112) == GROUP7
  {
    SmallPowers();
    Pow2Of32();
    Pow2Sum(32, 16);
    Pow2Sum(48, 32);
    Pow2Sum(80, 32);
  }

  lemma Within4(p: Prefix, n: nat, size: nat, lead: nat)
    requires ValidPrefix(p) && p.addr.V4? && n < LOW32 && Pow2(32 - p.bits) == size && p.addr.n == lead * size
    ensures InPrefix(p, V4(n)) <==> n / size == lead
  {
    QuotientIs(p.addr.n, size, lead, 0);
  }

  lemma LeadingOctets(n: nat)
    requires n < LOW32
    ensures var o0, o1, o2 := n / 0x100_0000, n / 0x1_0000 % 256, n / 0x100 % 256;
            && n / 0x1_0000 == 256 * o0 + o1 && n / 0x100 == 0x1_0000 * o0 + 256 * o1 + o2
            && n / 0x10_0000 == 16 * o0 + o1 / 16 && n / 0x40_0000 == 4 * o0 + o1 / 64
  {
    var a := n / 0x1_0000;
    assert a / 256 == n / 0x100_0000;
    assert n / 0x100 / 256 == a;
    assert n / 0x10_0000 == a / 16;
    assert n / 0x40_0000 == a / 64;
  }

  lemma Private4(n: nat)
    requires n < LOW32
    ensures IsPrivate(V4(n)) <==> exists i :: 0 <= i < 8 && InPrefix(NotPublic4()[i], V4(n))
  {
    SmallPowers();
    var l := NotPublic4();
    hide InPrefix, Pow2;
    Within4(l[0], n, 0x100_0000, 10);
    Within4(l[1], n, 0x10_0000, 16 * 172 + 1);
    Within4(l[2], n, 0x1_0000, 256 * 192 + 168);
    Within4(l[3], n, 0x100_0000, 127);
    Within4(l[4], n, 0x1_0000, 256 * 169 + 254);
    Within4(l[5], n, 0x100, 0x1_0000 * 224);
    Within4(l[6], n, 1, 0);
    Within4(l[7], n, 0x40_0000, 4 * 100 + 1);
    hide NotPublic4;
    LeadingOctets(n);
    assert |l| == 8;
  }

  /** A prefix of at most 16 bits looks at the first group only. */
  lemma Within6(first: nat, bits: nat, n: nat)
    requires first <= 0xffff && bits <= 16 && n < ALL128
    ensures Pow2(16 - bits) > 0
    ensures InPrefix(Groups(first, 0, bits), V6(n, "")) <==> n / GROUP7 / Pow2(16 - bits) == first / Pow2(16 - bits)
  {
    var low := Pow2(16 - bits);
    SeventhGroup();
    Pow2Sum(112, 16 - bits);
    QuotientOfQuotient(n, GROUP7, low);
    QuotientOfQuotient(first * GROUP7, GROUP7, low);
    QuotientIs(first * GROUP7, GROUP7, first, 0);
  }

  lemma WithinAll(n: nat, m: nat)
    requires n < ALL128 && m < GROUP7
    ensures InPrefix(Groups(0, m, 128), V6(n, "")) <==> n == m
  {
    assert Pow2(0) == 1;
  }

  /** The first group ffx2, for each set of flags x. */
  lemma GroupHasFlags(head: nat)
    ensures head / 0x100 == 0xff && head % 16 == 2 <==> exists flags: nat :: flags < 16 && head == 0xff02 + 16 * flags
  {
    if head / 0x100 == 0xff && head % 16 == 2 {
      var flags: nat := (head - 0xff02) / 16;
      assert flags < 16 && head == 0xff02 + 16 * flags;
    }
  }

  lemma Multicast6(n: nat)
    requires n < ALL128
    ensures var head := n / GROUP7;
            head / 0x100 == 0xff && head % 16 == 2 <==>
            exists flags: nat :: flags < 16 && InPrefix(LinkLocalMulticast(flags), V6(n, ""))
  {
    assert Pow2(0) == 1;
    hide InPrefix, Pow2;
    GroupHasFlags(n / GROUP7);
    forall flags: nat | flags < 16
      ensures InPrefix(LinkLocalMulticast(flags), V6(n, "")) <==> n / GROUP7 == 0xff02 + 16 * flags
    {
      Within6(0xff02 + 16 * flags, 16, n);
    }
    var head := n / GROUP7;
    hide LinkLocalMulticast, GROUP7;
    if head / 0x100 == 0xff && head % 16 == 2 {
      var flags: nat :| flags < 16 && head == 0xff02 + 16 * flags;
      assert InPrefix(LinkLocalMulticast(flags), V6(n, ""));
    }
  }

  lemma Unicast6(n: nat)
    requires n < ALL128
    ensures var head, l, a := n / GROUP7, NotPublic6(), V6(n, "");
            && (InPrefix(l[0], a) <==> head / 0x200 == 0xfc00 / 0x200) && (InPrefix(l[1], a) <==> n == 1)
            && (InPrefix(l[2], a) <==> head / 0x40 == 0xfe80 / 0x40) && (InPrefix(l[3], a) <==> n == 0)
  {
    assert Pow2(9) == 0x200 && Pow2(6) == 0x40;
    hide InPrefix, Pow2;
    Within6(0xfc00, 7, n);
    WithinAll(n, 1);
    Within6(0xfe80, 10, n);
    WithinAll(n, 0);
  }

  lemma Private6(n: nat)
    requires n < ALL128
    ensures IsPrivate(V6(n, "")) <==>
            || (exists i :: 0 <= i < 4 && InPrefix(NotPublic6()[i], V6(n, "")))
            || (exists flags: nat :: flags < 16 && InPrefix(LinkLocalMulticast(flags), V6(n, "")))
  {
    var l, a := NotPublic6(), V6(n, "");
    Multicast6(n);
    Unicast6(n);
    hide InPrefix, LinkLocalMulticast, Groups;
    assert (exists i :: 0 <= i < 4 && InPrefix(l[i], a)) <==>
           InPrefix(l[0], a) || InPrefix(l[1], a) || InPrefix(l[2], a) || InPrefix(l[3], a);
  }

  lemma OtherFamily(n: nat, m: nat)
    ensures forall i | 0 <= i < 8 :: !InPrefix(NotPublic4()[i], V6(m, ""))
    ensures forall i | 0 <= i < 4 :: !InPrefix(NotPublic6()[i], V4(n))
    ensures forall flags: nat :: !InPrefix(LinkLocalMulticast(flags), V4(n))
    ensures !ListedNotPublic(NoAddr)
  {
  }

  function Unzoned(a: Addr): Addr {
    if a.V6? then a.(zone := "") else a
  }

  /** The tests find exactly the addresses of the listed prefixes. A zone does not matter, except that the
      unspecified address has none. */
  lemma PrivateIsListed(a: Addr)
    requires InWidth(a)
    ensures IsPrivate(a) <==> a.NoAddr? || (ListedNotPublic(Unzoned(a)) && !(a.V6? && a.n == 0 && a.zone != ""))
  {
    hide InPrefix, NotPublic4, NotPublic6, LinkLocalMulticast;
    match a {
      case NoAddr =>
      case V4(n) =>
        Private4(n);
        OtherFamily(n, 0);
      case V6(n, zone) =>
        Private6(n);
        OtherFamily(0, n);
    }
  }
}
