/** The durable state of a node's networks, internal/engine/network.go: one record file for each
    network with its endpoint table, and one for each container with its attachments. */
module NetworkState {
  import opened Maps
  import opened PolicyAddresses

  /** 10.253.slot.last */
  datatype Ip = Ip(slot: nat, last: nat)

  datatype Network = Network(id: string, name: string, internal: bool, slot: nat, endpoints: map<string, Ip>)

  datatype Attachment = Attachment(network: string, address: Ip, interface: nat)

  datatype Container = Container(id: string, managed: bool, proxy: bool, networks: map<string, Attachment>)

  datatype State = State(nets: map<string, Network>, boxes: map<string, Container>)

  ghost predicate NetGood(n: Network) {
    && 1 <= n.slot <= 254
    && (forall c | c in n.endpoints :: n.endpoints[c].slot == n.slot && 2 <= n.endpoints[c].last <= 254)
    && (forall c, d | c in n.endpoints && d in n.endpoints && c != d :: n.endpoints[c] != n.endpoints[d])
  }

  ghost predicate NetsGood(nets: map<string, Network>) {
    && (forall i | i in nets :: nets[i].id == i && NetGood(nets[i]))
    && (forall i, j | i in nets && j in nets && i != j :: nets[i].slot != nets[j].slot && nets[i].name != nets[j].name)
  }

  /** A managed worker lists at most one network, and an internal one; any other container lists internal
      networks only as an explicit proxy. The interfaces of one container differ. */
  ghost predicate BoxGood(b: Container, nets: map<string, Network>) {
    && (b.managed ==> |b.networks| <= 1)
    && (b.managed ==>
      forall m | m in b.networks && b.networks[m].network in nets :: nets[b.networks[m].network].internal)
    && (!b.managed && !b.proxy ==>
      forall m | m in b.networks && b.networks[m].network in nets :: !nets[b.networks[m].network].internal)
    && (forall m, k | m in b.networks && k in b.networks &&
      m != k :: b.networks[m].interface != b.networks[k].interface)
  }

  ghost predicate BoxesGood(s: State) {
    forall c | c in s.boxes :: s.boxes[c].id == c && BoxGood(s.boxes[c], s.nets)
  }

  ghost predicate Good(s: State) {
    NetsGood(s.nets) && BoxesGood(s)
  }

  /** Networks whose table has the container. */
  ghost function Tables(s: State, c: string): set<string> {
    set i | i in s.nets && c in s.nets[i].endpoints
  }

  /** The networks that a name or an id may stand for. */
  function Candidates(nets: map<string, Network>, value: string): set<string> {
    set i | i in nets && (nets[i].id == value || nets[i].name == value)
  }

  function TakenSlots(nets: map<string, Network>): set<nat> {
    set i | i in nets :: nets[i].slot
  }

  function UsedAddresses(n: Network): set<Ip> {
    set c | c in n.endpoints :: n.endpoints[c]
  }

  function UsedInterfaces(b: Container): set<nat> {
    set m | m in b.networks :: b.networks[m].interface
  }

  /** No two endpoints anywhere on the node share an address. */
  lemma AddressesAreDistinct(s: State, i: string, c: string, j: string, d: string)
    requires Good(s) && i in s.nets && j in s.nets && c in s.nets[i].endpoints && d in s.nets[j].endpoints
    requires (i, c) != (j, d)
    ensures s.nets[i].endpoints[c] != s.nets[j].endpoints[d]
  {
    hide BoxesGood;
    assert NetGood(s.nets[i]) && NetGood(s.nets[j]);
  }

  /** No container names an id that does not exist yet. */
  ghost predicate Unused(s: State, id: string) {
    id !in s.nets && forall c, m | c in s.boxes && m in s.boxes[c].networks :: s.boxes[c].networks[m].network != id
  }

  lemma NetAdded(s: State, n: Network)
    requires Good(s) && Unused(s, n.id) && n.endpoints == map[] && 1 <= n.slot <= 254
    requires n.slot !in TakenSlots(s.nets) && Candidates(s.nets, n.name) == {}
    ensures Good(s.(nets := s.nets[n.id := n]))
  {
    var after := s.nets[n.id := n];
    assert NetGood(n);
    FreshSlotAndName(s.nets, n);
    hide NetGood, TakenSlots, Candidates;
    assert NetsGood(after) by {
      hide BoxesGood, Unused;
    }
    hide BoxGood, NetsGood;
    forall c | c in s.boxes ensures BoxGood(s.boxes[c], after) {
      BoxUnaffected(s.boxes[c], s.nets, n);
    }
  }

  lemma BoxUnaffected(b: Container, nets: map<string, Network>, n: Network)
    requires BoxGood(b, nets) && forall m | m in b.networks :: b.networks[m].network != n.id
    ensures BoxGood(b, nets[n.id := n])
  {
  }

  lemma FreshSlotAndName(nets: map<string, Network>, n: Network)
    requires n.slot !in TakenSlots(nets) && Candidates(nets, n.name) == {}
    ensures forall i | i in nets :: nets[i].slot != n.slot && nets[i].name != n.name
  {
    forall i | i in nets ensures nets[i].slot != n.slot && nets[i].name != n.name {
      assert nets[i].slot in TakenSlots(nets);
      assert i !in Candidates(nets, n.name);
    }
  }

  lemma NetDropped(s: State, id: string)
    requires Good(s)
    ensures Good(s.(nets := s.nets - {id}))
  {
    hide NetGood;
    assert NetsGood(s.nets - {id});
    assert BoxesGood(s.(nets := s.nets - {id})) by {
      hide NetsGood;
    }
  }

  /** Changing only the table of a network. */
  lemma TableChanged(s: State, id: string, endpoints: map<string, Ip>)
    requires Good(s) && id in s.nets && NetGood(s.nets[id].(endpoints := endpoints))
    ensures Good(s.(nets := s.nets[id := s.nets[id].(endpoints := endpoints)]))
  {
    hide NetGood;
    var after := s.nets[id := s.nets[id].(endpoints := endpoints)];
    assert NetsGood(after) by {
      hide BoxesGood;
    }
    assert BoxesGood(s.(nets := after)) by {
      hide NetsGood;
    }
  }

  lemma BoxChanged(s: State, b: Container)
    requires Good(s) && BoxGood(b, s.nets)
    ensures Good(s.(boxes := s.boxes[b.id := b]))
  {
    hide NetsGood, BoxGood;
  }

  lemma BoxDropped(s: State, id: string)
    requires Good(s)
    ensures Good(s.(boxes := s.boxes - {id}))
  {
    hide NetsGood, BoxGood;
  }

  /** One more attachment of a container whose rules allow it. */
  lemma Attached(b: Container, nets: map<string, Network>, name: string, a: Attachment)
    requires BoxGood(b, nets) && name !in b.networks
    requires b.managed ==> b.networks == map[] && (a.network in nets ==> nets[a.network].internal)
    requires !b.managed && !b.proxy && a.network in nets ==> !nets[a.network].internal
    requires forall m | m in b.networks :: b.networks[m].interface != a.interface
    ensures BoxGood(b.(networks := b.networks[name := a]), nets)
  {
    var after := b.networks[name := a];
    if b.managed {
      assert after == map[name := a] && after.Keys == {name};
      SizeIsKeys(after);
    }
  }

  lemma EndpointAdded(n: Network, cid: string, a: Ip)
    requires NetGood(n) && a.slot == n.slot && 2 <= a.last <= 254 && a !in UsedAddresses(n)
    ensures NetGood(n.(endpoints := n.endpoints[cid := a]))
  {
    assert forall c | c in n.endpoints :: n.endpoints[c] in UsedAddresses(n);
  }

  /** A new endpoint keeps the state good after either of its two writes. */
  lemma JoinIsGood(s: State, id: string, b: Container, a: Attachment)
    requires Good(s) && id in s.nets && b.id in s.boxes && s.boxes[b.id] == b && a.network == id
    requires s.nets[id].name !in b.networks
    requires b.managed ==> b.networks == map[] && s.nets[id].internal
    requires !b.managed && !b.proxy ==> !s.nets[id].internal
    requires a.address.slot == s.nets[id].slot && 2 <= a.address.last <= 254
    requires a.address !in UsedAddresses(s.nets[id]) && a.interface !in UsedInterfaces(b)
    ensures var n, c := s.nets[id], b.(networks := b.networks[s.nets[id].name := a]);
            var t := s.(nets := s.nets[id := n.(endpoints := n.endpoints[b.id := a.address])]);
            Good(t) && Good(t.(boxes := t.boxes[b.id := c]))
  {
    hide BoxGood, NetGood, UsedAddresses;
    var n := s.nets[id];
    var endpoints := n.endpoints[b.id := a.address];
    var t := s.(nets := s.nets[id := n.(endpoints := endpoints)]);
    assert forall m | m in b.networks :: b.networks[m].interface in UsedInterfaces(b);
    EndpointAdded(n, b.id, a.address);
    TableChanged(s, id, endpoints);
    hide NetsGood;
    assert BoxGood(b, t.nets);
    Attached(b, t.nets, n.name, a);
    BoxChanged(t, b.(networks := b.networks[n.name := a]));
  }

  lemma Detached(b: Container, nets: map<string, Network>, name: string)
    requires BoxGood(b, nets)
    ensures BoxGood(b.(networks := b.networks - {name}), nets)
  {
    var after := b.networks - {name};
    assert after.Keys == b.networks.Keys - {name};
    SizeIsKeys(after);
    SizeIsKeys(b.networks);
  }

  /** Leaving a network keeps the state good after either of its two writes. */
  lemma LeaveIsGood(s: State, id: string, cid: string)
    requires Good(s) && id in s.nets
    ensures var n := s.nets[id];
            var t := s.(nets := s.nets[id := n.(endpoints := n.endpoints - {cid})]);
            && Good(t)
            && (cid in s.boxes ==>
              Good(t.(boxes := t.boxes[cid := s.boxes[cid].(networks := s.boxes[cid].networks - {n.name})])))
  {
    hide BoxGood;
    var n := s.nets[id];
    var t := s.(nets := s.nets[id := n.(endpoints := n.endpoints - {cid})]);
    assert NetGood(n) && NetGood(n.(endpoints := n.endpoints - {cid}));
    TableChanged(s, id, n.endpoints - {cid});
    if cid in s.boxes {
      hide NetGood, NetsGood;
      var b := s.boxes[cid];
      assert BoxGood(b, t.nets) && b.id == cid;
      Detached(b, t.nets, n.name);
      BoxChanged(t, b.(networks := b.networks - {n.name}));
    }
  }

  /** A value stands for at most two networks, and for two exactly when it is the id of one and the name of
      another. */
  lemma CandidatesAre(nets: map<string, Network>, value: string)
    requires NetsGood(nets)
    ensures |Candidates(nets, value)| <= 2
    ensures Candidates(nets, value) == {} <==> value !in nets && forall i | i in nets :: nets[i].name != value
    ensures |Candidates(nets, value)| == 2 <==>
            value in nets && exists i :: i in nets && i != value && nets[i].name == value
  {
    hide NetGood;
    var all := Candidates(nets, value);
    var named := set i | i in nets && i != value && nets[i].name == value;
    if i :| i in named {
      assert named == {i};
      assert all == if value in nets then {value, i} else {i};
    } else {
      assert forall i | i in nets && i != value :: i !in named;
      assert all == if value in nets then {value} else {};
    }
  }

  function Subnet(slot: nat): (p: Prefix)
    ensures slot <= 255 ==> ValidPrefix(p)
  {
    Prefix(V4(10 * 0x100_0000 + 253 * 0x1_0000 + slot * 0x100), 24)
  }

  /** The address of an endpoint as a number. */
  function AddressOf(a: Ip): Addr {
    V4(Octets(10, 253, a.slot, a.last))
  }

  /** A subnet holds the addresses of its own slot and of no other. */
  lemma SubnetHolds(slot: nat, a: Ip)
    requires slot <= 255 && a.slot <= 255 && a.last <= 255
    ensures Contains(Subnet(slot), AddressOf(a)) <==> a.slot == slot
  {
    SmallPowers();
    var high := Octets(0, 10, 253, a.slot);
    assert AddressOf(a).n == 0x100 * high + a.last;
    QuotientIs(AddressOf(a).n, 0x100, high, a.last);
    QuotientIs(Subnet(slot).addr.n, 0x100, Octets(0, 10, 253, slot), 0);
  }

  /** netip's test: the two agree in the leading bits of the shorter one. */
  predicate Overlaps(p: Prefix, q: Prefix)
    requires ValidPrefix(p) && ValidPrefix(q)
  {
    var m := if p.bits < q.bits then p.bits else q.bits;
    match (p.addr, q.addr)
    case (V4(n), V4(k)) => n / Pow2(32 - m) == k / Pow2(32 - m)
    case (V6(n, _), V6(k, _)) => n / Pow2(128 - m) == k / Pow2(128 - m)
    case _ => false
  }

  /** Dropping more bits keeps numbers together that already agreed. */
  lemma CoarserAgrees(n: nat, k: nat, fine: nat, coarse: nat)
    requires fine <= coarse && n / Pow2(fine) == k / Pow2(fine)
    ensures n / Pow2(coarse) == k / Pow2(coarse)
  {
    Pow2Sum(fine, coarse - fine);
    QuotientOfQuotient(n, Pow2(fine), Pow2(coarse - fine));
    QuotientOfQuotient(k, Pow2(fine), Pow2(coarse - fine));
  }

  lemma SharedIsOverlap(p: Prefix, q: Prefix, a: Addr)
    requires ValidPrefix(p) && ValidPrefix(q) && Contains(p, a) && Contains(q, a)
    ensures Overlaps(p, q)
  {
    hide Pow2;
    var w := if a.V4? then 32 else 128;
    var m := if p.bits < q.bits then p.bits else q.bits;
    CoarserAgrees(p.addr.n, a.n, w - p.bits, w - m);
    CoarserAgrees(q.addr.n, a.n, w - q.bits, w - m);
  }

  /** Prefixes overlap exactly when some address is in both. */
  lemma OverlapIsShared(p: Prefix, q: Prefix)
    requires ValidPrefix(p) && ValidPrefix(q)
    ensures Overlaps(p, q) <==> exists a :: Contains(p, a) && Contains(q, a)
  {
    hide Pow2;
    if Overlaps(p, q) {
      var longer := if p.bits < q.bits then q.addr else p.addr;
      assert Contains(p, longer) && Contains(q, longer);
    }
    hide Contains, Overlaps;
    forall a | Contains(p, a) && Contains(q, a) ensures Overlaps(p, q) {
      SharedIsOverlap(p, q, a);
    }
  }

  /** The subnets of different slots have nothing in common. */
  lemma SubnetsAreApart(slot: nat, other: nat)
    requires slot <= 255 && other <= 255 && slot != other
    ensures !Overlaps(Subnet(slot), Subnet(other))
  {
    SmallPowers();
    QuotientIs(Subnet(slot).addr.n, 0x100, Octets(0, 10, 253, slot), 0);
    QuotientIs(Subnet(other).addr.n, 0x100, Octets(0, 10, 253, other), 0);
  }
}
