/** Subnets and endpoint addresses of a node. All operations run under one lock; every record write
    is durable by itself, and the node can stop between any two of them. */
module NetworkAllocator {
  import opened Options
  import opened Faults
  import opened PolicyAddresses
  import opened NetworkState
  import opened NetworkTables

  /** The outcome of a record write, or of changing the host's interfaces. */
  datatype Moment = Moment(fault: Fault, built: bool)

  datatype Outcome = Done | Unchanged | NotFound | Ambiguous | Exists | Refused | NoSpace | Failed

  /** The host's own prefixes. A default route does not count. */
  predicate OfHost(p: Prefix, addrs: seq<Prefix>, routes: seq<Prefix>) {
    p in addrs || (p in routes && p.bits != 0)
  }

  ghost predicate AllValid(addrs: seq<Prefix>, routes: seq<Prefix>) {
    forall p | p in addrs || p in routes :: ValidPrefix(p)
  }

  ghost predicate Blocked(addrs: seq<Prefix>, routes: seq<Prefix>, slot: nat)
    requires slot <= 255 && AllValid(addrs, routes)
  {
    exists p :: OfHost(p, addrs, routes) && Overlaps(p, Subnet(slot))
  }

  /** Some address of the slot lies in the prefix. */
  ghost predicate Meets(p: Prefix, slot: nat)
    requires slot <= 255
  {
    ValidPrefix(p) && exists a :: Contains(p, a) && Contains(Subnet(slot), a)
  }

  /** A slot is blocked exactly when one of its addresses lies in a prefix of the host's interfaces, or of a
      route that is not the default one. */
  lemma BlockedIsShared(addrs: seq<Prefix>, routes: seq<Prefix>, slot: nat)
    requires slot <= 255 && AllValid(addrs, routes)
    ensures Blocked(addrs, routes, slot) <==>
            (exists p :: p in addrs && Meets(p, slot)) || (exists p :: p in routes && p.bits > 0 && Meets(p, slot))
  {
    hide Contains, Overlaps, Subnet, ValidPrefix;
    forall p | p in addrs || p in routes ensures Overlaps(p, Subnet(slot)) <==> Meets(p, slot) {
      OverlapIsShared(p, Subnet(slot));
    }
  }

  /** The first slot that is neither taken nor overlaps an address or route of the host. */
  method FreeSlot(taken: set<nat>, addrs: seq<Prefix>, routes: seq<Prefix>) returns (slot: nat)
    requires AllValid(addrs, routes)
    ensures slot == 0 || (1 <= slot <= 254 && slot !in taken && !Blocked(addrs, routes, slot))
    ensures forall s | 1 <= s < (if slot == 0 then 255 else slot) :: s in taken || Blocked(addrs, routes, s)
  {
    hide Overlaps, Subnet, ValidPrefix;
    var host := addrs;
    for k := 0 to |routes|
      invariant forall p :: p in host <==> OfHost(p, addrs, routes[..k])
    {
      assert routes[..k + 1] == routes[..k] + [routes[k]];
      if routes[k].bits != 0 {
        host := host + [routes[k]];
      }
    }
    assert routes[..|routes|] == routes;
    for i := 1 to 255
      invariant forall s | 1 <= s < i :: s in taken || Blocked(addrs, routes, s)
    {
      if i !in taken {
        var overlap := false;
        for k := 0 to |host|
          invariant overlap <==> exists p :: p in host && p in host[..k] && Overlaps(p, Subnet(i))
        {
          assert host[k] in host && host[..k + 1] == host[..k] + [host[k]];
          if Overlaps(host[k], Subnet(i)) {
            overlap := true;
          }
        }
        assert host[..|host|] == host;
        if !overlap {
          return i;
        }
      }
    }
    slot := 0;
  }

  class Node {
    const world: nat -> Moment
    var clock: nat
    var nets: map<string, Network>
    var boxes: map<string, Container>
    ghost var trail: seq<State>

    constructor (world: nat -> Moment, nets: map<string, Network>, boxes: map<string, Container>)
      requires Good(State(nets, boxes))
      ensures Valid() && this.world == world && this.clock == 0 && Now() == State(nets, boxes) && trail == [Now()]
    {
      this.world := world;
      this.clock := 0;
      this.nets := nets;
      this.boxes := boxes;
      this.trail := [State(nets, boxes)];
    }

    /** A node that starts again after the other one stopped at some moment of its trail. */
    constructor Restarted(was: Node, ghost k: nat, state: State, world: nat -> Moment)
      requires was.Valid() && k < |was.trail| && was.trail[k] == state
      ensures Valid() && this.world == world && Now() == state && trail == was.trail[..k + 1]
    {
      hide Good, SoundTrail;
      TrailStops(was.trail, k);
      this.world := world;
      this.clock := 0;
      this.nets := state.nets;
      this.boxes := state.boxes;
      this.trail := was.trail[..k + 1];
    }

    ghost function Now(): State
      reads this
    {
      State(nets, boxes)
    }

    ghost predicate Valid()
      reads this
    {
      trail != [] && trail[|trail| - 1] == Now() && SoundTrail(trail)
    }

    lemma NowGood()
      requires Valid()
      ensures Good(Now())
      ensures forall i | i in nets :: nets[i].id == i
      ensures forall c | c in boxes :: boxes[c].id == c
    {
      hide NetGood, BoxGood;
    }

    ghost method Log()
      requires trail != [] && SoundTrail(trail) && Follows(trail[|trail| - 1], Now())
      modifies this`trail
      ensures Valid() && old(trail) <= trail
    {
      TrailGrows(trail, Now());
      trail := trail + [Now()];
    }

    /** Something failed at or after this moment. */
    ghost predicate FaultSince(from: nat)
      reads this`clock
    {
      exists n :: from <= n < clock && (!world(n).fault.Fine? || !world(n).built)
    }

    method Observe() returns (m: Moment)
      modifies this`clock
      ensures m == world(old(clock)) && clock == old(clock) + 1
      ensures !m.fault.Fine? || !m.built ==> FaultSince(old(clock))
    {
      m := world(clock);
      clock := clock + 1;
    }

    method SaveNet(n: Network) returns (ok: bool)
      requires Valid() && Follows(Now(), Now().(nets := nets[n.id := n]))
      modifies this`clock, this`nets, this`trail
      ensures Valid() && old(trail) <= trail && clock == old(clock) + 1
      ensures nets == old(nets) || nets == old(nets)[n.id := n]
      ensures ok ==> nets == old(nets)[n.id := n]
      ensures !ok ==> FaultSince(old(clock))
      ensures world(old(clock)).fault.Fine? ==> ok
    {
      hide Follows, SoundTrail;
      var m := Observe();
      if !m.fault.Lost? {
        nets := nets[n.id := n];
        Log();
      }
      ok := m.fault.Fine?;
    }

    method SaveBox(b: Container) returns (ok: bool)
      requires Valid() && Follows(Now(), Now().(boxes := boxes[b.id := b]))
      modifies this`clock, this`boxes, this`trail
      ensures Valid() && old(trail) <= trail && clock == old(clock) + 1
      ensures boxes == old(boxes) || boxes == old(boxes)[b.id := b]
      ensures ok ==> boxes == old(boxes)[b.id := b]
      ensures world(old(clock)).fault.Lost? ==> !ok && boxes == old(boxes)
      ensures !ok ==> FaultSince(old(clock))
      ensures world(old(clock)).fault.Fine? ==> ok
    {
      hide Follows, SoundTrail;
      var m := Observe();
      if !m.fault.Lost? {
        boxes := boxes[b.id := b];
        Log();
      }
      ok := m.fault.Fine?;
    }

    method CreateNetwork(name: string, internal: bool, acceptable: bool, addrs: seq<Prefix>, routes: seq<Prefix>,
          id: string)
      returns (r: Outcome)
      requires Valid() && Unused(Now(), id) && AllValid(addrs, routes)
      modifies this`clock, this`nets, this`trail
      ensures Valid() && old(trail) <= trail
      ensures r in [Done, Refused, Ambiguous, Exists, NoSpace, Failed]
      ensures r == Refused <==> !acceptable
      ensures r == Exists <==> acceptable && |Candidates(old(nets), name)| == 1
      ensures r == Ambiguous <==> acceptable && |Candidates(old(nets), name)| > 1
      ensures old(AllTied(Now())) ==> AllTied(Now())
      ensures r == NoSpace ==> forall s | 1 <= s <= 254 :: s in TakenSlots(nets) || Blocked(addrs, routes, s)
      ensures r == Failed ==> FaultSince(old(clock))
      ensures r == Done ==>
                && id in nets && nets == old(nets)[id := Network(id, name, internal, nets[id].slot, map[])]
                && nets[id].slot <= 254 && !Blocked(addrs, routes, nets[id].slot)
      ensures r != Done && r != Failed ==> nets == old(nets)
      ensures r != Done ==> nets - {id} == old(nets)
    {
      hide Overlaps, Subnet, ValidPrefix, Good, Follows, AllTied, SoundTrail, Blocked, TakenSlots, AllValid;
      if !acceptable {
        return Refused;
      }
      if |Candidates(nets, name)| == 1 {
        return Exists;
      }
      if |Candidates(nets, name)| > 1 {
        return Ambiguous;
      }
      var slot := FreeSlot(TakenSlots(nets), addrs, routes);
      if slot == 0 {
        return NoSpace;
      }
      var n := Network(id, name, internal, slot, map[]);
      NowGood();
      CreateFollows(Now(), n);
      var ok := SaveNet(n);
      if !ok {
        return Failed;
      }
      var m := Observe();
      r := if m.built then Done else Failed;
    }

    /** The network a name or an id stands for. */
    method Find(value: string) returns (found: Option<Network>, missing: Outcome)
      requires Valid()
      ensures found.None? <==> |Candidates(nets, value)| != 1
      ensures missing == if Candidates(nets, value) == {} then NotFound else Ambiguous
      ensures found.Some? ==> found.value.id in Candidates(nets, value) && nets[found.value.id] == found.value
    {
      hide Good;
      NowGood();
      var ids := Candidates(nets, value);
      missing := if ids == {} then NotFound else Ambiguous;
      if |ids| != 1 {
        return None, missing;
      }
      var i :| i in ids;
      found := Some(nets[i]);
    }

    /** The first host number that no endpoint of the network has; 255 when there is none. */
    method FreeHost(n: Network) returns (last: nat)
      ensures 2 <= last <= 255 && (last < 255 ==> Ip(n.slot, last) !in UsedAddresses(n))
      ensures forall k | 2 <= k < last :: Ip(n.slot, k) in UsedAddresses(n)
    {
      last := 2;
      while last < 255 && Ip(n.slot, last) in UsedAddresses(n)
        invariant 2 <= last <= 255
        invariant forall k | 2 <= k < last :: Ip(n.slot, k) in UsedAddresses(n)
      {
        last := last + 1;
      }
    }

    /** The first interface number that no attachment of the container has. */
    method FreeInterface(b: Container) returns (k: nat)
      ensures k !in UsedInterfaces(b) && forall j | 0 <= j < k :: j in UsedInterfaces(b)
    {
      hide UsedInterfaces;
      var used := UsedInterfaces(b);
      k := 0;
      ghost var left := used;
      while k in used
        invariant forall j :: j in left <==> j in used && j >= k
        invariant forall j | 0 <= j < k :: j in used
        decreases |left|
      {
        Smaller(left, k);
        left := left - {k};
        k := k + 1;
      }
    }

    /** Who may join what. */
    predicate MayJoin(b: Container, n: Network) {
      if b.managed then n.internal && b.networks == map[] else n.internal ==> b.proxy
    }

    /** Workers join internal networks only, and one of them; others join internal networks only as proxies. */
    lemma WhoMayJoin(b: Container, n: Network)
      ensures MayJoin(b, n) <==>
              && (b.managed ==> n.internal && b.networks.Keys == {})
              && (n.internal ==> b.managed || b.proxy)
    {
      assert b.networks == map[] <==> b.networks.Keys == {};
    }

    /** A managed worker that was tied stays tied, unless its endpoint is saved and its record is not. */
    ghost predicate RecordLost(cid: string, nets: map<string, Network>, boxes: map<string, Container>)
      reads this
    {
      cid in boxes && boxes[cid].managed && this.nets != nets && this.boxes == boxes
    }

    method Connect(value: string, cid: string) returns (r: Outcome, n: Network)
      requires Valid() && cid in boxes
      modifies this`clock, this`nets, this`boxes, this`trail
      ensures Valid() && old(trail) <= trail
      ensures r in [Done, Unchanged, NotFound, Ambiguous, Refused, NoSpace, Failed]
      ensures r == NotFound <==> Candidates(old(nets), value) == {}
      ensures r == Ambiguous <==> |Candidates(old(nets), value)| > 1
      ensures r !in [NotFound, Ambiguous] ==>
              n.id in old(nets) && n == old(nets)[n.id] && n.id in Candidates(old(nets), value)
      ensures r !in [Done, Failed] ==> Now() == old(Now())
      ensures r == Unchanged <==> r !in [NotFound, Ambiguous] && n.name in old(boxes)[cid].networks
      ensures r == Refused <==> r !in [NotFound, Ambiguous, Unchanged] && !MayJoin(old(boxes)[cid], n)
      ensures r !in [NotFound, Ambiguous, Unchanged] ==>
                var b := old(boxes)[cid];
                r != Refused <==>
                  && (b.managed ==> n.internal && b.networks.Keys == {})
                  && (n.internal ==> b.managed || b.proxy)
      ensures r in [Done, NoSpace, Failed] ==> Joined(cid, n, old(nets), old(boxes), r)
      ensures r in [Done, Failed] ==> Timing(old(clock), cid, n, old(nets), old(boxes), r)
      ensures old(AllTied(Now())) ==> (AllTied(Now()) <==> !RecordLost(cid, old(nets), old(boxes)))
    {
      hide Good, AllTied, Joined, Timing, SoundTrail, MayJoin;
      var found, missing := Find(value);
      if found.None? {
        return missing, Network("", "", false, 0, map[]);
      }
      n := found.value;
      if n.name in boxes[cid].networks {
        return Unchanged, n;
      }
      WhoMayJoin(boxes[cid], n);
      if !MayJoin(boxes[cid], n) {
        return Refused, n;
      }
      r := Join(n, cid);
    }

    /** What joining did: a free address in table and record alike, or the reason why not. */
    ghost predicate Joined(cid: string, n: Network, nets: map<string, Network>, boxes: map<string, Container>,
          r: Outcome)
      reads this
    {
      && (r == NoSpace ==> forall k | 2 <= k <= 254 :: Ip(n.slot, k) in UsedAddresses(n))
      && (r == Done ==>
            && n.id in nets && cid in boxes && cid in this.boxes && n.id in this.nets
            && n.name in this.boxes[cid].networks && cid in this.nets[n.id].endpoints
            && var a := this.boxes[cid].networks[n.name];
               && a.network == n.id && a.address == this.nets[n.id].endpoints[cid] && a.address.slot == n.slot
               && a.address !in UsedAddresses(n)
               && this.nets == nets[n.id := n.(endpoints := n.endpoints[cid := a.address])]
               && this.boxes == boxes[cid := boxes[cid].(networks := boxes[cid].networks[n.name := a])])
    }

    /** How the two writes decide the outcome. */
    ghost predicate Timing(from: nat, cid: string, n: Network, nets: map<string, Network>, boxes: map<string,
          Container>, r: Outcome)
      reads this
    {
      && (r == Failed ==> FaultSince(from))
      && (world(from).fault.Fine? && world(from + 1).fault.Fine? && world(from + 2).built ==> r == Done)
      && (world(from).fault.Fine? && world(from + 1).fault.Lost? ==>
            && r == Failed && this.boxes == boxes && clock == from + 2
            && n.id in this.nets && cid in this.nets[n.id].endpoints
            && this.nets == nets[n.id := n.(endpoints := n.endpoints[cid := this.nets[n.id].endpoints[cid]])])
    }

    method Join(n: Network, cid: string) returns (r: Outcome)
      requires Valid() && cid in boxes && n.id in nets && nets[n.id] == n
      requires n.name !in boxes[cid].networks && MayJoin(boxes[cid], n)
      modifies this`clock, this`nets, this`boxes, this`trail
      ensures Valid() && old(trail) <= trail
      ensures r in [Done, NoSpace, Failed] && (r == NoSpace ==> Now() == old(Now()))
      ensures Joined(cid, n, old(nets), old(boxes), r)
      ensures r != NoSpace ==> Timing(old(clock), cid, n, old(nets), old(boxes), r)
      ensures old(AllTied(Now())) ==> (AllTied(Now()) <==> !RecordLost(cid, old(nets), old(boxes)))
    {
      hide Good, UsedAddresses, UsedInterfaces, Follows, AllTied, SoundTrail;
      var b := boxes[cid];
      var last := FreeHost(n);
      if last == 255 {
        return NoSpace;
      }
      var k := FreeInterface(b);
      var a := Attachment(n.id, Ip(n.slot, last), k);
      var tabled, listed := n.(endpoints := n.endpoints[b.id := a.address]), b.(networks := b.networks[n.name := a]);
      NowGood();
      JoinFollows(Now(), n.id, b, a);
      ghost var before := Now();
      ghost var between := before.(nets := nets[n.id := tabled]);
      r := Attach(tabled, listed);
      hide NetworkTables.Tabled;
      assert Now() == before || Now() == between || Now() == between.(boxes := between.boxes[cid := listed]);
    }

    /** Both records of a new endpoint, then the interfaces. */
    method Attach(tabled: Network, listed: Container) returns (r: Outcome)
      requires Valid() && Follows(Now(), Now().(nets := nets[tabled.id := tabled]))
      requires Follows(Now().(nets := nets[tabled.id := tabled]),
               State(nets[tabled.id := tabled], boxes[listed.id := listed]))
      modifies this`clock, this`nets, this`boxes, this`trail
      ensures Valid() && old(trail) <= trail
      ensures r in [Done, Failed] && (r == Failed ==> FaultSince(old(clock)))
      ensures nets == old(nets) || nets == old(nets)[tabled.id := tabled]
      ensures boxes == old(boxes) ||
              (boxes == old(boxes)[listed.id := listed] && nets == old(nets)[tabled.id := tabled])
      ensures r == Done ==> nets == old(nets)[tabled.id := tabled] && boxes == old(boxes)[listed.id := listed]
      ensures world(old(clock)).fault.Fine? && world(old(clock) + 1).fault.Fine? && world(old(clock) + 2).built ==>
              r == Done
      ensures world(old(clock)).fault.Fine? && world(old(clock) + 1).fault.Lost? ==>
                r == Failed && nets == old(nets)[tabled.id := tabled] && boxes == old(boxes) && clock == old(clock) + 2
    {
      hide Good, Follows, SoundTrail;
      var ok := SaveNet(tabled);
      if !ok {
        return Failed;
      }
      ok := SaveBox(listed);
      if !ok {
        return Failed;
      }
      var m := Observe();
      r := if m.built then Done else Failed;
    }

    /** An endpoint goes from the table first and from the container's list second. When the table
        does not have it, nothing happens, whatever the list says. */
    method Disconnect(id: string, cid: string) returns (ok: bool)
      requires Valid() && id in nets
      modifies this`clock, this`nets, this`boxes, this`trail
      ensures Valid() && old(trail) <= trail && nets.Keys == old(nets.Keys) && boxes.Keys == old(boxes.Keys)
      ensures cid !in old(nets)[id].endpoints ==> ok && Now() == old(Now())
      ensures nets == old(nets) || nets == old(nets)[id := old(nets)[id].(endpoints := old(nets)[id].endpoints - {cid})]
      ensures ok ==> cid !in nets[id].endpoints
      ensures ok && cid in old(nets)[id].endpoints && cid in boxes ==> old(nets)[id].name !in boxes[cid].networks
      ensures clock >= old(clock) && (!ok ==> FaultSince(old(clock)))
      ensures old(AllTied(Now())) ==> AllTied(Now())
    {
      hide Good, Follows, AllTied, SoundTrail;
      var n := nets[id];
      if cid !in n.endpoints {
        return true;
      }
      var m := Observe();
      if !m.built {
        return false;
      }
      NowGood();
      LeaveFollows(Now(), id, cid);
      ok := SaveNet(n.(endpoints := n.endpoints - {cid}));
      if !ok || cid !in boxes {
        return;
      }
      var b := boxes[cid];
      ok := SaveBox(b.(networks := b.networks - {n.name}));
    }

    method RemoveNetwork(id: string) returns (ok: bool)
      requires Valid() && id in nets
      modifies this`clock, this`nets, this`trail
      ensures Valid() && old(trail) <= trail
      ensures old(nets)[id].endpoints != map[] ==> !ok && nets == old(nets)
      ensures nets == old(nets) || nets == old(nets) - {id}
      ensures ok ==> nets == old(nets) - {id}
      ensures !ok ==> old(nets)[id].endpoints != map[] || FaultSince(old(clock))
      ensures old(AllTied(Now())) ==> AllTied(Now())
    {
      hide Good, Follows, AllTied, SoundTrail;
      if nets[id].endpoints != map[] {
        return false;
      }
      var m := Observe();
      if !m.built || m.fault.Lost? {
        return false;
      }
      NowGood();
      DropFollows(Now(), id);
      nets := nets - {id};
      Log();
      ok := m.fault.Fine?;
    }

    /** Takes the container out of every table. */
    method LeaveAll(cid: string) returns (ok: bool)
      requires Valid()
      modifies this`clock, this`nets, this`boxes, this`trail
      ensures Valid() && old(trail) <= trail && nets.Keys == old(nets.Keys) && boxes.Keys == old(boxes.Keys)
      ensures ok ==> forall i | i in nets :: cid !in nets[i].endpoints
      ensures clock >= old(clock) && (!ok ==> FaultSince(old(clock)))
      ensures old(AllTied(Now())) ==> AllTied(Now())
    {
      hide Good, Follows, AllTied, SoundTrail;
      var left := nets.Keys;
      while left != {}
        invariant Valid() && old(trail) <= trail && nets.Keys == old(nets.Keys) && boxes.Keys == old(boxes.Keys)
        invariant left <= nets.Keys && clock >= old(clock)
        invariant old(AllTied(Now())) ==> AllTied(Now())
        invariant forall i | i in nets && i !in left :: cid !in nets[i].endpoints
        decreases |left|
      {
        var id :| id in left;
        left := left - {id};
        ok := Disconnect(id, cid);
        if !ok {
          return;
        }
      }
      ok := true;
    }

    /** The container leaves every table before its record goes, so no address stays behind. */
    method RemoveContainer(cid: string) returns (ok: bool)
      requires Valid()
      modifies this`clock, this`nets, this`boxes, this`trail
      ensures Valid() && old(trail) <= trail && nets.Keys == old(nets.Keys)
      ensures ok ==> cid !in boxes && Tables(Now(), cid) == {}
      ensures !ok ==> FaultSince(old(clock))
      ensures old(AllTied(Now())) ==> AllTied(Now())
    {
      hide Good, Follows, AllTied, SoundTrail;
      ok := LeaveAll(cid);
      if !ok {
        return;
      }
      var m := Observe();
      if m.fault.Lost? {
        return false;
      }
      NowGood();
      RemoveFollows(Now(), cid);
      boxes := boxes - {cid};
      Log();
      ok := m.fault.Fine?;
    }
  }

  /** Attaching a worker leaves it in exactly one table if and only if no other network's table
      still had it. */
  lemma OneTable(s: State, t: State, id: string, cid: string, a: Ip)
    requires id in s.nets && t.nets == s.nets[id := s.nets[id].(endpoints := s.nets[id].endpoints[cid := a])]
    ensures Tables(t, cid) == Tables(s, cid) + {id}
    ensures |Tables(t, cid)| == 1 <==> Tables(s, cid) <= {id}
  {
    assert Tables(t, cid) == Tables(s, cid) + {id};
    assert Tables(s, cid) <= {id} ==> Tables(t, cid) == {id};
    if |Tables(t, cid)| == 1 {
      forall x | x in Tables(s, cid) ensures x == id {
        Single(Tables(t, cid), x, id);
      }
    }
  }

  /** A connect whose record write is lost leaves the endpoint in the table alone. */
  method LoseRecord(node: Node, a: string, w: string)
    requires node.Valid() && a in node.nets && w in node.boxes && Candidates(node.nets, a) == {a}
    requires node.nets[a].internal && node.nets[a].endpoints == map[]
    requires node.boxes[w].managed && node.boxes[w].networks == map[]
    requires node.world(node.clock).fault.Fine? && node.world(node.clock + 1).fault.Lost?
    modifies node`clock, node`nets, node`boxes, node`trail
    ensures node.Valid() && node.boxes == old(node.boxes) && node.clock == old(node.clock) + 2 &&
            old(node.trail) <= node.trail
    ensures a in node.nets && node.nets.Keys == old(node.nets.Keys) && w in node.nets[a].endpoints
    ensures node.nets == old(node.nets)[a := old(node.nets)[a].(endpoints := node.nets[a].endpoints)]
  {
    hide Good, SoundTrail, AllTied;
    node.NowGood();
    var n := node.nets[a];
    assert Ip(n.slot, 2) !in UsedAddresses(n);
    hide UsedAddresses, Node.RecordLost;
    var r, m := node.Connect(a, w);
    assert m == n;
  }

  /** A worker whose record write is lost after its endpoint was saved can join a second network,
      and is then in two tables at once. */
  method JoinTwice(node: Node, a: string, b: string, w: string)
    requires node.Valid() && a in node.nets && b in node.nets && a != b && w in node.boxes
    requires Candidates(node.nets, a) == {a} && Candidates(node.nets, b) == {b}
    requires node.nets[a].internal && node.nets[b].internal && node.nets[a].endpoints == map[] == node.nets[b].endpoints
    requires node.boxes[w].managed && node.boxes[w].networks == map[]
    requires forall n :: node.world(n) == Moment(if n == node.clock + 1 then Lost else Fine, true)
    modifies node`clock, node`nets, node`boxes, node`trail
    ensures node.Valid() && old(node.trail) <= node.trail && w in node.boxes && a in node.nets && b in node.nets
    ensures w in node.nets[a].endpoints && w in node.nets[b].endpoints
  {
    hide Good, SoundTrail, AllTied;
    var n := node.nets[b];
    LoseRecord(node, a, w);
    assert node.nets[b] == n && Candidates(node.nets, b) == {b};
    assert Ip(n.slot, 2) !in UsedAddresses(n);
    hide UsedAddresses, Candidates, Node.RecordLost;
    var r, m := node.Connect(b, w);
    assert m == n;
  }

  function TwoNetworks(): map<string, Network> {
    map["a" := Network("a", "one", true, 1, map[]), "b" := Network("b", "two", true, 2, map[])]
  }

  function OneWorker(): map<string, Container> {
    map["w" := Container("w", true, false, map[])]
  }

  lemma SampleIsGood()
    ensures var nets, boxes := TwoNetworks(), OneWorker();
            && Good(State(nets, boxes)) && "a" in nets && "b" in nets && "w" in boxes
            && nets["a"].internal && nets["b"].internal && nets["a"].endpoints == map[] == nets["b"].endpoints
            && boxes["w"].managed && boxes["w"].networks == map[]
  {
  }

  lemma SampleIsUnambiguous()
    ensures Candidates(TwoNetworks(), "a") == {"a"} && Candidates(TwoNetworks(), "b") == {"b"}
  {
    assert |"one"| != |"a"| && |"two"| != |"a"| && |"one"| != |"b"| && |"two"| != |"b"|;
  }

  /** There is such a node. */
  method WorkerInTwoTables() returns (node: Node)
    ensures node.Valid() && "w" in node.boxes && |Tables(node.Now(), "w")| >= 2
  {
    SampleIsGood();
    SampleIsUnambiguous();
    hide Good, Candidates, TwoNetworks, OneWorker;
    var a, b, w := "a", "b", "w";
    assert a != b;
    node := new Node(n => Moment(if n == 1 then Lost else Fine, true), TwoNetworks(), OneWorker());
    JoinTwice(node, a, b, w);
    TwoOrMore(Tables(node.Now(), w), a, b);
  }

  lemma TwoOrMore<T>(s: set<T>, x: T, y: T)
    requires x in s && y in s && x != y
    ensures |s| >= 2
  {
    assert |s - {x}| >= 1 by {
      assert y in s - {x};
    }
  }

  lemma Single<T>(s: set<T>, x: T, y: T)
    requires |s| == 1 && x in s && y in s
    ensures x == y
  {
    assert |s - {x}| == 0;
  }

  lemma Smaller(s: set<nat>, k: nat)
    requires k in s
    ensures |s - {k}| < |s|
  {
  }
}
