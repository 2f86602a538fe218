/** How the endpoint tables of the networks and the containers' own lists keep together, step by step and
    over whole runs of a node. */
module NetworkTables {
  import opened NetworkState

  ghost predicate InTable(s: State, i: string, c: string) {
    i in s.nets && c in s.nets[i].endpoints
  }

  /** The container's own record lists the network under its name. */
  ghost predicate Listed(s: State, i: string, c: string) {
    && i in s.nets && c in s.boxes
    && s.nets[i].name in s.boxes[c].networks && s.boxes[c].networks[s.nets[i].name].network == i
  }

  ghost predicate Enters(s: State, t: State, i: string, c: string) {
    !InTable(s, i, c) && InTable(t, i, c)
  }

  /** One durable step of a managed worker: it enters at most one table, only while it lists no network,
      and what it lists stays listed as long as the table has it. */
  ghost predicate Tracked(s: State, t: State, c: string) {
    c in s.boxes && c in t.boxes && s.boxes[c].managed ==>
      && t.boxes[c].managed
      && (forall i | Enters(s, t, i, c) :: s.boxes[c].networks == map[])
      && (forall i, j | Enters(s, t, i, c) && Enters(s, t, j, c) :: i == j)
      && (forall i | Listed(s, i, c) && InTable(t, i, c) :: Listed(t, i, c))
  }

  ghost predicate AllTracked(s: State, t: State) {
    forall c :: Tracked(s, t, c)
  }

  ghost predicate Follows(s: State, t: State) {
    Good(t) && AllTracked(s, t)
  }

  /** Every durable state is good, and each follows from the one before. */
  ghost predicate SoundTrail(trail: seq<State>) {
    && (forall k | 0 <= k < |trail| :: Good(trail[k]))
    && (forall k | 0 < k < |trail| :: AllTracked(trail[k - 1], trail[k]))
  }

  /** A managed worker stands only in tables of networks that it lists. */
  ghost predicate Tied(s: State, c: string) {
    c in s.boxes && s.boxes[c].managed ==> forall i | InTable(s, i, c) :: Listed(s, i, c)
  }

  ghost predicate AllTied(s: State) {
    forall c :: Tied(s, c)
  }

  lemma TrailGrows(trail: seq<State>, s: State)
    requires trail != [] && SoundTrail(trail) && Follows(trail[|trail| - 1], s)
    ensures SoundTrail(trail + [s])
  {
    hide Good, AllTracked;
  }

  lemma TrailStops(trail: seq<State>, k: nat)
    requires SoundTrail(trail) && k < |trail|
    ensures SoundTrail(trail[..k + 1])
  {
    hide Good, AllTracked;
  }

  lemma StillTied(s: State, t: State, c: string)
    requires Tied(s, c) && (c in t.boxes && t.boxes[c].managed ==> c in s.boxes && s.boxes[c].managed)
    requires forall i | InTable(t, i, c) :: InTable(s, i, c) && (Listed(s, i, c) ==> c in t.boxes ==> Listed(t, i, c))
    ensures Tied(t, c)
  {
    hide InTable, Listed;
  }

  lemma CreateFollows(s: State, n: Network)
    requires Good(s) && Unused(s, n.id) && n.endpoints == map[] && 1 <= n.slot <= 254
    requires n.slot !in TakenSlots(s.nets) && Candidates(s.nets, n.name) == {}
    ensures Follows(s, s.(nets := s.nets[n.id := n]))
    ensures AllTied(s) ==> AllTied(s.(nets := s.nets[n.id := n]))
  {
    NetAdded(s, n);
    var t := s.(nets := s.nets[n.id := n]);
    hide Good, Candidates, TakenSlots, Tracked, Tied;
    forall c ensures Tracked(s, t, c) && (Tied(s, c) ==> Tied(t, c)) {
      CreateIsTracked(s, t, n, c);
    }
  }

  lemma CreateIsTracked(s: State, t: State, n: Network, c: string)
    requires n.id !in s.nets && n.endpoints == map[] && t == s.(nets := s.nets[n.id := n])
    ensures Tracked(s, t, c) && (Tied(s, c) ==> Tied(t, c))
  {
    forall i ensures InTable(t, i, c) <==> InTable(s, i, c) {
      assert i != n.id ==> (i in t.nets <==> i in s.nets);
    }
    assert forall i | InTable(t, i, c) && Listed(s, i, c) :: Listed(t, i, c);
    if Tied(s, c) {
      StillTied(s, t, c);
    }
  }

  lemma DropFollows(s: State, id: string)
    requires Good(s)
    ensures Follows(s, s.(nets := s.nets - {id}))
    ensures AllTied(s) ==> AllTied(s.(nets := s.nets - {id}))
  {
    NetDropped(s, id);
    var t := s.(nets := s.nets - {id});
    hide Good;
    forall c ensures Tracked(s, t, c) && (Tied(s, c) ==> Tied(t, c)) {
      DropIsTracked(s, t, id, c);
    }
  }

  lemma DropIsTracked(s: State, t: State, id: string, c: string)
    requires t == s.(nets := s.nets - {id})
    ensures Tracked(s, t, c) && (Tied(s, c) ==> Tied(t, c))
  {
    forall i | InTable(t, i, c) ensures InTable(s, i, c) && (Listed(s, i, c) ==> Listed(t, i, c)) {
      assert i in s.nets && t.nets[i] == s.nets[i];
    }
    if Tied(s, c) {
      StillTied(s, t, c);
    }
    hide InTable, Listed;
  }

  lemma RemoveFollows(s: State, cid: string)
    requires Good(s)
    ensures Follows(s, s.(boxes := s.boxes - {cid}))
    ensures AllTied(s) ==> AllTied(s.(boxes := s.boxes - {cid}))
  {
    BoxDropped(s, cid);
    var t := s.(boxes := s.boxes - {cid});
    hide Good;
    forall c ensures Tracked(s, t, c) && (Tied(s, c) ==> Tied(t, c)) {
      assert forall i :: InTable(t, i, c) <==> InTable(s, i, c);
      if Tied(s, c) {
        StillTied(s, t, c);
      }
    }
  }

  function Tabled(s: State, id: string, cid: string, a: Ip): State
    requires id in s.nets
  {
    s.(nets := s.nets[id := s.nets[id].(endpoints := s.nets[id].endpoints[cid := a])])
  }

  function Untabled(s: State, id: string, cid: string): State
    requires id in s.nets
  {
    s.(nets := s.nets[id := s.nets[id].(endpoints := s.nets[id].endpoints - {cid})])
  }

  lemma TabledIsTracked(s: State, id: string, cid: string, a: Ip)
    requires id in s.nets && (cid in s.boxes && s.boxes[cid].managed ==> s.boxes[cid].networks == map[])
    ensures AllTracked(s, Tabled(s, id, cid, a))
  {
  }

  lemma ListedIsTracked(s: State, b: Container)
    requires b.id in s.boxes && b.managed == s.boxes[b.id].managed
    requires forall m | m in s.boxes[b.id].networks :: m in b.networks && b.networks[m] == s.boxes[b.id].networks[m]
    ensures AllTracked(s, s.(boxes := s.boxes[b.id := b]))
  {
  }

  lemma UntabledIsTracked(s: State, id: string, cid: string)
    requires id in s.nets
    ensures AllTracked(s, Untabled(s, id, cid))
    ensures AllTied(s) ==> AllTied(Untabled(s, id, cid))
  {
    var t := Untabled(s, id, cid);
    forall c ensures Tracked(s, t, c) && (Tied(s, c) ==> Tied(t, c)) {
      assert forall i | InTable(t, i, c) :: InTable(s, i, c);
      if Tied(s, c) {
        StillTied(s, t, c);
      }
    }
  }

  lemma UnlistedIsTracked(s: State, id: string, b: Container)
    requires NetsGood(s.nets) && id in s.nets && b.id in s.boxes && s.boxes[b.id] == b && !InTable(s, id, b.id)
    ensures var t := s.(boxes := s.boxes[b.id := b.(networks := b.networks - {s.nets[id].name})]);
            && AllTracked(s, t)
            && (AllTied(s) ==> AllTied(t))
  {
    hide NetGood;
    var t := s.(boxes := s.boxes[b.id := b.(networks := b.networks - {s.nets[id].name})]);
    forall c ensures Tracked(s, t, c) && (Tied(s, c) ==> Tied(t, c)) {
      assert forall i :: InTable(t, i, c) <==> InTable(s, i, c);
      assert forall i | InTable(s, i, c) && Listed(s, i, c) :: Listed(t, i, c);
      if Tied(s, c) {
        StillTied(s, t, c);
      }
    }
  }

  /** Both writes of a new endpoint. Only the state between them can leave the worker untied. */
  lemma JoinFollows(s: State, id: string, b: Container, a: Attachment)
    requires Good(s) && id in s.nets && b.id in s.boxes && s.boxes[b.id] == b && a.network == id
    requires s.nets[id].name !in b.networks
    requires b.managed ==> b.networks == map[] && s.nets[id].internal
    requires !b.managed && !b.proxy ==> !s.nets[id].internal
    requires a.address.slot == s.nets[id].slot && 2 <= a.address.last <= 254
    requires a.address !in UsedAddresses(s.nets[id]) && a.interface !in UsedInterfaces(b)
    ensures var t := Tabled(s, id, b.id, a.address);
            var u := t.(boxes := t.boxes[b.id := b.(networks := b.networks[s.nets[id].name := a])]);
            && Follows(s, t) && Follows(t, u)
            && (AllTied(s) ==> AllTied(u) && (AllTied(t) <==> !b.managed))
  {
    hide UsedAddresses, UsedInterfaces, Tracked, NetGood, BoxGood, Tied;
    JoinIsGood(s, id, b, a);
    var t := Tabled(s, id, b.id, a.address);
    var c := b.(networks := b.networks[s.nets[id].name := a]);
    TabledIsTracked(s, id, b.id, a.address);
    ListedIsTracked(t, c);
    hide Good;
    if AllTied(s) {
      JoinTies(s, id, b, a);
    }
  }

  lemma JoinTies(s: State, id: string, b: Container, a: Attachment)
    requires id in s.nets && b.id in s.boxes && s.boxes[b.id] == b && a.network == id
    requires b.managed ==> b.networks == map[]
    requires AllTied(s)
    ensures var t := Tabled(s, id, b.id, a.address);
            var u := t.(boxes := t.boxes[b.id := b.(networks := b.networks[s.nets[id].name := a])]);
            AllTied(u) && (AllTied(t) <==> !b.managed)
  {
    var t := Tabled(s, id, b.id, a.address);
    assert Tied(s, b.id) && InTable(t, id, b.id);
    if b.managed {
      assert forall i :: !InTable(s, i, b.id);
      assert !Listed(t, id, b.id);
      assert !Tied(t, b.id);
    }
    var u := t.(boxes := t.boxes[b.id := b.(networks := b.networks[s.nets[id].name := a])]);
    assert Listed(u, id, b.id);
    forall c ensures (c != b.id ==> Tied(t, c)) && Tied(u, c) {
      assert Tied(s, c);
      if c != b.id {
        StillTied(s, t, c);
        StillTied(s, u, c);
      } else {
        forall i | InTable(u, i, c) && b.managed ensures i == id {
          assert i != id ==> InTable(s, i, c);
        }
      }
    }
    if !b.managed {
      assert Tied(t, b.id);
    }
  }

  /** Both writes of leaving. */
  lemma LeaveFollows(s: State, id: string, cid: string)
    requires Good(s) && id in s.nets
    ensures var t := Untabled(s, id, cid);
            && Follows(s, t) && (AllTied(s) ==> AllTied(t))
            && (cid in s.boxes ==>
                  var left := s.boxes[cid].networks - {s.nets[id].name};
                  var u := t.(boxes := t.boxes[cid := s.boxes[cid].(networks := left)]);
                  Follows(t, u) && (AllTied(s) ==> AllTied(u)))
  {
    LeaveIsGood(s, id, cid);
    UntabledIsTracked(s, id, cid);
    if cid in s.boxes {
      UnlistedIsTracked(Untabled(s, id, cid), id, s.boxes[cid]);
    }
    hide NetsGood, BoxGood, Tracked, AllTied;
  }

  lemma TrailStep(trail: seq<State>, k: nat, c: string)
    requires SoundTrail(trail) && 0 < k < |trail|
    ensures Tracked(trail[k - 1], trail[k], c) && Good(trail[k - 1]) && Good(trail[k])
  {
    hide Good, Tracked;
    assert AllTracked(trail[k - 1], trail[k]);
  }

  /** The worker exists and is managed all the way. */
  ghost predicate Lives(trail: seq<State>, c: string) {
    forall k | 0 <= k < |trail| :: c in trail[k].boxes && trail[k].boxes[c].managed
  }

  /** The worker came into the table of `i` with step `k` and has stayed in it up to `t`. */
  ghost predicate CameAt(trail: seq<State>, c: string, i: string, k: nat, t: nat) {
    && 0 < k <= t < |trail|
    && !InTable(trail[k - 1], i, c)
    && forall m | k <= m <= t :: InTable(trail[m], i, c)
  }

  ghost predicate AlwaysIn(trail: seq<State>, c: string, i: string, t: nat) {
    t < |trail| && forall m | 0 <= m <= t :: InTable(trail[m], i, c)
  }

  /** Whoever is in a table has been in it from the start or came into it. */
  lemma {:induction false} Arrival(trail: seq<State>, c: string, i: string, t: nat) returns (k: nat)
    requires t < |trail| && InTable(trail[t], i, c)
    ensures if k == 0 then AlwaysIn(trail, c, i, t) else CameAt(trail, c, i, k, t)
    decreases t
  {
    hide InTable;
    if t == 0 {
      k := 0;
    } else if InTable(trail[t - 1], i, c) {
      k := Arrival(trail, c, i, t - 1);
    } else {
      k := t;
    }
  }

  /** A network that is listed while the table has it stays listed. */
  lemma {:induction false} ListedStays(trail: seq<State>, c: string, i: string, j: nat, t: nat)
    requires SoundTrail(trail) && Lives(trail, c) && j <= t < |trail|
    requires Listed(trail[j], i, c) && forall m | j <= m <= t :: InTable(trail[m], i, c)
    ensures Listed(trail[t], i, c)
    decreases t
  {
    hide Good, InTable, Listed;
    if j < t {
      ListedStays(trail, c, i, j, t - 1);
      TrailStep(trail, t, c);
    }
  }

  /** The record write that should have followed a table write was lost: the worker is in the table all
      the way and its record never lists the network. */
  ghost predicate WriteLost(trail: seq<State>, c: string, i: string, k: nat, t: nat) {
    CameAt(trail, c, i, k, t) && forall m | k <= m <= t :: !Listed(trail[m], i, c)
  }

  /** A managed worker stands in the tables of two networks only when the record write after one table
      write was lost and a later connect put it into the other table. */
  lemma TwoTablesAfterLostWrite(trail: seq<State>, c: string, x: string, y: string, t: nat)
    returns (a: string, b: string, first: nat, second: nat)
    requires SoundTrail(trail) && Lives(trail, c) && t < |trail|
    requires Tied(trail[0], c)
    requires x != y && InTable(trail[t], x, c) && InTable(trail[t], y, c)
    ensures {a, b} == {x, y} && first < second
    ensures WriteLost(trail, c, a, first, second - 1) && CameAt(trail, c, b, second, t)
    ensures forall m | second <= m <= t :: InTable(trail[m], a, c)
  {
    hide InTable, Listed, Good;
    var i := Arrival(trail, c, x, t);
    var j := Arrival(trail, c, y, t);
    assert i != j by {
      NotTogether(trail, c, x, y, i, j, t);
    }
    a, b := if i < j then x else y, if i < j then y else x;
    first, second := if i < j then i else j, if i < j then j else i;
    UnlistedBefore(trail, c, a, b, first, second, t);
  }

  lemma ListedOnce(s: State, x: string, y: string, c: string)
    requires Good(s) && Listed(s, x, c) && Listed(s, y, c) && s.boxes[c].managed
    ensures x == y
  {
    hide NetsGood;
    var b := s.boxes[c];
    assert BoxGood(b, s.nets);
    var m, k := s.nets[x].name, s.nets[y].name;
    if m != k {
      TwoKeys(b.networks, m, k);
    }
  }

  lemma TwoKeys<K, V>(m: map<K, V>, x: K, y: K)
    requires x in m && y in m && x != y
    ensures |m| >= 2
  {
    assert {x, y} <= m.Keys;
    assert |m| == |m.Keys|;
    assert |m.Keys - {x, y}| == |m.Keys| - 2;
  }

  lemma EntersOne(s: State, t: State, x: string, y: string, c: string)
    requires Tracked(s, t, c) && c in s.boxes && c in t.boxes && s.boxes[c].managed
    requires Enters(s, t, x, c) && Enters(s, t, y, c)
    ensures x == y
  {
  }

  /** Two tables are not entered in one step, and not both from the start. */
  lemma NotTogether(trail: seq<State>, c: string, x: string, y: string, i: nat, j: nat, t: nat)
    requires SoundTrail(trail) && Lives(trail, c) && t < |trail| && Tied(trail[0], c) && x != y
    requires if i == 0 then AlwaysIn(trail, c, x, t) else CameAt(trail, c, x, i, t)
    requires if j == 0 then AlwaysIn(trail, c, y, t) else CameAt(trail, c, y, j, t)
    ensures i != j
  {
    hide InTable, Listed, Good;
    if i == j {
      if i == 0 {
        ListedOnce(trail[0], x, y, c);
      } else {
        TrailStep(trail, i, c);
        EntersOne(trail[i - 1], trail[i], x, y, c);
      }
    }
  }

  lemma UnlistedWhenEntering(s: State, t: State, a: string, b: string, c: string)
    requires Tracked(s, t, c) && c in s.boxes && c in t.boxes && s.boxes[c].managed
    requires !InTable(s, b, c) && InTable(t, b, c)
    ensures !Listed(s, a, c)
  {
    assert Enters(s, t, b, c);
  }

  lemma ListedAtStart(trail: seq<State>, c: string, i: string, t: nat)
    requires Lives(trail, c) && AlwaysIn(trail, c, i, t) && Tied(trail[0], c)
    ensures Listed(trail[0], i, c)
  {
    hide Listed, InTable;
    assert InTable(trail[0], i, c);
  }

  lemma UnlistedBefore(trail: seq<State>, c: string, a: string, b: string, first: nat, second: nat, t: nat)
    requires SoundTrail(trail) && Lives(trail, c) && t < |trail| && Tied(trail[0], c)
    requires first < second && CameAt(trail, c, b, second, t)
    requires if first == 0 then AlwaysIn(trail, c, a, t) else CameAt(trail, c, a, first, t)
    ensures first > 0 && WriteLost(trail, c, a, first, second - 1)
  {
    hide InTable, Good, Tracked;
    TrailStep(trail, second, c);
    UnlistedWhenEntering(trail[second - 1], trail[second], a, b, c);
    hide Listed;
    forall m | first <= m <= second - 1 ensures !Listed(trail[m], a, c) {
      if Listed(trail[m], a, c) {
        ListedStays(trail, c, a, m, second - 1);
      }
    }
    if first == 0 {
      ListedAtStart(trail, c, a, t);
    }
  }

  /** And whenever that happens, the worker stands in both tables. */
  lemma LostWriteThenConnect(trail: seq<State>, c: string, a: string, b: string, first: nat, second: nat)
    requires first < second < |trail| && WriteLost(trail, c, a, first, second - 1)
    requires a != b && Enters(trail[second - 1], trail[second], b, c) && InTable(trail[second], a, c)
    ensures |Tables(trail[second], c)| >= 2
  {
    TwoIn(Tables(trail[second], c), a, b);
  }

  lemma TwoIn<T>(s: set<T>, x: T, y: T)
    requires x in s && y in s && x != y
    ensures |s| >= 2
  {
    assert |s - {x, y}| == |s| - 2;
  }
}
