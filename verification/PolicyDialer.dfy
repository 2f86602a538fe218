/** Dialing under a policy, and its offline explanation. The dialer resolves a name once, checks
    the whole answer, and only then connects to one of the checked addresses. */
module PolicyDialer {
  import opened Options
  import opened HostNames
  import opened PolicyAddresses
  import opened PolicyRules

  /** What the two share with the outside: address literals and name resolution. A failed lookup
      has no answer. */
  datatype Names = Names(literal: string -> Option<Addr>, lookup: string -> Option<seq<Addr>>)

  function Answer(names: Names, d: Destination): Option<seq<Addr>> {
    if names.literal(d.host).Some? then Some([names.literal(d.host).value]) else names.lookup(d.host)
  }

  datatype Event = CheckedDestination | Looked | Checked(a: Addr) | Connecting(a: Addr)

  datatype Dialed =
    | Connected(a: Addr)
    | Unreachable(last: Addr)
    | Refused(v: Verdict)
    | BadAuthority
    | NoPolicy
    | NoAnswer
    | NoAddresses

  predicate ReachedConnect(o: Dialed) {
    o.Connected? || o.Unreachable?
  }

  /** Offset of the first address the policy does not allow. */
  function FirstRefused(policy: Policy, d: Destination, answer: seq<Addr>): (i: nat)
    ensures i <= |answer|
    ensures i < |answer| ==> policy.address(d, answer[i]) != Allow
    ensures forall j | 0 <= j < i :: policy.address(d, answer[j]) == Allow
  {
    if answer == [] || policy.address(d, answer[0]) != Allow then 0
    else 1 + FirstRefused(policy, d, answer[1..])
  }

  lemma FirstRefusedIs(policy: Policy, d: Destination, answer: seq<Addr>, i: nat)
    requires i <= |answer| && forall j | 0 <= j < i :: policy.address(d, answer[j]) == Allow
    requires i < |answer| ==> policy.address(d, answer[i]) != Allow
    ensures FirstRefused(policy, d, answer) == i
  {
    var k := FirstRefused(policy, d, answer);
    assert !(k < i) && !(i < k);
  }

  /** Everything the policy has to say about a destination and its answer allows it. */
  predicate Passes(policy: Policy, d: Destination, answer: Option<seq<Addr>>) {
    && policy.destination(d) == Allow
    && answer.Some? && answer.value != []
    && FirstRefused(policy, d, answer.value) == |answer.value|
  }

  /** How dialing ends before its connect loop; None when it gets there. */
  function Stopped(policy: Policy, d: Destination, answer: Option<seq<Addr>>): Option<Dialed> {
    if policy.destination(d) != Allow then Some(Refused(policy.destination(d)))
    else if answer.None? then Some(NoAnswer)
    else if answer.value == [] then Some(NoAddresses)
    else
      var i := FirstRefused(policy, d, answer.value);
      if i < |answer.value| then Some(Refused(policy.address(d, answer.value[i]))) else None
  }

  /** A connection is only tried to an address of the answer, after every address of the answer has
      been checked and allowed. */
  ghost predicate Safe(policy: Policy, d: Destination, answer: seq<Addr>, events: seq<Event>) {
    forall k | 0 <= k < |events| && events[k].Connecting? ::
      && (exists a :: a in answer && events[k].a == Unmap(a))
      && forall a | a in answer :: Checked(a) in events[..k] && policy.address(d, a) == Allow
  }

  /** The addresses checked, in order. */
  ghost function ChecksIn(events: seq<Event>): seq<Addr> {
    if events == [] then []
    else
      var last := events[|events| - 1];
      ChecksIn(events[..|events| - 1]) + if last.Checked? then [last.a] else []
  }

  lemma ChecksAdded(events: seq<Event>, e: Event)
    ensures ChecksIn(events + [e]) == ChecksIn(events) + if e.Checked? then [e.a] else []
  {
    assert (events + [e])[..|events|] == events;
  }

  /** The addresses of an answer that are looked at: all of them, or those up to the first refused one. */
  ghost function Examined(policy: Policy, d: Destination, answer: seq<Addr>): seq<Addr> {
    var i := FirstRefused(policy, d, answer);
    if i < |answer| then answer[..i + 1] else answer
  }

  /** What had to be looked at before dialing ended or went on to connect. */
  ghost function Looks(policy: Policy, d: Destination, answer: Option<seq<Addr>>): seq<Addr> {
    if policy.destination(d) == Allow && answer.Some? then Examined(policy, d, answer.value) else []
  }

  /** A name is resolved at most once, after its destination was allowed, and an address is not resolved. */
  ghost predicate ResolvesOnce(names: Names, d: Destination, events: seq<Event>) {
    && (names.literal(d.host).Some? ==> Looked !in events)
    && (forall k | 0 <= k < |events| && events[k] == Looked :: k == 1 && events[0] == CheckedDestination)
  }

  lemma {:induction false} NothingChecked(before: seq<Event>, events: seq<Event>)
    requires before <= events && forall k | |before| <= k < |events| :: !events[k].Checked?
    ensures ChecksIn(events) == ChecksIn(before)
    decreases |events|
  {
    if |before| < |events| {
      NothingChecked(before, events[..|events| - 1]);
    } else {
      assert events == before;
    }
  }

  lemma StillResolvedOnce(names: Names, d: Destination, before: seq<Event>, events: seq<Event>)
    requires before <= events && forall k | |before| <= k < |events| :: events[k] != Looked
    requires ResolvesOnce(names, d, before) && before != []
    ensures ResolvesOnce(names, d, events)
  {
    assert forall k | 0 <= k < |before| :: events[k] == before[k];
    if Looked in events {
      var k :| 0 <= k < |events| && events[k] == Looked;
      assert before[k] in before;
    }
  }

  lemma OnlyOneAddress(a: Addr, port: nat, connect: (Addr, nat) -> bool, o: Dialed)
    requires EndsAtFirstSuccess([a], port, connect, o) && o.Connected?
    ensures o.a == Unmap(a)
  {
    hide Unmap;
  }

  method Dial(ip6: Ip6, policy: Option<Policy>, names: Names, connect: (Addr, nat) -> bool, authority: string)
    returns (o: Dialed, events: seq<Event>)
    ensures ParseDestination(ip6, authority, "").None? ==> o.BadAuthority? && events == []
    ensures ParseDestination(ip6, authority, "").Some? && policy.None? ==> o.NoPolicy? && events == []
    ensures ParseDestination(ip6, authority, "").Some? && policy.Some? ==>
              Dials(policy.value, names, connect, ParseDestination(ip6, authority, "").value, o, events)
  {
    hide ParseDestination, Dials;
    var parsed := ParseDestination(ip6, authority, "");
    if parsed.None? {
      return BadAuthority, [];
    }
    if policy.None? {
      return NoPolicy, [];
    }
    o, events := DialDestination(policy.value, names, connect, parsed.value);
  }

  /** What dialing a destination under a policy comes to. */
  ghost predicate Dials(policy: Policy, names: Names, connect: (Addr, nat) -> bool, d: Destination, o: Dialed,
        events: seq<Event>) {
    var stop := Stopped(policy, d, Answer(names, d));
    && ResolvesOnce(names, d, events) && ChecksIn(events) == Looks(policy, d, Answer(names, d))
    && (names.literal(d.host).Some? && o.Connected? ==> o.a == Unmap(names.literal(d.host).value))
    && (stop.Some? ==> o == stop.value && forall e | e in events :: !e.Connecting?)
    && (stop.None? ==>
          && ReachedConnect(o)
          && Safe(policy, d, Answer(names, d).value, events)
          && EndsAtFirstSuccess(Answer(names, d).value, d.port, connect, o))
  }

  method DialDestination(policy: Policy, names: Names, connect: (Addr, nat) -> bool, d: Destination)
    returns (o: Dialed, events: seq<Event>)
    ensures Dials(policy, names, connect, d, o, events)
  {
    hide EndsAtFirstSuccess, Safe, Unmap, ResolvesOnce, ChecksIn, Examined;
    events := [CheckedDestination];
    assert ResolvesOnce(names, d, events) && ChecksIn(events) == [] by {
      NothingAtFirst(names, d);
    }
    if policy.destination(d) != Allow {
      return Refused(policy.destination(d)), events;
    }
    if names.literal(d.host).None? {
      LookedAfterwards(names, d);
      events := events + [Looked];
    }
    var answer := Answer(names, d);
    if answer.None? {
      return NoAnswer, events;
    }
    if answer.value == [] {
      assert Examined(policy, d, []) == [] by {
        NothingExamined(policy, d);
      }
      return NoAddresses, events;
    }
    var v;
    ghost var before := events;
    v, events := CheckAnswer(policy, d, answer.value, events);
    StillResolvedOnce(names, d, before, events);
    if v != Allow {
      return Refused(v), events;
    }
    ghost var checked := events;
    o, events := ConnectFirst(policy, d, answer.value, connect, events);
    StillResolvedOnce(names, d, checked, events);
    NothingChecked(checked, events);
    if names.literal(d.host).Some? && o.Connected? {
      OnlyOneAddress(names.literal(d.host).value, d.port, connect, o);
    }
  }

  lemma NothingAtFirst(names: Names, d: Destination)
    ensures ResolvesOnce(names, d, [CheckedDestination]) && ChecksIn([CheckedDestination]) == []
  {
    ChecksAdded([], CheckedDestination);
    assert [] + [CheckedDestination] == [CheckedDestination];
  }

  lemma LookedAfterwards(names: Names, d: Destination)
    requires names.literal(d.host).None?
    ensures ResolvesOnce(names, d, [CheckedDestination] + [Looked])
    ensures ChecksIn([CheckedDestination] + [Looked]) == []
  {
    NothingAtFirst(names, d);
    ChecksAdded([CheckedDestination], Looked);
  }

  lemma NothingExamined(policy: Policy, d: Destination)
    ensures Examined(policy, d, []) == []
  {
  }

  method CheckAnswer(policy: Policy, d: Destination, answer: seq<Addr>, before: seq<Event>)
    returns (v: Verdict, events: seq<Event>)
    requires forall e | e in before :: !e.Connecting?
    ensures var i := FirstRefused(policy, d, answer);
            v == if i < |answer| then policy.address(d, answer[i]) else Allow
    ensures v == Allow ==> forall a | a in answer :: Checked(a) in events && policy.address(d, a) == Allow
    ensures forall e | e in events :: !e.Connecting?
    ensures ChecksIn(events) == ChecksIn(before) + Examined(policy, d, answer)
    ensures before <= events && forall k | |before| <= k < |events| :: events[k].Checked?
  {
    events := before;
    for i := 0 to |answer|
      invariant forall j | 0 <= j < i :: Checked(answer[j]) in events && policy.address(d, answer[j]) == Allow
      invariant forall e | e in events :: !e.Connecting?
      invariant ChecksIn(events) == ChecksIn(before) + answer[..i]
      invariant before <= events && forall k | |before| <= k < |events| :: events[k].Checked?
    {
      ChecksAdded(events, Checked(answer[i]));
      assert answer[..i + 1] == answer[..i] + [answer[i]];
      events := events + [Checked(answer[i])];
      v := policy.address(d, answer[i]);
      if v != Allow {
        FirstRefusedIs(policy, d, answer, i);
        return;
      }
    }
    FirstRefusedIs(policy, d, answer, |answer|);
    v := Allow;
  }

  /** The connection made is the first one that can be made. */
  ghost predicate EndsAtFirstSuccess(answer: seq<Addr>, port: nat, connect: (Addr, nat) -> bool, o: Dialed) {
    && (o.Connected? ==> exists i :: 0 <= i < |answer| && o.a == Unmap(answer[i]) && connect(o.a, port)
                                     && forall j | 0 <= j < i :: !connect(Unmap(answer[j]), port))
    && (o.Unreachable? ==>
      (forall a | a in answer :: !connect(Unmap(a), port)) && answer != [] && o.last == Unmap(answer[|answer| - 1]))
  }

  ghost predicate IsTry(answer: seq<Addr>, e: Event) {
    e.Connecting? && exists a :: a in answer && e.a == Unmap(a)
  }

  method ConnectFirst(policy: Policy, d: Destination, answer: seq<Addr>, connect: (Addr, nat) -> bool,
        before: seq<Event>)
    returns (o: Dialed, events: seq<Event>)
    requires answer != []
    requires forall e | e in before :: !e.Connecting?
    requires forall a | a in answer :: Checked(a) in before && policy.address(d, a) == Allow
    ensures ReachedConnect(o) && Safe(policy, d, answer, events)
    ensures EndsAtFirstSuccess(answer, d.port, connect, o)
    ensures before <= events && forall k | |before| <= k < |events| :: events[k].Connecting?
  {
    hide Unmap;
    events := before;
    for i := 0 to |answer|
      invariant before <= events
      invariant forall k | |before| <= k < |events| :: IsTry(answer, events[k])
      invariant forall j | 0 <= j < i :: !connect(Unmap(answer[j]), d.port)
    {
      assert answer[i] in answer;
      assert IsTry(answer, Connecting(Unmap(answer[i])));
      ghost var was := events;
      events := events + [Connecting(Unmap(answer[i]))];
      assert events[|was|] == Connecting(Unmap(answer[i])) && forall k | |before| <= k < |was| :: events[k] == was[k];
      if connect(Unmap(answer[i]), d.port) {
        TrailIsSafe(policy, d, answer, before, events);
        return Connected(Unmap(answer[i])), events;
      }
    }
    TrailIsSafe(policy, d, answer, before, events);
    o := Unreachable(Unmap(answer[|answer| - 1]));
  }

  lemma TrailIsSafe(policy: Policy, d: Destination, answer: seq<Addr>, before: seq<Event>, events: seq<Event>)
    requires before <= events && forall e | e in before :: !e.Connecting?
    requires forall a | a in answer :: Checked(a) in before && policy.address(d, a) == Allow
    requires forall k | |before| <= k < |events| :: IsTry(answer, events[k])
    ensures Safe(policy, d, answer, events)
  {
    hide Unmap;
    forall k | 0 <= k < |events| && events[k].Connecting?
      ensures forall a | a in answer :: Checked(a) in events[..k]
    {
      assert forall j | 0 <= j < |before| :: events[j] == before[j] && before[j] in before;
      forall a | a in answer ensures Checked(a) in events[..k] {
        var j :| 0 <= j < |before| && before[j] == Checked(a);
        assert events[..k][j] == Checked(a);
      }
    }
  }

  datatype Decision = Decision(destination: Destination, allowed: bool, code: string, stage: string, checked: nat,
        complete: bool)

  datatype Explained = Decided(result: Decision) | Unanswered(result: Decision) | BadRules | Unparsed

  function Verdicted(result: Decision, v: Verdict): Explained
    requires v != Allow
  {
    if v.Abort? then Unanswered(result) else Decided(result.(code := v.code, complete := true))
  }

  /** What the explanation says. */
  function Explanation(policy: Policy, d: Destination, resolve: bool, answer: Option<seq<Addr>>): Explained {
    var start := Decision(d, false, "address_not_checked", "destination", 0, false);
    if policy.destination(d) != Allow then Verdicted(start, policy.destination(d))
    else if !resolve then Decided(start.(allowed := true))
    else if answer.None? then Unanswered(start)
    else if answer.value == [] then Unanswered(start.(stage := "address"))
    else
      var i := FirstRefused(policy, d, answer.value);
      var later := start.(stage := "address", checked := i);
      if i < |answer.value| then Verdicted(later.(checked := i + 1), policy.address(d, answer.value[i]))
      else Decided(later.(allowed := true, complete := true, code := "allowed"))
  }

  method Explain(ip6: Ip6, net: Net, r: Rules, ended: bool, authority: string, resolve: bool, names: Names)
    returns (e: Explained, c: Compilation)
    requires Canonical(ip6) && ReadsPrefixes(net)
    ensures e.BadRules? <==> !c.Policy?
    ensures c.Policy? ==> Represents(ip6, net, r, c.compiled) && CidrsValid(c.compiled)
    ensures c.Policy? ==>
              var parsed := ParseDestination(ip6, authority, "443");
              e == if parsed.None? then Unparsed
                   else Explanation(PolicyOf(ip6, c.compiled, ended), parsed.value, resolve,
                     Answer(names, parsed.value))
  {
    hide ParseDestination, DestinationVerdict, AddressVerdict, Represents, CidrsValid, Canonical;
    c := Compile(ip6, net, r);
    if !c.Policy? {
      return BadRules, c;
    }
    var p := c.compiled;
    CompiledIsValid(ip6, net, r, p);
    var parsed := ParseDestination(ip6, authority, "443");
    if parsed.None? {
      return Unparsed, c;
    }
    var d := parsed.value;
    ghost var policy := PolicyOf(ip6, p, ended);
    var result := Decision(d, false, "address_not_checked", "destination", 0, false);
    var v := CheckDestination(ip6, p, ended, d);
    if v != Allow {
      return Verdicted(result, v), c;
    }
    if !resolve {
      return Decided(result.(allowed := true)), c;
    }
    var answer := Answer(names, d);
    if answer.None? {
      return Unanswered(result), c;
    }
    result := result.(stage := "address");
    if answer.value == [] {
      return Unanswered(result), c;
    }
    for i := 0 to |answer.value|
      invariant result == Decision(d, false, "address_not_checked", "address", i, false)
      invariant forall j | 0 <= j < i :: policy.address(d, answer.value[j]) == Allow
    {
      result := result.(checked := result.checked + 1);
      v := CheckAddress(p, ended, answer.value[i]);
      if v != Allow {
        FirstRefusedIs(policy, d, answer.value, i);
        return Verdicted(result, v), c;
      }
    }
    FirstRefusedIs(policy, d, answer.value, |answer.value|);
    e := Decided(result.(allowed := true, complete := true, code := "allowed"));
  }

  /** For an authority that names its port, explaining with resolution allows exactly what dialing
      would connect to, and otherwise gives the code dialing would be refused with. Explaining
      without resolution never refuses what dialing would connect to, and never claims to be
      complete when it allows. */
  lemma ExplainForetellsDial(ip6: Ip6, policy: Policy, names: Names, authority: string)
    requires SplitHostPort(authority).Some? && ParseDestination(ip6, authority, "").Some?
    ensures ParseDestination(ip6, authority, "443") == ParseDestination(ip6, authority, "")
    ensures var d := ParseDestination(ip6, authority, "").value;
            var stop, e := Stopped(policy, d, Answer(names, d)), Explanation(policy, d, true, Answer(names, d));
            && (stop.None? <==> Passes(policy, d, Answer(names, d)))
            && (e.Decided? && e.result.allowed <==> stop.None?)
            && (e.Decided? && !e.result.allowed <==> stop.Some? && stop.value.Refused? && stop.value.v.Deny?)
            && (e.Decided? && !e.result.allowed ==> e.result.code == stop.value.v.code)
            && (e.Decided? ==> e.result.complete)
    ensures var d := ParseDestination(ip6, authority, "").value;
            var e := Explanation(policy, d, false, Answer(names, d));
            && (Stopped(policy, d, Answer(names, d)).None? ==> e.Decided? && e.result.allowed)
            && (e.Decided? && e.result.allowed ==> !e.result.complete)
  {
    hide ParseDestination, SplitHostPort;
    ExplicitPortWins(ip6, authority, "443");
  }

  /** The explanation with resolution, told from how dialing ended. */
  ghost predicate Foretells(e: Explained, o: Dialed, events: seq<Event>) {
    && (e.Decided? || e.Unanswered?)
    && (e.Decided? && e.result.allowed <==> ReachedConnect(o))
    && (e.Decided? && !e.result.allowed <==> o.Refused? && o.v.Deny?)
    && (e.Decided? && o.Refused? && o.v.Deny? ==> e.result.code == o.v.code)
    && (e.Unanswered? <==> o.NoAnswer? || o.NoAddresses? || (o.Refused? && o.v.Abort?))
    && ((exists x :: x in events && x.Connecting?) ==> e.Decided? && e.result.allowed)
    && e.result.checked == |ChecksIn(events)|
    && (e.result.stage == "address" <==> o.NoAddresses? || ChecksIn(events) != [])
  }

  lemma ExplanationForetells(policy: Policy, names: Names, connect: (Addr, nat) -> bool, d: Destination, o: Dialed,
        events: seq<Event>)
    requires Dials(policy, names, connect, d, o, events)
    ensures Foretells(Explanation(policy, d, true, Answer(names, d)), o, events)
  {
    hide Safe, EndsAtFirstSuccess, ResolvesOnce, ChecksIn, Unmap;
    var answer := Answer(names, d);
    if answer.Some? && answer.value == [] {
      NothingExamined(policy, d);
    }
    assert |"address"| == 7 && |"destination"| == 11;
  }

  /** The same about what the two methods return, on one set of compiled rules: explaining with resolution
      reports allowed exactly when dialing reached its connect loop, a denial with the code that dialing was
      refused with, and as many addresses checked as dialing checked. */
  method ExplainThenDial(ip6: Ip6, net: Net, r: Rules, ended: bool, authority: string, names: Names,
        connect: (Addr, nat) -> bool)
    returns (e: Explained, o: Dialed, events: seq<Event>)
    requires Canonical(ip6) && ReadsPrefixes(net) && SplitHostPort(authority).Some?
    ensures e.BadRules? <==> o.NoPolicy?
    ensures !e.BadRules? ==> (e.Unparsed? <==> o.BadAuthority?)
    ensures e.Decided? || e.Unanswered? <==> !o.NoPolicy? && !o.BadAuthority?
    ensures e.Decided? || e.Unanswered? ==>
              Foretells(e, o, events) && ParseDestination(ip6, authority, "") == Some(e.result.destination)
  {
    hide ParseDestination, SplitHostPort, DestinationVerdict, AddressVerdict, Represents, CidrsValid, Canonical, Dials,
      Explanation, Foretells;
    var c;
    e, c := Explain(ip6, net, r, ended, authority, true, names);
    if !c.Policy? {
      return e, NoPolicy, [];
    }
    var policy := PolicyOf(ip6, c.compiled, ended);
    o, events := Dial(ip6, Some(policy), names, connect, authority);
    ExplicitPortWins(ip6, authority, "443");
    var parsed := ParseDestination(ip6, authority, "");
    if parsed.Some? {
      ExplanationForetells(policy, names, connect, parsed.value, o, events);
      AboutDestination(policy, parsed.value, Answer(names, parsed.value));
      DialedIsNoError(policy, names, connect, parsed.value, o, events);
    }
  }

  lemma AboutDestination(policy: Policy, d: Destination, answer: Option<seq<Addr>>)
    ensures var e := Explanation(policy, d, true, answer); (e.Decided? || e.Unanswered?) && e.result.destination == d
  {
  }

  lemma DialedIsNoError(policy: Policy, names: Names, connect: (Addr, nat) -> bool, d: Destination, o: Dialed,
        events: seq<Event>)
    requires Dials(policy, names, connect, d, o, events)
    ensures !o.NoPolicy? && !o.BadAuthority?
  {
    hide Safe, EndsAtFirstSuccess, ResolvesOnce, ChecksIn;
  }
}
