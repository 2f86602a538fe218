/** Policies of internal/networkpolicy: rules are compiled once, and the compiled form decides each
    destination before any name is resolved and each address before any connection is made. */
module PolicyRules {
  import opened Options
  import Decimal
  import opened HostNames
  import opened DomainRules
  import opened PolicyAddresses

  /** A prefix or address text read as a prefix; how such text looks is left to the caller. */
  type Net = string -> Option<Prefix>

  ghost predicate ReadsPrefixes(net: Net) {
    forall s | net(s).Some? :: ValidPrefix(net(s).value)
  }

  datatype Rules = Rules(
    allowDomains: seq<string>, denyDomains: seq<string>,
    allowCidrs: seq<string>, denyCidrs: seq<string>,
    allowPorts: seq<int>, denyPorts: seq<int>,
    blockPrivate: bool, defaultDeny: bool)

  datatype Compiled = Compiled(
    allowDomains: seq<Pattern>, denyDomains: seq<Pattern>,
    allowIndex: DomainIndex, denyIndex: DomainIndex,
    allowCidrs: seq<Prefix>, denyCidrs: seq<Prefix>,
    allowPorts: set<int>, denyPorts: set<int>,
    blockPrivate: bool, defaultDeny: bool)

  datatype Compilation = Policy(compiled: Compiled) | BadDomain(domain: string) | BadCidr(cidr: string)
        | BadPort(port: int)

  /** What one CIDR text compiles to. */
  function ReadCidr(net: Net, text: string): (r: Option<Prefix>)
    requires ReadsPrefixes(net)
    ensures r.Some? ==> ValidPrefix(r.value)
  {
    if net(text).None? then None else CompilePrefix(net(text).value)
  }

  predicate IsPort(port: int) {
    1 <= port <= 65535
  }

  /** Rules may name exactly the ports that an authority can have. */
  lemma RulePortsAreParsed(port: int)
    ensures IsPort(port) <==> port >= 0 && ParsePort(Decimal.Print(port)) == Some(port)
  {
    if port >= 0 {
      Decimal.PrintedValue(port);
    }
  }

  ghost predicate DomainsRead(ip6: Ip6, texts: seq<string>, patterns: seq<Pattern>) {
    |texts| == |patterns| && forall i | 0 <= i < |texts| :: ParseDomain(ip6, texts[i]) == Some(patterns[i])
  }

  ghost predicate CidrsRead(net: Net, texts: seq<string>, prefixes: seq<Prefix>)
    requires ReadsPrefixes(net)
  {
    |texts| == |prefixes| && forall i | 0 <= i < |texts| :: ReadCidr(net, texts[i]) == Some(prefixes[i])
  }

  ghost predicate PortsRead(ports: seq<int>, read: set<int>) {
    (forall p | p in ports :: IsPort(p)) && read == (set p | p in ports)
  }

  /** The compiled form of a set of rules. */
  ghost predicate Represents(ip6: Ip6, net: Net, r: Rules, c: Compiled)
    requires ReadsPrefixes(net)
  {
    && DomainsRead(ip6, r.allowDomains, c.allowDomains) && DomainsRead(ip6, r.denyDomains, c.denyDomains)
    && c.allowIndex == IndexOf(ip6, c.allowDomains) && c.denyIndex == IndexOf(ip6, c.denyDomains)
    && CidrsRead(net, r.allowCidrs, c.allowCidrs) && CidrsRead(net, r.denyCidrs, c.denyCidrs)
    && PortsRead(r.allowPorts, c.allowPorts) && PortsRead(r.denyPorts, c.denyPorts)
    && c.blockPrivate == r.blockPrivate && c.defaultDeny == r.defaultDeny
  }

  ghost predicate DomainsGood(ip6: Ip6, r: Rules) {
    forall t | t in r.allowDomains + r.denyDomains :: ParseDomain(ip6, t).Some?
  }

  ghost predicate CidrsGood(net: Net, r: Rules)
    requires ReadsPrefixes(net)
  {
    forall t | t in r.allowCidrs + r.denyCidrs :: ReadCidr(net, t).Some?
  }

  method CompileDomains(ip6: Ip6, texts: seq<string>) returns (patterns: seq<Pattern>, bad: Option<string>)
    ensures bad.None? ==> DomainsRead(ip6, texts, patterns)
    ensures bad.Some? ==> bad.value in texts && ParseDomain(ip6, bad.value).None?
  {
    hide ParseDomain;
    patterns, bad := [], None;
    for i := 0 to |texts|
      invariant DomainsRead(ip6, texts[..i], patterns)
    {
      match ParseDomain(ip6, texts[i])
      case None => return patterns, Some(texts[i]);
      case Some(p) => patterns := patterns + [p];
    }
    assert texts[..|texts|] == texts;
  }

  method CompileCidrs(net: Net, texts: seq<string>) returns (prefixes: seq<Prefix>, bad: Option<string>)
    requires ReadsPrefixes(net)
    ensures bad.None? ==> CidrsRead(net, texts, prefixes)
    ensures bad.Some? ==> bad.value in texts && ReadCidr(net, bad.value).None?
  {
    hide ReadCidr;
    prefixes, bad := [], None;
    for i := 0 to |texts|
      invariant CidrsRead(net, texts[..i], prefixes)
    {
      match ReadCidr(net, texts[i])
      case None => return prefixes, Some(texts[i]);
      case Some(p) => prefixes := prefixes + [p];
    }
    assert texts[..|texts|] == texts;
  }

  method CompilePorts(ports: seq<int>) returns (read: set<int>, bad: Option<int>)
    ensures bad.None? ==> PortsRead(ports, read)
    ensures bad.Some? ==> bad.value in ports && !IsPort(bad.value)
  {
    read, bad := {}, None;
    for i := 0 to |ports|
      invariant PortsRead(ports[..i], read)
    {
      if !IsPort(ports[i]) {
        return read, Some(ports[i]);
      }
      assert ports[..i + 1] == ports[..i] + [ports[i]];
      read := read + {ports[i]};
    }
    assert ports[..|ports|] == ports;
  }

  /** Rules compile when every entry is good; otherwise the error names a bad entry, looking at
      domains first, then CIDRs, then ports. */
  method Compile(ip6: Ip6, net: Net, r: Rules) returns (c: Compilation)
    requires ReadsPrefixes(net)
    ensures c.Policy? ==> Represents(ip6, net, r, c.compiled)
    ensures c.BadDomain? ==> c.domain in r.allowDomains + r.denyDomains && ParseDomain(ip6, c.domain).None?
    ensures c.BadCidr? ==> DomainsGood(ip6, r) && c.cidr in r.allowCidrs + r.denyCidrs && ReadCidr(net, c.cidr).None?
    ensures c.BadPort? ==>
            DomainsGood(ip6, r) && CidrsGood(net, r) && c.port in r.allowPorts + r.denyPorts && !IsPort(c.port)
  {
    hide ParseDomain, ReadCidr, IndexOf, IsPort;
    var allow, badAllow := CompileDomains(ip6, r.allowDomains);
    if badAllow.Some? {
      return BadDomain(badAllow.value);
    }
    var deny, badDeny := CompileDomains(ip6, r.denyDomains);
    if badDeny.Some? {
      return BadDomain(badDeny.value);
    }
    assert DomainsGood(ip6, r);
    var allowIndex := IndexDomains(ip6, allow);
    var denyIndex := IndexDomains(ip6, deny);
    var allowCidrs, badAllowCidr := CompileCidrs(net, r.allowCidrs);
    if badAllowCidr.Some? {
      return BadCidr(badAllowCidr.value);
    }
    var denyCidrs, badDenyCidr := CompileCidrs(net, r.denyCidrs);
    if badDenyCidr.Some? {
      return BadCidr(badDenyCidr.value);
    }
    assert CidrsGood(net, r);
    var allowPorts, badAllowPort := CompilePorts(r.allowPorts);
    if badAllowPort.Some? {
      return BadPort(badAllowPort.value);
    }
    var denyPorts, badDenyPort := CompilePorts(r.denyPorts);
    if badDenyPort.Some? {
      return BadPort(badDenyPort.value);
    }
    c := Policy(Compiled(allow, deny, allowIndex, denyIndex, allowCidrs, denyCidrs, allowPorts, denyPorts,
      r.blockPrivate, r.defaultDeny));
  }

  /** Abort stands for an error that is not a denial, such as a context that has ended. */
  datatype Verdict = Allow | Deny(code: string) | Abort

  predicate NothingGranted(c: Compiled) {
    c.defaultDeny && c.allowDomains == [] && c.allowCidrs == []
  }

  function DestinationVerdict(ip6: Ip6, c: Compiled, ended: bool, d: Destination): Verdict {
    if ended then Abort
    else match Normalize(ip6, d.host)
      case None => Deny("policy_denied")
      case Some(host) =>
        if d.port == 0 then Deny("policy_denied")
        else if Lookup(c.denyIndex, host) then Deny("domain_denied")
        else if d.port in c.denyPorts then Deny("port_denied")
        else if NothingGranted(c) then Deny("default_denied")
        else if c.allowDomains != [] && !Lookup(c.allowIndex, host) then Deny("domain_not_allowed")
        else if c.allowPorts != {} && d.port !in c.allowPorts then Deny("port_not_allowed")
        else Allow
  }

  method CheckDestination(ip6: Ip6, c: Compiled, ended: bool, d: Destination) returns (v: Verdict)
    requires Canonical(ip6)
    ensures v == DestinationVerdict(ip6, c, ended, d)
  {
    hide Normalize, Canonical;
    if ended {
      return Abort;
    }
    var host := NormalizeHost(ip6, d.host);
    if host.None? || d.port == 0 {
      return Deny("policy_denied");
    }
    var denied := Matches(c.denyIndex, host.value);
    if denied {
      return Deny("domain_denied");
    }
    if d.port in c.denyPorts {
      return Deny("port_denied");
    }
    if NothingGranted(c) {
      return Deny("default_denied");
    }
    var allowed := Matches(c.allowIndex, host.value);
    if |c.allowDomains| > 0 && !allowed {
      return Deny("domain_not_allowed");
    }
    if |c.allowPorts| > 0 && d.port !in c.allowPorts {
      return Deny("port_not_allowed");
    }
    v := Allow;
  }

  predicate AnyContains(prefixes: seq<Prefix>, a: Addr)
    requires forall p | p in prefixes :: ValidPrefix(p)
  {
    exists p :: p in prefixes && Contains(p, a)
  }

  method MatchesCidr(a: Addr, prefixes: seq<Prefix>) returns (found: bool)
    requires forall p | p in prefixes :: ValidPrefix(p)
    ensures found == AnyContains(prefixes, a)
  {
    hide Contains;
    for i := 0 to |prefixes|
      invariant forall p | p in prefixes[..i] :: !Contains(p, a)
    {
      assert prefixes[i] in prefixes;
      if Contains(prefixes[i], a) {
        return true;
      }
      assert prefixes[..i + 1] == prefixes[..i] + [prefixes[i]];
    }
    assert prefixes[..|prefixes|] == prefixes;
    found := false;
  }

  predicate CidrsValid(c: Compiled) {
    forall p | p in c.allowCidrs + c.denyCidrs :: ValidPrefix(p)
  }

  predicate IsZoned(a: Addr) {
    a.V6? && a.zone != ""
  }

  function AddressVerdict(c: Compiled, ended: bool, a: Addr): Verdict
    requires CidrsValid(c)
  {
    assert forall p :: p in c.allowCidrs || p in c.denyCidrs ==> p in c.allowCidrs + c.denyCidrs;
    var ip := Unmap(a);
    if ended then Abort
    else if NothingGranted(c) then Deny("default_denied")
    else if ip.NoAddr? || IsZoned(ip) then Deny("invalid_address")
    else if c.blockPrivate && IsPrivate(ip) then Deny("private_address")
    else if AnyContains(c.denyCidrs, ip) then Deny("address_denied")
    else if c.allowCidrs != [] && !AnyContains(c.allowCidrs, ip) then Deny("address_not_allowed")
    else Allow
  }

  method CheckAddress(c: Compiled, ended: bool, a: Addr) returns (v: Verdict)
    requires CidrsValid(c)
    ensures v == AddressVerdict(c, ended, a)
    ensures c.blockPrivate && InWidth(a) && ListedNotPublic(Unmap(a)) ==> v != Allow
  {
    hide IsPrivate, Contains, ValidPrefix, Unmap, AnyContains, ListedNotPublic, InWidth;
    if c.blockPrivate && InWidth(a) && ListedNotPublic(Unmap(a)) {
      MappedBack(a);
      MappedBack(Unmap(a));
      PrivateIsBlocked(c, ended, Unmap(a), Unmap(a));
    }
    assert forall p :: p in c.allowCidrs || p in c.denyCidrs ==> p in c.allowCidrs + c.denyCidrs;
    if ended {
      return Abort;
    }
    var ip := Unmap(a);
    if NothingGranted(c) {
      return Deny("default_denied");
    }
    if ip.NoAddr? || IsZoned(ip) {
      return Deny("invalid_address");
    }
    if c.blockPrivate && IsPrivate(ip) {
      return Deny("private_address");
    }
    var denied := MatchesCidr(ip, c.denyCidrs);
    if denied {
      return Deny("address_denied");
    }
    var allowed := MatchesCidr(ip, c.allowCidrs);
    if |c.allowCidrs| > 0 && !allowed {
      return Deny("address_not_allowed");
    }
    v := Allow;
  }

  /** Some rule in the list covers the host. */
  ghost predicate Named(ip6: Ip6, texts: seq<string>, host: string) {
    exists t :: t in texts && ParseDomain(ip6, t).Some? && Covers(ip6, ParseDomain(ip6, t).value, host)
  }

  /** Some rule in the list contains the address. */
  ghost predicate Listed(net: Net, texts: seq<string>, a: Addr)
    requires ReadsPrefixes(net)
  {
    exists t :: t in texts && net(t).Some? && InRule(net(t).value, a)
  }

  lemma NamedIsLookup(ip6: Ip6, texts: seq<string>, patterns: seq<Pattern>, host: string)
    requires DomainsRead(ip6, texts, patterns)
    ensures Lookup(IndexOf(ip6, patterns), host) <==> Named(ip6, texts, host)
  {
    hide ParseDomain, Covers, Lookup, IndexOf;
    IndexIsScan(ip6, patterns, host);
    if p :| p in patterns && Covers(ip6, p, host) {
      var i :| 0 <= i < |patterns| && patterns[i] == p;
      assert texts[i] in texts;
    }
    forall t | t in texts && ParseDomain(ip6, t).Some? && Covers(ip6, ParseDomain(ip6, t).value, host)
      ensures exists p :: p in patterns && Covers(ip6, p, host)
    {
      var i :| 0 <= i < |texts| && texts[i] == t;
      assert patterns[i] in patterns;
    }
  }

  lemma ListedIsContained(net: Net, texts: seq<string>, prefixes: seq<Prefix>, a: Addr)
    requires ReadsPrefixes(net) && CidrsRead(net, texts, prefixes) && InWidth(a)
    ensures forall p | p in prefixes :: ValidPrefix(p)
    ensures AnyContains(prefixes, Unmap(a)) <==> Listed(net, texts, a)
  {
    hide Contains, InRule, Unmap, CompilePrefix, ValidPrefix, InWidth;
    forall i | 0 <= i < |texts|
      ensures texts[i] in texts && prefixes[i] in prefixes
      ensures net(texts[i]).Some? && ValidPrefix(prefixes[i]) &&
              (Contains(prefixes[i], Unmap(a)) <==> InRule(net(texts[i]).value, a))
    {
      assert ReadCidr(net, texts[i]) == Some(prefixes[i]);
      CompiledPrefixIsRule(net(texts[i]).value, a);
    }
    if AnyContains(prefixes, Unmap(a)) {
      var p :| p in prefixes && Contains(p, Unmap(a));
      var i :| 0 <= i < |prefixes| && prefixes[i] == p;
      assert InRule(net(texts[i]).value, a);
    }
    if Listed(net, texts, a) {
      var t :| t in texts && net(t).Some? && InRule(net(t).value, a);
      var i :| 0 <= i < |texts| && texts[i] == t;
      assert Contains(prefixes[i], Unmap(a));
    }
  }

  /** The rules as written: denials win, nonempty allowlists must all agree, and with default-deny
      some domain or CIDR must have been granted. */
  ghost predicate DestinationPermitted(ip6: Ip6, r: Rules, host: string, port: nat) {
    && !Named(ip6, r.denyDomains, host)
    && port !in r.denyPorts
    && (r.defaultDeny ==> r.allowDomains != [] || r.allowCidrs != [])
    && (r.allowDomains != [] ==> Named(ip6, r.allowDomains, host))
    && (r.allowPorts != [] ==> port in r.allowPorts)
  }

  ghost predicate AddressPermitted(net: Net, r: Rules, a: Addr)
    requires ReadsPrefixes(net)
  {
    && (r.defaultDeny ==> r.allowDomains != [] || r.allowCidrs != [])
    && !Unmap(a).NoAddr? && !IsZoned(Unmap(a))
    && !(r.blockPrivate && ListedNotPublic(Unmap(a)))
    && !Listed(net, r.denyCidrs, a)
    && (r.allowCidrs != [] ==> Listed(net, r.allowCidrs, a))
  }

  /** The first rule, in the order of the checks, that a destination breaks. */
  ghost function DestinationReason(ip6: Ip6, r: Rules, host: string, port: nat): Option<string> {
    if Named(ip6, r.denyDomains, host) then Some("domain_denied")
    else if port in r.denyPorts then Some("port_denied")
    else if r.defaultDeny && r.allowDomains == [] && r.allowCidrs == [] then Some("default_denied")
    else if r.allowDomains != [] && !Named(ip6, r.allowDomains, host) then Some("domain_not_allowed")
    else if r.allowPorts != [] && port !in r.allowPorts then Some("port_not_allowed")
    else None
  }

  ghost function AddressReason(net: Net, r: Rules, a: Addr): Option<string>
    requires ReadsPrefixes(net)
  {
    if r.defaultDeny && r.allowDomains == [] && r.allowCidrs == [] then Some("default_denied")
    else if Unmap(a).NoAddr? || IsZoned(Unmap(a)) then Some("invalid_address")
    else if r.blockPrivate && ListedNotPublic(Unmap(a)) then Some("private_address")
    else if Listed(net, r.denyCidrs, a) then Some("address_denied")
    else if r.allowCidrs != [] && !Listed(net, r.allowCidrs, a) then Some("address_not_allowed")
    else None
  }

  function Told(reason: Option<string>): Verdict {
    if reason.None? then Allow else Deny(reason.value)
  }

  /** The compiled policy lets a destination through exactly when the rules permit it, and otherwise
      names the first rule that is broken. */
  lemma DestinationByRules(ip6: Ip6, net: Net, r: Rules, c: Compiled, d: Destination)
    requires ReadsPrefixes(net) && Represents(ip6, net, r, c)
    ensures DestinationVerdict(ip6, c, true, d) == Abort
    ensures Normalize(ip6, d.host).None? || d.port == 0 ==>
              DestinationVerdict(ip6, c, false, d) == Deny("policy_denied")
    ensures Normalize(ip6, d.host).Some? && d.port != 0 ==>
              var host := Normalize(ip6, d.host).value;
              && DestinationVerdict(ip6, c, false, d) == Told(DestinationReason(ip6, r, host, d.port))
              && (DestinationReason(ip6, r, host, d.port).None? <==> DestinationPermitted(ip6, r, host, d.port))
  {
    hide Normalize, Named, Lookup, IndexOf, DomainsRead, CidrsRead;
    if Normalize(ip6, d.host).Some? {
      var host := Normalize(ip6, d.host).value;
      NamedIsLookup(ip6, r.allowDomains, c.allowDomains, host);
      NamedIsLookup(ip6, r.denyDomains, c.denyDomains, host);
      LengthsKept(ip6, net, r, c);
      if r.allowPorts != [] {
        assert r.allowPorts[0] in c.allowPorts;
      }
    }
  }

  lemma LengthsKept(ip6: Ip6, net: Net, r: Rules, c: Compiled)
    requires ReadsPrefixes(net) && Represents(ip6, net, r, c)
    ensures c.allowDomains == [] <==> r.allowDomains == []
    ensures c.allowCidrs == [] <==> r.allowCidrs == []
  {
    hide ParseDomain, ReadCidr, IndexOf;
  }

  lemma CompiledIsValid(ip6: Ip6, net: Net, r: Rules, c: Compiled)
    requires ReadsPrefixes(net) && Represents(ip6, net, r, c)
    ensures CidrsValid(c)
  {
    hide ValidPrefix, InRule, Contains, IndexOf, Unmap;
    ListedIsContained(net, r.allowCidrs, c.allowCidrs, NoAddr);
    ListedIsContained(net, r.denyCidrs, c.denyCidrs, NoAddr);
  }

  /** And an address exactly when the rules permit it, in whichever notation it comes. */
  lemma AddressByRules(ip6: Ip6, net: Net, r: Rules, c: Compiled, a: Addr)
    requires ReadsPrefixes(net) && Represents(ip6, net, r, c) && InWidth(a)
    ensures CidrsValid(c)
    ensures AddressVerdict(c, true, a) == Abort
    ensures AddressVerdict(c, false, a) == Told(AddressReason(net, r, a))
    ensures AddressVerdict(c, false, a) == Allow <==> AddressPermitted(net, r, a)
  {
    hide IsPrivate, Contains, ValidPrefix, Unmap, AnyContains, Listed, IndexOf, DomainsRead, ListedNotPublic;
    CompiledIsValid(ip6, net, r, c);
    ListedIsContained(net, r.allowCidrs, c.allowCidrs, a);
    ListedIsContained(net, r.denyCidrs, c.denyCidrs, a);
    LengthsKept(ip6, net, r, c);
    MappedBack(a);
    PrivateIsListed(Unmap(a));
  }

  /** A policy that blocks private addresses refuses every address of the listed prefixes, plain or
      mapped, whatever else its rules say. */
  lemma PrivateIsBlocked(c: Compiled, ended: bool, a: Addr, plain: Addr)
    requires CidrsValid(c) && c.blockPrivate && InWidth(plain) && ListedNotPublic(plain)
    requires a == plain || a == Mapped(plain)
    ensures AddressVerdict(c, ended, a) != Allow
    ensures !ended && !NothingGranted(c) ==> AddressVerdict(c, ended, a) == Deny("private_address")
  {
    hide IsPrivate, AnyContains, Pow2;
    MappedBack(plain);
    PrivateIsListed(plain);
    OtherFamily(0, 0);
    ListedIsPlain(plain);
  }

  lemma ListedIsPlain(a: Addr)
    requires InWidth(a) && ListedNotPublic(a)
    ensures !a.NoAddr? && !IsZoned(a) && Unmap(a) == a
  {
    hide Pow2;
    if Is4In6(a) {
      var n := a.n;
      hide Contains, NotPublic4, NotPublic6, LinkLocalMulticast;
      Private6(n);
      assert !IsPrivate(a) by {
        assert n / GROUP7 == 0 && n > 1;
      }
      OtherFamily(0, n);
      PrivateIsListed(a);
    }
  }

  /** A parsed destination is never refused as an invalid authority. */
  lemma ParsedIsNeverInvalid(ip6: Ip6, c: Compiled, ended: bool, authority: string, defaultPort: string)
    requires Canonical(ip6) && ParseDestination(ip6, authority, defaultPort).Some?
    ensures DestinationVerdict(ip6, c, ended,
            ParseDestination(ip6, authority, defaultPort).value) != Deny("policy_denied")
  {
    hide Lookup, Normalize, SplitHostPort;
    ParsedDestinationIsFixed(ip6, authority, defaultPort);
  }

  /** Any policy: compiled rules, or an extension of them. */
  datatype Policy = Decides(destination: Destination -> Verdict, address: (Destination, Addr) -> Verdict)

  function PolicyOf(ip6: Ip6, c: Compiled, ended: bool): Policy
    requires CidrsValid(c)
  {
    Decides(d => DestinationVerdict(ip6, c, ended, d), (d, a) => AddressVerdict(c, ended, a))
  }

  ghost predicate IsFirstRefusal(verdicts: seq<Option<Verdict>>, v: Verdict) {
    exists i :: 0 <= i < |verdicts| && verdicts[i] == Some(v) && v != Allow &&
      forall j | 0 <= j < i :: verdicts[j] in [None, Some(Allow)]
  }

  ghost function OnDestination(policies: seq<Option<Policy>>, d: Destination): (r: seq<Option<Verdict>>)
    ensures |r| == |policies|
  {
    seq(|policies|, i
      requires 0 <= i < |policies| => if policies[i].None? then None else Some(policies[i].value.destination(d)))
  }

  ghost function OnAddress(policies: seq<Option<Policy>>, d: Destination, a: Addr): (r: seq<Option<Verdict>>)
    ensures |r| == |policies|
  {
    seq(|policies|, i
      requires 0 <= i < |policies| => if policies[i].None? then None else Some(policies[i].value.address(d, a)))
  }

  /** Policies together; a missing one has no say. Nothing is allowed that a member does not allow,
      and a refusal is the one of the first member that refuses. */
  method CheckAllDestinations(policies: seq<Option<Policy>>, d: Destination) returns (v: Verdict)
    ensures v == Allow <==> forall p | p in policies && p.Some? :: p.value.destination(d) == Allow
    ensures v != Allow ==> IsFirstRefusal(OnDestination(policies, d), v)
  {
    for i := 0 to |policies|
      invariant forall j | 0 <= j < i :: OnDestination(policies, d)[j] in [None, Some(Allow)]
    {
      if policies[i].Some? {
        var w := policies[i].value.destination(d);
        if w != Allow {
          assert OnDestination(policies, d)[i] == Some(w);
          assert policies[i] in policies;
          return w;
        }
      }
    }
    forall p | p in policies && p.Some? ensures p.value.destination(d) == Allow {
      var j :| 0 <= j < |policies| && policies[j] == p;
      assert OnDestination(policies, d)[j] == Some(p.value.destination(d));
    }
    v := Allow;
  }

  method CheckAllAddresses(policies: seq<Option<Policy>>, d: Destination, a: Addr) returns (v: Verdict)
    ensures v == Allow <==> forall p | p in policies && p.Some? :: p.value.address(d, a) == Allow
    ensures v != Allow ==> IsFirstRefusal(OnAddress(policies, d, a), v)
  {
    for i := 0 to |policies|
      invariant forall j | 0 <= j < i :: OnAddress(policies, d, a)[j] in [None, Some(Allow)]
    {
      if policies[i].Some? {
        var w := policies[i].value.address(d, a);
        if w != Allow {
          assert OnAddress(policies, d, a)[i] == Some(w);
          assert policies[i] in policies;
          return w;
        }
      }
    }
    forall p | p in policies && p.Some? ensures p.value.address(d, a) == Allow {
      var j :| 0 <= j < |policies| && policies[j] == p;
      assert OnAddress(policies, d, a)[j] == Some(p.value.address(d, a));
    }
    v := Allow;
  }
}
