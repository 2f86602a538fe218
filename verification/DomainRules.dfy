/** Domain patterns of a policy. A bare name covers its subdomains, a name after `=` does not, and
    an address covers only itself. The compiled index answers by looking at the labels of a host
    instead of the list of patterns. */
module DomainRules {
  import opened Options
  import opened HostNames

  datatype Pattern = Pattern(host: string, exact: bool)

  /** Unicode white space. */
  predicate IsBlank(c: char) {
    || '\t' <= c <= '\r' || c == ' ' || c == '\U{85}' || c == '\U{A0}' || c == '\U{1680}'
    || '\U{2000}' <= c <= '\U{200A}' || c == '\U{2028}' || c == '\U{2029}' || c == '\U{202F}'
    || c == '\U{205F}' || c == '\U{3000}'
  }

  function TrimSpace(s: string): string
    decreases |s|
  {
    if s == "" then s
    else if IsBlank(s[0]) then TrimSpace(s[1..])
    else if IsBlank(s[|s| - 1]) then TrimSpace(s[..|s| - 1])
    else s
  }

  function ParseDomain(ip6: Ip6, value: string): Option<Pattern> {
    var trimmed := TrimSpace(value);
    var exact := trimmed != "" && trimmed[0] == '=';
    var host := if exact || (trimmed != "" && trimmed[0] == '.') then trimmed[1..] else trimmed;
    match Normalize(ip6, host)
    case Some(h) => Some(Pattern(h, exact))
    case None => None
  }

  predicate EndsWith(s: string, tail: string) {
    |tail| <= |s| && s[|s| - |tail|..] == tail
  }

  predicate InDomain(host: string, name: string) {
    EndsWith(host, "." + name)
  }

  /** What one pattern covers. */
  predicate Covers(ip6: Ip6, p: Pattern, host: string) {
    host == p.host || (!p.exact && !IsAddress(ip6, p.host) && InDomain(host, p.host))
  }

  datatype DomainIndex = DomainIndex(exact: set<string>, suffix: set<string>)

  method IndexDomains(ip6: Ip6, patterns: seq<Pattern>) returns (index: DomainIndex)
    ensures index == IndexOf(ip6, patterns)
  {
    var exact: set<string>, suffix: set<string> := {}, {};
    for i := 0 to |patterns|
      invariant DomainIndex(exact, suffix) == IndexOf(ip6, patterns[..i])
    {
      assert patterns[..i + 1] == patterns[..i] + [patterns[i]];
      exact := exact + {patterns[i].host};
      if !IsAddress(ip6, patterns[i].host) && !patterns[i].exact {
        suffix := suffix + {patterns[i].host};
      }
    }
    assert patterns[..|patterns|] == patterns;
    index := DomainIndex(exact, suffix);
  }

  function IndexOf(ip6: Ip6, patterns: seq<Pattern>): DomainIndex {
    DomainIndex(
      set p | p in patterns :: p.host,
      set p | p in patterns && !p.exact && !IsAddress(ip6, p.host) :: p.host)
  }

  /** Some suffix after a dot is in the set. */
  predicate SuffixListed(suffix: set<string>, host: string) {
    exists i :: 0 <= i < |host| && host[i] == '.' && host[i + 1..] in suffix
  }

  /** The source's lookup, which cuts one label after the other. */
  method Matches(index: DomainIndex, host: string) returns (found: bool)
    ensures found <==> host in index.exact || SuffixListed(index.suffix, host)
  {
    if host in index.exact {
      return true;
    }
    var start := 0;
    while true
      invariant start <= |host|
      invariant forall i | 0 <= i < start && host[i] == '.' :: host[i + 1..] !in index.suffix
      decreases |host| - start
    {
      var i := IndexFrom(host, '.', start);
      if i == |host| {
        return false;
      }
      start := i + 1;
      if host[start..] in index.suffix {
        return true;
      }
    }
  }

  function Lookup(index: DomainIndex, host: string): bool {
    host in index.exact || SuffixListed(index.suffix, host)
  }

  lemma InDomainAtDot(host: string, name: string)
    ensures InDomain(host, name) <==> exists i :: 0 <= i < |host| && host[i] == '.' && host[i + 1..] == name
  {
    if InDomain(host, name) {
      var i := |host| - |name| - 1;
      assert host[i..] == "." + name;
      assert host[i] == (host[i..])[0] && host[i + 1..] == (host[i..])[1..];
    }
    if i :| 0 <= i < |host| && host[i] == '.' && host[i + 1..] == name {
      assert host[i..] == "." + name;
    }
  }

  lemma ListedIsCovered(ip6: Ip6, patterns: seq<Pattern>, host: string)
    requires Lookup(IndexOf(ip6, patterns), host)
    ensures exists p :: p in patterns && Covers(ip6, p, host)
  {
    hide EndsWith, IsAddress;
    var index := IndexOf(ip6, patterns);
    if host in index.exact {
      var p :| p in patterns && p.host == host;
      assert Covers(ip6, p, host);
    } else {
      var i :| 0 <= i < |host| && host[i] == '.' && host[i + 1..] in index.suffix;
      var p :| p in patterns && !p.exact && !IsAddress(ip6, p.host) && p.host == host[i + 1..];
      InDomainAtDot(host, p.host);
      assert Covers(ip6, p, host);
    }
  }

  lemma CoveredIsListed(ip6: Ip6, patterns: seq<Pattern>, host: string, p: Pattern)
    requires p in patterns && Covers(ip6, p, host)
    ensures Lookup(IndexOf(ip6, patterns), host)
  {
    hide EndsWith, IsAddress;
    if host != p.host {
      InDomainAtDot(host, p.host);
      var i :| 0 <= i < |host| && host[i] == '.' && host[i + 1..] == p.host;
      assert host[i + 1..] in IndexOf(ip6, patterns).suffix;
    }
  }

  /** Looking a host up in the index gives the same answer as trying every pattern. */
  lemma IndexIsScan(ip6: Ip6, patterns: seq<Pattern>, host: string)
    ensures Lookup(IndexOf(ip6, patterns), host) <==> exists p :: p in patterns && Covers(ip6, p, host)
  {
    hide Lookup, Covers;
    if Lookup(IndexOf(ip6, patterns), host) {
      ListedIsCovered(ip6, patterns, host);
    }
    forall p | p in patterns && Covers(ip6, p, host) ensures Lookup(IndexOf(ip6, patterns), host) {
      CoveredIsListed(ip6, patterns, host, p);
    }
  }

  /** A host of any length: an address or a dotted name of valid labels. */
  predicate HostForm(ip6: Ip6, s: string) {
    IsAddress(ip6, s) || IsName(s)
  }

  function Within(ip6: Ip6, c: Pattern, p: Pattern): bool {
    var parentExact := p.exact || IsAddress(ip6, p.host);
    var childExact := c.exact || IsAddress(ip6, c.host);
    if parentExact then childExact && c.host == p.host
    else c.host == p.host || InDomain(c.host, p.host)
  }

  function DomainWithin(ip6: Ip6, child: string, parent: string): Option<bool> {
    match (ParseDomain(ip6, child), ParseDomain(ip6, parent))
    case (Some(c), Some(p)) => Some(Within(ip6, c, p))
    case _ => None
  }

  lemma InDomainNests(host: string, c: string, p: string)
    requires InDomain(host, c) && InDomain(c, p)
    ensures InDomain(host, p)
  {
    assert host[|host| - |c| - 1..] == "." + c;
    assert host[|host| - |p| - 1..] == (host[|host| - |c| - 1..])[|c| - |p|..];
    assert ("." + c)[|c| - |p|..] == c[|c| - |p| - 1..];
  }

  /** Putting one more label in front of a name. */
  lemma LabelAdded(c: string, l: char)
    requires IsName(c) && 'a' <= l <= 'z'
    ensures IsName([l] + "." + c) && InDomain([l] + "." + c, c)
  {
    var h := [l] + "." + c;
    SplitAtDot(h, 1);
    assert h[..1] == [l] && h[2..] == c;
    assert h[1..] == "." + c;
  }

  /** The answer is exact: child lies within parent if and only if every host that an index made
      of the child alone matches is matched by an index made of the parent alone. */
  lemma WithinIsInclusion(ip6: Ip6, c: Pattern, p: Pattern)
    requires HostForm(ip6, c.host)
    ensures Within(ip6, c, p) <==>
            forall h | HostForm(ip6, h) :: Lookup(IndexOf(ip6, [c]), h) ==> Lookup(IndexOf(ip6, [p]), h)
  {
    forall h: string, q: Pattern ensures Lookup(IndexOf(ip6, [q]), h) <==> Covers(ip6, q, h) {
      IndexIsScan(ip6, [q], h);
      assert q in [q];
    }
    if Within(ip6, c, p) {
      forall h | Covers(ip6, c, h) ensures Covers(ip6, p, h) {
        WithinCovers(ip6, c, p, h);
      }
    } else {
      var h := Witness(ip6, c, p);
      assert Lookup(IndexOf(ip6, [c]), h) && !Lookup(IndexOf(ip6, [p]), h);
    }
  }

  lemma WithinCovers(ip6: Ip6, c: Pattern, p: Pattern, h: string)
    requires Within(ip6, c, p) && Covers(ip6, c, h)
    ensures Covers(ip6, p, h)
  {
    if InDomain(h, c.host) && InDomain(c.host, p.host) {
      InDomainNests(h, c.host, p.host);
    }
  }

  /** A host that the child covers and the parent does not. */
  lemma Witness(ip6: Ip6, c: Pattern, p: Pattern) returns (h: string)
    requires HostForm(ip6, c.host) && !Within(ip6, c, p)
    ensures HostForm(ip6, h) && Covers(ip6, c, h) && !Covers(ip6, p, h)
  {
    if (p.exact || IsAddress(ip6, p.host)) && !c.exact && !IsAddress(ip6, c.host) {
      LabelAdded(c.host, 'a');
      LabelAdded(c.host, 'b');
      h := "a" + "." + c.host;
      if h == p.host {
        h := "b" + "." + c.host;
        assert h[0] == 'b' && p.host[0] == 'a';
      }
    } else {
      h := c.host;
    }
  }

  /** The same for the two texts: they parse, or there is no answer. */
  lemma DomainWithinIsInclusion(ip6: Ip6, child: string, parent: string)
    requires Canonical(ip6)
    requires ParseDomain(ip6, child).Some? && ParseDomain(ip6, parent).Some?
    ensures var c, p := ParseDomain(ip6, child).value, ParseDomain(ip6, parent).value;
            DomainWithin(ip6, child, parent) ==
              Some(forall h | HostForm(ip6, h) :: Lookup(IndexOf(ip6, [c]), h) ==> Lookup(IndexOf(ip6, [p]), h))
  {
    var c, p := ParseDomain(ip6, child).value, ParseDomain(ip6, parent).value;
    var trimmed := TrimSpace(child);
    var exact := trimmed != "" && trimmed[0] == '=';
    NormalizedIsFixed(ip6, if exact || (trimmed != "" && trimmed[0] == '.') then trimmed[1..] else trimmed);
    WithinIsInclusion(ip6, c, p);
  }
}
