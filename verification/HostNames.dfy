/** Hosts and authorities as internal/networkpolicy reads them. A host is an address literal or a
    name made of labels; an authority is a host and a port. */
module HostNames {
  import opened Options
  import Decimal

  /** Parsing an IPv6 literal without a zone gives its canonical text, unmapped to IPv4 when it is
      a mapped address. How that text is formed is left to the caller. */
  type Ip6 = string -> Option<string>

  predicate Is6Char(c: char) {
    '0' <= c <= '9' || 'a' <= c <= 'f' || c == ':' || c == '.'
  }

  /** The text of an address parses to itself. */
  ghost predicate Canonical(ip6: Ip6) {
    forall s | ip6(s).Some? ::
      && ':' in s
      && (IsIPv4(ip6(s).value) || (':' in ip6(s).value && ip6(ip6(s).value) == ip6(s)))
      && forall i | 0 <= i < |ip6(s).value| :: Is6Char(ip6(s).value[i])
  }

  /** Offset of the first `c` at or after `from`, or the length when there is none. */
  function IndexFrom(s: string, c: char, from: nat): (i: nat)
    requires from <= |s|
    ensures from <= i <= |s| && (i < |s| ==> s[i] == c)
    ensures forall j | from <= j < i :: s[j] != c
    decreases |s| - from
  {
    if from == |s| || s[from] == c then from else IndexFrom(s, c, from + 1)
  }

  /** One past the last `c`, or zero when there is none. */
  function AfterLast(s: string, c: char): (i: nat)
    ensures i <= |s| && (i > 0 ==> s[i - 1] == c)
    ensures forall j | i <= j < |s| :: s[j] != c
  {
    if s == "" || s[|s| - 1] == c then |s| else AfterLast(s[..|s| - 1], c)
  }

  /** The pieces between dots. There is always at least one. */
  function Split(s: string): (parts: seq<string>)
    ensures parts != []
    decreases |s|
  {
    var i := IndexFrom(s, '.', 0);
    if i == |s| then [s] else [s[..i]] + Split(s[i + 1..])
  }

  predicate IsOctet(s: string) {
    0 < |s| <= 3 && Decimal.AllDigits(s) && (|s| > 1 ==> s[0] != '0') && Decimal.ValueOf(s) <= 255
  }

  predicate IsIPv4(s: string) {
    |Split(s)| == 4 && forall i | 0 <= i < 4 :: IsOctet(Split(s)[i])
  }

  predicate IsAddress(ip6: Ip6, s: string) {
    ip6(s).Some? || IsIPv4(s)
  }

  /** The two letters outside ASCII whose lower case is inside it are the Kelvin sign and the
      dotted capital I. */
  function LowerChar(c: char): char {
    if 'A' <= c <= 'Z' then c - 'A' + 'a'
    else if c == '\U{212A}' then 'k'
    else if c == '\U{0130}' then 'i'
    else c
  }

  function Lower(s: string): (r: string)
    ensures |r| == |s| && forall i | 0 <= i < |s| :: r[i] == LowerChar(s[i])
  {
    seq(|s|, i requires 0 <= i < |s| => LowerChar(s[i]))
  }

  predicate IsLabelChar(c: char) {
    'a' <= c <= 'z' || '0' <= c <= '9' || c == '-'
  }

  predicate IsLabel(s: string) {
    && 0 < |s| <= 63
    && s[0] != '-' && s[|s| - 1] != '-'
    && forall i | 0 <= i < |s| :: IsLabelChar(s[i])
  }

  /** A dotted name of valid labels, of any length. */
  predicate IsName(s: string) {
    forall part | part in Split(s) :: IsLabel(part)
  }

  const MAX_NAME := 253

  function TrimDot(s: string): string {
    if s != "" && s[|s| - 1] == '.' then s[..|s| - 1] else s
  }

  function Normalize(ip6: Ip6, host: string): Option<string> {
    if ip6(host).Some? && ':' in host then ip6(host)
    else if IsIPv4(host) then Some(host)
    else
      var name := Lower(TrimDot(host));
      if |name| <= MAX_NAME && IsName(name) then Some(name) else None
  }

  /** The source's loop over the labels of a host. */
  method CheckLabels(name: string) returns (ok: bool)
    ensures ok == IsName(name)
  {
    hide IsName, IsLabel;
    var start := 0;
    assert name[0..] == name;
    while true
      invariant start <= |name|
      invariant IsName(name) <==> IsName(name[start..])
      decreases |name| - start
    {
      var i := IndexFrom(name, '.', start);
      NameStep(name, start, i);
      if !IsLabel(name[start..i]) {
        return false;
      }
      if i == |name| {
        return true;
      }
      start := i + 1;
    }
  }

  method NormalizeHost(ip6: Ip6, host: string) returns (r: Option<string>)
    requires Canonical(ip6)
    ensures r == Normalize(ip6, host)
  {
    hide IsIPv4, IsName;
    assert IsIPv4(host) ==> host != "" && Decimal.IsDigit(host[0]) by {
      if IsIPv4(host) {
        IPv4Shape(host);
      }
    }
    if ':' in host || (host != "" && Decimal.IsDigit(host[0])) {
      if ip6(host).Some? {
        return ip6(host);
      }
      if IsIPv4(host) {
        return Some(host);
      }
    }
    var name := Lower(TrimDot(host));
    NotAName(name);
    if name == "" || |name| > MAX_NAME || name[|name| - 1] == '.' {
      return None;
    }
    var ok := CheckLabels(name);
    r := if ok then Some(name) else None;
  }

  lemma {:induction false} IndexIs(s: string, c: char, from: nat, i: nat)
    requires from <= i <= |s| && (i < |s| ==> s[i] == c) && forall j | from <= j < i :: s[j] != c
    ensures IndexFrom(s, c, from) == i
  {
  }

  lemma SplitStep(s: string, i: nat)
    requires i <= |s| && (i < |s| ==> s[i] == '.') && forall j | 0 <= j < i :: s[j] != '.'
    ensures i == |s| ==> Split(s) == [s]
    ensures i < |s| ==> Split(s) == [s[..i]] + Split(s[i + 1..])
  {
    IndexIs(s, '.', 0, i);
  }

  lemma SplitAtDot(s: string, i: nat)
    requires i <= |s| && (i < |s| ==> s[i] == '.') && forall j | 0 <= j < i :: s[j] != '.'
    ensures IsName(s) <==> IsLabel(s[..i]) && (i < |s| ==> IsName(s[i + 1..]))
  {
    hide Split, IsLabel;
    SplitStep(s, i);
    if i == |s| {
      assert s[..i] == s;
    } else {
      var rest := Split(s[i + 1..]);
      assert forall part :: part in Split(s) <==> part == s[..i] || part in rest;
    }
  }

  /** The same for the part of a name that starts at `start`. */
  lemma NameStep(name: string, start: nat, i: nat)
    requires start <= i <= |name| && (i < |name| ==> name[i] == '.') && forall j | start <= j < i :: name[j] != '.'
    ensures IsName(name[start..]) <==> IsLabel(name[start..i]) && (i < |name| ==> IsName(name[i + 1..]))
  {
    hide IsName, IsLabel;
    SplitAtDot(name[start..], i - start);
    assert name[start..][..i - start] == name[start..i];
    if i < |name| {
      assert name[start..][i - start + 1..] == name[i + 1..];
    }
  }

  /** An empty name, or one that still ends in a dot, has an empty label. */
  lemma {:induction false} NotAName(s: string)
    ensures s == "" || s[|s| - 1] == '.' ==> !IsName(s)
    decreases |s|
  {
    var i := IndexFrom(s, '.', 0);
    SplitAtDot(s, i);
    if i < |s| {
      NotAName(s[i + 1..]);
    }
  }

  /** Every character of a name is a label character or a dot. */
  lemma {:induction false} NameChars(s: string, k: nat)
    requires IsName(s) && k < |s|
    ensures IsLabelChar(s[k]) || s[k] == '.'
    decreases |s|
  {
    var i := IndexFrom(s, '.', 0);
    SplitAtDot(s, i);
    if k < i {
      assert s[..i][k] == s[k];
    } else if k > i {
      NameChars(s[i + 1..], k - i - 1);
    }
  }

  lemma {:induction false} SplitChars(s: string, k: nat)
    requires k < |s| && s[k] != '.'
    ensures exists p :: p in Split(s) && s[k] in p
    decreases |s|
  {
    var i := IndexFrom(s, '.', 0);
    if i == |s| {
      assert s in Split(s);
    } else if k < i {
      assert s[..i][k] == s[k];
      assert s[..i] in Split(s);
    } else {
      SplitChars(s[i + 1..], k - i - 1);
      var p :| p in Split(s[i + 1..]) && s[i + 1..][k - i - 1] in p;
      assert p in Split(s);
    }
  }

  /** An IPv4 literal is made of digits and dots and starts with a digit. */
  lemma IPv4Shape(s: string)
    requires IsIPv4(s)
    ensures s != "" && Decimal.IsDigit(s[0])
    ensures forall k | 0 <= k < |s| :: Decimal.IsDigit(s[k]) || s[k] == '.'
  {
    var i := IndexFrom(s, '.', 0);
    assert Split(s)[0] == s[..i];
    assert IsOctet(Split(s)[0]);
    assert s[..i][0] in s[..i];
    forall k | 0 <= k < |s| && s[k] != '.' ensures Decimal.IsDigit(s[k]) {
      SplitChars(s, k);
      var p :| p in Split(s) && s[k] in p;
      var j :| 0 <= j < 4 && Split(s)[j] == p;
      assert IsOctet(Split(s)[j]);
    }
  }

  /** What normalising accepts. */
  predicate IsHost(ip6: Ip6, s: string) {
    (':' in s && ip6(s) == Some(s)) || IsIPv4(s) || (IsName(s) && |s| <= MAX_NAME)
  }

  /** The hosts that come out are exactly the ones that normalising leaves alone. */
  lemma NormalizedIsFixed(ip6: Ip6, host: string)
    requires Canonical(ip6) && Normalize(ip6, host).Some?
    ensures var n := Normalize(ip6, host).value;
            IsHost(ip6, n) && Normalize(ip6, n) == Some(n)
  {
    HostIsFixed(ip6, Normalize(ip6, host).value);
  }

  lemma HostIsFixed(ip6: Ip6, s: string)
    requires Canonical(ip6) && IsHost(ip6, s)
    ensures Normalize(ip6, s) == Some(s)
  {
    if IsIPv4(s) {
      IPv4Shape(s);
    } else if !(':' in s) || ip6(s) != Some(s) {
      NotAName(s);
      forall k | 0 <= k < |s| ensures LowerChar(s[k]) == s[k] && s[k] != ':' {
        NameChars(s, k);
      }
      assert Lower(TrimDot(s)) == s;
    }
  }

  datatype Destination = Destination(host: string, port: nat)

  datatype HostPort = HostPort(host: string, port: string)

  /** net.SplitHostPort. */
  function SplitHostPort(s: string): Option<HostPort> {
    var after := AfterLast(s, ':');
    if after == 0 then None
    else if s[0] == '[' then
      var end := IndexFrom(s, ']', 0);
      if end == |s| || end + 1 != after - 1 then None
      else if '[' in s[1..] || ']' in s[end + 1..] then None
      else Some(HostPort(s[1..end], s[after..]))
    else if ':' in s[..after - 1] || '[' in s || ']' in s then None
    else Some(HostPort(s[..after - 1], s[after..]))
  }

  /** strconv.ParseUint in base 10 for 16 bits, without zero. */
  function ParsePort(s: string): Option<nat> {
    if s == "" || !Decimal.AllDigits(s) then None
    else if 0 < Decimal.ValueOf(s) <= 65535 then Some(Decimal.ValueOf(s))
    else None
  }

  /** The host and port text of an authority; the default port applies when none is given. */
  function Authority(authority: string, defaultPort: string): Option<HostPort> {
    if SplitHostPort(authority).Some? then SplitHostPort(authority)
    else if defaultPort == "" then None
    else if |authority| >= 2 && authority[0] == '[' && authority[|authority| - 1] == ']'
      then Some(HostPort(authority[1..|authority| - 1], defaultPort))
    else if ':' in authority || '[' in authority || ']' in authority then None
    else Some(HostPort(authority, defaultPort))
  }

  function ParseDestination(ip6: Ip6, authority: string, defaultPort: string): Option<Destination> {
    match Authority(authority, defaultPort)
    case None => None
    case Some(parts) =>
      match (Normalize(ip6, parts.host), ParsePort(parts.port))
      case (Some(host), Some(port)) => Some(Destination(host, port))
      case _ => None
  }

  function Text(d: Destination): string {
    (if ':' in d.host then "[" + d.host + "]" else d.host) + ":" + Decimal.Print(d.port)
  }

  lemma {:induction false} AfterLastIs(s: string, c: char, i: nat)
    requires 0 < i <= |s| && s[i - 1] == c && forall j | i <= j < |s| :: s[j] != c
    ensures AfterLast(s, c) == i
  {
  }

  lemma HostCharsAreSafe(ip6: Ip6, s: string)
    requires Canonical(ip6) && IsHost(ip6, s)
    ensures s != "" && s[0] != '['
    ensures forall k | 0 <= k < |s| :: s[k] != '[' && s[k] != ']'
    ensures !IsIPv4(s) && IsName(s) ==> ':' !in s
  {
    if IsIPv4(s) {
      IPv4Shape(s);
    } else if ':' in s && ip6(s) == Some(s) {
      assert forall i | 0 <= i < |s| :: Is6Char(s[i]);
      if IsName(s) {
        forall k | 0 <= k < |s| ensures s[k] != ':' {
          NameChars(s, k);
        }
        assert false;
      }
    } else {
      NotAName(s);
      forall k | 0 <= k < |s| ensures s[k] != '[' && s[k] != ']' && s[k] != ':' {
        NameChars(s, k);
      }
    }
  }

  /** No character that has a meaning in an authority. */
  predicate IsUnmarked(s: string) {
    forall k | 0 <= k < |s| :: s[k] != ':' && s[k] != '[' && s[k] != ']'
  }

  lemma DigitsAreUnmarked(s: string)
    requires forall k | 0 <= k < |s| :: Decimal.IsDigit(s[k])
    ensures IsUnmarked(s)
  {
  }

  lemma PortSurvives(port: nat)
    requires 0 < port <= 65535
    ensures ParsePort(Decimal.Print(port)) == Some(port) && IsUnmarked(Decimal.Print(port))
  {
    Decimal.PrintedValue(port);
    var digits := Decimal.Print(port);
    assert forall k | 0 <= k < |digits| :: digits[k] in digits && Decimal.IsDigit(digits[k]);
    DigitsAreUnmarked(digits);
  }

  lemma BracketedSplits(host: string, port: string)
    requires forall k | 0 <= k < |host| :: host[k] != '[' && host[k] != ']'
    requires IsUnmarked(port)
    ensures SplitHostPort("[" + host + "]" + ":" + port) == Some(HostPort(host, port))
  {
    var t := "[" + host + "]" + ":" + port;
    forall j | |host| + 3 <= j < |t| ensures t[j] != ':' && t[j] != ']' && t[j] != '[' {
      assert t[j] == port[j - |host| - 3];
    }
    assert t[|host| + 2] == ':' && t[|host| + 1] == ']' && t[0] == '[';
    AfterLastIs(t, ':', |host| + 3);
    assert forall j | 1 <= j < |host| + 1 :: t[j] == host[j - 1];
    IndexIs(t, ']', 0, |host| + 1);
    assert t[1..|host| + 1] == host && t[|host| + 3..] == port;
    assert forall j | 1 <= j < |t| :: t[j] != '[';
  }

  lemma PlainSplits(host: string, port: string)
    requires IsUnmarked(host) && IsUnmarked(port)
    ensures SplitHostPort(host + ":" + port) == Some(HostPort(host, port))
  {
    var t := host + ":" + port;
    forall j | |host| + 1 <= j < |t| ensures t[j] != ':' && t[j] != ']' && t[j] != '[' {
      assert t[j] == port[j - |host| - 1];
    }
    assert t[|host|] == ':' && forall j | 0 <= j < |host| :: t[j] == host[j];
    AfterLastIs(t, ':', |host| + 1);
    assert t[..|host|] == host && t[|host| + 1..] == port;
  }

  /** A destination's own text splits back into its parts. */
  lemma TextSplits(ip6: Ip6, d: Destination)
    requires Canonical(ip6) && IsHost(ip6, d.host) && 0 < d.port <= 65535
    ensures SplitHostPort(Text(d)) == Some(HostPort(d.host, Decimal.Print(d.port)))
  {
    hide SplitHostPort, IsHost, Canonical;
    HostCharsAreSafe(ip6, d.host);
    PortSurvives(d.port);
    if ':' in d.host {
      BracketedSplits(d.host, Decimal.Print(d.port));
    } else {
      PlainSplits(d.host, Decimal.Print(d.port));
    }
  }

  /** A parsed destination is a fixed point: its host is not normalised further, and its own text
      parses to the same destination. */
  lemma ParsedDestinationIsFixed(ip6: Ip6, authority: string, defaultPort: string)
    requires Canonical(ip6) && ParseDestination(ip6, authority, defaultPort).Some?
    ensures var d := ParseDestination(ip6, authority, defaultPort).value;
            && Normalize(ip6, d.host) == Some(d.host) && 0 < d.port <= 65535
            && ParseDestination(ip6, Text(d), "") == Some(d)
  {
    var d := ParseDestination(ip6, authority, defaultPort).value;
    NormalizedIsFixed(ip6, Authority(authority, defaultPort).value.host);
    TextSplits(ip6, d);
    PortSurvives(d.port);
  }

  /** The default port only matters for an authority that does not name one. */
  lemma ExplicitPortWins(ip6: Ip6, authority: string, defaultPort: string)
    requires SplitHostPort(authority).Some?
    ensures ParseDestination(ip6, authority, defaultPort) == ParseDestination(ip6, authority, "")
  {
  }
}
