/** The forms of hosts, authorities and domain patterns: what texts there are, told without the functions
    that read them. */
module HostForms {
  import opened Options
  import Decimal
  import opened HostNames
  import opened DomainRules

  function JoinDots(parts: seq<string>): string
    requires parts != []
  {
    if |parts| == 1 then parts[0] else parts[0] + "." + JoinDots(parts[1..])
  }

  /** The pieces of a text, put together again. */
  lemma {:induction false} SplitJoins(s: string)
    ensures JoinDots(Split(s)) == s
    decreases |s|
  {
    var i := IndexFrom(s, '.', 0);
    if i < |s| {
      SplitJoins(s[i + 1..]);
      assert Split(s)[1..] == Split(s[i + 1..]);
      assert s == s[..i] + "." + s[i + 1..];
    }
  }

  lemma FirstPiece(x: string, y: string)
    requires '.' !in x
    ensures Split(x) == [x] && Split(x + "." + y) == [x] + Split(y)
  {
    SplitStep(x, |x|);
    var s := x + "." + y;
    SplitStep(s, |x|);
    assert s[..|x|] == x && s[|x| + 1..] == y;
  }

  lemma {:induction false} SplitConcat(x: string, y: string)
    ensures Split(x + "." + y) == Split(x) + Split(y)
    decreases |x|
  {
    hide Split;
    var i := IndexFrom(x, '.', 0);
    if i == |x| {
      FirstPiece(x, y);
    } else {
      var head, rest := x[..i], x[i + 1..];
      assert x == head + "." + rest;
      FirstPiece(head, rest);
      SplitConcat(rest, y);
      assert x + "." + y == head + "." + (rest + "." + y);
      FirstPiece(head, rest + "." + y);
      assert [head] + (Split(rest) + Split(y)) == ([head] + Split(rest)) + Split(y);
    }
  }

  lemma {:induction false} JoinConcat(a: seq<string>, b: seq<string>)
    requires a != [] && b != []
    ensures JoinDots(a + b) == JoinDots(a) + "." + JoinDots(b)
  {
    if |a| == 1 {
      assert (a + b)[1..] == b;
    } else {
      assert (a + b)[1..] == a[1..] + b;
      JoinConcat(a[1..], b);
    }
  }

  lemma DomainPrefix(host: string, name: string)
    ensures InDomain(host, name) ==> host == host[..|host| - |name| - 1] + "." + name
  {
    if InDomain(host, name) {
      var x := host[..|host| - |name| - 1];
      assert host == x + host[|x|..] && host[|x|..] == "." + name;
      assert x + ("." + name) == x + "." + name;
    }
  }

  lemma DomainSuffix(x: string, name: string)
    ensures InDomain(x + "." + name, name)
  {
    var host := x + "." + name;
    assert host[|host| - |name| - 1..] == "." + name;
  }

  /** A host lies in a domain exactly when its labels end with those of the domain and there are more. */
  lemma InDomainIsLabels(host: string, name: string)
    ensures InDomain(host, name) <==>
            var h, n := Split(host), Split(name); |h| > |n| && h[|h| - |n|..] == n
  {
    hide Split, InDomain, JoinDots;
    var h, n := Split(host), Split(name);
    if InDomain(host, name) {
      DomainPrefix(host, name);
      SplitConcat(host[..|host| - |name| - 1], name);
    }
    if |h| > |n| && h[|h| - |n|..] == n {
      var x := h[..|h| - |n|];
      assert h == x + n;
      JoinConcat(x, n);
      SplitJoins(host);
      SplitJoins(name);
      DomainSuffix(JoinDots(x), name);
    }
  }

  /** What a pattern covers, in labels. */
  lemma CoversIsLabels(ip6: Ip6, p: Pattern, host: string)
    ensures Covers(ip6, p, host) <==>
            || host == p.host
            || (!p.exact && ip6(p.host).None? && !IsIPv4(p.host) &&
                  var h, n := Split(host), Split(p.host); |h| > |n| && h[|h| - |n|..] == n)
  {
    hide Split, InDomain, IsIPv4;
    InDomainIsLabels(host, p.host);
  }

  /** A letter or a digit. */
  predicate IsAlphanumeric(c: char) {
    'a' <= c <= 'z' || '0' <= c <= '9'
  }

  /** Labels as section 2.1 of RFC 1123 has them, in lower case: letters and digits with hyphens between, at
      most 63 of them. */
  lemma LabelSyntax(s: string)
    ensures IsLabel(s) <==>
            && 1 <= |s| < 64 && IsAlphanumeric(s[0]) && IsAlphanumeric(s[|s| - 1])
            && forall i | 0 < i < |s| - 1 :: IsAlphanumeric(s[i]) || s[i] == '-'
  {
  }

  /** An octet is a number up to 255 as it is printed. */
  lemma OctetIsPrinted(s: string)
    ensures IsOctet(s) <==> exists n: nat :: n <= 255 && s == Decimal.Print(n)
  {
    if IsOctet(s) {
      Decimal.PrintOfValue(s);
    }
    if n: nat :| n <= 255 && s == Decimal.Print(n) {
      Decimal.PrintedValue(n);
      Decimal.PrintedFirst(n);
      assert Decimal.Power(3) == 1000;
      Decimal.PrintedLength(n, 3);
    }
  }

  lemma OctetHasNoDot(n: nat)
    ensures '.' !in Decimal.Print(n)
  {
    forall c | c in Decimal.Print(n) ensures c != '.' {
      assert Decimal.IsDigit(c);
    }
  }

  function Dotted(a: nat, b: nat, c: nat, d: nat): string {
    Decimal.Print(a) + "." + (Decimal.Print(b) + "." + (Decimal.Print(c) + "." + Decimal.Print(d)))
  }

  lemma DottedSplits(a: nat, b: nat, c: nat, d: nat)
    ensures Split(Dotted(a, b, c, d)) == [Decimal.Print(a), Decimal.Print(b), Decimal.Print(c), Decimal.Print(d)]
  {
    hide Split;
    var p, q, r, s := Decimal.Print(a), Decimal.Print(b), Decimal.Print(c), Decimal.Print(d);
    OctetHasNoDot(a);
    OctetHasNoDot(b);
    OctetHasNoDot(c);
    OctetHasNoDot(d);
    FirstPiece(s, "");
    FirstPiece(r, s);
    FirstPiece(q, r + "." + s);
    FirstPiece(p, q + "." + (r + "." + s));
  }

  /** An IPv4 address is four numbers up to 255, printed in decimal with dots between them. */
  lemma IPv4IsDotted(s: string)
    ensures IsIPv4(s) <==>
            exists a: nat, b: nat, c: nat, d: nat ::
              a <= 255 && b <= 255 && c <= 255 && d <= 255 && s == Dotted(a, b, c, d)
  {
    hide IsOctet, Split;
    if IsIPv4(s) {
      var parts := Split(s);
      OctetIsPrinted(parts[0]);
      OctetIsPrinted(parts[1]);
      OctetIsPrinted(parts[2]);
      OctetIsPrinted(parts[3]);
      var a: nat :| a <= 255 && parts[0] == Decimal.Print(a);
      var b: nat :| b <= 255 && parts[1] == Decimal.Print(b);
      var c: nat :| c <= 255 && parts[2] == Decimal.Print(c);
      var d: nat :| d <= 255 && parts[3] == Decimal.Print(d);
      SplitJoins(s);
      assert parts == [parts[0]] + ([parts[1]] + ([parts[2]] + [parts[3]]));
      JoinConcat([parts[0]], [parts[1]] + ([parts[2]] + [parts[3]]));
      JoinConcat([parts[1]], [parts[2]] + [parts[3]]);
      JoinConcat([parts[2]], [parts[3]]);
      assert s == Dotted(a, b, c, d);
    }
    if a: nat, b: nat, c: nat, d: nat :|
      a <= 255 && b <= 255 && c <= 255 && d <= 255 && s == Dotted(a, b, c, d) {
      DottedSplits(a, b, c, d);
      OctetIsPrinted(Decimal.Print(a));
      OctetIsPrinted(Decimal.Print(b));
      OctetIsPrinted(Decimal.Print(c));
      OctetIsPrinted(Decimal.Print(d));
    }
  }

  /** The same letters, some of them as capitals. */
  ghost predicate SameButCase(name: string, t: string) {
    && |name| == |t|
    && forall i | 0 <= i < |t| :: t[i] == name[i] || ('a' <= name[i] <= 'z' && t[i] == name[i] - 'a' + 'A')
  }

  lemma LoweredBack(name: string, t: string)
    requires IsName(name) && SameButCase(name, t)
    ensures Lower(t) == name
    ensures t != "" && t[|t| - 1] != '.' && forall i | 0 <= i < |t| :: t[i] != ':'
  {
    NotAName(name);
    forall i | 0 <= i < |t| ensures LowerChar(t[i]) == name[i] && t[i] != ':' {
      NameChars(name, i);
    }
  }

  lemma DotAtTheEnd(t: string)
    ensures !IsIPv4(t + ".")
  {
    hide Split;
    SplitConcat(t, "");
    FirstPiece("", "");
    assert t + "." == t + "." + "";
    var parts := Split(t + ".");
    if |parts| == 4 {
      assert parts[3] == "" && !IsOctet(parts[3]);
    }
  }

  /** Names are read without regard to case, with or without a dot at the end. */
  lemma NamesInAnyCase(ip6: Ip6, name: string, t: string)
    requires Canonical(ip6) && IsName(name) && |name| <= 253 && SameButCase(name, t)
    ensures Normalize(ip6, t) == Some(name) == Normalize(ip6, t + ".")
  {
    hide IsName;
    LoweredBack(name, t);
    DotAtTheEnd(t);
    assert TrimDot(t + ".") == t && TrimDot(t) == t;
    if IsIPv4(t) {
      IPv4Shape(t);
      assert t == name;
    }
  }

  ghost predicate NoBrackets(s: string) {
    forall k | 0 <= k < |s| :: s[k] != '[' && s[k] != ']'
  }

  /** Joining a host and a port, with the brackets that a host with colons needs. */
  ghost predicate Joins(s: string, host: string, port: string) {
    s == "[" + host + "]" + ":" + port || (IsUnmarked(host) && s == host + ":" + port)
  }

  lemma HalvesJoin(s: string, after: nat)
    requires 0 < after <= |s| && s[after - 1] == ':'
    ensures s == s[..after - 1] + ":" + s[after..]
  {
  }

  lemma PlainIsJoined(s: string)
    requires s == "" || s[0] != '['
    requires SplitHostPort(s).Some?
    ensures var parts := SplitHostPort(s).value;
            IsUnmarked(parts.host) && IsUnmarked(parts.port) && s == parts.host + ":" + parts.port
  {
    var after := AfterLast(s, ':');
    assert forall j | after <= j < |s| :: s[j] != ':';
    var host, port := s[..after - 1], s[after..];
    assert SplitHostPort(s) == Some(HostPort(host, port)) && ':' !in host && '[' !in s && ']' !in s;
    HalvesJoin(s, after);
    hide SplitHostPort;
    forall k | 0 <= k < |host| ensures host[k] != ':' && host[k] != '[' && host[k] != ']' {
      assert host[k] == s[k] && host[k] in host;
    }
    forall k | 0 <= k < |port| ensures port[k] != ':' && port[k] != '[' && port[k] != ']' {
      assert port[k] == s[after + k];
    }
  }

  lemma PartsJoin(s: string, end: nat)
    requires 0 < end && end + 1 < |s| && s[0] == '[' && s[end] == ']' && s[end + 1] == ':'
    ensures s == "[" + s[1..end] + "]" + ":" + s[end + 2..]
  {
  }

  lemma BracketsAreJoined(s: string)
    requires s != "" && s[0] == '['
    requires SplitHostPort(s).Some?
    ensures var parts := SplitHostPort(s).value;
            NoBrackets(parts.host) && IsUnmarked(parts.port) && s == "[" + parts.host + "]" + ":" + parts.port
  {
    var after, end := AfterLast(s, ':'), IndexFrom(s, ']', 0);
    assert forall j | after <= j < |s| :: s[j] != ':';
    assert forall j | 0 <= j < end :: s[j] != ']';
    var host, port, rest, tail := s[1..end], s[after..], s[1..], s[end + 1..];
    assert SplitHostPort(s) == Some(HostPort(host, port)) && '[' !in rest && ']' !in tail && end + 2 == after;
    PartsJoin(s, end);
    hide SplitHostPort;
    forall k | 0 <= k < |host| ensures host[k] != '[' && host[k] != ']' {
      assert host[k] == s[k + 1] == rest[k] && rest[k] in rest;
    }
    forall k | 0 <= k < |port| ensures port[k] != ':' && port[k] != '[' && port[k] != ']' {
      assert port[k] == s[after + k] == rest[after + k - 1] && rest[after + k - 1] in rest;
      assert port[k] == tail[k + 1] && tail[k + 1] in tail;
    }
  }

  /** Splitting an authority undoes the joining, and nothing else has parts. */
  lemma SplitIsJoined(s: string, host: string, port: string)
    ensures SplitHostPort(s) == Some(HostPort(host, port)) <==>
            NoBrackets(host) && IsUnmarked(port) && Joins(s, host, port)
  {
    if NoBrackets(host) && IsUnmarked(port) {
      BracketedSplits(host, port);
      if IsUnmarked(host) {
        PlainSplits(host, port);
      }
    }
    if SplitHostPort(s).Some? {
      hide SplitHostPort;
      if s != "" && s[0] == '[' {
        BracketsAreJoined(s);
      } else {
        PlainIsJoined(s);
      }
    }
  }

  function Bracketed(host: string): string {
    if ':' in host then "[" + host + "]" else host
  }

  lemma JoinedHasColon(s: string, host: string, port: string)
    requires IsUnmarked(port) && Joins(s, host, port)
    ensures s != "" && s[|s| - 1] != ']' && exists k :: 0 <= k < |s| && s[k] == ':'
  {
    var k := |s| - |port| - 1;
    assert s[k] == ':' && forall j | k < j < |s| :: s[j] == port[j - k - 1];
  }

  /** A host alone has no port. */
  lemma HostAlone(host: string)
    requires NoBrackets(host)
    ensures SplitHostPort(Bracketed(host)).None?
  {
    var s := Bracketed(host);
    hide SplitHostPort, Joins;
    if SplitHostPort(s).Some? {
      var parts := SplitHostPort(s).value;
      SplitIsJoined(s, parts.host, parts.port);
      JoinedHasColon(s, parts.host, parts.port);
      assert false;
    }
  }

  /** An authority without a port is the same with the default port. */
  lemma DefaultPortFills(ip6: Ip6, host: string, port: string)
    requires Canonical(ip6) && IsHost(ip6, host) && port != "" && IsUnmarked(port)
    ensures ParseDestination(ip6, Bracketed(host), port) == ParseDestination(ip6, Bracketed(host) + ":" + port, "")
    ensures ParseDestination(ip6, Bracketed(host), "").None?
  {
    hide IsHost, Canonical, SplitHostPort, Normalize, ParsePort;
    HostCharsAreSafe(ip6, host);
    HostAlone(host);
    var s := Bracketed(host);
    SplitIsJoined(s + ":" + port, host, port);
    if ':' in host {
      assert s[1..|s| - 1] == host && s[|s| - 1] == ']';
    } else {
      assert IsUnmarked(host);
    }
  }

  lemma {:induction false} LeadingBlanks(before: string, t: string)
    requires (forall c | c in before :: IsBlank(c)) && t != "" && !IsBlank(t[0])
    ensures TrimSpace(before + t) == TrimSpace(t)
  {
    if before != "" {
      assert before[0] in before && (before + t)[1..] == before[1..] + t;
      LeadingBlanks(before[1..], t);
    } else {
      assert before + t == t;
    }
  }

  lemma {:induction false} TrailingBlanks(t: string, after: string)
    requires (forall c | c in after :: IsBlank(c)) && t != "" && !IsBlank(t[0]) && !IsBlank(t[|t| - 1])
    ensures TrimSpace(t + after) == t
    decreases |after|
  {
    if after != "" {
      assert after[|after| - 1] in after;
      assert (t + after)[..|t + after| - 1] == t + after[..|after| - 1];
      TrailingBlanks(t, after[..|after| - 1]);
    } else {
      assert t + after == t;
    }
  }

  lemma BlanksAreTrimmed(before: string, t: string, after: string)
    requires forall c | c in before || c in after :: IsBlank(c)
    requires t != "" && !IsBlank(t[0]) && !IsBlank(t[|t| - 1])
    ensures TrimSpace(before + t + after) == t
  {
    assert before + t + after == before + (t + after);
    LeadingBlanks(before, t + after);
    TrailingBlanks(t, after);
  }

  lemma HostHasNoBlank(ip6: Ip6, host: string)
    requires Canonical(ip6) && IsHost(ip6, host)
    ensures host != "" && forall i | 0 <= i < |host| :: !IsBlank(host[i]) && host[i] != '='
  {
    HostCharsAreSafe(ip6, host);
    if IsIPv4(host) {
      IPv4Shape(host);
    } else if IsName(host) {
      hide IsName;
      forall i | 0 <= i < |host| ensures !IsBlank(host[i]) && host[i] != '=' {
        NameChars(host, i);
      }
    } else {
      assert forall i | 0 <= i < |host| :: Is6Char(host[i]);
    }
  }

  /** How patterns are written: a host stands for itself and what is below it, with or without a dot before
      it, and after an equals sign for itself alone. Blanks around it do not matter. */
  lemma PatternsAreWritten(ip6: Ip6, before: string, host: string, after: string)
    requires Canonical(ip6) && IsHost(ip6, host) && host != "" && host[0] != '.'
    requires forall c | c in before || c in after :: IsBlank(c)
    ensures ParseDomain(ip6, before + host + after) == Some(Pattern(host, false))
    ensures ParseDomain(ip6, before + ("." + host) + after) == Some(Pattern(host, false))
    ensures ParseDomain(ip6, before + ("=" + host) + after) == Some(Pattern(host, true))
  {
    hide Canonical, IsHost, Normalize;
    HostHasNoBlank(ip6, host);
    HostIsFixed(ip6, host);
    BlanksAreTrimmed(before, host, after);
    BlanksAreTrimmed(before, "." + host, after);
    BlanksAreTrimmed(before, "=" + host, after);
    assert ("." + host)[1..] == host && ("=" + host)[1..] == host;
  }
}
