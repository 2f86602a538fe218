/** The concrete syntax of JSON texts (sections 2, 4, 5 and 7 of RFC 8259) and what the hook
    scanner finds in them. The syntax here is a little wider than the standard: a scalar is any
    run of letters, digits and number signs, a backslash may escape any character, and whatever C
    calls white space may stand between tokens. */
module JsonText {
  import opened Options
  import opened HookScanner
  import Decimal

  datatype Value =
    | Scalar(text: string)
    | Quoted(raw: string)
    | Array(gap: string, items: seq<Element>)
    | Object(gap: string, members: seq<Member>)

  /** A value with the space on both sides of it. */
  datatype Element = Element(before: string, value: Value, after: string)

  /** `before` "raw" `middle` : element */
  datatype Member = Member(before: string, raw: string, middle: string, element: Element)

  predicate IsGap(s: string) {
    forall i | 0 <= i < |s| :: s[i] in {' ', '\t', '\n', '\U{B}', '\U{C}', '\r'}
  }

  predicate IsScalarChar(c: char) {
    'a' <= c <= 'z' || 'A' <= c <= 'Z' || '0' <= c <= '9' || c == '+' || c == '-' || c == '.'
  }

  predicate IsRaw(s: string) {
    if s == [] then true
    else if s[0] == '\\' then |s| > 1 && IsRaw(s[2..])
    else s[0] != '"' && s[0] >= ' ' && IsRaw(s[1..])
  }

  /** Well formed, and nested at most `depth` deep. */
  predicate Formed(v: Value, depth: int)
    decreases v
  {
    match v
    case Scalar(text) => text != [] && forall i | 0 <= i < |text| :: IsScalarChar(text[i])
    case Quoted(raw) => IsRaw(raw)
    case Array(gap, items) => depth > 0 && IsGap(gap) && ElementsFormed(items, depth - 1)
    case Object(gap, members) => depth > 0 && IsGap(gap) && MembersFormed(members, depth - 1)
  }

  predicate ElementFormed(e: Element, depth: int)
    decreases e
  {
    IsGap(e.before) && Formed(e.value, depth) && IsGap(e.after)
  }

  predicate MemberFormed(m: Member, depth: int)
    decreases m
  {
    IsGap(m.before) && IsRaw(m.raw) && IsGap(m.middle) && ElementFormed(m.element, depth)
  }

  predicate ElementsFormed(items: seq<Element>, depth: int)
    decreases items
  {
    items == [] || (ElementFormed(items[0], depth) && ElementsFormed(items[1..], depth))
  }

  predicate MembersFormed(members: seq<Member>, depth: int)
    decreases members
  {
    members == [] || (MemberFormed(members[0], depth) && MembersFormed(members[1..], depth))
  }

  function Quote(raw: string): string {
    "\"" + raw + "\""
  }

  function Print(v: Value): (s: string)
    ensures s != [] || (v.Scalar? && v.text == [])
    decreases v
  {
    match v
    case Scalar(text) => text
    case Quoted(raw) => Quote(raw)
    case Array(gap, items) => "[" + (gap + (PrintElements(items) + "]"))
    case Object(gap, members) => "{" + (gap + (PrintMembers(members) + "}"))
  }

  function PrintElement(e: Element): string
    decreases e
  {
    e.before + (Print(e.value) + e.after)
  }

  function PrintElements(items: seq<Element>): string
    decreases items
  {
    if items == [] then ""
    else PrintElement(items[0]) + (Separator(|items|) + PrintElements(items[1..]))
  }

  function PrintMember(m: Member): string
    decreases m
  {
    m.before + (Quote(m.raw) + (m.middle + (":" + PrintElement(m.element))))
  }

  function PrintMembers(members: seq<Member>): string
    decreases members
  {
    if members == [] then ""
    else PrintMember(members[0]) + (Separator(|members|) + PrintMembers(members[1..]))
  }

  function Separator(remaining: nat): string {
    if remaining > 1 then "," else ""
  }

  /** The text `part` stands in `text` at offset `p`. */
  predicate Occurs(text: string, p: nat, part: string) {
    p + |part| <= |text| && forall j | p <= j < p + |part| :: text[j] == part[j - p]
  }

  lemma OccursSplit(text: string, p: nat, a: string, b: string)
    requires Occurs(text, p, a + b)
    ensures Occurs(text, p, a) && Occurs(text, p + |a|, b)
  {
    forall j | p <= j < p + |a| ensures text[j] == a[j - p] {
      assert (a + b)[j - p] == a[j - p];
    }
    forall j | p + |a| <= j < p + |a| + |b| ensures text[j] == b[j - p - |a|] {
      assert (a + b)[j - p] == b[j - p - |a|];
    }
  }

  lemma OccursHead(text: string, p: nat, part: string)
    requires Occurs(text, p, part) && part != []
    ensures p < |text| && text[p] == part[0]
  {
  }

  lemma {:induction false} StringClosed(text: string, p: nat, raw: string)
    requires Occurs(text, p, raw + "\"") && IsRaw(raw)
    ensures StringEnd(text, p) == Ok(p + |raw|)
    decreases |raw|
  {
    if raw != [] {
      var n := if raw[0] == '\\' then 2 else 1;
      assert raw + "\"" == raw[..n] + (raw[n..] + "\"");
      OccursSplit(text, p, raw[..n], raw[n..] + "\"");
      StringClosed(text, p + n, raw[n..]);
    }
  }

  lemma {:induction false} GapSkipped(text: string, p: nat, gap: string)
    requires Occurs(text, p, gap) && IsGap(gap)
    ensures AfterSpaces(text, p) == AfterSpaces(text, p + |gap|)
    decreases |gap|
  {
    if gap != [] {
      assert gap == gap[..1] + gap[1..];
      OccursSplit(text, p, gap[..1], gap[1..]);
      GapSkipped(text, p + 1, gap[1..]);
    }
  }

  /** Characters that mean nothing to the scanner. */
  predicate IsPlain(s: string) {
    forall i | 0 <= i < |s| :: s[i] != '"' && s[i] != '{' && s[i] != '}' && s[i] != '[' && s[i] != ']'
  }

  lemma {:induction false} PlainScanned(text: string, p: nat, plain: string, depth: nat, found: Option<nat>,
        key: string)
    requires Occurs(text, p, plain) && IsPlain(plain)
    requires depth > 0 && (found.Some? ==> found.value <= |text|)
    ensures Scan(text, p, depth, found, key) == Scan(text, p + |plain|, depth, found, key)
    decreases |plain|
  {
    if plain != [] {
      assert plain == plain[..1] + plain[1..];
      OccursSplit(text, p, plain[..1], plain[1..]);
      PlainScanned(text, p + 1, plain[1..], depth, found, key);
    }
  }

  lemma GapScanned(text: string, p: nat, gap: string, depth: nat, found: Option<nat>, key: string)
    requires Occurs(text, p, gap) && IsGap(gap)
    requires depth > 0 && (found.Some? ==> found.value <= |text|)
    ensures Scan(text, p, depth, found, key) == Scan(text, p + |gap|, depth, found, key)
  {
    PlainScanned(text, p, gap, depth, found, key);
  }

  /** A comma, a colon or nothing at all. */
  lemma MarkScanned(text: string, p: nat, mark: string, depth: nat, found: Option<nat>, key: string)
    requires Occurs(text, p, mark) && mark in {"", ",", ":"}
    requires depth > 0 && (found.Some? ==> found.value <= |text|)
    ensures Scan(text, p, depth, found, key) == Scan(text, p + |mark|, depth, found, key)
  {
    PlainScanned(text, p, mark, depth, found, key);
  }

  lemma ScalarScanned(text: string, p: nat, scalar: string, depth: nat, found: Option<nat>, key: string)
    requires Occurs(text, p, scalar) && Formed(Scalar(scalar), 0)
    requires depth > 0 && (found.Some? ==> found.value <= |text|)
    ensures Scan(text, p, depth, found, key) == Scan(text, p + |scalar|, depth, found, key)
  {
    PlainScanned(text, p, scalar, depth, found, key);
  }

  /** A string that cannot be the wanted key is passed over whole. */
  lemma QuotedScanned(text: string, p: nat, raw: string, depth: nat, found: Option<nat>, key: string)
    requires Occurs(text, p, Quote(raw)) && IsRaw(raw)
    requires depth > 0 && (found.Some? ==> found.value <= |text|)
    requires depth > 1 || raw != key || !ColonFollows(text, p + |raw| + 2)
    ensures Scan(text, p, depth, found, key) == Scan(text, p + |raw| + 2, depth, found, key)
  {
    assert Quote(raw) == "\"" + (raw + "\"");
    OccursSplit(text, p, "\"", raw + "\"");
    StringClosed(text, p + 1, raw);
    OccursSplit(text, p + 1, raw, "\"");
  }

  /** A value is followed by space and then by a comma or the end of its container. */
  predicate Delimited(text: string, p: nat)
    requires p <= |text|
  {
    !ColonFollows(text, p)
  }

  /** What stands right after an element: a comma or a closing bracket. */
  predicate Ends(text: string, p: nat) {
    p < |text| && (text[p] == ',' || text[p] == ']' || text[p] == '}')
  }

  /** Entering a container and leaving it again. */
  lemma ContainerScanned(text: string, p: nat, open: char, gap: string, inner: string, close: char, depth: nat,
        found: Option<nat>, key: string)
    requires (open == '[' && close == ']') || (open == '{' && close == '}')
    requires Occurs(text, p, [open] + (gap + (inner + [close]))) && IsGap(gap)
    requires 0 < depth < MAX_DEPTH && (found.Some? ==> found.value <= |text|)
    ensures Occurs(text, p + 1 + |gap|, inner) && Ends(text, p + 1 + |gap| + |inner|)
    ensures Scan(text, p, depth, found, key) == Scan(text, p + 1 + |gap|, depth + 1, found, key)
    ensures Scan(text, p + 1 + |gap| + |inner|, depth + 1, found, key) ==
            Scan(text, p + 2 + |gap| + |inner|, depth, found, key)
  {
    OccursSplit(text, p, [open], gap + (inner + [close]));
    OccursSplit(text, p + 1, gap, inner + [close]);
    OccursSplit(text, p + 1 + |gap|, inner, [close]);
    GapScanned(text, p + 1, gap, depth + 1, found, key);
  }

  /** A value nested no deeper than the limit is passed over whole, whatever it contains. */
  lemma {:induction false} ValueScanned(text: string, p: nat, v: Value, depth: nat, found: Option<nat>, key: string)
    requires Occurs(text, p, Print(v)) && Formed(v, MAX_DEPTH - depth)
    requires depth > 0 && (found.Some? ==> found.value <= |text|)
    requires Delimited(text, p + |Print(v)|)
    ensures Scan(text, p, depth, found, key) == Scan(text, p + |Print(v)|, depth, found, key)
    decreases v
  {
    hide HookScanner.Scan, HookScanner.AfterSpaces, Occurs, IsGap, IsRaw;
    match v {
      case Scalar(t) =>
        ScalarScanned(text, p, t, depth, found, key);
      case Quoted(raw) =>
        QuotedScanned(text, p, raw, depth, found, key);
      case Array(gap, items) =>
        ContainerScanned(text, p, '[', gap, PrintElements(items), ']', depth, found, key);
        ElementsScanned(text, p + 1 + |gap|, items, depth + 1, found, key);
      case Object(gap, members) =>
        ContainerScanned(text, p, '{', gap, PrintMembers(members), '}', depth, found, key);
        MembersScanned(text, p + 1 + |gap|, members, depth + 1, found, key);
    }
  }

  lemma GapBeforeEnd(text: string, p: nat, gap: string)
    requires Occurs(text, p, gap) && IsGap(gap) && Ends(text, p + |gap|)
    ensures Delimited(text, p)
  {
    GapSkipped(text, p, gap);
  }

  lemma ElementScanned(text: string, p: nat, e: Element, depth: nat, found: Option<nat>, key: string)
    requires Occurs(text, p, PrintElement(e)) && ElementFormed(e, MAX_DEPTH - depth)
    requires depth > 0 && (found.Some? ==> found.value <= |text|)
    requires Ends(text, p + |PrintElement(e)|)
    ensures Scan(text, p, depth, found, key) == Scan(text, p + |PrintElement(e)|, depth, found, key)
    decreases e, 0
  {
    hide HookScanner.Scan, HookScanner.AfterSpaces, Occurs, IsGap, IsRaw;
    ElementParts(text, p, e);
    GapScanned(text, p, e.before, depth, found, key);
    var q := p + |e.before|;
    var r := q + |Print(e.value)|;
    GapBeforeEnd(text, r, e.after);
    ValueScanned(text, q, e.value, depth, found, key);
    GapScanned(text, r, e.after, depth, found, key);
  }

  lemma {:induction false} ElementsScanned(text: string, p: nat, items: seq<Element>, depth: nat, found: Option<nat>,
        key: string)
    requires Occurs(text, p, PrintElements(items))
    requires ElementsFormed(items, MAX_DEPTH - depth)
    requires depth > 0 && (found.Some? ==> found.value <= |text|)
    requires Ends(text, p + |PrintElements(items)|)
    ensures Scan(text, p, depth, found, key) == Scan(text, p + |PrintElements(items)|, depth, found, key)
    decreases items
  {
    hide HookScanner.Scan, HookScanner.AfterSpaces, Occurs, IsGap, IsRaw;
    if items != [] {
      var e, sep, rest := items[0], Separator(|items|), PrintElements(items[1..]);
      OccursSplit(text, p, PrintElement(e), sep + rest);
      var q := p + |PrintElement(e)|;
      OccursSplit(text, q, sep, rest);
      SeparatorEnds(text, q, sep, rest, |items|);
      ElementScanned(text, p, e, depth, found, key);
      MarkScanned(text, q, sep, depth, found, key);
      ElementsScanned(text, q + |sep|, items[1..], depth, found, key);
    }
  }

  lemma SeparatorEnds(text: string, q: nat, sep: string, rest: string, remaining: nat)
    requires sep == Separator(remaining) && (remaining <= 1 ==> rest == [])
    requires Occurs(text, q, sep) && Ends(text, q + |sep| + |rest|)
    ensures Ends(text, q)
  {
    if sep != [] {
    }
  }

  /** The text of a member up to its colon, when the key is not the wanted one. */
  lemma KeyScanned(text: string, p: nat, m: Member, depth: nat, found: Option<nat>, key: string) returns (colon: nat)
    requires Occurs(text, p, PrintMember(m)) && IsGap(m.before) && IsRaw(m.raw) && IsGap(m.middle)
    requires depth > 0 && (found.Some? ==> found.value <= |text|)
    requires depth > 1 || m.raw != key
    ensures colon + 1 + |PrintElement(m.element)| == p + |PrintMember(m)|
    ensures Occurs(text, colon + 1, PrintElement(m.element))
    ensures Scan(text, p, depth, found, key) == Scan(text, colon + 1, depth, found, key)
  {
    hide HookScanner.Scan, HookScanner.AfterSpaces, Occurs, IsGap, IsRaw;
    colon := ColonOf(text, p, m);
    GapScanned(text, p, m.before, depth, found, key);
    QuotedScanned(text, p + |m.before|, m.raw, depth, found, key);
    GapScanned(text, p + |m.before| + |m.raw| + 2, m.middle, depth, found, key);
    MarkScanned(text, colon, ":", depth, found, key);
  }

  /** A member below the top level is passed over whole. */
  lemma {:induction false} MembersScanned(text: string, p: nat, members: seq<Member>, depth: nat, found: Option<nat>,
        key: string)
    requires Occurs(text, p, PrintMembers(members))
    requires MembersFormed(members, MAX_DEPTH - depth)
    requires depth > 1 && (found.Some? ==> found.value <= |text|)
    requires Ends(text, p + |PrintMembers(members)|)
    ensures Scan(text, p, depth, found, key) == Scan(text, p + |PrintMembers(members)|, depth, found, key)
    decreases members
  {
    hide HookScanner.Scan, HookScanner.AfterSpaces, Occurs, IsGap, IsRaw;
    if members != [] {
      var m, sep, rest := members[0], Separator(|members|), PrintMembers(members[1..]);
      OccursSplit(text, p, PrintMember(m), sep + rest);
      var q := p + |PrintMember(m)|;
      OccursSplit(text, q, sep, rest);
      SeparatorEnds(text, q, sep, rest, |members|);
      var colon := KeyScanned(text, p, m, depth, found, key);
      ElementScanned(text, colon + 1, m.element, depth, found, key);
      MarkScanned(text, q, sep, depth, found, key);
      MembersScanned(text, q + |sep|, members[1..], depth, found, key);
    }
  }

  /** The parts of a member that stands at `p`. */
  lemma ColonOf(text: string, p: nat, m: Member) returns (colon: nat)
    requires Occurs(text, p, PrintMember(m))
    ensures colon == p + |m.before| + |m.raw| + 2 + |m.middle|
    ensures Occurs(text, p, m.before) && Occurs(text, p + |m.before|, Quote(m.raw))
    ensures Occurs(text, p + |m.before| + |m.raw| + 2, m.middle)
    ensures Occurs(text, colon, ":") && colon < |text| && text[colon] == ':'
    ensures Occurs(text, colon + 1, PrintElement(m.element))
  {
    hide Occurs, Print, PrintElement;
    var tail := ":" + PrintElement(m.element);
    OccursSplit(text, p, m.before, Quote(m.raw) + (m.middle + tail));
    OccursSplit(text, p + |m.before|, Quote(m.raw), m.middle + tail);
    OccursSplit(text, p + |m.before| + |Quote(m.raw)|, m.middle, tail);
    colon := p + |m.before| + |m.raw| + 2 + |m.middle|;
    OccursSplit(text, colon, ":", PrintElement(m.element));
    OccursHead(text, colon, ":");
  }

  /** The parts of an element that stands at `p`. */
  lemma ElementParts(text: string, p: nat, e: Element)
    requires Occurs(text, p, PrintElement(e))
    ensures Occurs(text, p, e.before)
    ensures Occurs(text, p + |e.before|, Print(e.value))
    ensures Occurs(text, p + |e.before| + |Print(e.value)|, e.after)
    ensures |PrintElement(e)| == |e.before| + |Print(e.value)| + |e.after|
  {
    hide Occurs, Print;
    OccursSplit(text, p, e.before, Print(e.value) + e.after);
    OccursSplit(text, p + |e.before|, Print(e.value), e.after);
  }
}
