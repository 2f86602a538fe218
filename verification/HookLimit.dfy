/** What the hook finds in a well-formed state: the value of the one top-level member with the
    wanted key, and in the end the PID limit that the engine printed into the annotation. */
module HookLimit {
  import opened Options
  import opened HookScanner
  import opened JsonText
  import Decimal

  /** Offsets of the values of all members with this key, when the members are printed at `p`. */
  function Hits(members: seq<Member>, p: nat, key: string): seq<nat> {
    if members == [] then []
    else (if members[0].raw == key then [p + ValueIndent(members[0])] else [])
         + Hits(members[1..], p + |PrintMember(members[0])| + |Separator(|members|)|, key)
  }

  function ValueIndent(m: Member): nat {
    |m.before| + |m.raw| + 2 + |m.middle| + 1 + |m.element.before|
  }

  function ValueOffset(members: seq<Member>, p: nat, i: nat): nat
    requires i < |members|
  {
    if i == 0 then p + ValueIndent(members[0])
    else ValueOffset(members[1..], p + |PrintMember(members[0])| + |Separator(|members|)|, i - 1)
  }

  /** What the scanner reports when it has `found` a member already and meets these as well. */
  function Outcome(found: Option<nat>, hits: seq<nat>): Result<Option<nat>> {
    match found
    case None => if |hits| == 0 then Ok(None) else if |hits| == 1 then Ok(Some(hits[0])) else Fail(Duplicate)
    case Some(_) => if hits == [] then Ok(found) else Fail(Duplicate)
  }

  lemma ValueStart(text: string, p: nat, v: Value, depth: int)
    requires Formed(v, depth) && Occurs(text, p, Print(v))
    ensures p < |text| && !IsSpace(text[p])
  {
    assert text[p] == Print(v)[0];
    match v {
      case Scalar(t) => assert IsScalarChar(t[0]);
      case _ =>
    }
  }

  /** The step of the scan that recognises the wanted key, whose opening quote is at `open`. */
  lemma KeyStep(text: string, open: nat, raw: string, found: Option<nat>, colon: nat, value: nat)
    requires Occurs(text, open, Quote(raw)) && IsRaw(raw) && (found.Some? ==> found.value <= |text|)
    requires AfterSpaces(text, open + |raw| + 2) == colon && colon < |text| && text[colon] == ':'
    requires AfterSpaces(text, colon + 1) == value
    ensures found.Some? ==> Scan(text, open, 1, found, raw) == Fail(Duplicate)
    ensures found.None? ==> Scan(text, open, 1, found, raw) == Scan(text, open + |raw| + 2, 1, Some(value), raw)
  {
    hide JsonText.IsRaw, HookScanner.AfterSpaces, HookScanner.StringEnd;
    assert Quote(raw) == "\"" + (raw + "\"");
    OccursSplit(text, open, "\"", raw + "\"");
    StringClosed(text, open + 1, raw);
    OccursSplit(text, open + 1, raw, "\"");
    assert text[open + 1..open + 1 + |raw|] == raw;
  }

  /** Where the colon and the value of a member stand. */
  lemma ValueReached(text: string, p: nat, m: Member)
    requires Occurs(text, p, PrintMember(m)) && MemberFormed(m, MAX_DEPTH - 1)
    ensures p + ValueIndent(m) <= |text|
    ensures var colon := p + |m.before| + |m.raw| + 2 + |m.middle|;
            && colon < |text| && text[colon] == ':'
            && AfterSpaces(text, p + |m.before| + |m.raw| + 2) == colon
            && AfterSpaces(text, colon + 1) == p + ValueIndent(m)
  {
    hide JsonText.Occurs, JsonText.PrintMember, JsonText.PrintElement, JsonText.Print;
    var colon := ColonOf(text, p, m);
    var e := m.element;
    GapSkipped(text, p + |m.before| + |m.raw| + 2, m.middle);
    ElementParts(text, colon + 1, e);
    GapSkipped(text, colon + 1, e.before);
    ValueStart(text, colon + 1 + |e.before|, e.value, MAX_DEPTH - 1);
  }

  /** The wanted key is recognised, and the offset remembered is that of its value. */
  lemma KeyFound(text: string, p: nat, m: Member, found: Option<nat>, key: string)
    requires Occurs(text, p, PrintMember(m)) && MemberFormed(m, MAX_DEPTH - 1) && m.raw == key
    requires found.Some? ==> found.value <= |text|
    ensures found.Some? ==> Scan(text, p, 1, found, key) == Fail(Duplicate)
    ensures p + ValueIndent(m) <= |text|
    ensures found.None? ==>
              Scan(text, p, 1, found, key) == Scan(text, p + |m.before| + |m.raw| + 2, 1, Some(p + ValueIndent(m)), key)
  {
    hide HookScanner.Scan, HookScanner.AfterSpaces, JsonText.Occurs, JsonText.IsGap, JsonText.IsRaw;
    var colon := ColonOf(text, p, m);
    GapScanned(text, p, m.before, 1, found, key);
    ValueReached(text, p, m);
    KeyStep(text, p + |m.before|, m.raw, found, colon, p + ValueIndent(m));
  }

  /** One top-level member is passed over, remembering its value if its key is the wanted one. */
  lemma TopMemberScanned(text: string, p: nat, m: Member, found: Option<nat>, key: string)
    requires Occurs(text, p, PrintMember(m)) && MemberFormed(m, MAX_DEPTH - 1)
    requires found.Some? ==> found.value <= |text|
    requires Ends(text, p + |PrintMember(m)|)
    ensures m.raw != key ==> Scan(text, p, 1, found, key) == Scan(text, p + |PrintMember(m)|, 1, found, key)
    ensures m.raw == key && found.Some? ==> Scan(text, p, 1, found, key) == Fail(Duplicate)
    ensures p + ValueIndent(m) <= |text|
    ensures m.raw == key && found.None? ==>
              Scan(text, p, 1, found, key) == Scan(text, p + |PrintMember(m)|, 1, Some(p + ValueIndent(m)), key)
  {
    hide HookScanner.Scan, HookScanner.AfterSpaces, JsonText.Occurs, JsonText.IsGap, JsonText.IsRaw;
    var colon := ColonOf(text, p, m);
    ElementParts(text, colon + 1, m.element);
    if m.raw != key {
      var c := KeyScanned(text, p, m, 1, found, key);
      ElementScanned(text, c + 1, m.element, 1, found, key);
    } else {
      KeyFound(text, p, m, found, key);
      if found.None? {
        var value := Some(p + ValueIndent(m));
        GapScanned(text, p + |m.before| + |m.raw| + 2, m.middle, 1, value, key);
        MarkScanned(text, colon, ":", 1, value, key);
        ElementScanned(text, colon + 1, m.element, 1, value, key);
      }
    }
  }

  lemma ScanEnds(text: string, p: nat, found: Option<nat>, key: string)
    requires p < |text| && text[p] == '}' && (found.Some? ==> found.value <= |text|)
    ensures Scan(text, p, 1, found, key) == Ok(found)
  {
  }

  lemma {:induction false} TopMembersScanned(text: string, p: nat, members: seq<Member>, found: Option<nat>,
        key: string)
    requires Occurs(text, p, PrintMembers(members)) && MembersFormed(members, MAX_DEPTH - 1)
    requires found.Some? ==> found.value <= |text|
    requires p + |PrintMembers(members)| < |text| && text[p + |PrintMembers(members)|] == '}'
    ensures Scan(text, p, 1, found, key) == Outcome(found, Hits(members, p, key))
    decreases members
  {
    hide JsonText.PrintMember, JsonText.Occurs, JsonText.Formed, HookScanner.Scan;
    if members == [] {
      ScanEnds(text, p, found, key);
    } else {
      TopFirstScanned(text, p, members, found, key);
      var next := p + |PrintMember(members[0])| + |Separator(|members|)|;
      var m := members[0];
      var later := Hits(members[1..], next, key);
      if m.raw != key {
        TopMembersScanned(text, next, members[1..], found, key);
        assert Hits(members, p, key) == later;
      } else {
        assert Hits(members, p, key)[0] == p + ValueIndent(m);
        if found.None? {
          TopMembersScanned(text, next, members[1..], Some(p + ValueIndent(m)), key);
          assert Hits(members, p, key)[1..] == later;
        }
      }
    }
  }

  /** The first member and the comma after it. */
  lemma TopFirstScanned(text: string, p: nat, members: seq<Member>, found: Option<nat>, key: string)
    requires members != [] && Occurs(text, p, PrintMembers(members)) && MembersFormed(members, MAX_DEPTH - 1)
    requires found.Some? ==> found.value <= |text|
    requires Ends(text, p + |PrintMembers(members)|)
    ensures p + ValueIndent(members[0]) <= |text|
    ensures var m, next := members[0], p + |PrintMember(members[0])| + |Separator(|members|)|;
            && Occurs(text, next, PrintMembers(members[1..]))
            && next + |PrintMembers(members[1..])| == p + |PrintMembers(members)|
            && (m.raw != key ==> Scan(text, p, 1, found, key) == Scan(text, next, 1, found, key))
            && (m.raw == key && found.Some? ==> Scan(text, p, 1, found, key) == Fail(Duplicate))
            && (m.raw == key && found.None? ==>
                  Scan(text, p, 1, found, key) == Scan(text, next, 1, Some(p + ValueIndent(m)), key))
  {
    hide HookScanner.Scan, HookScanner.AfterSpaces, JsonText.Occurs, JsonText.IsGap, JsonText.IsRaw;
    var m, sep, rest := members[0], Separator(|members|), PrintMembers(members[1..]);
    OccursSplit(text, p, PrintMember(m), sep + rest);
    var q := p + |PrintMember(m)|;
    OccursSplit(text, q, sep, rest);
    SeparatorEnds(text, q, sep, rest, |members|);
    TopMemberScanned(text, p, m, found, key);
    MarkScanned(text, q, sep, 1, found, key);
    MarkScanned(text, q, sep, 1, Some(p + ValueIndent(m)), key);
  }

  /** The parts of an object that stands at `start`. */
  lemma ObjectParts(text: string, start: nat, o: Value)
    requires o.Object? && Occurs(text, start, Print(o))
    ensures start < |text| && text[start] == '{'
    ensures Occurs(text, start + 1, o.gap)
    ensures var inner := start + 1 + |o.gap|;
            && Occurs(text, inner, PrintMembers(o.members))
            && inner + |PrintMembers(o.members)| < |text| && text[inner + |PrintMembers(o.members)|] == '}'
  {
    var inner := PrintMembers(o.members);
    assert Print(o) == "{" + (o.gap + (inner + "}"));
    OccursSplit(text, start, "{", o.gap + (inner + "}"));
    OccursSplit(text, start + 1, o.gap, inner + "}");
    OccursSplit(text, start + 1 + |o.gap|, inner, "}");
  }

  /** The scanner meets exactly the top-level members with the wanted key: none, one or several.
      Text after the object, strings and nested values make no difference. */
  lemma MemberFound(text: string, start: nat, o: Value, key: string)
    requires o.Object? && Formed(o, 128) && Occurs(text, start, Print(o))
    ensures start < |text|
    ensures MemberAt(text, start, key) == Outcome(None, Hits(o.members, start + 1 + |o.gap|, key))
  {
    hide HookScanner.Scan, JsonText.Occurs, JsonText.IsGap, Hits;
    ObjectParts(text, start, o);
    GapScanned(text, start + 1, o.gap, 1, None, key);
    TopMembersScanned(text, start + 1 + |o.gap|, o.members, None, key);
  }

  predicate HasKey(members: seq<Member>, key: string) {
    exists m :: m in members && m.raw == key
  }

  /** Member `i` is the only one with its key. */
  predicate OnlyWithKey(members: seq<Member>, i: nat) {
    i < |members| && forall j | 0 <= j < |members| && j != i :: members[j].raw != members[i].raw
  }

  lemma {:induction false} NoHits(members: seq<Member>, p: nat, key: string)
    ensures Hits(members, p, key) == [] <==> !HasKey(members, key)
    decreases members
  {
    hide JsonText.PrintMember, JsonText.Occurs;
    if members != [] {
      NoHits(members[1..], p + |PrintMember(members[0])| + |Separator(|members|)|, key);
      assert HasKey(members, key) <==> members[0].raw == key || HasKey(members[1..], key);
    }
  }

  lemma ValueOccurs(text: string, p: nat, m: Member)
    requires Occurs(text, p, PrintMember(m))
    ensures Occurs(text, p + ValueIndent(m), Print(m.element.value))
  {
    hide JsonText.Occurs, JsonText.PrintMember, JsonText.PrintElement, JsonText.Print;
    var colon := ColonOf(text, p, m);
    ElementParts(text, colon + 1, m.element);
    assert colon + 1 + |m.element.before| == p + ValueIndent(m);
  }

  /** The first member, and the members after it. */
  lemma FirstMember(text: string, members: seq<Member>, p: nat)
    requires members != [] && Occurs(text, p, PrintMembers(members))
    ensures Occurs(text, p, PrintMember(members[0]))
    ensures Occurs(text, p + |PrintMember(members[0])| + |Separator(|members|)|, PrintMembers(members[1..]))
  {
    hide JsonText.Occurs, JsonText.PrintMember;
    var m, sep, rest := members[0], Separator(|members|), PrintMembers(members[1..]);
    OccursSplit(text, p, PrintMember(m), sep + rest);
    OccursSplit(text, p + |PrintMember(m)|, sep, rest);
  }

  /** The only hit is the offset at which the member's value is printed. */
  lemma {:induction false} OneHit(text: string, members: seq<Member>, p: nat, i: nat)
    requires OnlyWithKey(members, i) && Occurs(text, p, PrintMembers(members))
    ensures Hits(members, p, members[i].raw) == [ValueOffset(members, p, i)]
    ensures Occurs(text, ValueOffset(members, p, i), Print(members[i].element.value))
    decreases members
  {
    hide JsonText.Occurs, JsonText.PrintMember, JsonText.Print;
    var next := p + |PrintMember(members[0])| + |Separator(|members|)|;
    FirstMember(text, members, p);
    if i == 0 {
      ValueOccurs(text, p, members[0]);
      NoHits(members[1..], next, members[0].raw);
    } else {
      assert members[1..][i - 1] == members[i];
      assert members[i].raw != members[0].raw;
      OneHit(text, members[1..], next, i - 1);
    }
  }

  lemma {:induction false} SeveralHits(members: seq<Member>, p: nat, i: nat, j: nat)
    requires i < j < |members| && members[i].raw == members[j].raw
    ensures |Hits(members, p, members[i].raw)| > 1
    decreases members
  {
    hide JsonText.PrintMember, JsonText.Occurs;
    var next := p + |PrintMember(members[0])| + |Separator(|members|)|;
    if i == 0 {
      NoHits(members[1..], next, members[0].raw);
      assert members[1..][j - 1] == members[j];
    } else {
      assert members[1..][i - 1] == members[i] && members[1..][j - 1] == members[j];
      SeveralHits(members[1..], next, i - 1, j - 1);
    }
  }

  /** The three outcomes of looking up a key in a well-formed object. */
  lemma LookupMissing(text: string, start: nat, o: Value, key: string)
    requires o.Object? && Formed(o, 128) && Occurs(text, start, Print(o))
    requires !HasKey(o.members, key)
    ensures start < |text| && MemberAt(text, start, key) == Ok(None)
  {
    MemberFound(text, start, o, key);
    NoHits(o.members, start + 1 + |o.gap|, key);
  }

  lemma LookupOnly(text: string, start: nat, o: Value, i: nat)
    requires o.Object? && Formed(o, 128) && Occurs(text, start, Print(o))
    requires OnlyWithKey(o.members, i)
    ensures start < |text|
    ensures var value := ValueOffset(o.members, start + 1 + |o.gap|, i);
            && MemberAt(text, start, o.members[i].raw) == Ok(Some(value))
            && Occurs(text, value, Print(o.members[i].element.value))
  {
    ObjectParts(text, start, o);
    MemberFound(text, start, o, o.members[i].raw);
    OneHit(text, o.members, start + 1 + |o.gap|, i);
  }

  lemma LookupDuplicate(text: string, start: nat, o: Value, i: nat, j: nat)
    requires o.Object? && Formed(o, 128) && Occurs(text, start, Print(o))
    requires i < j < |o.members| && o.members[i].raw == o.members[j].raw
    ensures start < |text| && MemberAt(text, start, o.members[i].raw) == Fail(Duplicate)
  {
    MemberFound(text, start, o, o.members[i].raw);
    SeveralHits(o.members, start + 1 + |o.gap|, i, j);
  }

  predicate ValidLimit(raw: string) {
    && Decimal.AllDigits(raw)
    && 1 <= |raw| <= 4
    && 64 <= Decimal.ValueOf(raw) <= 4096
  }

  lemma {:induction false} DigitsRead(text: string, p: nat, raw: string, i: nat)
    requires i <= |raw| && i <= 4 && Occurs(text, p, raw + "\"") && IsRaw(raw)
    requires Decimal.AllDigits(raw[..i])
    ensures p + i <= |text|
    ensures var r := DigitsAt(text, p + i, Decimal.ValueOf(raw[..i]), i);
            if ValidLimit(raw) then r == Ok(Decimal.ValueOf(raw)) else r.Fail?
    decreases |raw| - i
  {
    assert text[p + i] == (raw + "\"")[i];
    if i < |raw| && Decimal.IsDigit(raw[i]) {
      if i < 4 {
        assert raw[..i + 1] == raw[..i] + [raw[i]];
        Decimal.ValueFromLeft(raw[..i], raw[i]);
        DigitsRead(text, p, raw, i + 1);
      }
    } else if i == |raw| {
      assert raw[..i] == raw;
    } else {
      assert raw[i] in raw;
      RawHasNoQuote(raw, i);
    }
  }

  /** A digit run that stops early stops at a character other than the closing quote. */
  lemma {:induction false} RawHasNoQuote(raw: string, i: nat)
    requires IsRaw(raw) && i < |raw| && Decimal.AllDigits(raw[..i])
    ensures raw[i] != '"'
    decreases |raw|
  {
    if i > 0 {
      assert raw[..i][0] in raw[..i];
      assert Decimal.IsDigit(raw[0]);
      forall c | c in raw[1..][..i - 1] ensures Decimal.IsDigit(c) {
        assert c in raw[..i];
      }
      RawHasNoQuote(raw[1..], i - 1);
    }
  }

  /** A limit is accepted exactly when it is a string of one to four digits in range. */
  lemma LimitRead(text: string, p: nat, raw: string)
    requires Occurs(text, p, Print(Quoted(raw))) && IsRaw(raw)
    ensures p <= |text|
    ensures LimitAt(text, p).Ok? <==> ValidLimit(raw)
    ensures ValidLimit(raw) ==> LimitAt(text, p) == Ok(Decimal.ValueOf(raw))
  {
    assert Print(Quoted(raw)) == "\"" + (raw + "\"");
    OccursSplit(text, p, "\"", raw + "\"");
    assert raw[..0] == "";
    DigitsRead(text, p + 1, raw, 0);
  }

  /** Everything the hook can answer for a well-formed state whose annotations member is unique
      and an object. `i` is the annotations member, and `j` the limit among its members. */
  lemma LimitFound(state: string, o: Value, i: nat, j: nat)
    requires o.Object? && Formed(o, 128) && Occurs(state, 0, Print(o))
    requires OnlyWithKey(o.members, i) && o.members[i].raw == ANNOTATIONS
    requires o.members[i].element.value.Object?
    requires var a := o.members[i].element.value.members;
             OnlyWithKey(a, j) && a[j].raw == PIDS_LIMIT && a[j].element.value.Quoted?
    ensures var raw := o.members[i].element.value.members[j].element.value.raw;
            if ValidLimit(raw) then LimitOf(state) == Ok(Decimal.ValueOf(raw)) else LimitOf(state).Fail?
  {
    LookupOnly(state, 0, o, i);
    var a := o.members[i].element.value;
    ValueFormed(o, i);
    DeeperIsFine(a, MAX_DEPTH - 1);
    var start := ValueOffset(o.members, 1 + |o.gap|, i);
    LookupOnly(state, start, a, j);
    ValueFormed(a, j);
    LimitRead(state, ValueOffset(a.members, start + 1 + |a.gap|, j), a.members[j].element.value.raw);
  }

  lemma LimitDefaults(state: string, o: Value)
    requires o.Object? && Formed(o, 128) && Occurs(state, 0, Print(o))
    ensures !HasKey(o.members, ANNOTATIONS) ==> LimitOf(state) == Ok(512)
    ensures forall i: nat | OnlyWithKey(o.members, i) && o.members[i].raw == ANNOTATIONS &&
            o.members[i].element.value.Object? ::
              !HasKey(o.members[i].element.value.members, PIDS_LIMIT) ==> LimitOf(state) == Ok(512)
  {
    if !HasKey(o.members, ANNOTATIONS) {
      LookupMissing(state, 0, o, ANNOTATIONS);
    }
    forall i: nat | OnlyWithKey(o.members, i) && o.members[i].raw == ANNOTATIONS && o.members[i].element.value.Object?
               && !HasKey(o.members[i].element.value.members, PIDS_LIMIT)
      ensures LimitOf(state) == Ok(512)
    {
      LookupOnly(state, 0, o, i);
      ValueFormed(o, i);
      DeeperIsFine(o.members[i].element.value, MAX_DEPTH - 1);
      LookupMissing(state, ValueOffset(o.members, 1 + |o.gap|, i), o.members[i].element.value, PIDS_LIMIT);
    }
  }

  lemma {:induction false} MemberIsFormed(members: seq<Member>, depth: int, i: nat)
    requires MembersFormed(members, depth) && i < |members|
    ensures MemberFormed(members[i], depth)
    decreases i
  {
    if i > 0 {
      MemberIsFormed(members[1..], depth, i - 1);
    }
  }

  lemma ValueFormed(o: Value, i: nat)
    requires o.Object? && Formed(o, 128) && i < |o.members|
    ensures Formed(o.members[i].element.value, MAX_DEPTH - 1)
  {
    MemberIsFormed(o.members, MAX_DEPTH - 1, i);
  }

  lemma DeeperIsFine(v: Value, depth: int)
    requires Formed(v, depth)
    ensures Formed(v, depth + 1)
    decreases v
  {
    match v {
      case Array(_, items) => ElementsDeeper(items, depth - 1);
      case Object(_, members) => MembersDeeper(members, depth - 1);
      case _ =>
    }
  }

  lemma {:induction false} ElementsDeeper(items: seq<Element>, depth: int)
    requires ElementsFormed(items, depth)
    ensures ElementsFormed(items, depth + 1)
    decreases items
  {
    if items != [] {
      DeeperIsFine(items[0].value, depth);
      ElementsDeeper(items[1..], depth);
    }
  }

  lemma {:induction false} MembersDeeper(members: seq<Member>, depth: int)
    requires MembersFormed(members, depth)
    ensures MembersFormed(members, depth + 1)
    decreases members
  {
    if members != [] {
      assert MemberFormed(members[0], depth) && ElementFormed(members[0].element, depth);
      DeeperIsFine(members[0].element.value, depth);
      assert ElementFormed(members[0].element, depth + 1) && MemberFormed(members[0], depth + 1);
      MembersDeeper(members[1..], depth);
    }
  }

  /** The annotation the engine writes, read back by the hook in the guest. */
  lemma PrintedLimitReadBack(state: string, o: Value, i: nat, j: nat, limit: nat)
    requires 64 <= limit <= 4096
    requires o.Object? && Formed(o, 128) && Occurs(state, 0, Print(o))
    requires OnlyWithKey(o.members, i) && o.members[i].raw == "annotations"
    requires o.members[i].element.value.Object?
    requires var a := o.members[i].element.value.members;
             OnlyWithKey(a, j) && a[j].raw == "io.codex-dock.pids-limit" &&
               a[j].element.value == Quoted(Decimal.Print(limit))
    ensures LimitOf(state) == Ok(limit)
  {
    Decimal.PrintedValue(limit);
    assert Decimal.Power(4) == 10000 by {
      assert Decimal.Power(2) == 100;
    }
    Decimal.PrintedLength(limit, 4);
    LimitFound(state, o, i, j);
  }
}
