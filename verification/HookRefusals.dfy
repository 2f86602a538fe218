/** What the hook refuses: a state that breaks off, strings with control characters, nesting beyond the
    limit, and annotations that are repeated or of another type. It never falls back to the default then. */
module HookRefusals {
  import opened Options
  import opened HookScanner
  import opened JsonText
  import opened HookLimit

  /** A string ends at `end` exactly when what lies before is well formed and a quote follows. */
  lemma {:induction false} StringRead(text: string, p: nat, end: nat)
    requires p <= |text|
    ensures StringEnd(text, p) == Ok(end) <==> p <= end < |text| && text[end] == '"' && IsRaw(text[p..end])
  {
    if p <= end < |text| && text[end] == '"' && IsRaw(text[p..end]) {
      StringClosed(text, p, text[p..end]);
    }
    if StringEnd(text, p) == Ok(end) {
      StringIsRaw(text, p, end);
    }
  }

  lemma {:induction false} StringIsRaw(text: string, p: nat, end: nat)
    requires p <= |text| && StringEnd(text, p) == Ok(end)
    ensures IsRaw(text[p..end])
    decreases |text| - p
  {
    if p < end {
      var n := if text[p] == '\\' then 2 else 1;
      StringIsRaw(text, p + n, end);
      assert text[p..end][n..] == text[p + n..end];
    }
  }

  /** A string that never ends is cut off, and one with a control character before its end is refused. */
  lemma {:induction false} StringRefused(text: string, p: nat)
    requires p <= |text|
    ensures StringEnd(text, p).Fail? ==> StringEnd(text, p).why in {ControlCharacter, TruncatedString}
    ensures StringEnd(text, p) == Fail(ControlCharacter) <==>
            exists q :: p <= q < |text| && text[q] < ' ' && IsRaw(text[p..q])
    decreases |text| - p
  {
    if p < |text| && text[p] != '"' {
      var n := if text[p] == '\\' then 2 else 1;
      if text[p] < ' ' {
        assert text[p..p] == [];
      } else if p + n <= |text| {
        StringRefused(text, p + n);
        forall q | p < q < |text| && text[q] < ' '
          ensures IsRaw(text[p..q]) <==> q >= p + n && IsRaw(text[p + n..q])
        {
          assert q >= p + n ==> text[p..q][n..] == text[p + n..q];
        }
      }
    } else if p < |text| {
      forall q | p < q < |text| ensures !IsRaw(text[p..q]) {
        assert text[p..q][0] == '"';
      }
    }
  }

  /** More containers than the limit allows, openers one right after the other. */
  lemma {:induction false} TooDeep(text: string, p: nat, depth: nat, openers: nat, found: Option<nat>, key: string)
    requires 0 < depth <= 128 && depth + openers > 128 && p + openers <= |text|
    requires forall j | p <= j < p + openers :: text[j] == '{' || text[j] == '['
    requires found.Some? ==> found.value <= |text|
    ensures Scan(text, p, depth, found, key) == Fail(NestingLimit)
    decreases openers
  {
    if depth < 128 {
      TooDeep(text, p + 1, depth + 1, openers - 1, found, key);
    }
  }

  lemma {:induction false} OnlySpacesLeft(text: string, p: nat, depth: nat, found: Option<nat>, key: string)
    requires p <= |text| && AfterSpaces(text, p) == |text| && depth > 0 && (found.Some? ==> found.value <= |text|)
    ensures Scan(text, p, depth, found, key) == Fail(TruncatedObject)
    decreases |text| - p
  {
    if p < |text| {
      OnlySpacesLeft(text, p + 1, depth, found, key);
    }
  }

  lemma {:induction false} StringGoesOn(text: string, more: string, p: nat)
    requires p <= |text| && StringEnd(text, p).Ok?
    ensures StringEnd(text + more, p) == StringEnd(text, p)
    decreases |text| - p
  {
    if text[p] == '\\' {
      StringGoesOn(text, more, p + 2);
    } else if text[p] != '"' {
      StringGoesOn(text, more, p + 1);
    }
  }

  lemma {:induction false} SpacesGoOn(text: string, more: string, p: nat)
    requires p <= |text| && AfterSpaces(text, p) < |text|
    ensures AfterSpaces(text + more, p) == AfterSpaces(text, p)
    decreases |text| - p
  {
    if IsSpace(text[p]) {
      SpacesGoOn(text, more, p + 1);
    }
  }

  ghost predicate SameKind(a: Option<nat>, b: Option<nat>, bound: nat, more: nat) {
    && (a.None? <==> b.None?)
    && (a.Some? ==> a.value <= bound) && (b.Some? ==> b.value <= more)
  }

  /** How the scan passes a string. */
  lemma AfterString(text: string, p: nat, depth: nat, found: Option<nat>, key: string)
    requires p < |text| && text[p] == '"' && depth > 0 && (found.Some? ==> found.value <= |text|)
    requires Scan(text, p, depth, found, key).Ok?
    ensures StringEnd(text, p + 1).Ok?
    ensures var end := StringEnd(text, p + 1).value;
            && AfterSpaces(text, end + 1) < |text|
            && if depth == 1 && ColonFollows(text, end + 1) && text[p + 1..end] == key
               then found.None? && Scan(text, end + 1, depth,
                                        Some(AfterSpaces(text, AfterSpaces(text, end + 1) + 1)), key).Ok?
               else Scan(text, end + 1, depth, found, key).Ok?
  {
    var end := StringEnd(text, p + 1).value;
    if AfterSpaces(text, end + 1) == |text| {
      OnlySpacesLeft(text, end + 1, depth, found, key);
    }
  }

  lemma SameString(text: string, more: string, p: nat, key: string)
    requires p < |text| && text[p] == '"' && StringEnd(text, p + 1).Ok?
    requires AfterSpaces(text, StringEnd(text, p + 1).value + 1) < |text|
    ensures var end := StringEnd(text, p + 1).value;
            && StringEnd(text + more, p + 1) == Ok(end)
            && (ColonFollows(text + more, end + 1) <==> ColonFollows(text, end + 1))
            && (text + more)[p + 1..end] == text[p + 1..end]
            && AfterSpaces(text + more, end + 1) == AfterSpaces(text, end + 1)
  {
    StringGoesOn(text, more, p + 1);
    SpacesGoOn(text, more, StringEnd(text, p + 1).value + 1);
  }

  lemma ScanGoesPastString(text: string, more: string, p: nat, depth: nat, a: Option<nat>, b: Option<nat>, key: string)
    requires p < |text| && text[p] == '"' && depth > 0 && SameKind(a, b, |text|, |text| + |more|)
    requires Scan(text, p, depth, a, key).Ok?
    ensures Scan(text + more, p, depth, b, key).Ok?
    decreases |text| - p, 0
  {
    var all := text + more;
    AfterString(text, p, depth, a, key);
    SameString(text, more, p, key);
    var end := StringEnd(text, p + 1).value;
    var next := AfterSpaces(text, end + 1);
    if depth == 1 && ColonFollows(text, end + 1) && text[p + 1..end] == key {
      var x, y := Some(AfterSpaces(text, next + 1)), Some(AfterSpaces(all, next + 1));
      ScanGoesOn(text, more, end + 1, depth, x, y, key);
    } else {
      ScanGoesOn(text, more, end + 1, depth, a, b, key);
    }
  }

  /** Once a scan has come to its end, text after that does not matter. */
  lemma {:induction false} ScanGoesOn(text: string, more: string, p: nat, depth: nat, a: Option<nat>, b: Option<nat>,
        key: string)
    requires p <= |text| && depth > 0 && SameKind(a, b, |text|, |text| + |more|)
    requires Scan(text, p, depth, a, key).Ok?
    ensures Scan(text + more, p, depth, b, key).Ok?
    decreases |text| - p, 1
  {
    if text[p] == '"' {
      ScanGoesPastString(text, more, p, depth, a, b, key);
    } else if text[p] == '{' || text[p] == '[' {
      ScanGoesOn(text, more, p + 1, depth + 1, a, b, key);
    } else if text[p] == '}' || text[p] == ']' {
      if depth > 1 {
        ScanGoesOn(text, more, p + 1, depth - 1, a, b, key);
      }
    } else {
      ScanGoesOn(text, more, p + 1, depth, a, b, key);
    }
  }

  lemma CommaIsNoEnd(text: string, p: nat, found: Option<nat>, key: string)
    requires p + 1 == |text| && text[p] == ',' && (found.Some? ==> found.value <= |text|)
    ensures Scan(text, p, 1, found, key).Fail?
  {
  }

  /** Members with nothing but a comma after them. */
  lemma {:induction false} MembersBreakOff(text: string, p: nat, members: seq<Member>, found: Option<nat>, key: string)
    requires Occurs(text, p, PrintMembers(members)) && MembersFormed(members, MAX_DEPTH - 1)
    requires found.Some? ==> found.value <= |text|
    requires p + |PrintMembers(members)| + 1 == |text| && text[|text| - 1] == ','
    ensures Scan(text, p, 1, found, key).Fail?
    decreases members
  {
    hide JsonText.PrintMember, JsonText.Occurs, JsonText.Formed, HookScanner.Scan;
    if members == [] {
      CommaIsNoEnd(text, p, found, key);
    } else {
      TopFirstScanned(text, p, members, found, key);
      var m := members[0];
      var next := p + |PrintMember(m)| + |Separator(|members|)|;
      if m.raw != key {
        MembersBreakOff(text, next, members[1..], found, key);
      } else if found.None? {
        MembersBreakOff(text, next, members[1..], Some(p + ValueIndent(m)), key);
      }
    }
  }

  /** An object that breaks off anywhere is refused. */
  lemma CutObjectIsRefused(o: Value, n: nat, key: string)
    requires o.Object? && Formed(o, 128) && n < |Print(o)|
    ensures MemberAt(Print(o)[..n], 0, key).Fail?
  {
    if n > 0 && Scan(Print(o)[..n], 1, 1, None, key).Ok? {
      var whole := Print(o);
      var cut, last := whole[..n], |whole| - 1;
      var text := whole[..last] + ",";
      assert text == cut + (whole[n..last] + ",");
      ScanGoesOn(cut, whole[n..last] + ",", 1, 1, None, None, key);
      hide HookScanner.Scan, JsonText.PrintMembers, JsonText.MembersFormed;
      var inner := PrintMembers(o.members);
      assert whole == "{" + (o.gap + (inner + "}")) && last == 1 + |o.gap| + |inner|;
      assert text == "{" + (o.gap + (inner + ","));
      OccursSplit(text, 0, "{", o.gap + (inner + ","));
      OccursSplit(text, 1, o.gap, inner + ",");
      OccursSplit(text, 1 + |o.gap|, inner, ",");
      GapScanned(text, 1, o.gap, 1, None, key);
      MembersBreakOff(text, 1 + |o.gap|, o.members, None, key);
    }
  }

  /** A state that breaks off never gives a limit, not even the default. */
  lemma CutStateIsRefused(o: Value, n: nat)
    requires o.Object? && Formed(o, 128) && n < |Print(o)|
    ensures LimitOf(Print(o)[..n]).Fail?
  {
    CutObjectIsRefused(o, n, ANNOTATIONS);
  }

  lemma AnnotationsTwice(state: string, o: Value, i: nat, j: nat)
    requires o.Object? && Formed(o, 128) && Occurs(state, 0, Print(o))
    requires i < j < |o.members| && o.members[i].raw == ANNOTATIONS == o.members[j].raw
    ensures LimitOf(state) == Fail(Duplicate)
  {
    LookupDuplicate(state, 0, o, i, j);
  }

  lemma FirstCharacter(text: string, p: nat, v: Value, depth: int)
    requires Formed(v, depth) && Occurs(text, p, Print(v))
    ensures p < |text| && (text[p] == '{' <==> v.Object?) && (text[p] == '"' <==> v.Quoted?)
  {
    assert text[p] == Print(v)[0];
    match v {
      case Scalar(t) => assert IsScalarChar(t[0]);
      case _ =>
    }
  }

  lemma AnnotationsNotAnObject(state: string, o: Value, i: nat)
    requires o.Object? && Formed(o, 128) && Occurs(state, 0, Print(o))
    requires OnlyWithKey(o.members, i) && o.members[i].raw == ANNOTATIONS && !o.members[i].element.value.Object?
    ensures LimitOf(state) == Fail(NotAnObject)
  {
    LookupOnly(state, 0, o, i);
    ValueFormed(o, i);
    FirstCharacter(state, ValueOffset(o.members, 1 + |o.gap|, i), o.members[i].element.value, MAX_DEPTH - 1);
  }

  /** Annotations that hold the limit twice, or not as a string. */
  lemma LimitTwice(state: string, o: Value, i: nat, j: nat, k: nat)
    requires o.Object? && Formed(o, 128) && Occurs(state, 0, Print(o))
    requires OnlyWithKey(o.members, i) && o.members[i].raw == ANNOTATIONS && o.members[i].element.value.Object?
    requires var a := o.members[i].element.value.members; j < k < |a| && a[j].raw == PIDS_LIMIT == a[k].raw
    ensures LimitOf(state) == Fail(Duplicate)
  {
    LookupOnly(state, 0, o, i);
    ValueFormed(o, i);
    DeeperIsFine(o.members[i].element.value, MAX_DEPTH - 1);
    LookupDuplicate(state, ValueOffset(o.members, 1 + |o.gap|, i), o.members[i].element.value, j, k);
  }

  lemma LimitNotAString(state: string, o: Value, i: nat, j: nat)
    requires o.Object? && Formed(o, 128) && Occurs(state, 0, Print(o))
    requires OnlyWithKey(o.members, i) && o.members[i].raw == ANNOTATIONS && o.members[i].element.value.Object?
    requires var a := o.members[i].element.value.members;
             OnlyWithKey(a, j) && a[j].raw == PIDS_LIMIT && !a[j].element.value.Quoted?
    ensures LimitOf(state) == Fail(NotAString)
  {
    LookupOnly(state, 0, o, i);
    var a := o.members[i].element.value;
    ValueFormed(o, i);
    DeeperIsFine(a, MAX_DEPTH - 1);
    var start := ValueOffset(o.members, 1 + |o.gap|, i);
    LookupOnly(state, start, a, j);
    ValueFormed(a, j);
    FirstCharacter(state, ValueOffset(a.members, start + 1 + |a.gap|, j), a.members[j].element.value, MAX_DEPTH - 1);
  }
}
