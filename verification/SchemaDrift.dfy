/** The drift comparator of scripts/upstream-contracts.py, proved exact against SchemaMeaning:
    a comparison that finishes reports nothing precisely when the bundles agree strictly, and
    reports only informational findings precisely when they agree leniently. */
module SchemaDrift {
  import opened Options
  import opened Json
  import opened SchemaMeaning

  datatype Level = Info | Review | Breaking | Error

  datatype Seg = Key(name: string) | Item(index: nat)

  datatype Finding = Finding(level: Level, rule: string, path: seq<Seg>)

  /** What a comparison itself can find. */
  type Drift = f: Finding | !f.level.Error? witness Finding(Info, "", [])

  /** What is remembered about a visited pair of references: both names, the role and both
      sets of siblings. */
  datatype Identity = Identity(a: string, b: string, role: Role, aSiblings: map<string, Json>, bSiblings: map<string,
        Json>)

  /** The three questions a list of findings answers. */
  predicate Clean(strength: Strength, findings: seq<Finding>) {
    match strength
    case Exact => findings == []
    case Lenient => forall f | f in findings :: f.level == Info
    case Unbroken => forall f | f in findings :: f.level in {Info, Review}
  }

  /** Elements Python cannot hash make set() raise. */
  predicate Hashable(items: seq<Json>) {
    forall x | x in items :: !IsContainer(x)
  }

  /** sorted() raises unless all elements are mutually comparable. */
  predicate Sortable(s: set<Json>) {
    || |s| <= 1
    || (forall x | x in s :: x.Str?)
    || (forall x | x in s :: x.Num? || x.Bool?)
  }

  predicate Comparable(x: Json, y: Json) {
    (x.Str? && y.Str?) || ((x.Num? || x.Bool?) && (y.Num? || y.Bool?))
  }

  /** That is, unless any two of them are. */
  lemma SortableIsComparable(s: set<Json>)
    ensures Sortable(s) <==> forall x, y | x in s && y in s && x != y :: Comparable(x, y)
  {
    if x, y :| x in s && y in s && x != y {
      assert |s - {x} - {y}| == |s| - 2;
      if forall v, w | v in s && w in s && v != w :: Comparable(v, w) {
        assert Comparable(x, y);
        assert forall z | z in s :: z == x || Comparable(x, z);
      }
    } else if x :| x in s {
      assert s == {x};
    }
  }

  /** A schema without references, of nesting below `depth`, whose `required` lists hold names. */
  predicate Plain(v: Json, depth: int)
    decreases v
  {
    depth > 0 &&
    match v
    case Obj(m) => REF !in m && forall k | k in m :: Plain(m[k], depth - 1) && NamesOnly(k, m[k])
    case Arr(xs) => forall i | 0 <= i < |xs| :: Plain(xs[i], depth - 1)
    case _ => true
  }

  predicate NamesOnly(key: string, v: Json) {
    key == "required" && v.Arr? ==> forall x | x in v.items :: x.Str?
  }

  predicate PlainMembers(m: map<string, Json>, depth: int) {
    forall k | k in m :: Plain(m[k], depth) && NamesOnly(k, m[k])
  }

  lemma {:induction false} PlainMore(v: Json, depth: int)
    ensures Plain(v, depth) ==> Plain(v, depth + 1)
  {
    match v {
      case Obj(m) =>
        forall k | k in m ensures Plain(m[k], depth - 1) ==> Plain(m[k], depth) {
          PlainMore(m[k], depth - 1);
        }
      case Arr(xs) =>
        forall i | 0 <= i < |xs| ensures Plain(xs[i], depth - 1) ==> Plain(xs[i], depth) {
          PlainMore(xs[i], depth - 1);
        }
      case _ =>
    }
  }

  lemma EmptyDifference(a: set<Json>, b: set<Json>)
    ensures a - b == {} <==> a <= b
    ensures b - a == {} <==> b <= a
  {
    assert a - b == {} ==> forall x | x in a :: x in b by {
      if x :| x in a && x !in b {
        assert x in a - b;
      }
    }
    assert b - a == {} ==> forall x | x in b :: x in a by {
      if x :| x in b && x !in a {
        assert x in b - a;
      }
    }
  }

  class Comparator {
    const was: Refs
    const now: Refs
    ghost const strength: Strength
    var visited: set<Identity>
    var findings: seq<Drift>
    ghost var processed: set<Triple>

    constructor (was: Refs, now: Refs, ghost strength: Strength)
      ensures this.was == was && this.now == now && this.strength == strength
      ensures findings == [] && processed == {} && Valid()
    {
      this.was, this.now, this.strength := was, now, strength;
      visited, findings, processed := {}, [], {};
    }

    /** The pairs known to agree if all processed pairs do. */
    ghost function Rel(pairs: set<Triple>): (rel: iset<Triple>) {
      iset a: Json, b: Json, role: Role | (a, b, role) in pairs || Same(was, now, a, b) :: (a, b, role)
    }

    /** A pair already shown to agree one level down, with the levels below taken from `pairs`. */
    ghost predicate Justified(pairs: set<Triple>, a: Json, b: Json, role: Role) {
      || Same(was, now, a, b)
      || (!IsHead(a) && !IsHead(b) && (Unfold(was, a), Unfold(now, b), role) in Rel(pairs))
      || (HeadOf(was, a).Some? && HeadsMatch(strength, was, now, a, b, role, Rel(pairs)))
    }

    /** Every pair added between two moments is justified at the later one. */
    ghost predicate Grown(before: set<Triple>, after: set<Triple>) {
      before <= after && forall t | t in after - before :: Justified(after, t.0, t.1, t.2)
    }

    /** A remembered identity stands for a pair that has been or is being processed. */
    ghost predicate Remembered(pairs: set<Triple>, id: Identity) {
      && id.a in was && id.b in now
      && (Expand(was[id.a], id.aSiblings), Expand(now[id.b], id.bSiblings), id.role) in Rel(pairs)
    }

    ghost predicate Valid()
      reads this
    {
      forall id | id in visited :: Remembered(processed, id)
    }

    lemma JustifiedGrows(small: set<Triple>, large: set<Triple>, a: Json, b: Json, role: Role)
      requires Justified(small, a, b, role) && small <= large
      ensures Justified(large, a, b, role)
    {
      match (HeadOf(was, a), HeadOf(now, b)) {
        case (Some(x), Some(y)) =>
          if Match(strength, was, now, x, y, role, Rel(small)) {
            MatchGrows(strength, was, now, x, y, role, Rel(small), Rel(large));
          }
        case _ =>
      }
    }

    lemma GrownTwice(first: set<Triple>, second: set<Triple>, third: set<Triple>)
      requires Grown(first, second) && Grown(second, third)
      ensures Grown(first, third)
    {
      forall t | t in third - first ensures Justified(third, t.0, t.1, t.2) {
        if t in second {
          JustifiedGrows(second, third, t.0, t.1, t.2);
        }
      }
    }

    lemma JustifiedByUnfolding(pairs: set<Triple>, a: Json, b: Json, role: Role)
      requires !IsHead(a) || !IsHead(b)
      requires (Unfold(was, a), Unfold(now, b), role) in Rel(pairs)
      requires Justified(pairs, Unfold(was, a), Unfold(now, b), role)
      ensures Justified(pairs, a, b, role)
    {
      var ua, ub := Unfold(was, a), Unfold(now, b);
      HeadOfUnfold(was, a);
      HeadOfUnfold(now, b);
      if IsHead(a) {
        HeadOfHead(was, a);
      }
      if IsHead(b) {
        HeadOfHead(now, b);
      }
      if Same(was, now, ua, ub) {
        HeadsMatchSame(strength, was, now, ua, role, Rel(pairs));
      }
    }

    lemma EnteredGrows(before: set<Triple>, a: Json, b: Json, role: Role, after: set<Triple>)
      requires Grown(before + {(a, b, role)}, after) && Justified(after, a, b, role)
      ensures Grown(before, after)
    {
      hide Justified;
    }

    /** Following references from a justified pair reaches matching heads together. */
    lemma {:induction false} JustifiedReachesLeft(pairs: set<Triple>, a: Json, b: Json, role: Role, n: nat)
      requires forall t | t in pairs :: Justified(pairs, t.0, t.1, t.2)
      requires Justified(pairs, a, b, role) && IsHead(UnfoldTimes(was, a, n))
      ensures HeadsMatch(strength, was, now, a, b, role, Rel(pairs))
      decreases n
    {
      HeadReached(was, a, n);
      if Same(was, now, a, b) {
        HeadsMatchSame(strength, was, now, a, role, Rel(pairs));
      } else if HeadsMatch(strength, was, now, a, b, role, Rel(pairs)) {
      } else {
        HeadOfUnfold(was, a);
        HeadOfUnfold(now, b);
        var ua, ub := Unfold(was, a), Unfold(now, b);
        if Same(was, now, ua, ub) {
          HeadsMatchSame(strength, was, now, ua, role, Rel(pairs));
        } else {
          JustifiedReachesLeft(pairs, ua, ub, role, n - 1);
        }
      }
    }

    lemma {:induction false} JustifiedReachesRight(pairs: set<Triple>, a: Json, b: Json, role: Role, n: nat)
      requires forall t | t in pairs :: Justified(pairs, t.0, t.1, t.2)
      requires Justified(pairs, a, b, role) && IsHead(UnfoldTimes(now, b, n))
      ensures HeadsMatch(strength, was, now, a, b, role, Rel(pairs))
      decreases n
    {
      HeadReached(now, b, n);
      if Same(was, now, a, b) {
        HeadsMatchSame(strength, was, now, a, role, Rel(pairs));
      } else if HeadsMatch(strength, was, now, a, b, role, Rel(pairs)) {
      } else {
        HeadOfUnfold(was, a);
        HeadOfUnfold(now, b);
        var ua, ub := Unfold(was, a), Unfold(now, b);
        if Same(was, now, ua, ub) {
          HeadsMatchSame(strength, was, now, ua, role, Rel(pairs));
        } else {
          JustifiedReachesRight(pairs, ua, ub, role, n - 1);
        }
      }
    }

    /** When every processed pair is justified, the visited set hid nothing. */
    lemma ProcessedIsSimulation(pairs: set<Triple>)
      requires forall t | t in pairs :: Justified(pairs, t.0, t.1, t.2)
      ensures IsSimulation(strength, was, now, Rel(pairs))
    {
      forall t | t in Rel(pairs) ensures HeadsMatch(strength, was, now, t.0, t.1, t.2, Rel(pairs)) {
        if Same(was, now, t.0, t.1) {
          HeadsMatchSame(strength, was, now, t.0, t.2, Rel(pairs));
        } else if n: nat :| IsHead(UnfoldTimes(was, t.0, n)) {
          JustifiedReachesLeft(pairs, t.0, t.1, t.2, n);
        } else if n: nat :| IsHead(UnfoldTimes(now, t.1, n)) {
          JustifiedReachesRight(pairs, t.0, t.1, t.2, n);
        }
      }
    }

    method Report(level: Level, rule: string, path: seq<Seg>)
      requires !level.Error?
      modifies this`findings
      ensures findings == old(findings) + [Finding(level, rule, path)]
    {
      findings := findings + [Finding(level, rule, path)];
    }

    lemma AgreeUnfolded(a: Json, b: Json, role: Role)
      requires Agree(strength, was, now, a, b, role)
      ensures Agree(strength, was, now, Unfold(was, a), Unfold(now, b), role)
    {
      hide SchemaMeaning.IsSimulation, SchemaMeaning.Match, SchemaMeaning.Unfold, SchemaMeaning.HeadOf;
      HeadOfUnfold(was, a);
      HeadOfUnfold(now, b);
    }

    lemma AgreeAtHeads(a: Json, b: Json, role: Role)
      requires IsHead(a) && IsHead(b) && Agree(strength, was, now, a, b, role)
      ensures role.Security? ==> strength.Unbroken? || Same(was, now, a, b)
      ensures !role.Security? && a.Obj? && b.Obj? ==> KeysAgree(a.members, b.members, role)
      ensures !role.Security? && a.Arr? && a == b ==> ItemsAgree(a.items, b.items, role)
      ensures !role.Security? && !(a.Obj? && b.Obj?) ==> strength.Unbroken? || a == b
    {
      HeadOfHead(was, a);
      HeadOfHead(now, b);
    }

    lemma MatchJustifies(pairs: set<Triple>, a: Json, b: Json, role: Role)
      requires IsHead(a) && IsHead(b) && Match(strength, was, now, a, b, role, Rel(pairs))
      ensures Justified(pairs, a, b, role)
    {
      HeadOfHead(was, a);
      HeadOfHead(now, b);
    }

    /** Compares two schemas. `fuel` bounds the nesting of calls, and running out of it is
        Python's RecursionError; `ok` is false whenever the source raises. */
    method Walk(a: Json, b: Json, path: seq<Seg>, role: Role, fuel: nat) returns (ok: bool)
      requires Valid()
      modifies this
      ensures Same(was, now, a, b) || (Plain(a, fuel) && Plain(b, fuel)) ==> ok
      ensures Valid() && old(findings) <= findings && old(processed) <= processed
      ensures Agree(strength, was, now, a, b, role) && Clean(strength, old(findings)) ==> Clean(strength, findings)
      ensures ok && Clean(strength, findings) ==>
                && Grown(old(processed), processed)
                && (a, b, role) in Rel(processed)
                && Justified(processed, a, b, role)
      decreases fuel, 0
    {
      hide HasRef, SchemaMeaning.Unfold, SchemaMeaning.HeadsMatch, SchemaMeaning.Agree;
      if a == b && (was == now || !HasRef(a)) {
        return true;
      }
      hide Justified, Grown;
      if fuel == 0 {
        return false;
      }
      ghost var before := processed;
      processed := processed + {(a, b, role)};
      if !IsHead(a) || !IsHead(b) {
        ok := WalkReference(a, b, path, role, fuel - 1);
      } else {
        ok := WalkHeads(a, b, path, role, fuel - 1);
      }
      if ok && Clean(strength, findings) {
        EnteredGrows(before, a, b, role, processed);
      }
    }

    /** Both references are replaced by what they stand for at once; a pair of references seen
        before is skipped. */
    method WalkReference(a: Json, b: Json, path: seq<Seg>, role: Role, fuel: nat) returns (ok: bool)
      requires Valid() && (!IsHead(a) || !IsHead(b))
      modifies this
      ensures Valid() && old(findings) <= findings && old(processed) <= processed
      ensures Agree(strength, was, now, a, b, role) && Clean(strength, old(findings)) ==> Clean(strength, findings)
      ensures ok && Clean(strength, findings) ==> Grown(old(processed), processed) && Justified(processed, a, b, role)
      decreases fuel, 5
    {
      hide HasRef, SchemaMeaning.Agree, SchemaMeaning.HeadsMatch;
      var ar, br := RefOf(was, a), RefOf(now, b);
      if ar.Broken? || br.Broken? {
        return false;
      }
      var ua, ub := Unfold(was, a), Unfold(now, b);
      if Agree(strength, was, now, a, b, role) {
        AgreeUnfolded(a, b, role);
      }
      if ar.Target? && br.Target? {
        var identity := Identity(ar.name, br.name, role, Siblings(a), Siblings(b));
        if identity in visited {
          assert Remembered(processed, identity);
          return true;
        }
        visited := visited + {identity};
        processed := processed + {(ua, ub, role)};
      }
      ok := Walk(ua, ub, path, role, fuel);
      if ok && Clean(strength, findings) {
        JustifiedByUnfolding(processed, a, b, role);
      }
    }

    method WalkHeads(a: Json, b: Json, path: seq<Seg>, role: Role, fuel: nat) returns (ok: bool)
      requires Valid() && IsHead(a) && IsHead(b) && !(a == b && (was == now || !HasRef(a)))
      modifies this
      ensures Plain(a, fuel + 1) && Plain(b, fuel + 1) ==> ok
      ensures Valid() && old(findings) <= findings && old(processed) <= processed
      ensures Agree(strength, was, now, a, b, role) && Clean(strength, old(findings)) ==> Clean(strength, findings)
      ensures ok && Clean(strength, findings) ==> Grown(old(processed), processed) && Justified(processed, a, b, role)
      decreases fuel, 5
    {
      hide HasRef, SchemaMeaning.Agree, KeysAgree, ItemsAgree, Justified;
      if Agree(strength, was, now, a, b, role) {
        AgreeAtHeads(a, b, role);
      }
      ok := true;
      if a == b && !IsContainer(a) {
        ScalarHasNoRef(a);
      } else if role.Security? {
        Report(Review, "security-contract-changed", path);
      } else if a.Obj? && b.Obj? {
        ok := WalkKeys(a.members, b.members, path, role, fuel);
      } else if a.Arr? && b.Arr? && a == b {
        ok := WalkItems(a.items, b.items, path, role, fuel);
      } else {
        Report(Review, "schema-value-changed", path);
      }
      if ok && Clean(strength, findings) {
        MatchJustifies(processed, a, b, role);
      }
    }

    ghost predicate KeysAgree(a: map<string, Json>, b: map<string, Json>, role: Role) {
      exists rel :: IsSimulation(strength, was, now, rel) && forall key :: KeyOk(strength, key, role, a, b, rel)
    }

    ghost predicate KeyAgrees(key: string, a: map<string, Json>, b: map<string, Json>, role: Role) {
      exists rel :: IsSimulation(strength, was, now, rel) && KeyOk(strength, key, role, a, b, rel)
    }

    lemma KeyAgreesToo(a: map<string, Json>, b: map<string, Json>, role: Role, key: string)
      requires KeysAgree(a, b, role)
      ensures KeyAgrees(key, a, b, role)
    {
    }

    /** The source visits keys in sorted order; this holds for every order. */
    method WalkKeys(a: map<string, Json>, b: map<string, Json>, path: seq<Seg>, role: Role, fuel: nat)
      returns (ok: bool)
      requires Valid() && !role.Security?
      modifies this
      ensures PlainMembers(a, fuel) && PlainMembers(b, fuel) ==> ok
      ensures Valid() && old(findings) <= findings && old(processed) <= processed
      ensures KeysAgree(a, b, role) && Clean(strength, old(findings)) ==> Clean(strength, findings)
      ensures ok && Clean(strength, findings) ==>
                && Grown(old(processed), processed)
                && forall key :: KeyOk(strength, key, role, a, b, Rel(processed))
      decreases fuel, 4
    {
      hide KeysAgree, KeyAgrees, Justified;
      var todo := a.Keys + b.Keys;
      ok := true;
      while todo != {}
        invariant Valid() && old(findings) <= findings && old(processed) <= processed
        invariant KeysAgree(a, b, role) && Clean(strength, old(findings)) ==> Clean(strength, findings)
        invariant Clean(strength, findings) ==> Grown(old(processed), processed)
        invariant Clean(strength, findings) ==>
                  forall key | key !in todo :: KeyOk(strength, key, role, a, b, Rel(processed))
        decreases todo
      {
        var key :| key in todo;
        ghost var before := processed;
        if KeysAgree(a, b, role) {
          KeyAgreesToo(a, b, role, key);
        }
        ok := WalkKey(key, a, b, path + [Key(key)], role, fuel);
        if !ok {
          return;
        }
        if Clean(strength, findings) {
          GrownTwice(old(processed), before, processed);
          forall k | k !in todo ensures KeyOk(strength, k, role, a, b, Rel(processed)) {
            KeyOkGrows(strength, k, role, a, b, Rel(before), Rel(processed));
          }
        }
        todo := todo - {key};
      }
    }

    method WalkKey(key: string, a: map<string, Json>, b: map<string, Json>, path: seq<Seg>, role: Role, fuel: nat)
      returns (ok: bool)
      requires Valid() && !role.Security? && key in a.Keys + b.Keys
      modifies this
      ensures PlainMembers(a, fuel) && PlainMembers(b, fuel) ==> ok
      ensures Valid() && old(findings) <= findings && old(processed) <= processed
      ensures KeyAgrees(key, a, b, role) && Clean(strength, old(findings)) ==> Clean(strength, findings)
      ensures ok && Clean(strength, findings) ==>
                && Grown(old(processed), processed)
                && KeyOk(strength, key, role, a, b, Rel(processed))
      decreases fuel, 3
    {
      ok := true;
      if key in a && key in b {
        if a[key] == b[key] && was == now {
          MemberOkSame(strength, was, now, key, role, a[key], Rel(processed));
        } else {
          ok := WalkMember(key, a[key], b[key], path, role, fuel);
        }
      } else {
        var value := if key in a then a[key] else b[key];
        var level := Review;
        if key == "required" {
          level := if Truthy(value) && role.Request? == (key !in a) then Breaking else Info;
        }
        if key == "deprecated" {
          level := Info;
        }
        Report(level, "schema-key-changed", path);
      }
    }

    ghost predicate MemberAgrees(key: string, a: Json, b: Json, role: Role) {
      exists rel :: IsSimulation(strength, was, now, rel) && MemberOk(strength, key, role, a, b, rel)
    }

    /** Members that are neither compared as sets nor as property maps agree as schemas. */
    lemma MemberAgreesAsSchema(key: string, a: Json, b: Json, role: Role)
      requires MemberAgrees(key, a, b, role)
      requires !(key in {"required", "enum"} && a.Arr? && b.Arr?) && !(key == "properties" && a.Obj? && b.Obj?)
      requires !(key == "required" && a.Bool? && b.Bool? && a != b)
      ensures Agree(strength, was, now, a, b, NextRole(key, role))
    {
      var rel :| IsSimulation(strength, was, now, rel) && MemberOk(strength, key, role, a, b, rel);
      assert (a, b, NextRole(key, role)) in rel;
    }

    /** A member present on both sides. */
    method WalkMember(key: string, a: Json, b: Json, path: seq<Seg>, role: Role, fuel: nat) returns (ok: bool)
      requires Valid() && !role.Security?
      modifies this
      ensures Plain(a, fuel) && Plain(b, fuel) && NamesOnly(key, a) && NamesOnly(key, b) ==> ok
      ensures Valid() && old(findings) <= findings && old(processed) <= processed
      ensures MemberAgrees(key, a, b, role) && Clean(strength, old(findings)) ==> Clean(strength, findings)
      ensures ok && Clean(strength, findings) ==>
                && Grown(old(processed), processed)
                && MemberOk(strength, key, role, a, b, Rel(processed))
      decreases fuel, 2
    {
      ok := true;
      if key == "required" && a.Arr? && b.Arr? {
        ok := CompareRequired(a.items, b.items, path, role);
      } else if key == "enum" && a.Arr? && b.Arr? {
        CompareEnum(a.items, b.items, path, role);
      } else if key == "properties" && a.Obj? && b.Obj? {
        assert MemberAgrees(key, a, b, role) ==> PropertiesAgree(a.members, b.members, role);
        ok := WalkProperties(a.members, b.members, path, role, fuel);
      } else {
        ok := WalkPlainMember(key, a, b, path, role, fuel);
      }
    }

    /** The source tests the keywords in a different order, but no two of its tests overlap. */
    method WalkPlainMember(key: string, a: Json, b: Json, path: seq<Seg>, role: Role, fuel: nat) returns (ok: bool)
      requires Valid() && !role.Security?
      requires !(key in {"required", "enum"} && a.Arr? && b.Arr?) && !(key == "properties" && a.Obj? && b.Obj?)
      modifies this
      ensures Plain(a, fuel) && Plain(b, fuel) ==> ok
      ensures Valid() && old(findings) <= findings && old(processed) <= processed
      ensures MemberAgrees(key, a, b, role) && Clean(strength, old(findings)) ==> Clean(strength, findings)
      ensures ok && Clean(strength, findings) ==>
                && Grown(old(processed), processed)
                && MemberOk(strength, key, role, a, b, Rel(processed))
      decreases fuel, 1
    {
      ok := true;
      if key == "required" && a.Bool? && b.Bool? && a != b {
        Report(if role.Request? && b.flag then Breaking else Review, "required-body-changed", path);
        return;
      }
      if MemberAgrees(key, a, b, role) {
        MemberAgreesAsSchema(key, a, b, role);
      }
      if key in {"type", "const"} && a != b {
        Report(Breaking, "schema-type-changed", path);
      } else {
        ok := Walk(a, b, path, NextRole(key, role), fuel);
      }
    }

    method CompareRequired(a: seq<Json>, b: seq<Json>, path: seq<Seg>, role: Role) returns (ok: bool)
      modifies this`findings
      ensures (forall x | x in a :: x.Str?) && (forall x | x in b :: x.Str?) ==> ok
      ensures old(findings) <= findings
      ensures RequiredOk(strength, role, Elements(a), Elements(b)) && Clean(strength, old(findings)) ==>
              Clean(strength, findings)
      ensures ok && Clean(strength, findings) ==> RequiredOk(strength, role, Elements(a), Elements(b))
    {
      if !Hashable(a) || !Hashable(b) {
        return false;
      }
      var removed, added := Elements(a) - Elements(b), Elements(b) - Elements(a);
      EmptyDifference(Elements(a), Elements(b));
      if !Sortable(removed) || !Sortable(added) {
        return false;
      }
      if removed != {} || added != {} {
        var breaking := if role.Request? then added else removed;
        Report(if breaking != {} then Breaking else Info, "required-fields-changed", path);
      }
      ok := true;
    }

    method CompareEnum(a: seq<Json>, b: seq<Json>, path: seq<Seg>, role: Role)
      modifies this`findings
      ensures old(findings) <= findings
      ensures EnumOk(strength, role, Elements(a), Elements(b)) && Clean(strength, old(findings)) ==>
              Clean(strength, findings)
      ensures Clean(strength, findings) ==> EnumOk(strength, role, Elements(a), Elements(b))
    {
      var removed, added := Elements(a) - Elements(b), Elements(b) - Elements(a);
      EmptyDifference(Elements(a), Elements(b));
      if removed != {} || added != {} {
        var breaking := if role.Request? then removed else added;
        Report(if breaking != {} then Breaking else Info, "enum-values-changed", path);
      }
    }

    ghost predicate PropertiesAgree(a: map<string, Json>, b: map<string, Json>, role: Role) {
      exists rel :: IsSimulation(strength, was, now, rel) && PropertiesOk(strength, role, a, b, rel)
    }

    ghost predicate PropertyAgrees(p: string, a: map<string, Json>, b: map<string, Json>, role: Role) {
      && (p in a ==> p in b)
      && (strength.Exact? && p in b ==> p in a)
      && (p in a && p in b ==> Agree(strength, was, now, a[p], b[p], role))
    }

    lemma PropertyAgreesToo(a: map<string, Json>, b: map<string, Json>, role: Role, p: string)
      requires PropertiesAgree(a, b, role)
      ensures PropertyAgrees(p, a, b, role)
    {
      var rel :| IsSimulation(strength, was, now, rel) && PropertiesOk(strength, role, a, b, rel);
      if p in a && p in b {
        assert (a[p], b[p], role) in rel;
      }
    }

    method WalkProperties(a: map<string, Json>, b: map<string, Json>, path: seq<Seg>, role: Role, fuel: nat)
      returns (ok: bool)
      requires Valid() && !role.Security?
      modifies this
      ensures PlainMembers(a, fuel - 1) && PlainMembers(b, fuel - 1) ==> ok
      ensures Valid() && old(findings) <= findings && old(processed) <= processed
      ensures PropertiesAgree(a, b, role) && Clean(strength, old(findings)) ==> Clean(strength, findings)
      ensures ok && Clean(strength, findings) ==>
                && Grown(old(processed), processed)
                && PropertiesOk(strength, role, a, b, Rel(processed))
      decreases fuel, 1
    {
      hide HasRef, PropertiesAgree, SchemaMeaning.Agree, Justified;
      var todo := a.Keys + b.Keys;
      ok := true;
      while todo != {}
        invariant Valid() && old(findings) <= findings && old(processed) <= processed
        invariant PropertiesAgree(a, b, role) && Clean(strength, old(findings)) ==> Clean(strength, findings)
        invariant Clean(strength, findings) ==> Grown(old(processed), processed)
        invariant Clean(strength, findings) ==> forall p | p !in todo :: PropertyOk(p, a, b, role, processed)
        decreases todo
      {
        var p :| p in todo;
        ghost var before := processed;
        if PropertiesAgree(a, b, role) {
          PropertyAgreesToo(a, b, role, p);
        }
        ok := WalkProperty(p, a, b, path + [Key(p)], role, fuel);
        if !ok {
          return;
        }
        if Clean(strength, findings) {
          GrownTwice(old(processed), before, processed);
        }
        todo := todo - {p};
      }
      if Clean(strength, findings) {
        AllPropertiesOk(a, b, role, processed);
      }
    }

    lemma AllPropertiesOk(a: map<string, Json>, b: map<string, Json>, role: Role, pairs: set<Triple>)
      requires forall p :: PropertyOk(p, a, b, role, pairs)
      ensures PropertiesOk(strength, role, a, b, Rel(pairs))
    {
      assert forall p | p in a :: PropertyOk(p, a, b, role, pairs);
      assert forall p | p in b :: PropertyOk(p, a, b, role, pairs);
    }

    ghost predicate PropertyOk(p: string, a: map<string, Json>, b: map<string, Json>, role: Role, pairs: set<Triple>) {
      && (p in a ==> p in b)
      && (strength.Exact? && p in b ==> p in a)
      && (p in a && p in b ==> (a[p], b[p], role) in Rel(pairs))
    }

    method WalkProperty(p: string, a: map<string, Json>, b: map<string, Json>, path: seq<Seg>, role: Role, fuel: nat)
      returns (ok: bool)
      requires Valid() && !role.Security? && p in a.Keys + b.Keys
      modifies this
      ensures PlainMembers(a, fuel - 1) && PlainMembers(b, fuel - 1) ==> ok
      ensures Valid() && old(findings) <= findings && old(processed) <= processed
      ensures PropertyAgrees(p, a, b, role) && Clean(strength, old(findings)) ==> Clean(strength, findings)
      ensures ok && Clean(strength, findings) ==>
                Grown(old(processed), processed) && PropertyOk(p, a, b, role, processed)
      decreases fuel, 1, 0
    {
      hide HasRef, SchemaMeaning.Agree, Justified;
      ok := true;
      if p !in b {
        Report(Breaking, "property-removed", path);
      } else if p !in a {
        Report(Info, "property-added", path);
      } else {
        PlainMore(a[p], fuel - 1);
        PlainMore(b[p], fuel - 1);
        ok := Walk(a[p], b[p], path, role, fuel);
      }
    }

    ghost predicate ItemsAgree(a: seq<Json>, b: seq<Json>, role: Role)
      requires |a| == |b|
    {
      exists rel :: IsSimulation(strength, was, now, rel) && forall i | 0 <= i < |a| :: (a[i], b[i], role) in rel
    }

    lemma ItemAgrees(a: seq<Json>, b: seq<Json>, role: Role, i: nat)
      requires |a| == |b| && ItemsAgree(a, b, role) && i < |a|
      ensures Agree(strength, was, now, a[i], b[i], role)
    {
      var rel :| IsSimulation(strength, was, now, rel) && forall i | 0 <= i < |a| :: (a[i], b[i], role) in rel;
      assert (a[i], b[i], role) in rel;
    }

    method WalkItems(a: seq<Json>, b: seq<Json>, path: seq<Seg>, role: Role, fuel: nat) returns (ok: bool)
      requires Valid() && !role.Security? && |a| == |b|
      modifies this
      ensures (forall i | 0 <= i < |a| :: Plain(a[i], fuel) && Plain(b[i], fuel)) ==> ok
      ensures Valid() && old(findings) <= findings && old(processed) <= processed
      ensures ItemsAgree(a, b, role) && Clean(strength, old(findings)) ==> Clean(strength, findings)
      ensures ok && Clean(strength, findings) ==>
                && Grown(old(processed), processed)
                && forall i | 0 <= i < |a| :: (a[i], b[i], role) in Rel(processed)
      decreases fuel, 4
    {
      hide ItemsAgree, SchemaMeaning.Agree, Justified;
      ok := true;
      for i := 0 to |a|
        invariant Valid() && old(findings) <= findings && old(processed) <= processed
        invariant ItemsAgree(a, b, role) && Clean(strength, old(findings)) ==> Clean(strength, findings)
        invariant Clean(strength, findings) ==> Grown(old(processed), processed)
        invariant Clean(strength, findings) ==> forall j | 0 <= j < i :: (a[j], b[j], role) in Rel(processed)
      {
        ghost var before := processed;
        if ItemsAgree(a, b, role) {
          ItemAgrees(a, b, role, i);
        }
        ok := Walk(a[i], b[i], path + [Item(i)], role, fuel);
        if !ok {
          return;
        }
        if Clean(strength, findings) {
          GrownTwice(old(processed), before, processed);
        }
      }
    }

    /** One root after it has been compared without an unwanted finding. */
    ghost predicate RootOk(pairs: set<Triple>, a: map<string, Json>, b: map<string, Json>, key: string) {
      key in a.Keys + b.Keys ==>
        && key in b
        && (if key !in a then !strength.Exact?
            else if b[key].Null? then a[key].Null? && strength.Unbroken?
            else if a[key].Null? then !strength.Exact?
            else (a[key], b[key], RootRole(key)) in Rel(pairs))
    }

    method WalkRoot(key: string, a: Bundle, b: Bundle, fuel: nat) returns (ok: bool)
      requires Valid() && a.refs == was && b.refs == now && key in a.roots.Keys + b.roots.Keys
      modifies this
      ensures a == b || (PlainRoots(a, fuel) && PlainRoots(b, fuel)) ==> ok
      ensures Valid() && old(findings) <= findings && old(processed) <= processed
      ensures RootAgrees(strength, a, b, key) && Clean(strength, old(findings)) ==> Clean(strength, findings)
      ensures ok && Clean(strength, findings) ==>
                Grown(old(processed), processed) && RootOk(processed, a.roots, b.roots, key)
    {
      hide Justified, SchemaMeaning.Agree, HasRef;
      ok := true;
      if key !in b.roots || (key in a.roots && b.roots[key].Null? && !a.roots[key].Null?) {
        Report(Breaking, "contract-removed", [Key(key)]);
      } else if key !in a.roots || (a.roots[key].Null? && !b.roots[key].Null?) {
        Report(Info, "contract-added", [Key(key)]);
      } else if a.roots[key].Null? && b.roots[key].Null? {
        Report(Review, "contract-unavailable", [Key(key)]);
      } else {
        ok := Walk(a.roots[key], b.roots[key], [Key(key)], RootRole(key), fuel);
      }
    }
  }

  /** The comparison of two bundles, over every root key of either. A comparison that does not
      raise reports nothing exactly when the bundles agree exactly, only informational findings
      exactly when they agree leniently, and nothing breaking exactly when they agree unbroken. */
  method SchemaChanges(was: Bundle, now: Bundle, fuel: nat, ghost strength: Strength)
    returns (ok: bool, findings: seq<Drift>)
    ensures ok ==> (Clean(strength, findings) <==> RootsAgree(strength, was, now))
    ensures RootsAgree(strength, was, now) ==> Clean(strength, findings)
    ensures was == now || (PlainRoots(was, fuel) && PlainRoots(now, fuel)) ==> ok
  {
    var c := new Comparator(was.refs, now.refs, strength);
    hide RootAgrees, Comparator.RootOk, Comparator.Justified;
    var todo := was.roots.Keys + now.roots.Keys;
    OtherRootsAgree(c, was, now, todo);
    ok := true;
    while todo != {}
      invariant c.Valid() && c.was == was.refs && c.now == now.refs && c.strength == strength && fresh(c)
      invariant RootsAgree(strength, was, now) ==> Clean(strength, c.findings)
      invariant Clean(strength, c.findings) ==> c.Grown({}, c.processed)
      invariant todo <= was.roots.Keys + now.roots.Keys
      invariant Clean(strength, c.findings) ==>
                forall key | key !in todo :: c.RootOk(c.processed, was.roots, now.roots, key)
      decreases todo
    {
      var key :| key in todo;
      ghost var before := c.processed;
      ok := c.WalkRoot(key, was, now, fuel);
      if !ok {
        return false, c.findings;
      }
      if Clean(strength, c.findings) {
        c.GrownTwice({}, before, c.processed);
        forall k | k !in todo ensures c.RootOk(c.processed, was.roots, now.roots, k) {
          RootOkGrows(c, before, c.processed, was.roots, now.roots, k);
        }
      }
      todo := todo - {key};
    }
    findings := c.findings;
    if Clean(strength, findings) {
      WalkedRootsAgree(c, was, now);
    }
  }

  predicate PlainRoots(bundle: Bundle, depth: int) {
    forall key | key in bundle.roots :: Plain(bundle.roots[key], depth)
  }

  lemma OtherRootsAgree(c: Comparator, was: Bundle, now: Bundle, keys: set<string>)
    requires keys == was.roots.Keys + now.roots.Keys
    ensures forall pairs, key | key !in keys :: c.RootOk(pairs, was.roots, now.roots, key)
    ensures c.Grown({}, {})
  {
  }

  lemma RootOkGrows(c: Comparator, small: set<Triple>, large: set<Triple>, a: map<string, Json>, b: map<string, Json>,
        key: string)
    requires c.RootOk(small, a, b, key) && small <= large
    ensures c.RootOk(large, a, b, key)
  {
  }

  lemma WalkedRootsAgree(c: Comparator, was: Bundle, now: Bundle)
    requires c.was == was.refs && c.now == now.refs
    requires c.Grown({}, c.processed)
    requires forall key :: c.RootOk(c.processed, was.roots, now.roots, key)
    ensures RootsAgree(c.strength, was, now)
  {
    c.ProcessedIsSimulation(c.processed);
    forall key ensures RootAgrees(c.strength, was, now, key) {
      assert c.RootOk(c.processed, was.roots, now.roots, key);
    }
  }

  /** A bundle agrees with itself unless it records an operation that is missing upstream; that is never
      called breaking. */
  lemma AgreesWithItself(strength: Strength, bundle: Bundle)
    ensures RootsAgree(strength, bundle, bundle) <==>
            strength.Unbroken? || forall key | key in bundle.roots :: !bundle.roots[key].Null?
  {
    forall key | key in bundle.roots
      ensures RootAgrees(strength, bundle, bundle, key) <==> strength.Unbroken? || !bundle.roots[key].Null?
    {
      SameAgrees(strength, bundle.refs, bundle.refs, bundle.roots[key], RootRole(key));
    }
    if RootsAgree(strength, bundle, bundle) && !strength.Unbroken? {
      forall key | key in bundle.roots ensures !bundle.roots[key].Null? {
        assert RootAgrees(strength, bundle, bundle, key);
      }
    }
  }

  datatype Status = Pass | Hold | Failed

  /** A breaking finding of an advisory source is downgraded to review. */
  function Downgrade(advisory: bool, findings: seq<Finding>): (r: seq<Finding>)
    ensures |r| == |findings|
  {
    if advisory
    then seq(|findings|, i requires 0 <= i < |findings| =>
               if findings[i].level.Breaking? then findings[i].(level := Review) else findings[i])
    else findings
  }

  function StatusOf(findings: seq<Finding>): Status {
    if exists f :: f in findings && f.level.Error? then Failed
    else if exists f :: f in findings && !f.level.Info? then Hold
    else Pass
  }

  predicate Has(findings: seq<Finding>, level: Level) {
    exists f :: f in findings && f.level == level
  }

  /** Downgrading takes the breaking findings away, and nothing else. */
  lemma DowngradeSoftens(advisory: bool, findings: seq<Finding>)
    ensures var r := Downgrade(advisory, findings);
            && (Has(r, Breaking) <==> Has(findings, Breaking) && !advisory)
            && (Has(r, Error) <==> Has(findings, Error))
            && (Clean(Lenient, r) <==> Clean(Lenient, findings))
            && (Clean(Exact, r) <==> Clean(Exact, findings))
            && forall i | 0 <= i < |r| :: r[i].rule == findings[i].rule && r[i].path == findings[i].path
  {
    var r := Downgrade(advisory, findings);
    assert forall i | 0 <= i < |r| :: r[i] in r && findings[i] in findings;
  }

  /** The part of the report that one schema source contributes, before and after the comparison is judged:
      `strength` is the question that is asked of it. */
  method CompareAt(was: Bundle, now: Bundle, advisory: bool, fuel: nat, ghost strength: Strength)
    returns (finished: bool, findings: seq<Finding>, status: Status)
    ensures status.Failed? <==> !finished
    ensures status.Pass? <==> Clean(Lenient, findings)
    ensures finished && !(strength.Unbroken? && advisory) ==>
            (Clean(strength, findings) <==> RootsAgree(strength, was, now))
    ensures advisory ==> !Has(findings, Breaking)
    ensures was == now ==> finished
  {
    var drift;
    finished, drift := SchemaChanges(was, now, fuel, strength);
    findings := drift;
    if !finished {
      findings := findings + [Finding(Error, "snapshot-invalid", [])];
      assert findings[|findings| - 1].level.Error?;
    }
    ghost var found := findings;
    DowngradeSoftens(advisory, findings);
    findings := Downgrade(advisory, findings);
    status := StatusOf(findings);
    assert !finished ==> Has(found, Error);
  }

  /** A source passes exactly when the comparison finished and the bundles agree leniently, fails exactly when
      it did not finish, and is held otherwise. */
  method CompareSource(was: Bundle, now: Bundle, advisory: bool, fuel: nat)
    returns (finished: bool, findings: seq<Finding>, status: Status)
    ensures status.Pass? <==> finished && RootsAgree(Lenient, was, now)
    ensures status.Failed? <==> !finished
    ensures advisory ==> !Has(findings, Breaking)
    ensures was == now ==> (status.Pass? <==> forall key | key in was.roots :: !was.roots[key].Null?)
  {
    finished, findings, status := CompareAt(was, now, advisory, fuel, Lenient);
    if was == now {
      AgreesWithItself(Lenient, was);
    }
  }
}
