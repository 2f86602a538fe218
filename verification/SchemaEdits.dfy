/** What elementary changes of a schema do to agreement. Everything else stays the same, and the change is
    harmless exactly in the direction that its place in the contract allows. */
module SchemaEdits {
  import opened Options
  import opened Json
  import opened SchemaMeaning

  function With(m: map<string, Json>, key: string, v: Option<Json>): map<string, Json> {
    if v.Some? then m[key := v.value] else m - {key}
  }

  /** The rest of the schema means the same on both sides. */
  ghost predicate Shared(was: Refs, now: Refs, m: map<string, Json>, key: string) {
    REF !in m && key != REF && forall k | k in m && k != key :: Same(was, now, m[k], m[k])
  }

  /** The two members match in some relation that never relates schemas which differ. */
  ghost predicate MembersAgree(strength: Strength, was: Refs, now: Refs, key: string, role: Role,
        a: map<string, Json>, b: map<string, Json>) {
    exists rel :: IsSimulation(strength, was, now, rel) && KeyOk(strength, key, role, a, b, rel)
  }

  ghost function Identical(was: Refs, now: Refs): iset<Triple> {
    iset x: Json, r: Role | Same(was, now, x, x) :: (x, x, r)
  }

  /** A relation without differences stays one when identical schemas are added to it. */
  lemma SimulationGrows(strength: Strength, was: Refs, now: Refs, rel: iset<Triple>)
    requires IsSimulation(strength, was, now, rel)
    ensures IsSimulation(strength, was, now, rel + Identical(was, now))
  {
    var large := rel + Identical(was, now);
    forall t | t in large ensures HeadsMatch(strength, was, now, t.0, t.1, t.2, large) {
      if t in rel {
        HeadsMatchMore(strength, was, now, t, rel, large);
      } else {
        HeadsMatchSame(strength, was, now, t.0, t.2, large);
      }
    }
  }

  lemma HeadsMatchMore(strength: Strength, was: Refs, now: Refs, t: Triple, small: iset<Triple>, large: iset<Triple>)
    requires HeadsMatch(strength, was, now, t.0, t.1, t.2, small) && small <= large
    ensures HeadsMatch(strength, was, now, t.0, t.1, t.2, large)
  {
    match (HeadOf(was, t.0), HeadOf(now, t.1)) {
      case (Some(x), Some(y)) => MatchGrows(strength, was, now, x, y, t.2, small, large);
      case _ =>
    }
  }

  /** Adding identical schemas keeps a match at one key, and makes one at every other. */
  lemma OtherMembersMatch(strength: Strength, was: Refs, now: Refs, m: map<string, Json>, key: string, x: Option<Json>,
        y: Option<Json>, role: Role, rel: iset<Triple>)
    requires Shared(was, now, m, key)
    requires KeyOk(strength, key, role, With(m, key, x), With(m, key, y), rel)
    ensures forall k :: KeyOk(strength, k, role, With(m, key, x), With(m, key, y), rel + Identical(was, now))
  {
    var a, b, large := With(m, key, x), With(m, key, y), rel + Identical(was, now);
    forall k ensures KeyOk(strength, k, role, a, b, large) {
      if k == key {
        KeyOkGrows(strength, k, role, a, b, rel, large);
      } else if k in m {
        MemberOkSame(strength, was, now, k, role, m[k], large);
      }
    }
  }

  ghost predicate AllKeysOk(strength: Strength, role: Role, a: map<string, Json>, b: map<string, Json>,
        rel: iset<Triple>) {
    forall k :: KeyOk(strength, k, role, a, b, rel)
  }

  lemma ObjectsMatch(strength: Strength, was: Refs, now: Refs, a: map<string, Json>, b: map<string, Json>, role: Role,
        rel: iset<Triple>)
    requires REF !in a && REF !in b && !role.Security?
    ensures HeadsMatch(strength, was, now, Obj(a), Obj(b), role, rel) <==> AllKeysOk(strength, role, a, b, rel)
  {
    HeadOfHead(was, Obj(a));
    HeadOfHead(now, Obj(b));
    hide HeadOf, KeyOk;
  }

  lemma EditedMemberDecides(strength: Strength, was: Refs, now: Refs, m: map<string, Json>, key: string,
        x: Option<Json>, y: Option<Json>, role: Role, rel: iset<Triple>)
    requires Shared(was, now, m, key) && !role.Security? && IsSimulation(strength, was, now, rel)
    requires KeyOk(strength, key, role, With(m, key, x), With(m, key, y), rel)
    ensures Agree(strength, was, now, Obj(With(m, key, x)), Obj(With(m, key, y)), role)
  {
    var a, b, large := With(m, key, x), With(m, key, y), rel + Identical(was, now);
    assert REF !in a && REF !in b;
    SimulationGrows(strength, was, now, rel);
    OtherMembersMatch(strength, was, now, m, key, x, y, role, rel);
    hide With, Shared, KeyOk, HeadsMatch, IsSimulation, Identical;
    ObjectsMatch(strength, was, now, a, b, role, large);
  }

  /** A change of one member matters only at that member. */
  lemma OneMemberEdited(strength: Strength, was: Refs, now: Refs, m: map<string, Json>, key: string, x: Option<Json>,
        y: Option<Json>, role: Role)
    requires Shared(was, now, m, key) && !role.Security?
    ensures Agree(strength, was, now, Obj(With(m, key, x)), Obj(With(m, key, y)), role) <==>
            MembersAgree(strength, was, now, key, role, With(m, key, x), With(m, key, y))
  {
    var a, b := With(m, key, x), With(m, key, y);
    assert REF !in a && REF !in b;
    hide With, Shared, KeyOk, HeadsMatch, IsSimulation, Identical;
    if Agree(strength, was, now, Obj(a), Obj(b), role) {
      var rel :| IsSimulation(strength, was, now, rel) && HeadsMatch(strength, was, now, Obj(a), Obj(b), role, rel);
      ObjectsMatch(strength, was, now, a, b, role, rel);
      assert KeyOk(strength, key, role, a, b, rel);
    }
    hide Agree;
    if rel :| IsSimulation(strength, was, now, rel) && KeyOk(strength, key, role, a, b, rel) {
      EditedMemberDecides(strength, was, now, m, key, x, y, role, rel);
    }
  }

  /** A change that no relation between other schemas can decide. */
  lemma EditDecided(strength: Strength, was: Refs, now: Refs, m: map<string, Json>, key: string, x: Option<Json>,
        y: Option<Json>, role: Role, ok: bool)
    requires Shared(was, now, m, key) && !role.Security?
    requires forall rel :: KeyOk(strength, key, role, With(m, key, x), With(m, key, y), rel) <==> ok
    ensures Agree(strength, was, now, Obj(With(m, key, x)), Obj(With(m, key, y)), role) <==> ok
  {
    hide Agree, KeyOk, Shared, With;
    OneMemberEdited(strength, was, now, m, key, x, y, role);
    if ok {
      var none: iset<Triple> := iset{};
      assert IsSimulation(strength, was, now, none);
      assert KeyOk(strength, key, role, With(m, key, x), With(m, key, y), none);
    }
  }

  /** `required` of a request may shrink and of a response grow, and exact agreement allows neither. */
  lemma RequiredEdited(strength: Strength, was: Refs, now: Refs, m: map<string, Json>, xs: seq<Json>, ys: seq<Json>,
        role: Role)
    requires Shared(was, now, m, "required") && !role.Security?
    ensures Agree(strength, was, now, Obj(m["required" := Arr(xs)]), Obj(m["required" := Arr(ys)]), role) <==>
            && (strength.Exact? || role.Request? ==> forall y | y in ys :: y in xs)
            && (strength.Exact? || role.Response? ==> forall x | x in xs :: x in ys)
  {
    hide Agree, Shared;
    SameElements(xs, ys);
    EditDecided(strength, was, now, m, "required", Some(Arr(xs)), Some(Arr(ys)), role,
      RequiredOk(strength, role, Elements(xs), Elements(ys)));
  }

  lemma SameElements(xs: seq<Json>, ys: seq<Json>)
    ensures Elements(xs) <= Elements(ys) <==> forall x | x in xs :: x in ys
    ensures Elements(ys) <= Elements(xs) <==> forall y | y in ys :: y in xs
    ensures Elements(xs) == Elements(ys) <==> Elements(xs) <= Elements(ys) && Elements(ys) <= Elements(xs)
  {
    assert forall x :: x in Elements(xs) <==> x in xs;
    assert forall y :: y in Elements(ys) <==> y in ys;
  }

  /** `enum` the other way round. */
  lemma EnumEdited(strength: Strength, was: Refs, now: Refs, m: map<string, Json>, xs: seq<Json>, ys: seq<Json>,
        role: Role)
    requires Shared(was, now, m, "enum") && !role.Security?
    ensures Agree(strength, was, now, Obj(m["enum" := Arr(xs)]), Obj(m["enum" := Arr(ys)]), role) <==>
            && (strength.Exact? || role.Request? ==> forall x | x in xs :: x in ys)
            && (strength.Exact? || role.Response? ==> forall y | y in ys :: y in xs)
  {
    hide Agree, Shared;
    SameElements(xs, ys);
    EditDecided(strength, was, now, m, "enum", Some(Arr(xs)), Some(Arr(ys)), role,
      EnumOk(strength, role, Elements(xs), Elements(ys)));
  }

  /** Of a request and of a response, `required` that comes or goes. */
  lemma RequiredAppears(strength: Strength, was: Refs, now: Refs, m: map<string, Json>, xs: seq<Json>, role: Role)
    requires Shared(was, now, m, "required") && "required" !in m && !role.Security?
    ensures Agree(strength, was, now, Obj(m), Obj(m["required" := Arr(xs)]), role) <==>
            !strength.Exact? && (xs == [] || role.Response?)
    ensures Agree(strength, was, now, Obj(m["required" := Arr(xs)]), Obj(m), role) <==>
            !strength.Exact? && (xs == [] || role.Request?)
  {
    hide Agree, Shared;
    assert m - {"required"} == m;
    EditDecided(strength, was, now, m, "required", None, Some(Arr(xs)), role,
      !strength.Exact? && (xs == [] || role.Response?));
    EditDecided(strength, was, now, m, "required", Some(Arr(xs)), None, role,
      !strength.Exact? && (xs == [] || role.Request?));
  }

  /** A body or parameter that is required from now on breaks a request; any other change of the flag is to be
      reviewed. */
  lemma FlagEdited(strength: Strength, was: Refs, now: Refs, m: map<string, Json>, x: bool, y: bool, role: Role)
    requires Shared(was, now, m, "required") && !role.Security? && x != y
    ensures Agree(strength, was, now, Obj(m["required" := Bool(x)]), Obj(m["required" := Bool(y)]), role) <==>
            strength.Unbroken? && (role.Response? || x)
  {
    hide Agree, Shared;
    EditDecided(strength, was, now, m, "required", Some(Bool(x)), Some(Bool(y)), role,
      strength.Unbroken? && (role.Response? || x));
  }

  /** `deprecated` may come and go, and any other keyword but `required` is to be reviewed when it does. */
  lemma KeywordAppears(strength: Strength, was: Refs, now: Refs, m: map<string, Json>, key: string, v: Json, role: Role)
    requires Shared(was, now, m, key) && key !in m && key != "required" && !role.Security?
    ensures Agree(strength, was, now, Obj(m), Obj(m[key := v]), role) <==>
            strength.Unbroken? || (strength.Lenient? && key == "deprecated")
    ensures Agree(strength, was, now, Obj(m[key := v]), Obj(m), role) <==>
            strength.Unbroken? || (strength.Lenient? && key == "deprecated")
  {
    hide Agree, Shared;
    assert m - {key} == m;
    var ok := strength.Unbroken? || (strength.Lenient? && key == "deprecated");
    EditDecided(strength, was, now, m, key, None, Some(v), role, ok);
    EditDecided(strength, was, now, m, key, Some(v), None, role, ok);
  }

  /** A changed type breaks the contract, whatever the role. */
  lemma TypeEdited(strength: Strength, was: Refs, now: Refs, m: map<string, Json>, key: string, x: Json, y: Json,
        role: Role)
    requires Shared(was, now, m, key) && key in {"type", "const"} && !role.Security? && x != y
    ensures !Agree(strength, was, now, Obj(m[key := x]), Obj(m[key := y]), role)
  {
    hide Agree, Shared;
    EditDecided(strength, was, now, m, key, Some(x), Some(y), role, false);
  }

  /** A property may be added but not taken away; exact agreement allows neither. */
  lemma PropertyAdded(strength: Strength, was: Refs, now: Refs, m: map<string, Json>, p: map<string, Json>,
        name: string, v: Json, role: Role)
    requires Shared(was, now, m, "properties") && !role.Security? && name !in p
    requires forall n | n in p :: Same(was, now, p[n], p[n])
    ensures var a, b := m["properties" := Obj(p)], m["properties" := Obj(p[name := v])];
            && (Agree(strength, was, now, Obj(a), Obj(b), role) <==> !strength.Exact?)
            && !Agree(strength, was, now, Obj(b), Obj(a), role)
  {
    hide Agree, Shared;
    var less, more := Some(Obj(p)), Some(Obj(p[name := v]));
    EditDecided(strength, was, now, m, "properties", more, less, role, false);
    OneMemberEdited(strength, was, now, m, "properties", less, more, role);
    if !strength.Exact? {
      var rel := iset{} + Identical(was, now);
      SimulationGrows(strength, was, now, iset{});
      assert KeyOk(strength, "properties", role, m["properties" := Obj(p)], m["properties" := Obj(p[name := v])], rel);
    }
  }

  /** Agreement is the largest relation of its kind. */
  lemma AgreeIsRelated(strength: Strength, was: Refs, now: Refs, a: Json, b: Json, role: Role)
    ensures Agree(strength, was, now, a, b, role) <==>
            exists rel :: IsSimulation(strength, was, now, rel) && (a, b, role) in rel
  {
    hide HeadsMatch;
    if rel :| IsSimulation(strength, was, now, rel) && HeadsMatch(strength, was, now, a, b, role, rel) {
      PairIsAdded(strength, was, now, (a, b, role), rel);
      assert (a, b, role) in rel + iset{(a, b, role)};
    }
  }

  lemma PairIsAdded(strength: Strength, was: Refs, now: Refs, t: Triple, rel: iset<Triple>)
    requires IsSimulation(strength, was, now, rel) && HeadsMatch(strength, was, now, t.0, t.1, t.2, rel)
    ensures IsSimulation(strength, was, now, rel + iset{t})
  {
    hide HeadsMatch;
    forall u | u in rel + iset{t} ensures HeadsMatch(strength, was, now, u.0, u.1, u.2, rel + iset{t}) {
      HeadsMatchMore(strength, was, now, u, rel, rel + iset{t});
    }
  }

  /** A schema below any other keyword is compared in the role that the keyword gives it. */
  lemma NestedEdited(strength: Strength, was: Refs, now: Refs, m: map<string, Json>, key: string, u: Json, v: Json,
        role: Role)
    requires Shared(was, now, m, key) && !role.Security?
    requires key !in {"required", "enum", "properties", "type", "const"}
    ensures Agree(strength, was, now, Obj(m[key := u]), Obj(m[key := v]), role) <==>
            Agree(strength, was, now, u, v, NextRole(key, role))
  {
    OneMemberEdited(strength, was, now, m, key, Some(u), Some(v), role);
    AgreeIsRelated(strength, was, now, u, v, NextRole(key, role));
    hide Agree, Shared, IsSimulation;
    forall rel
      ensures KeyOk(strength, key, role, m[key := u], m[key := v], rel) <==> (u, v, NextRole(key, role)) in rel
    {
    }
  }

  /** Bodies and parameters are requests, responses are responses, and what lies below anything else has the
      role of what is around it. */
  lemma RolesFollowKeywords(strength: Strength, was: Refs, now: Refs, m: map<string, Json>, key: string, u: Json,
        v: Json, role: Role)
    requires Shared(was, now, m, key) && !role.Security?
    ensures key in {"requestBody", "parameters", "pathParameters"} ==>
              (Agree(strength, was, now, Obj(m[key := u]), Obj(m[key := v]), role) <==>
                Agree(strength, was, now, u, v, Request))
    ensures key == "responses" ==>
              (Agree(strength, was, now, Obj(m[key := u]), Obj(m[key := v]), role) <==>
                Agree(strength, was, now, u, v, Response))
    ensures key in {"schema", "items", "allOf", "content", "additionalProperties"} ==>
              (Agree(strength, was, now, Obj(m[key := u]), Obj(m[key := v]), role) <==>
                Agree(strength, was, now, u, v, role))
    ensures key in {"security", "securitySchemes", "servers"} ==>
              (Agree(strength, was, now, Obj(m[key := u]), Obj(m[key := v]), role) <==>
                Agree(strength, was, now, u, v, Security))
  {
    hide Agree, Shared;
    if key in {"requestBody", "parameters", "pathParameters", "responses", "schema", "items", "allOf", "content",
               "additionalProperties", "security", "securitySchemes", "servers"} {
      NestedEdited(strength, was, now, m, key, u, v, role);
    }
  }

  /** Values that are not both objects either are the same or are to be reviewed; a security contract has to be
      the same as a whole. */
  lemma ValueEdited(strength: Strength, was: Refs, now: Refs, u: Json, v: Json, role: Role)
    requires IsHead(u) && IsHead(v)
    ensures !role.Security? && !(u.Obj? && v.Obj?) && u != v ==>
              (Agree(strength, was, now, u, v, role) <==> strength.Unbroken?)
    ensures role.Security? ==>
              (Agree(strength, was, now, u, v, role) <==> strength.Unbroken? || Same(was, now, u, v))
  {
    HeadOfHead(was, u);
    HeadOfHead(now, v);
    assert IsSimulation(strength, was, now, iset{});
    assert Match(strength, was, now, u, v, role, iset{}) ==>
           HeadsMatch(strength, was, now, u, v, role, iset{});
  }

  lemma SameHeadSameMeaning(strength: Strength, was: Refs, now: Refs, v: Json, u: Json, w: Json, role: Role)
    requires HeadOf(was, v) == HeadOf(was, u)
    ensures Agree(strength, was, now, v, w, role) <==> Agree(strength, was, now, u, w, role)
  {
    hide HeadOf, IsSimulation, Match;
    assert forall rel :: HeadsMatch(strength, was, now, v, w, role, rel) <==>
           HeadsMatch(strength, was, now, u, w, role, rel);
  }

  /** A reference means its target, with what stands beside it as a second schema of an `allOf`. */
  lemma ReferenceMeansTarget(strength: Strength, was: Refs, now: Refs, name: string, siblings: map<string, Json>,
        w: Json, role: Role)
    requires name != "" && name in was && "$ref" !in siblings
    ensures Agree(strength, was, now, Obj(siblings["$ref" := Str(name)]), w, role) <==>
            Agree(strength, was, now,
                  if siblings == map[] then was[name] else Obj(map["allOf" := Arr([was[name], Obj(siblings)])]),
                  w, role)
  {
    var v := Obj(siblings["$ref" := Str(name)]);
    assert Siblings(v) == siblings;
    HeadOfUnfold(was, v);
    hide HeadOf, Agree;
    SameHeadSameMeaning(strength, was, now, v, Unfold(was, v), w, role);
  }

  /** The roots of a bundle are requests, except for the security schemes. */
  lemma OneRoot(strength: Strength, was: Refs, now: Refs, key: string, u: Json, v: Json)
    requires !u.Null? && !v.Null?
    ensures RootsAgree(strength, Bundle(map[key := u], was), Bundle(map[key := v], now)) <==>
            Agree(strength, was, now, u, v, if key == "securitySchemes" then Security else Request)
  {
    hide Agree;
    OneRootDecides(strength, Bundle(map[key := u], was), Bundle(map[key := v], now), key);
  }

  /** A root may come but not go; one that is missing upstream in both bundles is to be reviewed. */
  lemma RootAppears(strength: Strength, was: Refs, now: Refs, key: string, v: Json)
    requires !v.Null?
    ensures var none, missing, there := map[], map[key := Null], map[key := v];
            && (RootsAgree(strength, Bundle(none, was), Bundle(there, now)) <==> !strength.Exact?)
            && (RootsAgree(strength, Bundle(none, was), Bundle(missing, now)) <==> !strength.Exact?)
            && (RootsAgree(strength, Bundle(missing, was), Bundle(there, now)) <==> !strength.Exact?)
            && (RootsAgree(strength, Bundle(missing, was), Bundle(missing, now)) <==> strength.Unbroken?)
            && !RootsAgree(strength, Bundle(there, was), Bundle(none, now))
            && !RootsAgree(strength, Bundle(there, was), Bundle(missing, now))
            && !RootsAgree(strength, Bundle(missing, was), Bundle(none, now))
  {
    var none, missing, there := map[], map[key := Null], map[key := v];
    OneRootDecides(strength, Bundle(none, was), Bundle(there, now), key);
    OneRootDecides(strength, Bundle(none, was), Bundle(missing, now), key);
    OneRootDecides(strength, Bundle(missing, was), Bundle(there, now), key);
    OneRootDecides(strength, Bundle(missing, was), Bundle(missing, now), key);
    OneRootDecides(strength, Bundle(there, was), Bundle(none, now), key);
    OneRootDecides(strength, Bundle(there, was), Bundle(missing, now), key);
    OneRootDecides(strength, Bundle(missing, was), Bundle(none, now), key);
  }

  lemma OneRootDecides(strength: Strength, a: Bundle, b: Bundle, key: string)
    requires a.roots.Keys <= {key} && b.roots.Keys <= {key}
    ensures RootsAgree(strength, a, b) <==> RootAgrees(strength, a, b, key)
  {
    forall k | k != key ensures RootAgrees(strength, a, b, k) {
    }
  }
}
