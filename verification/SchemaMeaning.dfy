/** What it means for two schema bundles to agree, independently of how they are compared.

    A schema is a possibly infinite tree: a "$ref" stands for its target in the bundle's
    reference table. Two schemas agree when some relation over pairs of schemas contains them
    and is closed under looking one level into both trees.

    Agreement comes in three strengths. Exact agreement allows no difference except order and
    duplication inside `required` and `enum`. Lenient agreement also allows the changes that the
    comparator calls informational, whose direction depends on the role of the schema. Unbroken
    agreement allows whatever the comparator does not call breaking. */
module SchemaMeaning {
  import opened Options
  import opened Json

  type Refs = map<string, Json>

  datatype Bundle = Bundle(roots: map<string, Json>, refs: Refs)

  datatype Role = Request | Response | Security

  datatype Strength = Exact | Lenient | Unbroken

  type Triple = (Json, Json, Role)

  /** What the "$ref" member of a value selects. A missing target cannot be followed, and an
      empty or null one is never followed. */
  datatype RefPart = NotARef | Stuck | Broken | Target(name: string)

  predicate IsHead(v: Json) {
    !(v.Obj? && REF in v.members)
  }

  function RefOf(refs: Refs, v: Json): RefPart {
    if IsHead(v) then NotARef
    else if !Truthy(v.members[REF]) then Stuck
    else if v.members[REF].Str? && v.members[REF].text in refs then Target(v.members[REF].text)
    else Broken
  }

  function Siblings(v: Json): map<string, Json>
    requires v.Obj?
  {
    v.members - {REF}
  }

  /** The meaning of a reference to `target` with `siblings` beside it. */
  function Expand(target: Json, siblings: map<string, Json>): Json {
    if siblings == map[] then target
    else Obj(map["allOf" := Arr([target, Obj(siblings)])])
  }

  function Unfold(refs: Refs, v: Json): Json {
    match RefOf(refs, v)
    case Target(name) => Expand(refs[name], Siblings(v))
    case _ => v
  }

  ghost function UnfoldTimes(refs: Refs, v: Json, n: nat): Json
    decreases n
  {
    if n == 0 then v else UnfoldTimes(refs, Unfold(refs, v), n - 1)
  }

  /** The first value that is not a reference, or None when unfolding never ends. */
  ghost function HeadOf(refs: Refs, v: Json): Option<Json> {
    if n: nat :| IsHead(UnfoldTimes(refs, v, n)) then Some(UnfoldTimes(refs, v, n)) else None
  }

  lemma {:induction false} HeadsStay(refs: Refs, v: Json, n: nat)
    requires IsHead(v)
    ensures UnfoldTimes(refs, v, n) == v
  {
    if n > 0 {
      HeadsStay(refs, v, n - 1);
    }
  }

  lemma {:induction false} HeadsAreUnique(refs: Refs, v: Json, n: nat, m: nat)
    requires IsHead(UnfoldTimes(refs, v, n)) && IsHead(UnfoldTimes(refs, v, m))
    ensures UnfoldTimes(refs, v, n) == UnfoldTimes(refs, v, m)
    decreases n
  {
    if n == 0 {
      HeadsStay(refs, v, m);
    } else if m == 0 {
      HeadsStay(refs, v, n);
    } else {
      HeadsAreUnique(refs, Unfold(refs, v), n - 1, m - 1);
    }
  }

  lemma HeadReached(refs: Refs, v: Json, n: nat)
    requires IsHead(UnfoldTimes(refs, v, n))
    ensures HeadOf(refs, v) == Some(UnfoldTimes(refs, v, n))
  {
    forall m: nat | IsHead(UnfoldTimes(refs, v, m))
      ensures UnfoldTimes(refs, v, m) == UnfoldTimes(refs, v, n)
    {
      HeadsAreUnique(refs, v, n, m);
    }
  }

  lemma HeadOfHead(refs: Refs, v: Json)
    requires IsHead(v)
    ensures HeadOf(refs, v) == Some(v)
  {
    assert UnfoldTimes(refs, v, 0) == v;
    HeadReached(refs, v, 0);
  }

  lemma HeadOfUnfold(refs: Refs, v: Json)
    ensures HeadOf(refs, Unfold(refs, v)) == HeadOf(refs, v)
  {
    var u := Unfold(refs, v);
    if n: nat :| IsHead(UnfoldTimes(refs, u, n)) {
      assert UnfoldTimes(refs, v, n + 1) == UnfoldTimes(refs, u, n);
      HeadReached(refs, u, n);
      HeadReached(refs, v, n + 1);
    }
    forall n: nat | IsHead(UnfoldTimes(refs, v, n))
      ensures IsHead(UnfoldTimes(refs, u, if n == 0 then 0 else n - 1))
    {
    }
  }

  /** The same schema means the same on both sides when the tables are equal or it uses none. */
  ghost predicate Same(was: Refs, now: Refs, a: Json, b: Json) {
    a == b && (was == now || !HasRef(a))
  }

  function NextRole(key: string, role: Role): Role {
    if key in {"security", "securitySchemes", "servers"} then Security
    else if key in {"requestBody", "parameters", "pathParameters"} then Request
    else if key == "responses" then Response
    else role
  }

  function Elements(items: seq<Json>): set<Json> {
    set x | x in items
  }

  /** Exact agreement allows no other elements. */
  ghost predicate Subset(strength: Strength, small: set<Json>, large: set<Json>) {
    if strength.Exact? then small == large else small <= large
  }

  /** A request may require less and accept more; a response the other way round. */
  ghost predicate RequiredOk(strength: Strength, role: Role, a: set<Json>, b: set<Json>) {
    if role.Request? then Subset(strength, b, a) else Subset(strength, a, b)
  }

  ghost predicate EnumOk(strength: Strength, role: Role, a: set<Json>, b: set<Json>) {
    if role.Request? then Subset(strength, a, b) else Subset(strength, b, a)
  }

  /** A `required` that comes or goes and asks a request for more, or promises less of a response. */
  predicate BreaksAlone(key: string, role: Role, value: Json, added: bool) {
    key == "required" && Truthy(value) && role.Request? == added
  }

  /** A keyword present on one side only is harmless when it is `deprecated`, or a `required` that is
      empty or moves in the harmless direction. */
  predicate AloneOk(strength: Strength, key: string, role: Role, value: Json, added: bool) {
    match strength
    case Exact => false
    case Lenient => key == "deprecated" || (key == "required" && !BreaksAlone(key, role, value, added))
    case Unbroken => !BreaksAlone(key, role, value, added)
  }

  ghost predicate PropertiesOk(strength: Strength, role: Role, a: map<string, Json>, b: map<string, Json>,
        rel: iset<Triple>) {
    && (if strength.Exact? then a.Keys == b.Keys else a.Keys <= b.Keys)
    && forall p | p in a && p in b :: (a[p], b[p], role) in rel
  }

  ghost predicate MemberOk(strength: Strength, key: string, role: Role, a: Json, b: Json, rel: iset<Triple>) {
    if key == "required" && a.Arr? && b.Arr? then RequiredOk(strength, role, Elements(a.items), Elements(b.items))
    else if key == "enum" && a.Arr? && b.Arr? then EnumOk(strength, role, Elements(a.items), Elements(b.items))
    else if key == "properties" && a.Obj? && b.Obj? then PropertiesOk(strength, role, a.members, b.members, rel)
    else if key == "required" && a.Bool? && b.Bool? && a != b then strength.Unbroken? && !(role.Request? && b.flag)
    else (key in {"type", "const"} ==> a == b) && (a, b, NextRole(key, role)) in rel
  }

  ghost predicate KeyOk(strength: Strength, key: string, role: Role, a: map<string, Json>, b: map<string, Json>,
        rel: iset<Triple>) {
    && (key in a && key in b ==> MemberOk(strength, key, role, a[key], b[key], rel))
    && (key in a && key !in b ==> AloneOk(strength, key, role, a[key], false))
    && (key !in a && key in b ==> AloneOk(strength, key, role, b[key], true))
  }

  /** One level of agreement between two values that are not references. */
  ghost predicate Match(strength: Strength, was: Refs, now: Refs, a: Json, b: Json, role: Role, rel: iset<Triple>) {
    if role.Security? then strength.Unbroken? || Same(was, now, a, b)
    else if a.Obj? && b.Obj? then forall key :: KeyOk(strength, key, role, a.members, b.members, rel)
    else if a.Arr? && a == b then forall i | 0 <= i < |a.items| :: (a.items[i], b.items[i], role) in rel
    else strength.Unbroken? || a == b
  }

  ghost predicate HeadsMatch(strength: Strength, was: Refs, now: Refs, a: Json, b: Json, role: Role,
        rel: iset<Triple>) {
    match (HeadOf(was, a), HeadOf(now, b))
    case (None, None) => true
    case (Some(x), Some(y)) => Match(strength, was, now, x, y, role, rel)
    case _ => false
  }

  /** A relation that never relates two schemas which differ one level down. */
  ghost predicate IsSimulation(strength: Strength, was: Refs, now: Refs, rel: iset<Triple>) {
    forall t | t in rel :: HeadsMatch(strength, was, now, t.0, t.1, t.2, rel)
  }

  ghost predicate Agree(strength: Strength, was: Refs, now: Refs, a: Json, b: Json, role: Role) {
    exists rel :: IsSimulation(strength, was, now, rel) && HeadsMatch(strength, was, now, a, b, role, rel)
  }

  function RootRole(key: string): Role {
    if key == "securitySchemes" then Security else Request
  }

  /** Agreement of whole bundles. A null root is an operation missing upstream. */
  ghost predicate RootsAgree(strength: Strength, was: Bundle, now: Bundle) {
    forall key :: RootAgrees(strength, was, now, key)
  }

  ghost predicate RootAgrees(strength: Strength, was: Bundle, now: Bundle, key: string) {
    key in was.roots.Keys + now.roots.Keys ==>
      && key in now.roots
      && (if key !in was.roots then !strength.Exact?
          else if now.roots[key].Null? then was.roots[key].Null? && strength.Unbroken?
          else if was.roots[key].Null? then !strength.Exact?
          else Agree(strength, was.refs, now.refs, was.roots[key], now.roots[key], RootRole(key)))
  }

  lemma KeyOkGrows(strength: Strength, key: string, role: Role, a: map<string, Json>, b: map<string, Json>,
        small: iset<Triple>, large: iset<Triple>)
    requires KeyOk(strength, key, role, a, b, small) && small <= large
    ensures KeyOk(strength, key, role, a, b, large)
  {
  }

  lemma MatchGrows(strength: Strength, was: Refs, now: Refs, a: Json, b: Json, role: Role, small: iset<Triple>,
        large: iset<Triple>)
    requires Match(strength, was, now, a, b, role, small) && small <= large
    ensures Match(strength, was, now, a, b, role, large)
  {
    if !role.Security? && a.Obj? && b.Obj? {
      forall key ensures KeyOk(strength, key, role, a.members, b.members, large) {
        assert KeyOk(strength, key, role, a.members, b.members, small);
      }
    }
  }

  /** Every relation that contains all pairs of identical schemas matches a schema with itself. */
  lemma MemberOkSame(strength: Strength, was: Refs, now: Refs, key: string, role: Role, v: Json, rel: iset<Triple>)
    requires Same(was, now, v, v)
    requires forall x: Json, r: Role | Same(was, now, x, x) :: (x, x, r) in rel
    ensures MemberOk(strength, key, role, v, v, rel)
  {
    if v.Obj? {
      forall p | p in v.members ensures Same(was, now, v.members[p], v.members[p]) {
        assert HasRef(v.members[p]) ==> HasRef(v);
      }
    }
  }

  lemma MatchSame(strength: Strength, was: Refs, now: Refs, a: Json, role: Role, rel: iset<Triple>)
    requires Same(was, now, a, a)
    requires forall x: Json, r: Role | Same(was, now, x, x) :: (x, x, r) in rel
    ensures Match(strength, was, now, a, a, role, rel)
  {
    if !role.Security? && a.Obj? {
      forall key ensures KeyOk(strength, key, role, a.members, a.members, rel) {
        if key in a.members {
          assert HasRef(a.members[key]) ==> HasRef(a);
          MemberOkSame(strength, was, now, key, role, a.members[key], rel);
        }
      }
    } else if !role.Security? && a.Arr? {
      forall i | 0 <= i < |a.items| ensures (a.items[i], a.items[i], role) in rel {
        assert HasRef(a.items[i]) ==> HasRef(a);
      }
    }
  }

  lemma HeadsMatchSame(strength: Strength, was: Refs, now: Refs, a: Json, role: Role, rel: iset<Triple>)
    requires Same(was, now, a, a)
    requires forall x: Json, r: Role | Same(was, now, x, x) :: (x, x, r) in rel
    ensures HeadsMatch(strength, was, now, a, a, role, rel)
  {
    if was == now {
      match HeadOf(was, a)
      case None =>
      case Some(h) => MatchSame(strength, was, now, h, role, rel);
    } else {
      HeadOfHead(was, a);
      HeadOfHead(now, a);
      MatchSame(strength, was, now, a, role, rel);
    }
  }

  lemma SameAgrees(strength: Strength, was: Refs, now: Refs, a: Json, role: Role)
    requires Same(was, now, a, a)
    ensures Agree(strength, was, now, a, a, role)
  {
    var rel := iset x: Json, r: Role | Same(was, now, x, x) :: (x, x, r);
    forall t | t in rel ensures HeadsMatch(strength, was, now, t.0, t.1, t.2, rel) {
      HeadsMatchSame(strength, was, now, t.0, t.2, rel);
    }
    HeadsMatchSame(strength, was, now, a, role, rel);
  }
}
