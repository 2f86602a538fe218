/** Building a bundle from a document: prose is dropped, and every schema that is referenced,
    directly or through other references, is collected into one table. */
module SchemaBundle {
  import opened Options
  import opened Json
  import opened SchemaMeaning

  const DOC_KEYS := {"description", "title", "summary", "example", "examples",
                     "externalDocs", "$comment", "x-oaiMeta", "x-stainless-naming"}
  const NAMED_MAPS := {"properties", "patternProperties", "definitions", "$defs",
                       "schemas", "paths", "responses", "content", "securitySchemes"}

  /** Removes prose members. Inside a map from names to schemas every name is kept. */
  function Clean(v: Json, named: bool): (r: Json)
    ensures !HasRef(v) ==> !HasRef(r)
  {
    match v
    case Obj(m) => Obj(map k | k in m && (named || k !in DOC_KEYS) :: Clean(m[k], k in NAMED_MAPS))
    case Arr(xs) => Arr(seq(|xs|, i requires 0 <= i < |xs| => Clean(xs[i], false)))
    case _ => v
  }

  lemma {:induction false} CleanTwice(v: Json, named: bool)
    ensures Clean(Clean(v, named), named) == Clean(v, named)
  {
    match v {
      case Obj(m) =>
        forall k | k in m ensures Clean(Clean(m[k], k in NAMED_MAPS), k in NAMED_MAPS) == Clean(m[k], k in NAMED_MAPS) {
          CleanTwice(m[k], k in NAMED_MAPS);
        }
        var once := Clean(v, named).members;
        assert Clean(Obj(once), named).members == once;
      case Arr(xs) =>
        forall i | 0 <= i < |xs| ensures Clean(Clean(xs[i], false), false) == Clean(xs[i], false) {
          CleanTwice(xs[i], false);
        }
        var once := Clean(v, named).items;
        assert Clean(Arr(once), named).items == once;
      case _ =>
    }
  }

  /** Every "$ref" inside the value is null or names an entry of the table. */
  predicate Closed(v: Json, refs: set<string>) {
    match v
    case Obj(m) => (REF in m ==> m[REF].Null? || (m[REF].Str? && m[REF].text in refs)) &&
      forall k | k in m :: Closed(m[k], refs)
    case Arr(xs) => forall i | 0 <= i < |xs| :: Closed(xs[i], refs)
    case _ => true
  }

  lemma {:induction false} ClosedGrows(v: Json, small: set<string>, large: set<string>)
    requires Closed(v, small) && small <= large
    ensures Closed(v, large)
  {
    match v {
      case Obj(m) =>
        forall k | k in m ensures Closed(m[k], large) {
          ClosedGrows(m[k], small, large);
        }
      case Arr(xs) =>
        forall i | 0 <= i < |xs| ensures Closed(xs[i], large) {
          ClosedGrows(xs[i], small, large);
        }
      case _ =>
    }
  }

  /** Entries added between two moments refer only to entries present at the later one. */
  ghost predicate Extends(before: Refs, after: Refs) {
    before.Keys <= after.Keys && forall ref | ref in after && ref !in before :: Closed(after[ref], after.Keys)
  }

  lemma ExtendsTwice(first: Refs, second: Refs, third: Refs)
    requires Extends(first, second) && Extends(second, third)
    requires forall ref | ref in second :: third[ref] == second[ref]
    ensures Extends(first, third)
  {
    forall ref | ref in third && ref !in first ensures Closed(third[ref], third.Keys) {
      if ref in second {
        ClosedGrows(second[ref], second.Keys, third.Keys);
      }
    }
  }

  lemma AllClosedGrow<K>(keys: set<K>, values: map<K, Json>, small: set<string>, large: set<string>)
    requires keys <= values.Keys && small <= large
    requires forall k | k in keys :: Closed(values[k], small)
    ensures forall k | k in keys :: Closed(values[k], large)
  {
    hide Closed;
    forall k | k in keys ensures Closed(values[k], large) {
      ClosedGrows(values[k], small, large);
    }
  }

  lemma ItemsClosedGrow(items: seq<Json>, small: set<string>, large: set<string>)
    requires small <= large && forall i | 0 <= i < |items| :: Closed(items[i], small)
    ensures forall i | 0 <= i < |items| :: Closed(items[i], large)
  {
    hide Closed;
    forall i | 0 <= i < |items| ensures Closed(items[i], large) {
      ClosedGrows(items[i], small, large);
    }
  }

  /** Every name referenced inside the value is among `names`. */
  predicate Mentions(v: Json, names: set<string>) {
    match v
    case Obj(m) => (REF in m && m[REF].Str? ==> m[REF].text in names) && forall k | k in m :: Mentions(m[k], names)
    case Arr(xs) => forall i | 0 <= i < |xs| :: Mentions(xs[i], names)
    case _ => true
  }

  lemma PartsMention(v: Json, names: set<string>)
    requires Mentions(v, names)
    ensures v.Obj? ==> forall k | k in v.members :: Mentions(v.members[k], names)
    ensures v.Arr? ==> forall i | 0 <= i < |v.items| :: Mentions(v.items[i], names)
  {
  }

  lemma PartsClosed(v: Json, names: set<string>)
    requires Closed(v, names)
    ensures v.Obj? ==> forall k | k in v.members :: Closed(v.members[k], names)
    ensures v.Arr? ==> forall i | 0 <= i < |v.items| :: Closed(v.items[i], names)
  {
  }

  /** No name referenced by the document, starting from any of `names`, lies outside `names`. */
  ghost predicate Bounded(document: string -> Option<Json>, names: set<string>) {
    forall ref | ref in names && document(ref).Some? :: Mentions(Clean(document(ref).value, false), names)
  }

  /** Every one of `names` resolves, and so does everything it refers to. */
  ghost predicate Resolves(document: string -> Option<Json>, names: set<string>) {
    forall ref | ref in names :: document(ref).Some? && Closed(Clean(document(ref).value, false), names)
  }

  class Collector {
    /** What a reference points at in the document, or None when the pointer does not resolve. */
    const document: string -> Option<Json>
    /** The finitely many names that occur in the document. */
    ghost const names: set<string>
    var refs: Refs

    constructor (document: string -> Option<Json>, ghost names: set<string>)
      requires Bounded(document, names)
      ensures this.document == document && this.names == names && refs == map[] && Valid()
    {
      this.document, this.names, refs := document, names, map[];
    }

    /** Every entry is the cleaned schema its name points at. */
    ghost predicate Valid()
      reads this
    {
      && Bounded(document, names)
      && refs.Keys <= names
      && forall ref | ref in refs :: document(ref).Some? && refs[ref] == Clean(document(ref).value, false)
    }

    ghost function Remaining(): nat
      reads this
    {
      |names - refs.Keys|
    }

    twostate lemma LessRemains()
      requires old(refs).Keys <= refs.Keys <= names
      ensures Remaining() <= old(Remaining())
      ensures refs.Keys != old(refs).Keys ==> Remaining() < old(Remaining())
    {
      var now, before := names - refs.Keys, names - old(refs).Keys;
      assert now <= before;
      SubsetSize(now, before);
      if refs.Keys != old(refs).Keys {
        var ref :| ref in refs.Keys && ref !in old(refs).Keys;
        assert now <= before - {ref};
        SubsetSize(now, before - {ref});
      }
    }

    /** Follows the references below one value. A reference that is already in the table is not
        followed again, so the collection finishes on cyclic documents too. It fails only on a
        reference that is not a name or does not resolve. */
    method Visit(value: Json) returns (ok: bool)
      requires Valid() && Mentions(value, names)
      modifies this
      ensures Valid() && old(refs).Keys <= refs.Keys
      ensures ok ==> Extends(old(refs), refs) && Closed(value, refs.Keys)
      ensures Closed(value, names) && Resolves(document, names) ==> ok
      decreases Remaining(), value, 1
    {
      if value.Obj? {
        ok := VisitReference(value.members);
        if ok {
          ghost var followed := refs;
          LessRemains();
          ok := VisitMembers(value);
          if ok {
            ExtendsTwice(old(refs), followed, refs);
          }
        }
      } else if value.Arr? {
        ok := VisitItems(value);
      } else {
        ok := true;
      }
    }

    method VisitReference(members: map<string, Json>) returns (ok: bool)
      requires Valid() && Mentions(Obj(members), names)
      modifies this
      ensures Valid() && old(refs).Keys <= refs.Keys
      ensures ok ==> Extends(old(refs), refs)
      ensures ok && REF in members ==> members[REF].Null? || (members[REF].Str? && members[REF].text in refs)
      ensures Closed(Obj(members), names) && Resolves(document, names) ==> ok
      decreases Remaining(), Obj(members), 0
    {
      ok := true;
      if REF in members && !members[REF].Null? {
        if !members[REF].Str? {
          ok := false;
        } else if members[REF].text !in refs {
          var ref := members[REF].text;
          if document(ref).None? {
            return false;
          }
          refs := refs[ref := Clean(document(ref).value, false)];
          LessRemains();
          ok := Visit(refs[ref]);
        }
      }
    }

    method VisitMembers(value: Json) returns (ok: bool)
      requires Valid() && value.Obj? && Mentions(value, names)
      modifies this
      ensures Valid() && old(refs).Keys <= refs.Keys
      ensures ok ==> Extends(old(refs), refs) && forall k | k in value.members :: Closed(value.members[k], refs.Keys)
      ensures Closed(value, names) && Resolves(document, names) ==> ok
      decreases Remaining(), value, 0
    {
      PartsMention(value, names);
      if Closed(value, names) {
        PartsClosed(value, names);
      }
      hide Clean, Resolves, Bounded, Closed, Mentions;
      var members := value.members;
      ok := true;
      var todo := members.Keys;
      while todo != {}
        invariant Valid() && Extends(old(refs), refs) && todo <= members.Keys
        invariant forall k | k in members.Keys - todo :: Closed(members[k], refs.Keys)
        decreases todo
      {
        var key :| key in todo;
        ghost var before := refs;
        LessRemains();
        ok := Visit(members[key]);
        if !ok {
          return;
        }
        ExtendsTwice(old(refs), before, refs);
        AllClosedGrow(members.Keys - todo, members, before.Keys, refs.Keys);
        todo := todo - {key};
      }
    }

    /** One more item after the first `i`. */
    method VisitNext(value: Json, i: nat, ghost start: Refs) returns (ok: bool)
      requires Valid() && value.Arr? && i < |value.items| && Extends(start, refs)
      requires Mentions(value.items[i], names) && forall j | 0 <= j < i :: Closed(value.items[j], refs.Keys)
      modifies this
      ensures Valid() && old(refs).Keys <= refs.Keys
      ensures ok ==> Extends(start, refs) && forall j | 0 <= j <= i :: Closed(value.items[j], refs.Keys)
      ensures Closed(value.items[i], names) && Resolves(document, names) ==> ok
      decreases Remaining(), value, 0, 0
    {
      hide Clean, Resolves, Bounded, Closed, Mentions;
      var items := value.items;
      ok := Visit(items[i]);
      if ok {
        ExtendsTwice(start, old(refs), refs);
        ItemsClosedGrow(items[..i], old(refs).Keys, refs.Keys);
        assert forall j | 0 <= j < i :: items[j] == items[..i][j];
      }
    }

    method VisitItems(value: Json) returns (ok: bool)
      requires Valid() && value.Arr? && Mentions(value, names)
      modifies this
      ensures Valid() && old(refs).Keys <= refs.Keys
      ensures ok ==> Extends(old(refs), refs) && forall i | 0 <= i < |value.items| :: Closed(value.items[i], refs.Keys)
      ensures Closed(value, names) && Resolves(document, names) ==> ok
      decreases Remaining(), value, 0, 1
    {
      PartsMention(value, names);
      if Closed(value, names) {
        PartsClosed(value, names);
      }
      hide Clean, Resolves, Bounded, Closed, Mentions;
      var items := value.items;
      ok := true;
      for i := 0 to |items|
        invariant Valid() && Extends(old(refs), refs)
        invariant forall j | 0 <= j < i :: Closed(items[j], refs.Keys)
      {
        LessRemains();
        ok := VisitNext(value, i, old(refs));
        if !ok {
          return;
        }
      }
    }
  }

  lemma SubsetSize(a: set<string>, b: set<string>)
    requires a <= b
    ensures |a| <= |b|
  {
    assert b == a + (b - a);
  }

  /** A bundle that can be built refers only to schemas it contains, and it can be built whenever
      every reference resolves. `names` are the names that occur in the document. */
  method Build(document: string -> Option<Json>, roots: map<string, Json>, ghost names: set<string>)
    returns (ok: bool, bundle: Bundle)
    requires Bounded(document, names)
    requires Mentions(Obj(map k | k in roots :: Clean(roots[k], false)), names)
    ensures bundle.roots == map k | k in roots :: Clean(roots[k], false)
    ensures ok ==> forall k | k in bundle.roots :: Closed(bundle.roots[k], bundle.refs.Keys)
    ensures ok ==> forall ref | ref in bundle.refs ::
                document(ref).Some? && bundle.refs[ref] == Clean(document(ref).value, false) &&
                  Closed(bundle.refs[ref], bundle.refs.Keys)
    ensures Resolves(document, names) && Closed(Obj(bundle.roots), names) ==> ok
  {
    var cleaned := map k | k in roots :: Clean(roots[k], false);
    var collector := new Collector(document, names);
    ok := collector.Visit(Obj(cleaned));
    bundle := Bundle(cleaned, collector.refs);
  }
}
