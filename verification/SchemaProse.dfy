/** What cleaning a schema keeps. Two schemas are cleaned to the same value exactly when no finite
    path, through names and members that are not prose, leads to a place where they differ. */
module SchemaProse {
  import opened Options
  import opened Json
  import opened SchemaBundle

  datatype Step = Name(key: string) | Index(at: nat)

  /** A place below a value, and whether it is a map from names. */
  function Below(v: Json, named: bool, step: Step): Option<(Json, bool)> {
    match (v, step)
    case (Obj(m), Name(key)) =>
      if key !in m || (key in DOC_KEYS && !named) then None else Some((m[key], key in NAMED_MAPS))
    case (Arr(xs), Index(i)) => if i < |xs| then Some((xs[i], false)) else None
    case _ => None
  }

  function Place(v: Json, named: bool, path: seq<Step>): Option<(Json, bool)>
    decreases |path|
  {
    if path == [] then Some((v, named))
    else match Below(v, named, path[0])
         case None => None
         case Some(place) => Place(place.0, place.1, path[1..])
  }

  /** Two values look alike at one place; what lies below is not examined. */
  ghost predicate Alike(a: Json, b: Json, named: bool) {
    match (a, b)
    case (Obj(_), Obj(_)) =>
      forall key: string :: Below(a, named, Name(key)).Some? <==> Below(b, named, Name(key)).Some?
    case (Arr(xs), Arr(ys)) => |xs| == |ys|
    case _ => a == b
  }

  ghost predicate AlikeAt(a: Json, b: Json, named: bool, path: seq<Step>) {
    match (Place(a, named, path), Place(b, named, path))
    case (Some(x), Some(y)) => Alike(x.0, y.0, x.1)
    case _ => true
  }

  ghost predicate NothingDiffers(a: Json, b: Json, named: bool) {
    forall path :: AlikeAt(a, b, named, path)
  }

  lemma BelowStaysClean(a: Json, b: Json, named: bool, step: Step)
    requires Clean(a, named) == Clean(b, named)
    ensures Alike(a, b, named)
    ensures Below(a, named, step).Some? && Below(b, named, step).Some? ==>
              var x, y := Below(a, named, step).value, Below(b, named, step).value;
              x.1 == y.1 && Clean(x.0, x.1) == Clean(y.0, y.1)
  {
    match (a, b) {
      case (Obj(m), Obj(n)) =>
        var once := Clean(a, named).members;
        assert once == Clean(b, named).members;
        forall key: string ensures Below(a, named, Name(key)).Some? <==> Below(b, named, Name(key)).Some? {
          assert key in once <==> Below(a, named, Name(key)).Some?;
        }
        if step.Name? && Below(a, named, step).Some? && Below(b, named, step).Some? {
          assert once[step.key] == Clean(m[step.key], step.key in NAMED_MAPS);
        }
      case (Arr(xs), Arr(ys)) =>
        var once := Clean(a, named).items;
        assert once == Clean(b, named).items && |once| == |xs| == |ys|;
        if step.Index? && step.at < |xs| {
          assert once[step.at] == Clean(xs[step.at], false);
        }
      case _ =>
    }
  }

  lemma {:induction false} CleanedAlike(a: Json, b: Json, named: bool, path: seq<Step>)
    requires Clean(a, named) == Clean(b, named)
    ensures AlikeAt(a, b, named, path)
    decreases |path|
  {
    hide Clean, Alike;
    if path == [] {
      BelowStaysClean(a, b, named, Index(0));
    } else {
      BelowStaysClean(a, b, named, path[0]);
      match (Below(a, named, path[0]), Below(b, named, path[0])) {
        case (Some(x), Some(y)) => CleanedAlike(x.0, y.0, x.1, path[1..]);
        case _ =>
      }
    }
  }

  lemma NothingDiffersBelow(a: Json, b: Json, named: bool, step: Step)
    requires NothingDiffers(a, b, named)
    requires Below(a, named, step).Some? && Below(b, named, step).Some?
    ensures var x, y := Below(a, named, step).value, Below(b, named, step).value;
            x.1 == y.1 ==> NothingDiffers(x.0, y.0, x.1)
  {
    hide Alike;
    var x, y := Below(a, named, step).value, Below(b, named, step).value;
    if x.1 == y.1 {
      forall path ensures AlikeAt(x.0, y.0, x.1, path) {
        assert ([step] + path)[1..] == path;
        assert AlikeAt(a, b, named, [step] + path);
      }
    }
  }

  lemma {:induction false} UnlikeCleaned(a: Json, b: Json, named: bool)
    requires NothingDiffers(a, b, named)
    ensures Clean(a, named) == Clean(b, named)
    decreases a
  {
    assert AlikeAt(a, b, named, []);
    match (a, b) {
      case (Obj(m), Obj(n)) =>
        var once, twice := Clean(a, named).members, Clean(b, named).members;
        forall key: string
          ensures key in once <==> key in twice
          ensures key in once && key in twice ==> once[key] == twice[key]
        {
          assert Below(a, named, Name(key)).Some? <==> Below(b, named, Name(key)).Some?;
          if key in once {
            NothingDiffersBelow(a, b, named, Name(key));
            UnlikeCleaned(m[key], n[key], key in NAMED_MAPS);
          }
        }
        assert once == twice;
      case (Arr(xs), Arr(ys)) =>
        forall i | 0 <= i < |xs| ensures Clean(xs[i], false) == Clean(ys[i], false) {
          NothingDiffersBelow(a, b, named, Index(i));
          UnlikeCleaned(xs[i], ys[i], false);
        }
        assert Clean(a, named).items == Clean(b, named).items;
      case _ =>
    }
  }

  /** Cleaning hides exactly the prose: two values become the same if and only if they look alike at
      every place that a path through their other members reaches. */
  lemma CleanHidesOnlyProse(a: Json, b: Json, named: bool)
    ensures Clean(a, named) == Clean(b, named) <==> NothingDiffers(a, b, named)
  {
    hide Clean, AlikeAt;
    if Clean(a, named) == Clean(b, named) {
      forall path ensures AlikeAt(a, b, named, path) {
        CleanedAlike(a, b, named, path);
      }
    }
    if NothingDiffers(a, b, named) {
      UnlikeCleaned(a, b, named);
    }
  }

  lemma ProseWords(key: string)
    ensures key in DOC_KEYS <==>
            key in {"description", "title", "summary", "example", "examples", "externalDocs", "$comment",
                    "x-oaiMeta", "x-stainless-naming"}
  {
  }

  lemma MapsFromNames(key: string)
    ensures key in NAMED_MAPS <==>
            key in {"properties", "patternProperties", "definitions", "$defs", "schemas", "paths", "responses",
                    "content", "securitySchemes"}
  {
  }

  lemma MemberIsKept(m: map<string, Json>, key: string, v: Json, named: bool)
    requires named || key !in DOC_KEYS
    ensures key in Clean(Obj(m[key := v]), named).members
    ensures Clean(Obj(m[key := v]), named).members[key] == Clean(v, key in NAMED_MAPS)
  {
  }

  lemma MemberIsDropped(m: map<string, Json>, key: string, was: Json, now: Json)
    requires key in DOC_KEYS
    ensures Clean(Obj(m[key := was]), false) == Clean(Obj(m[key := now]), false)
  {
    hide DOC_KEYS, NAMED_MAPS;
    var a, b := Obj(m[key := was]), Obj(m[key := now]);
    assert Clean(a, false).members == Clean(b, false).members;
  }

  /** Prose makes no difference, and nothing else outside a map from names is hidden. */
  lemma ProseIsHidden(m: map<string, Json>, key: string, was: Json, now: Json)
    requires Clean(was, key in NAMED_MAPS) != Clean(now, key in NAMED_MAPS)
    ensures key in {"description", "title", "summary", "example", "examples", "externalDocs", "$comment",
                    "x-oaiMeta", "x-stainless-naming"} <==>
            Clean(Obj(m[key := was]), false) == Clean(Obj(m[key := now]), false)
  {
    hide *;
    ProseWords(key);
    if key in DOC_KEYS {
      MemberIsDropped(m, key, was, now);
    } else {
      MemberIsKept(m, key, was, false);
      MemberIsKept(m, key, now, false);
    }
  }

  lemma OnlyMember(key: string, v: Json)
    ensures Clean(Obj(map[key := v]), true) == Obj(map[key := Clean(v, key in NAMED_MAPS)])
  {
    hide DOC_KEYS, NAMED_MAPS;
    assert Clean(Obj(map[key := v]), true).members == map[key := Clean(v, key in NAMED_MAPS)];
  }

  lemma ScalarIsKept(text: string, named: bool)
    ensures Clean(Str(text), named) == Str(text)
  {
  }

  /** A changed type does. */
  lemma TypeIsSeen(m: map<string, Json>, named: bool, was: string, now: string)
    requires was != now
    ensures Clean(Obj(m["type" := Str(was)]), named) != Clean(Obj(m["type" := Str(now)]), named)
  {
    assert "type" !in DOC_KEYS by {
      assert forall key | key in DOC_KEYS :: |key| != 4;
    }
    hide Clean, DOC_KEYS, NAMED_MAPS;
    MemberIsKept(m, "type", Str(was), named);
    MemberIsKept(m, "type", Str(now), named);
    ScalarIsKept(was, "type" in NAMED_MAPS);
    ScalarIsKept(now, "type" in NAMED_MAPS);
  }

  /** A name that is a word for prose is kept exactly in the maps from names. */
  lemma NamesAreSeen(m: map<string, Json>, key: string, name: string, was: string, now: string)
    requires was != now && name in DOC_KEYS
    ensures var p, q := Obj(m[name := Str(was)]), Obj(m[name := Str(now)]);
            Clean(Obj(map[key := p]), true) != Clean(Obj(map[key := q]), true) <==>
            key in {"properties", "patternProperties", "definitions", "$defs", "schemas", "paths", "responses",
                    "content", "securitySchemes"}
  {
    hide *;
    var p, q := Obj(m[name := Str(was)]), Obj(m[name := Str(now)]);
    MapsFromNames(key);
    MemberIsKept(map[], key, p, true);
    MemberIsKept(map[], key, q, true);
    if key in NAMED_MAPS {
      MemberIsKept(m, name, Str(was), true);
      MemberIsKept(m, name, Str(now), true);
      ScalarIsKept(was, name in NAMED_MAPS);
      ScalarIsKept(now, name in NAMED_MAPS);
    } else {
      MemberIsDropped(m, name, Str(was), Str(now));
      OnlyMember(key, p);
      OnlyMember(key, q);
    }
  }

  /** Properties called description are seen in every schema. */
  lemma PropertyIsSeen(m: map<string, Json>, named: bool, was: string, now: string)
    requires was != now
    ensures var p, q := Obj(m["description" := Str(was)]), Obj(m["description" := Str(now)]);
            Clean(Obj(map["properties" := p]), named) != Clean(Obj(map["properties" := q]), named)
  {
    assert "properties" !in DOC_KEYS && "properties" in NAMED_MAPS by {
      assert forall key | key in DOC_KEYS && |key| == 10 :: key[0] == 'x';
    }
    hide Clean, DOC_KEYS, NAMED_MAPS;
    var p, q := Obj(m["description" := Str(was)]), Obj(m["description" := Str(now)]);
    MemberIsKept(m, "description", Str(was), true);
    MemberIsKept(m, "description", Str(now), true);
    ScalarIsKept(was, "description" in NAMED_MAPS);
    ScalarIsKept(now, "description" in NAMED_MAPS);
    MemberIsKept(map[], "properties", p, named);
    MemberIsKept(map[], "properties", q, named);
  }
}
