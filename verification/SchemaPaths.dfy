/** A second reading of agreement. Two schemas agree exactly when no finite path, followed on
    both sides through every reference on the way, leads to a place where they differ locally. */
module SchemaPaths {
  import opened Options
  import opened Json
  import opened SchemaMeaning

  datatype Step = Member(key: string) | Property(name: string) | Item(index: nat)

  ghost function Everything(): iset<Triple> {
    iset a: Json, b: Json, role: Role | true :: (a, b, role)
  }

  /** One step down on both sides. Nothing below a security contract is looked at, because such
      contracts are compared whole. */
  ghost function StepDown(was: Refs, now: Refs, t: Triple, step: Step): Option<Triple> {
    match (HeadOf(was, t.0), HeadOf(now, t.1))
    case (Some(x), Some(y)) =>
      if t.2.Security? then None
      else (match step
            case Member(key) =>
              if x.Obj? && y.Obj? && key in x.members && key in y.members
                 && !(key in {"required", "enum"} && x.members[key].Arr? && y.members[key].Arr?)
                 && !(key == "required" && x.members[key].Bool? && y.members[key].Bool? &&
                      x.members[key] != y.members[key])
                 && !(key == "properties" && x.members[key].Obj? && y.members[key].Obj?)
              then Some((x.members[key], y.members[key], NextRole(key, t.2)))
              else None
            case Property(p) =>
              if HasProperty(x, p) && HasProperty(y, p)
              then Some((x.members["properties"].members[p], y.members["properties"].members[p], t.2))
              else None
            case Item(i) =>
              if x.Arr? && x == y && i < |x.items| then Some((x.items[i], y.items[i], t.2)) else None)
    case _ => None
  }

  predicate HasProperty(v: Json, p: string) {
    v.Obj? && "properties" in v.members && v.members["properties"].Obj? && p in v.members["properties"].members
  }

  ghost function Follow(was: Refs, now: Refs, t: Triple, path: seq<Step>): Option<Triple>
    decreases |path|
  {
    if path == [] then Some(t)
    else match StepDown(was, now, t, path[0])
         case None => None
         case Some(u) => Follow(was, now, u, path[1..])
  }

  /** The two schemas look alike at one place; what lies below is not examined. */
  ghost predicate LocallyAlike(strength: Strength, was: Refs, now: Refs, t: Triple) {
    HeadsMatch(strength, was, now, t.0, t.1, t.2, Everything())
  }

  ghost predicate NoPathDiffers(strength: Strength, was: Refs, now: Refs, t: Triple) {
    forall path :: Follow(was, now, t, path).Some? ==> LocallyAlike(strength, was, now, Follow(was, now, t, path).value)
  }

  lemma {:induction false} FollowOneMore(was: Refs, now: Refs, t: Triple, path: seq<Step>, step: Step)
    requires Follow(was, now, t, path).Some?
    ensures Follow(was, now, t, path + [step]) == StepDown(was, now, Follow(was, now, t, path).value, step)
    decreases |path|
  {
    if path == [] {
      assert [step][1..] == [];
    } else {
      assert (path + [step])[1..] == path[1..] + [step];
      FollowOneMore(was, now, StepDown(was, now, t, path[0]).value, path[1..], step);
    }
  }

  lemma HeadsMatchGrows(strength: Strength, was: Refs, now: Refs, t: Triple, small: iset<Triple>, large: iset<Triple>)
    requires HeadsMatch(strength, was, now, t.0, t.1, t.2, small) && small <= large
    ensures HeadsMatch(strength, was, now, t.0, t.1, t.2, large)
  {
    match (HeadOf(was, t.0), HeadOf(now, t.1)) {
      case (Some(x), Some(y)) => MatchGrows(strength, was, now, x, y, t.2, small, large);
      case _ =>
    }
  }

  /** A step down from a matching pair stays inside the relation it matches in. */
  lemma StepStays(strength: Strength, was: Refs, now: Refs, t: Triple, step: Step, rel: iset<Triple>)
    requires HeadsMatch(strength, was, now, t.0, t.1, t.2, rel)
    requires StepDown(was, now, t, step).Some?
    ensures StepDown(was, now, t, step).value in rel
  {
    var x, y := HeadOf(was, t.0).value, HeadOf(now, t.1).value;
    if x.Obj? && y.Obj? {
      var key := if step.Member? then step.key else "properties";
      assert KeyOk(strength, key, t.2, x.members, y.members, rel);
    }
  }

  lemma {:induction false} AgreementFollows(strength: Strength, was: Refs, now: Refs, t: Triple, path: seq<Step>,
        rel: iset<Triple>)
    requires IsSimulation(strength, was, now, rel) && HeadsMatch(strength, was, now, t.0, t.1, t.2, rel)
    requires Follow(was, now, t, path).Some?
    ensures LocallyAlike(strength, was, now, Follow(was, now, t, path).value)
    decreases |path|
  {
    if path == [] {
      HeadsMatchGrows(strength, was, now, t, rel, Everything());
    } else {
      StepStays(strength, was, now, t, path[0], rel);
      AgreementFollows(strength, was, now, StepDown(was, now, t, path[0]).value, path[1..], rel);
    }
  }

  /** A pair that is locally alike matches in any relation that contains every step down. */
  lemma StepsSuffice(strength: Strength, was: Refs, now: Refs, t: Triple, rel: iset<Triple>)
    requires LocallyAlike(strength, was, now, t)
    requires forall step | StepDown(was, now, t, step).Some? :: StepDown(was, now, t, step).value in rel
    ensures HeadsMatch(strength, was, now, t.0, t.1, t.2, rel)
  {
    match (HeadOf(was, t.0), HeadOf(now, t.1)) {
      case (Some(x), Some(y)) =>
        if !t.2.Security? && x.Obj? && y.Obj? {
          forall key ensures KeyOk(strength, key, t.2, x.members, y.members, rel) {
            assert KeyOk(strength, key, t.2, x.members, y.members, Everything());
            if key in x.members && key in y.members {
              assert StepDown(was, now, t, Member(key)).Some? ==> StepDown(was, now, t, Member(key)).value in rel;
              if key == "properties" && x.members[key].Obj? && y.members[key].Obj? {
                forall p | p in x.members[key].members && p in y.members[key].members
                  ensures (x.members[key].members[p], y.members[key].members[p], t.2) in rel
                {
                  assert StepDown(was, now, t, Property(p)).Some?;
                }
              }
            }
          }
        } else if !t.2.Security? && x.Arr? && x == y {
          forall i | 0 <= i < |x.items| ensures (x.items[i], y.items[i], t.2) in rel {
            assert StepDown(was, now, t, Item(i)).Some?;
          }
        }
      case _ =>
    }
  }

  lemma AgreeIffNoPathDiffers(strength: Strength, was: Refs, now: Refs, a: Json, b: Json, role: Role)
    ensures Agree(strength, was, now, a, b, role) <==> NoPathDiffers(strength, was, now, (a, b, role))
  {
    var t := (a, b, role);
    if Agree(strength, was, now, a, b, role) {
      var rel :| IsSimulation(strength, was, now, rel) && HeadsMatch(strength, was, now, a, b, role, rel);
      forall path | Follow(was, now, t, path).Some?
        ensures LocallyAlike(strength, was, now, Follow(was, now, t, path).value)
      {
        AgreementFollows(strength, was, now, t, path, rel);
      }
    }
    if NoPathDiffers(strength, was, now, t) {
      var rel := iset u: Triple | exists path :: Follow(was, now, t, path) == Some(u);
      forall u | u in rel ensures HeadsMatch(strength, was, now, u.0, u.1, u.2, rel) {
        var path :| Follow(was, now, t, path) == Some(u);
        forall step | StepDown(was, now, u, step).Some? ensures StepDown(was, now, u, step).value in rel {
          FollowOneMore(was, now, t, path, step);
        }
        StepsSuffice(strength, was, now, u, rel);
      }
      assert Follow(was, now, t, []) == Some(t);
      assert t in rel;
    }
  }
}
