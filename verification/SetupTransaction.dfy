/** The installer's file transaction, deploy/kata/setup.py: managed files are copied before the first
    one is written, and any later failure puts the copies back. */
module SetupTransaction {
  import opened Options
  import opened Faults

  datatype File = File(data: seq<char>, mode: nat)

  const NODE_UNIT := "/etc/systemd/system/codex-dock-node.service"
  const BUILDKIT_UNIT := "/etc/systemd/system/codex-dock-buildkit.service"
  const CONTAINERD_UNIT := "/etc/systemd/system/codex-dock-containerd.service"
  const BUILDCTL := "/usr/local/bin/buildctl"
  const SYSCTL := "/etc/sysctl.d/80-codex-dock.conf"
  const MODULES := "/etc/modules-load.d/codex-dock.conf"
  const OAISO := "/usr/local/bin/oaiso"
  const BASH := "/usr/local/share/bash-completion/completions/oaiso"
  const ZSH := "/usr/local/share/zsh/site-functions/_oaiso"
  const FISH := "/usr/local/share/fish/vendor_completions.d/oaiso.fish"
  const OAISO_FILES := [OAISO, BASH, ZSH, FISH]
  const ACTIVE := [NODE_UNIT, BUILDKIT_UNIT, CONTAINERD_UNIT, BUILDCTL, SYSCTL, MODULES, OAISO, BASH, ZSH, FISH]
  const LEGACY := [
    "/usr/local/bin/codex-dock", "/usr/local/bin/cxd",
    "/usr/local/share/bash-completion/completions/cxd", "/usr/local/share/zsh/site-functions/_cxd",
    "/usr/local/share/fish/vendor_completions.d/cxd.fish",
    "/usr/local/share/bash-completion/completions/codex-dock", "/usr/local/share/zsh/site-functions/_codex-dock",
    "/usr/local/share/fish/vendor_completions.d/codex-dock.fish"]
  const MANAGED := ACTIVE + LEGACY

  /** Where one file was before the transaction: its copy, or that it was absent. */
  datatype Item = Item(path: string, saved: Option<(nat, nat)>, mode: nat)

  datatype Install = Install(release: string, rollback: Option<nat>, oaiso: bool)

  datatype Transaction = Transaction(files: seq<Item>, previous: Option<Install>)

  /** What a release puts in place of the units, the binaries and the completions. */
  datatype Release = Release(units: seq<seq<char>>, oaiso: seq<char>, buildctl: seq<char>, completions: seq<seq<char>>)

  datatype Outcome = Done | Refused | RolledBack | Stranded

  predicate Distinct(paths: seq<string>) {
    forall i, j | 0 <= i < j < |paths| :: paths[i] != paths[j]
  }

  function Paths(items: seq<Item>): (r: seq<string>)
    ensures |r| == |items| && forall i | 0 <= i < |items| :: r[i] == items[i].path
  {
    seq(|items|, i requires 0 <= i < |items| => items[i].path)
  }

  /** The permission bits that a copy keeps. */
  function Permissions(mode: nat): nat {
    mode % 0x200
  }

  ghost predicate ItemDescribes(item: Item, files: map<string, File>, copies: map<(nat, nat), File>) {
    if item.path in files then
      && item.saved.Some? && item.saved.value in copies
      && copies[item.saved.value].data == files[item.path].data
      && item.mode == Permissions(files[item.path].mode)
    else item.saved.None?
  }

  /** The copies stand for the files as they were. */
  ghost predicate Describes(items: seq<Item>, files: map<string, File>, copies: map<(nat, nat), File>) {
    forall i | 0 <= i < |items| :: ItemDescribes(items[i], files, copies)
  }

  /** Every path that differs is one of these. */
  ghost predicate OnlyAmong(paths: seq<string>, before: map<string, File>, after: map<string, File>) {
    forall p | p !in paths :: (p in before <==> p in after) && (p in before ==> before[p] == after[p])
  }

  lemma SameIsOnlyAmong(paths: seq<string>, a: map<string, File>)
    ensures OnlyAmong(paths, a, a)
  {
  }

  lemma OnlyAmongChains(paths: seq<string>, a: map<string, File>, b: map<string, File>, c: map<string, File>)
    requires OnlyAmong(paths, a, b) && OnlyAmong(paths, b, c)
    ensures OnlyAmong(paths, a, c)
  {
  }

  lemma OnlyAmongMore(paths: seq<string>, more: seq<string>, a: map<string, File>, b: map<string, File>)
    requires OnlyAmong(paths, a, b) && forall p | p in paths :: p in more
    ensures OnlyAmong(more, a, b)
  {
  }

  /** A path holds what it held, with the bits above the permissions gone. */
  ghost predicate PutBack(p: string, before: map<string, File>, after: map<string, File>) {
    && (p in before <==> p in after)
    && (p in before ==> after[p] == File(before[p].data, Permissions(before[p].mode)))
  }

  ghost predicate AllPutBack(paths: seq<string>, before: map<string, File>, after: map<string, File>) {
    && (forall p | p in paths :: PutBack(p, before, after))
    && OnlyAmong(paths, before, after)
  }

  ghost predicate PlainModes(paths: seq<string>, files: map<string, File>) {
    forall p | p in paths && p in files :: files[p].mode < 0x200
  }

  /** Putting files back restores the file system exactly when none of them had a mode bit above the
      permissions, such as set-user-id. */
  lemma PutBackIsIdentity(paths: seq<string>, before: map<string, File>, after: map<string, File>)
    requires AllPutBack(paths, before, after)
    ensures after == before <==> PlainModes(paths, before)
  {
    if PlainModes(paths, before) {
      forall p ensures p in before <==> p in after
        ensures p in before ==> before[p] == after[p]
      {
        if p in paths {
          assert PutBack(p, before, after);
        }
      }
    } else {
      var p :| p in paths && p in before && before[p].mode >= 0x200;
      assert PutBack(p, before, after);
    }
  }

  /** The lengths of the managed paths, which tell them apart except for one pair. */
  function Lengths(): seq<nat> {
    [43, 47, 49, 23, 32, 35, 20, 50, 42, 53, 25, 18, 48, 40, 51, 55, 47, 58]
  }

  lemma ActiveLengths()
    ensures |ACTIVE| == 10 && forall i | 0 <= i < 10 :: |ACTIVE[i]| == Lengths()[i]
    ensures ACTIVE[1][46] == 'e'
  {
    assert |NODE_UNIT| == 43 && |BUILDKIT_UNIT| == 47 && |CONTAINERD_UNIT| == 49 && |BUILDCTL| == 23 && |SYSCTL| == 32;
    assert |MODULES| == 35 && |OAISO| == 20 && |BASH| == 50 && |ZSH| == 42 && |FISH| == 53;
  }

  lemma LegacyLengths()
    ensures |LEGACY| == 8 && forall i | 0 <= i < 8 :: |LEGACY[i]| == Lengths()[10 + i]
    ensures LEGACY[6][46] == 'k'
  {
  }

  /** No managed path is listed twice. */
  lemma ManagedIsDistinct()
    ensures Distinct(MANAGED)
  {
    ActiveLengths();
    LegacyLengths();
    hide ACTIVE, LEGACY;
    assert |MANAGED| == 18 && forall i | 0 <= i < 18 :: |MANAGED[i]| == Lengths()[i];
    assert MANAGED[1] == ACTIVE[1] && MANAGED[16] == LEGACY[6];
    hide MANAGED;
    forall i, j | 0 <= i < j < 18 ensures MANAGED[i] != MANAGED[j] {
      assert Lengths()[i] != Lengths()[j] || (i == 1 && j == 16);
    }
  }

  function Targets(legacy: seq<string>): seq<string> {
    ACTIVE + legacy
  }

  lemma TargetsAreManaged(legacy: seq<string>)
    requires Distinct(legacy) && forall p | p in legacy :: p in LEGACY
    ensures Distinct(Targets(legacy)) && forall p | p in Targets(legacy) :: p in MANAGED
  {
    ManagedIsDistinct();
    hide ACTIVE, LEGACY;
    forall i, j | 0 <= i < j < |Targets(legacy)| ensures Targets(legacy)[i] != Targets(legacy)[j] {
      if i < |ACTIVE| <= j {
        assert legacy[j - |ACTIVE|] in legacy;
        var k :| 0 <= k < |LEGACY| && LEGACY[k] == legacy[j - |ACTIVE|];
        assert MANAGED[i] == ACTIVE[i] && MANAGED[|ACTIVE| + k] == LEGACY[k];
      } else if j < |ACTIVE| {
        assert MANAGED[i] == ACTIVE[i] && MANAGED[j] == ACTIVE[j];
      }
    }
  }

  /** The files an install writes, in order; the old command's files go before the last two. */
  function Writes(r: Release): seq<(string, File)>
    requires |r.units| == 3 && |r.completions| == 3
  {
    [(NODE_UNIT, File(r.units[0], 0x1a4)), (BUILDKIT_UNIT, File(r.units[1], 0x1a4)),
      (CONTAINERD_UNIT, File(r.units[2], 0x1a4)),
     (OAISO, File(r.oaiso, 0x1ed)), (BUILDCTL, File(r.buildctl, 0x1ed)),
     (BASH, File(r.completions[0], 0x1a4)), (ZSH, File(r.completions[1], 0x1a4)),
     (FISH, File(r.completions[2], 0x1a4)),
     (SYSCTL, File("net.ipv4.ip_forward = 1\n", 0x1a4)), (MODULES, File("vhost_vsock\nvhost_net\n", 0x1a4))]
  }

  function Order(): seq<nat> {
    [0, 1, 2, 6, 3, 7, 8, 9, 4, 5]
  }

  lemma WritesFollowOrder(r: Release)
    requires |r.units| == 3 && |r.completions| == 3
    ensures |Writes(r)| == 10 == |ACTIVE| && forall k | 0 <= k < 10 :: Writes(r)[k].0 == ACTIVE[Order()[k]]
  {
  }

  function FirstPaths(writes: seq<(string, File)>): (r: seq<string>)
    ensures |r| == |writes| && forall i | 0 <= i < |writes| :: r[i] == writes[i].0
  {
    seq(|writes|, i requires 0 <= i < |writes| => writes[i].0)
  }

  /** Every written path is an active managed path, and none is written twice. */
  lemma WritesAreActive(r: Release)
    requires |r.units| == 3 && |r.completions| == 3
    ensures forall k | 0 <= k < 10 :: Writes(r)[k].0 in ACTIVE
    ensures forall j, k | 0 <= j < k < 10 :: Writes(r)[j].0 != Writes(r)[k].0
  {
    ManagedIsDistinct();
    var order := Order();
    WritesFollowOrder(r);
    assert forall i | 0 <= i < |ACTIVE| :: ACTIVE[i] == MANAGED[i];
    hide ACTIVE, MANAGED, Writes;
    assert forall j, k | 0 <= j < k < 10 :: order[j] != order[k];
  }

  predicate Placed(files: map<string, File>, w: (string, File)) {
    w.0 in files && files[w.0] == w.1
  }

  lemma LegacyIsNotWritten(r: Release, legacy: seq<string>)
    requires |r.units| == 3 && |r.completions| == 3
    requires Distinct(legacy) && forall p | p in legacy :: p in LEGACY
    ensures forall k | 0 <= k < 10 :: Writes(r)[k].0 !in legacy && Writes(r)[k].0 in Targets(legacy)
  {
    WritesAreActive(r);
    TargetsAreManaged(legacy);
    hide ACTIVE, MANAGED, LEGACY, Writes;
    forall k | 0 <= k < 10 ensures Writes(r)[k].0 !in legacy {
      var i :| 0 <= i < |ACTIVE| && ACTIVE[i] == Writes(r)[k].0;
      assert Targets(legacy)[i] == Writes(r)[k].0;
      assert forall j | 0 <= j < |legacy| :: Targets(legacy)[|ACTIVE| + j] == legacy[j];
    }
  }

  /** The three phases of an install touch different paths, all of them targets. */
  lemma PhasesAreApart(r: Release, legacy: seq<string>)
    requires |r.units| == 3 && |r.completions| == 3
    requires Distinct(legacy) && forall p | p in legacy :: p in LEGACY
    ensures var early, late := FirstPaths(Writes(r)[..8]), FirstPaths(Writes(r)[8..]);
            && |Writes(r)| == 10 && Distinct(early) && Distinct(late)
            && (forall p | p in early || p in late || p in legacy :: p in Targets(legacy))
            && (forall k | 0 <= k < 8 :: Writes(r)[k].0 !in legacy && Writes(r)[k].0 !in late)
            && (forall p | p in legacy :: p !in early && p !in late)
  {
    WritesAreActive(r);
    LegacyIsNotWritten(r, legacy);
    WritesFollowOrder(r);
    hide ACTIVE, MANAGED, LEGACY, Writes;
    var writes := Writes(r);
    assert FirstPaths(writes[8..]) == [writes[8].0, writes[9].0];
    assert forall i | 0 <= i < 8 :: FirstPaths(writes[..8])[i] == writes[i].0;
  }

  predicate Holds(files: map<string, File>, path: string, data: seq<char>, mode: nat) {
    path in files && files[path] == File(data, mode)
  }

  /** The release is in place: units, completions and settings for everyone to read, programs to run. */
  ghost predicate Deployed(files: map<string, File>, r: Release)
    requires |r.units| == 3 && |r.completions| == 3
  {
    && Holds(files, NODE_UNIT, r.units[0], 0x1a4) && Holds(files, BUILDKIT_UNIT, r.units[1], 0x1a4)
    && Holds(files, CONTAINERD_UNIT, r.units[2], 0x1a4)
    && Holds(files, OAISO, r.oaiso, 0x1ed) && Holds(files, BUILDCTL, r.buildctl, 0x1ed)
    && Holds(files, BASH, r.completions[0], 0x1a4) && Holds(files, ZSH, r.completions[1], 0x1a4)
    && Holds(files, FISH, r.completions[2], 0x1a4)
    && Holds(files, SYSCTL, "net.ipv4.ip_forward = 1\n", 0x1a4)
    && Holds(files, MODULES, "vhost_vsock\nvhost_net\n", 0x1a4)
  }

  /** Writing all the files puts the release in place. */
  lemma WritesDeploy(files: map<string, File>, r: Release)
    requires |r.units| == 3 && |r.completions| == 3
    requires forall k | 0 <= k < 10 :: Placed(files, Writes(r)[k])
    ensures Deployed(files, r)
  {
    var w := Writes(r);
    assert Placed(files, w[0]) && Placed(files, w[1]) && Placed(files, w[2]) && Placed(files, w[3]) &&
           Placed(files, w[4]) && Placed(files, w[5]) && Placed(files, w[6]) && Placed(files, w[7]) &&
           Placed(files, w[8]) && Placed(files, w[9]);
  }

  lemma StaysPlaced(paths: seq<string>, a: map<string, File>, b: map<string, File>, w: (string, File))
    requires OnlyAmong(paths, a, b) && w.0 !in paths && Placed(a, w)
    ensures Placed(b, w)
  {
  }

  lemma StaysPresent(paths: seq<string>, a: map<string, File>, b: map<string, File>, kept: seq<string>)
    requires OnlyAmong(paths, a, b) && forall p | p in kept :: p !in paths && p in a
    ensures forall p | p in kept :: p in b
  {
  }

  lemma StaysAbsent(paths: seq<string>, a: map<string, File>, b: map<string, File>, gone: seq<string>)
    requires OnlyAmong(paths, a, b) && forall p | p in gone :: p !in paths && p !in a
    ensures forall p | p in gone :: p !in b
  {
  }

  class Host {
    const world: nat -> Fault
    var clock: nat
    var files: map<string, File>
    var copies: map<(nat, nat), File>
    var journals: map<nat, Transaction>
    var installed: Option<Install>

    constructor (world: nat -> Fault, files: map<string, File>, installed: Option<Install>)
      ensures this.world == world && this.files == files && this.installed == installed
      ensures copies == map[] && journals == map[] && clock == 0
    {
      this.world := world;
      this.clock := 0;
      this.files := files;
      this.installed := installed;
      this.copies := map[];
      this.journals := map[];
    }

    /** Something failed at or after this moment. */
    ghost predicate FaultSince(from: nat)
      reads this`clock
    {
      exists n :: from <= n < clock && !world(n).Fine?
    }

    method Step() returns (f: Fault)
      modifies this`clock
      ensures f == world(old(clock)) && clock == old(clock) + 1
      ensures !f.Fine? ==> FaultSince(old(clock))
    {
      f := world(clock);
      clock := clock + 1;
    }

    method Atomic(path: string, data: seq<char>, mode: nat) returns (ok: bool)
      modifies this`clock, this`files
      ensures clock > old(clock)
      ensures files == old(files) || files == old(files)[path := File(data, mode)]
      ensures ok ==> files == old(files)[path := File(data, mode)]
      ensures !ok ==> FaultSince(old(clock))
    {
      var f := Step();
      if !f.Lost? {
        files := files[path := File(data, mode)];
      }
      ok := f.Fine?;
    }

    method Unlink(path: string, missingOk: bool) returns (ok: bool)
      modifies this`clock, this`files
      ensures clock > old(clock)
      ensures files == old(files) || files == old(files) - {path}
      ensures ok ==> files == old(files) - {path}
      ensures !ok ==> FaultSince(old(clock)) || (!missingOk && path !in old(files))
    {
      var f := Step();
      if path !in files && !missingOk {
        return false;
      }
      if !f.Lost? {
        files := files - {path};
      }
      ok := f.Fine?;
    }

    /** Copies every path that exists, and notes the ones that do not. */
    method Backup(stamp: nat, paths: seq<string>) returns (ok: bool, items: seq<Item>)
      requires forall i :: (stamp, i) !in copies
      modifies this`clock, this`copies
      ensures clock >= old(clock)
      ensures forall k | k in old(copies) :: k in copies && copies[k] == old(copies)[k]
      ensures forall k | k in copies && k !in old(copies) :: k.0 == stamp
      ensures ok ==> Paths(items) == paths && Describes(items, files, copies)
      ensures !ok ==> FaultSince(old(clock))
      ensures clock <= old(clock) + 1 + |paths| && (ok ==> clock == old(clock) + 1 + |paths|)
    {
      items := [];
      var f := Step();
      if !f.Fine? {
        return false, items;
      }
      for i := 0 to |paths|
        invariant clock == old(clock) + 1 + i && |items| == i
        invariant forall k | k in old(copies) :: k in copies && copies[k] == old(copies)[k]
        invariant forall k | k in copies && k !in old(copies) :: k.0 == stamp && k.1 < i
        invariant forall j | 0 <= j < i :: items[j].path == paths[j]
        invariant Describes(items, files, copies)
      {
        f := Step();
        if f.Lost? {
          return false, items;
        }
        if paths[i] in files {
          var file := files[paths[i]];
          var mode := Permissions(file.mode);
          copies := copies[(stamp, i) := File(file.data, mode)];
          if f.Late? {
            return false, items;
          }
          items := items + [Item(paths[i], Some((stamp, i)), mode)];
        } else {
          if f.Late? {
            return false, items;
          }
          items := items + [Item(paths[i], None, 0)];
        }
      }
      assert Paths(items) == paths;
      ok := true;
    }

    /** Puts every path of a transaction back, and refuses a path that is not managed. */
    method Restore(items: seq<Item>, ghost before: map<string, File>) returns (ok: bool)
      requires Describes(items, before, copies) && Distinct(Paths(items))
      modifies this`clock, this`files
      ensures clock >= old(clock) && OnlyAmong(Paths(items), old(files), files)
      ensures ok ==> forall p | p in Paths(items) :: PutBack(p, before, files)
      ensures !ok ==> FaultSince(old(clock)) || exists p :: p in Paths(items) && p !in MANAGED
    {
      hide MANAGED;
      ghost var paths := Paths(items);
      for i := 0 to |items|
        invariant clock >= old(clock)
        invariant OnlyAmong(paths, old(files), files)
        invariant forall j | 0 <= j < i :: PutBack(items[j].path, before, files)
      {
        var item := items[i];
        assert ItemDescribes(item, before, copies) && paths[i] == item.path && item.path in paths;
        if item.path !in MANAGED {
          return false;
        }
        ghost var start := clock;
        if item.saved.Some? {
          ok := Atomic(item.path, copies[item.saved.value].data, item.mode);
        } else {
          ok := Unlink(item.path, true);
        }
        if !ok {
          assert FaultSince(start);
          return;
        }
        forall j | 0 <= j < i ensures PutBack(items[j].path, before, files) {
          assert paths[j] != paths[i];
        }
      }
      forall p | p in paths ensures PutBack(p, before, files) {
        var j :| 0 <= j < |paths| && paths[j] == p;
        assert PutBack(items[j].path, before, files);
      }
      ok := true;
    }

    method Place(writes: seq<(string, File)>) returns (ok: bool)
      requires Distinct(FirstPaths(writes))
      modifies this`clock, this`files
      ensures clock >= old(clock) && OnlyAmong(FirstPaths(writes), old(files), files)
      ensures ok ==> forall k | 0 <= k < |writes| :: Placed(files, writes[k])
      ensures !ok ==> FaultSince(old(clock))
    {
      ghost var paths := FirstPaths(writes);
      for i := 0 to |writes|
        invariant clock >= old(clock) && OnlyAmong(paths, old(files), files)
        invariant forall k | 0 <= k < i :: Placed(files, writes[k])
      {
        ok := Atomic(writes[i].0, writes[i].1.data, writes[i].1.mode);
        assert paths[i] in paths;
        if !ok {
          return;
        }
        assert forall k | 0 <= k < i :: paths[k] != paths[i];
      }
      ok := true;
    }

    method RemoveAll(legacy: seq<string>) returns (ok: bool)
      requires Distinct(legacy) && forall p | p in legacy :: p in files
      modifies this`clock, this`files
      ensures clock >= old(clock) && OnlyAmong(legacy, old(files), files)
      ensures ok ==> forall p | p in legacy :: p !in files
      ensures !ok ==> FaultSince(old(clock))
    {
      for i := 0 to |legacy|
        invariant clock >= old(clock) && OnlyAmong(legacy, old(files), files)
        invariant forall j | 0 <= j < i :: legacy[j] !in files
        invariant forall j | i <= j < |legacy| :: legacy[j] in files
      {
        ok := Unlink(legacy[i], false);
        if !ok {
          return;
        }
      }
      ok := true;
    }

    /** The files of a release, and away with those of the old command. */
    method WriteFiles(release: Release, legacy: seq<string>) returns (ok: bool)
      requires |release.units| == 3 && |release.completions| == 3
      requires Distinct(legacy) && (forall p | p in legacy :: p in LEGACY) && forall p | p in legacy :: p in files
      modifies this`clock, this`files
      ensures clock >= old(clock) && OnlyAmong(Targets(legacy), old(files), files)
      ensures !ok ==> FaultSince(old(clock))
      ensures ok ==> forall k | 0 <= k < 10 :: Placed(files, Writes(release)[k])
      ensures ok ==> forall p | p in legacy :: p !in files
    {
      hide ACTIVE, MANAGED, LEGACY, Writes, Placed, OnlyAmong;
      ghost var targets, start := Targets(legacy), files;
      var writes := Writes(release);
      PhasesAreApart(release, legacy);
      var early, late := writes[..8], writes[8..];
      ok := Place(early);
      ghost var first := files;
      OnlyAmongMore(FirstPaths(early), targets, start, first);
      if !ok {
        return;
      }
      StaysPresent(FirstPaths(early), start, first, legacy);
      ok := RemoveAll(legacy);
      ghost var second := files;
      OnlyAmongMore(legacy, targets, first, second);
      OnlyAmongChains(targets, start, first, second);
      if !ok {
        return;
      }
      ok := Place(late);
      OnlyAmongMore(FirstPaths(late), targets, second, files);
      OnlyAmongChains(targets, start, second, files);
      if ok {
        forall k | 0 <= k < 8 ensures Placed(files, writes[k]) {
          assert early[k] == writes[k];
          StaysPlaced(legacy, first, second, writes[k]);
          StaysPlaced(FirstPaths(late), second, files, writes[k]);
        }
        assert forall k | 0 <= k < 2 :: late[k] == writes[k + 8];
        StaysAbsent(FirstPaths(late), second, files, legacy);
      }
    }

    /** The steps after the backup: every one may fail, and all of them stay within the targets. */
    method Write(stamp: nat, items: seq<Item>, release: Release, name: string, legacy: seq<string>) returns (ok: bool)
      requires |release.units| == 3 && |release.completions| == 3
      requires Distinct(legacy) && (forall p | p in legacy :: p in LEGACY) && forall p | p in legacy :: p in files
      modifies this`clock, this`files, this`journals, this`installed
      ensures clock >= old(clock) && OnlyAmong(Targets(legacy), old(files), files)
      ensures clock > old(clock) && (!world(old(clock)).Fine? ==> !ok)
      ensures !ok ==> FaultSince(old(clock))
      ensures forall k | k in old(journals) && k != stamp :: k in journals && journals[k] == old(journals)[k]
      ensures ok ==> installed == Some(Install(name, Some(stamp), true))
      ensures ok ==> stamp in journals && journals[stamp] == Transaction(items, old(installed))
      ensures ok ==> Deployed(files, release) && forall k | 0 <= k < 10 :: Placed(files, Writes(release)[k])
      ensures ok ==> forall p | p in legacy :: p !in files
    {
      hide ACTIVE, MANAGED, LEGACY, Writes, Deployed, Placed;
      var f := Step();
      if !f.Lost? {
        journals := journals[stamp := Transaction(items, installed)];
      }
      if !f.Fine? {
        return false;
      }
      ok := WriteFiles(release, legacy);
      if !ok {
        return;
      }
      WritesDeploy(files, release);
      f := Step();
      if !f.Fine? {
        return false;
      }
      f := Step();
      if !f.Lost? {
        installed := Some(Install(name, Some(stamp), true));
      }
      ok := f.Fine?;
    }

    /** After a failure: the files, then the record of what is installed. */
    method Recover(items: seq<Item>, current: Option<Install>, ghost before: map<string, File>) returns (o: Outcome)
      requires Describes(items, before, copies) && Distinct(Paths(items)) &&
               forall p | p in Paths(items) :: p in MANAGED
      requires OnlyAmong(Paths(items), before, files)
      modifies this`clock, this`files, this`installed
      ensures (o == RolledBack || o == Stranded) && clock >= old(clock)
      ensures o == RolledBack ==> AllPutBack(Paths(items), before, files) && installed == current
      ensures o == Stranded ==> FaultSince(old(clock))
    {
      hide MANAGED, Describes, Distinct, OnlyAmong, PutBack;
      ghost var start := files;
      var ok := Restore(items, before);
      OnlyAmongChains(Paths(items), before, start, files);
      if !ok {
        return Stranded;
      }
      ghost var moment := clock;
      var f := Step();
      if !f.Lost? {
        installed := current;
      }
      if !f.Fine? {
        assert FaultSince(moment);
        return Stranded;
      }
      o := RolledBack;
    }

    /** What an install needs to know of the host; the old command's files are found, not guessed. */
    ghost predicate Ready(stamp: nat, legacy: seq<string>)
      reads this
    {
      && (forall i :: (stamp, i) !in copies) && stamp !in journals
      && Distinct(legacy) && (forall p | p in legacy :: p in LEGACY && p in files)
    }

    /** Files that nobody manages are in the way. */
    ghost predicate InTheWay(legacy: seq<string>)
      reads this
    {
      if installed.Some? then !installed.value.oaiso && exists p :: p in OAISO_FILES && p in files
      else exists p :: p in Targets(legacy) && p in files
    }

    /** The release is in place and recorded, and the journal describes what was there before. */
    ghost predicate Finished(stamp: nat, release: Release, name: string, legacy: seq<string>, before: map<string, File>,
          was: Option<Install>)
      requires |release.units| == 3 && |release.completions| == 3
      reads this
    {
      && installed == Some(Install(name, Some(stamp), true)) && OnlyAmong(Targets(legacy), before, files)
      && (forall k | 0 <= k < 10 :: Placed(files, Writes(release)[k])) && (forall p | p in legacy :: p !in files)
      && Deployed(files, release)
      && stamp in journals && journals[stamp].previous == was
      && Paths(journals[stamp].files) == Targets(legacy) && Describes(journals[stamp].files, before, copies)
    }

    /** The steps before the copies can all fail, and then every target is copied. */
    method Copy(stamp: nat, paths: seq<string>) returns (ok: bool, items: seq<Item>)
      requires forall i :: (stamp, i) !in copies
      modifies this`clock, this`copies
      ensures clock > old(clock) && (ok ==> clock == old(clock) + 2 + |paths|)
      ensures !ok ==> FaultSince(old(clock)) && !FineBetween(old(clock), old(clock) + 2 + |paths|)
      ensures forall k | k in copies && k !in old(copies) :: k.0 == stamp
      ensures ok ==> Paths(items) == paths && Describes(items, files, copies)
    {
      hide Describes;
      items := [];
      var f := Step();
      if !f.Fine? {
        return false, items;
      }
      ok, items := Backup(stamp, paths);
    }

    /** The copies, and then the files of the release: what an install does before anything has to be put
        back. */
    method Attempt(stamp: nat, release: Release, name: string, legacy: seq<string>)
      returns (begun: bool, ok: bool, items: seq<Item>)
      requires |release.units| == 3 && |release.completions| == 3 && Ready(stamp, legacy)
      modifies this
      ensures clock > old(clock) && (!ok ==> FaultSince(old(clock))) && (ok ==> begun)
      ensures !begun ==> files == old(files) && installed == old(installed)
      ensures begun ==> Paths(items) == Targets(legacy) && Describes(items, old(files), copies)
      ensures begun ==> OnlyAmong(Targets(legacy), old(files), files)
      ensures forall k | k in copies && k !in old(copies) :: k.0 == stamp
      ensures var journal := old(clock) + 2 + |Targets(legacy)|;
              FineBetween(old(clock), journal) && !world(journal).Fine? ==> begun && !ok && clock > journal
      ensures ok ==> Finished(stamp, release, name, legacy, old(files), old(installed))
    {
      hide ACTIVE, LEGACY, MANAGED, Writes, Placed, OnlyAmong, Describes, Distinct, Targets, Deployed, FaultSince,
        FineBetween, Paths;
      ghost var start := clock;
      begun, items := Copy(stamp, Targets(legacy));
      ok := begun;
      if ok {
        ghost var moment := clock;
        ok := Write(stamp, items, release, name, legacy);
        if !ok {
          FaultFrom(start, moment);
        }
      }
    }

    /** Nothing fails between two moments. */
    ghost predicate FineBetween(from: nat, to: nat) {
      forall n | from <= n < to :: world(n).Fine?
    }

    lemma FaultFrom(from: nat, later: nat)
      requires from <= later && FaultSince(later)
      ensures FaultSince(from)
    {
    }

    /** The steps of an install once nothing is in the way. */
    method Replace(stamp: nat, release: Release, name: string, legacy: seq<string>)
      returns (o: Outcome, ghost failedAt: nat)
      requires |release.units| == 3 && |release.completions| == 3 && Ready(stamp, legacy)
      modifies this
      ensures o == Refused ==> files == old(files) && installed == old(installed)
      ensures o != Done ==> FaultSince(old(clock))
      ensures o == RolledBack ==> AllPutBack(Targets(legacy), old(files), files) && installed == old(installed)
      ensures o == Stranded ==> FaultSince(failedAt) && failedAt > old(clock)
      ensures forall k | k in copies && k !in old(copies) :: k.0 == stamp
      ensures var journal := old(clock) + 2 + |Targets(legacy)|;
              FineBetween(old(clock), journal) && !world(journal).Fine? ==>
                o in [RolledBack, Stranded] && failedAt > journal
      ensures o == Done ==> Finished(stamp, release, name, legacy, old(files), old(installed))
    {
      TargetsAreManaged(legacy);
      hide ACTIVE, LEGACY, MANAGED, OnlyAmong, Describes, Distinct, AllPutBack, Targets, Finished;
      var current := installed;
      var begun, ok, items := Attempt(stamp, release, name, legacy);
      failedAt := clock;
      if !begun {
        return Refused, failedAt;
      }
      if ok {
        return Done, failedAt;
      }
      o := Recover(items, current, old(files));
    }

    /** An install either finishes, or refuses before it touches a managed file, or puts every managed
        file back. It is stranded only when a step of putting back fails too. It never takes over a file
        that it did not put there. */
    method Apply(stamp: nat, release: Release, name: string, legacy: seq<string>)
      returns (o: Outcome, ghost failedAt: nat)
      requires |release.units| == 3 && |release.completions| == 3 && Ready(stamp, legacy)
      modifies this
      ensures o == Refused ==> files == old(files) && installed == old(installed)
      ensures old(InTheWay(legacy)) ==> o == Refused
      ensures o != Done ==> old(InTheWay(legacy)) || FaultSince(old(clock))
      ensures o == RolledBack ==> AllPutBack(Targets(legacy), old(files), files) && installed == old(installed)
      ensures o == RolledBack ==> (files == old(files) <==> PlainModes(Targets(legacy), old(files)))
      ensures o == Stranded ==> FaultSince(failedAt) && failedAt > old(clock)
      ensures forall k | k in copies && k !in old(copies) :: k.0 == stamp
      ensures var journal := old(clock) + 2 + |Targets(legacy)|;
              !old(InTheWay(legacy)) && FineBetween(old(clock), journal) &&
                !world(journal).Fine? ==>
                o in [RolledBack, Stranded] && failedAt > journal
      ensures o == Done ==> Finished(stamp, release, name, legacy, old(files), old(installed))
      ensures o != Refused && old(installed).None? ==> forall p | p in Targets(legacy) :: p !in old(files)
      ensures o != Refused && old(installed).Some? && !old(installed).value.oaiso ==>
                forall p | p in [OAISO, BASH, ZSH, FISH] :: p !in old(files)
    {
      assert OAISO_FILES == [OAISO, BASH, ZSH, FISH];
      hide ACTIVE, LEGACY, MANAGED, PlainModes, PutBack, Targets, OAISO_FILES, AllPutBack, Finished;
      failedAt := clock;
      if installed.Some? && !installed.value.oaiso && exists p :: p in OAISO_FILES && p in files {
        return Refused, failedAt;
      }
      if installed.None? && exists p :: p in Targets(legacy) && p in files {
        return Refused, failedAt;
      }
      o, failedAt := Replace(stamp, release, name, legacy);
      if o == RolledBack {
        PutBackIsIdentity(Targets(legacy), old(files), files);
      }
    }

    /** Each path once, in order. */
    method Once(paths: seq<string>) returns (r: seq<string>)
      ensures Distinct(r) && forall p :: p in r <==> p in paths
    {
      r := [];
      for i := 0 to |paths|
        invariant Distinct(r) && forall p :: p in r <==> p in paths[..i]
      {
        assert paths[..i + 1] == paths[..i] + [paths[i]];
        if paths[i] !in r {
          r := r + [paths[i]];
        }
      }
      assert paths[..|paths|] == paths;
    }

    /** The journal of the current install describes the files before it. */
    ghost predicate JournalOf(stamp: nat, before: map<string, File>)
      reads this
    {
      && installed.Some? && installed.value.rollback == Some(stamp) && stamp in journals
      && Describes(journals[stamp].files, before, copies) && Distinct(Paths(journals[stamp].files))
    }

    /** Stops the services, restores a transaction's files, starts what was there and records it. */
    method PutPrevious(previous: Transaction, ghost before: map<string, File>) returns (ok: bool)
      requires Describes(previous.files, before, copies) && Distinct(Paths(previous.files))
      requires forall p | p in Paths(previous.files) :: p in MANAGED
      modifies this`clock, this`files, this`installed
      ensures !ok ==> FaultSince(old(clock))
      ensures clock > old(clock) && OnlyAmong(Paths(previous.files), old(files), files)
      ensures ok ==> forall p | p in Paths(previous.files) :: PutBack(p, before, files)
      ensures ok ==> installed == previous.previous
    {
      hide MANAGED, OnlyAmong, Describes, Distinct, PutBack;
      SameIsOnlyAmong(Paths(previous.files), files);
      var f := Step();
      if !f.Fine? {
        return false;
      }
      ok := Restore(previous.files, before);
      if !ok {
        return;
      }
      f := Step();
      if !f.Fine? {
        return false;
      }
      f := Step();
      if !f.Lost? {
        installed := previous.previous;
      }
      ok := f.Fine?;
    }

    /** A rollback restores what the last install found; when it fails after its own backup, it puts
        back what it found itself. */
    method Rollback(stamp: nat, ghost journal: nat, ghost before: map<string, File>)
      returns (o: Outcome, paths: seq<string>, ghost failedAt: nat)
      requires installed.Some? && installed.value.rollback.Some? ==> JournalOf(journal, before)
      requires forall i :: (stamp, i) !in copies
      modifies this`clock, this`files, this`copies, this`installed
      ensures o == Refused ==> files == old(files) && installed == old(installed)
      ensures o == RolledBack ==> AllPutBack(paths, old(files), files) && installed == old(installed)
      ensures o == Stranded ==> FaultSince(failedAt) && failedAt > old(clock)
      ensures o != Done ==> FaultSince(old(clock)) || NothingToRestore(old(installed), journals)
      ensures o == Done ==>
                && journal in journals
                && (forall p | p in Paths(journals[journal].files) :: PutBack(p, before, files))
                && OnlyAmong(Paths(journals[journal].files), old(files), files)
                && installed == journals[journal].previous
    {
      hide ACTIVE, MANAGED, OnlyAmong, Describes, Distinct, PutBack;
      var current := installed;
      failedAt, paths := clock, [];
      var f := Step();
      if !f.Fine? {
        return Refused, paths, failedAt;
      }
      if installed.None? || installed.value.rollback.None? {
        return Refused, paths, failedAt;
      }
      var previous := journals[installed.value.rollback.value];
      var theirs := Paths(previous.files);
      if exists p :: p in theirs && p !in MANAGED {
        return Refused, paths, failedAt;
      }
      paths := Once(ACTIVE + theirs);
      ActiveIsManaged();
      assert forall p | p in paths :: p in MANAGED;
      ghost var copied := copies;
      var ok, items := Backup(stamp, paths);
      if !ok {
        return Refused, paths, failedAt;
      }
      StillDescribes(previous.files, before, copied, copies);
      SameIsOnlyAmong(paths, files);
      failedAt := clock;
      ok := PutPrevious(previous, before);
      OnlyAmongMore(theirs, paths, old(files), files);
      if ok {
        return Done, paths, failedAt;
      }
      failedAt := clock;
      o := Recover(items, current, old(files));
    }
  }

  /** There is no journal, or one with a path that is not managed. */
  ghost predicate NothingToRestore(installed: Option<Install>, journals: map<nat, Transaction>) {
    if installed.Some? && installed.value.rollback.Some? && installed.value.rollback.value in journals
    then exists p :: p in Paths(journals[installed.value.rollback.value].files) && p !in MANAGED
    else true
  }

  lemma ActiveIsManaged()
    ensures forall p | p in ACTIVE :: p in MANAGED
  {
    hide ACTIVE, LEGACY;
  }

  lemma StillDescribes(items: seq<Item>, before: map<string, File>, a: map<(nat, nat), File>, b: map<(nat, nat), File>)
    requires Describes(items, before, a) && forall k | k in a :: k in b && b[k] == a[k]
    ensures Describes(items, before, b)
  {
    forall i | 0 <= i < |items| ensures ItemDescribes(items[i], before, b) {
      assert ItemDescribes(items[i], before, a);
    }
  }

  /** Installing and rolling back is the identity on the file system, except for mode bits above the
      permissions, and the record of what is installed is back too. */
  method ApplyThenRollback(host: Host, stamp: nat, again: nat, release: Release, name: string, legacy: seq<string>)
    returns (first: Outcome, second: Outcome)
    requires |release.units| == 3 && |release.completions| == 3 && host.Ready(stamp, legacy) && again != stamp
    requires forall i :: (again, i) !in host.copies
    modifies host
    ensures first == Done && second == Done ==>
              && AllPutBack(Targets(legacy), old(host.files), host.files) && host.installed == old(host.installed)
              && (host.files == old(host.files) <==> PlainModes(Targets(legacy), old(host.files)))
  {
    TargetsAreManaged(legacy);
    hide ACTIVE, LEGACY, MANAGED, Writes, Placed, OnlyAmong, Describes, Distinct, PlainModes, PutBack, Targets;
    ghost var before := host.files;
    first, second := Refused, Refused;
    ghost var at;
    first, at := host.Apply(stamp, release, name, legacy);
    if first != Done {
      return;
    }
    ghost var applied := host.files;
    var paths;
    second, paths, at := host.Rollback(again, stamp, before);
    if second == Done {
      OnlyAmongChains(Targets(legacy), before, applied, host.files);
      PutBackIsIdentity(Targets(legacy), before, host.files);
    }
  }

  lemma OneFilePutBack(paths: seq<string>, data: seq<char>, mode: nat, after: map<string, File>)
    requires OAISO in paths && AllPutBack(paths, map[OAISO := File(data, mode)], after)
    ensures after == map[OAISO := File(data, Permissions(mode))]
  {
    var before := map[OAISO := File(data, mode)];
    forall p ensures p in after <==> p == OAISO {
      if p in paths {
        assert PutBack(p, before, after);
      }
    }
    assert PutBack(OAISO, before, after);
  }

  /** An update whose only failure is the write of its journal is rolled back. */
  method FailAtJournal(host: Host, release: Release) returns (o: Outcome)
    requires |release.units| == 3 && |release.completions| == 3
    requires host.Ready(0, []) && !host.InTheWay([]) && host.clock == 0
    requires forall n :: host.world(n).Fine? <==> n != 2 + |Targets([])|
    modifies host
    ensures o == RolledBack && AllPutBack(Targets([]), old(host.files), host.files)
  {
    assert host.FineBetween(0, 2 + |Targets([])|);
    hide ACTIVE, LEGACY, MANAGED, Targets, Deployed, Host.Finished, OnlyAmong, AllPutBack, PlainModes, Host.InTheWay,
      Host.Ready, Host.FineBetween;
    ghost var at;
    o, at := host.Apply(0, release, "next", []);
  }

  /** An update that fails while its journal is written is rolled back, and the file that had the
      set-user-id bit has lost it. */
  method HighModeIsLost(release: Release) returns (host: Host, o: Outcome)
    requires |release.units| == 3 && |release.completions| == 3
    ensures o == RolledBack && host.files == map[OAISO := File("old", 0x1ed)]
    ensures host.files != map[OAISO := File("old", 0x9ed)]
  {
    host := new Host(n => if n == 12 then Lost else Fine, map[OAISO := File("old", 0x9ed)],
      Some(Install("previous", None, true)));
    assert |Targets([])| == 10 && OAISO in Targets([]) by {
      ActiveLengths();
      assert Targets([])[6] == OAISO;
    }
    hide ACTIVE, LEGACY, MANAGED, Targets, AllPutBack;
    o := FailAtJournal(host, release);
    OneFilePutBack(Targets([]), "old", 0x9ed, host.files);
    assert host.files[OAISO].mode == 0x1ed;
  }
}
