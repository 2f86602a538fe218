/** The durable launch records of internal/kataguard/launch.go. A caller claims a launch and
    receives a lease, starts the worker, and then finishes or aborts under that lease. Replies
    may be lost and claims may be repeated at any time. */
module LaunchLease {
  import opened Options
  import Hex

  datatype State = Pending | Complete | Failed | CleanupPending

  datatype LaunchRecord = LaunchRecord(
    key: string, fingerprint: string, state: State, attempt: nat, lease: string, workerId: string, updatedAt: int)

  /** The record of a request that was never claimed, before it is written. */
  function Blank(key: string, fingerprint: string): LaunchRecord {
    LaunchRecord(key, fingerprint, Failed, 0, "", "", 0)
  }

  type Launches = map<string, LaunchRecord>

  datatype Worker = Worker(id: string, key: string, fingerprint: string)

  /** What the engine answers about the worker name of a request. */
  datatype Lookup = LookupFailed | Absent | Present(worker: Worker)

  /** What the inventory answers. Reservations are named by the request they are made for, since
      an allocation identifier is a digest of the request key. */
  datatype Inventory = InventoryFailed | EngineUnavailable | Reserved(keys: set<string>)

  /** A record file is replaced as a whole. The rename may be durable although an error is
      reported, when syncing the directory fails. */
  datatype Write = Written | NotWritten | Unconfirmed

  datatype Error = InvalidDigest | Cancelled | NotFound | Conflict | Unavailable | LeaseNotCurrent | Mismatch
        | WriteFailed

  /** A reply can carry both a record and an error. */
  datatype Reply = Reply(record: Option<LaunchRecord>, error: Option<Error>)

  datatype Outcome = Outcome(launches: Launches, reply: Reply)

  const LEASE_PERIOD := 300_000_000_000

  predicate IsDigest(s: string) {
    |s| == 64 && forall i | 0 <= i < |s| :: '0' <= s[i] <= '9' || 'a' <= s[i] <= 'f'
  }

  /** A digest is the text of 32 bytes. */
  lemma DigestsAreEncodings(s: string)
    ensures IsDigest(s) <==> exists bytes: seq<Hex.Byte> :: |bytes| == 32 && Hex.Encode(bytes) == s
  {
    Hex.EncodingsAre(s, 32);
    assert (forall c | c in s :: Hex.IsDigit(c)) <==> forall i | 0 <= i < |s| :: Hex.IsDigit(s[i]);
  }

  function RequestName(key: string): string
    requires IsDigest(key)
  {
    "cxd-" + key[..32]
  }

  /** Requests share a worker name exactly when the first 16 bytes of their digests are the same. */
  lemma NamesAgree(a: string, b: string)
    requires IsDigest(a) && IsDigest(b)
    ensures RequestName(a) == RequestName(b) <==> a[..32] == b[..32]
    ensures |RequestName(a)| == 36 && RequestName(a)[..4] == "cxd-"
  {
    assert RequestName(a)[4..] == a[..32] && RequestName(b)[4..] == b[..32];
  }

  /** How far an operation has come. It holds the mutex of the launches until it has replied or
      stops with the node, but the engine and the reservations go on beside it. */
  datatype Stage =
    | Looking(record: LaunchRecord, isNew: bool)
    | Surveying(record: LaunchRecord)
    | Drawing(record: LaunchRecord)
    | Matching(record: LaunchRecord, workerId: string)
    | Writing(record: LaunchRecord)
    | Replied(reply: Reply)

  function Refuse(error: Error): Stage {
    Replied(Reply(None, Some(error)))
  }

  function Answer(r: LaunchRecord): Stage {
    Replied(Reply(Some(r), None))
  }

  function Store(launches: Launches, r: LaunchRecord, write: Write): Outcome {
    Outcome(if write.NotWritten? then launches else launches[r.key := r],
            Reply(Some(r), if write.Written? then None else Some(WriteFailed)))
  }

  predicate Closed(r: LaunchRecord) {
    r.state.Complete? || r.state.CleanupPending?
  }

  /** Nobody but the holder may touch the launch while its lease is running. */
  predicate Running(r: LaunchRecord, now: int) {
    r.state.Pending? && now - r.updatedAt < LEASE_PERIOD
  }

  /** A claim up to the question to the engine. */
  function ClaimBegins(launches: Launches, alive: bool, now: int, key: string, fingerprint: string): Stage {
    if !IsDigest(key) || !IsDigest(fingerprint) then Refuse(InvalidDigest)
    else if !alive then Refuse(Cancelled)
    else if key in launches && launches[key].fingerprint != fingerprint then Refuse(Conflict)
    else
      var isNew := key !in launches;
      var r := if isNew then Blank(key, fingerprint) else launches[key];
      if Closed(r) then Answer(r)
      else if Running(r, now) then Answer(r.(lease := ""))
      else Looking(r, isNew)
  }

  /** The engine has answered: adopt the worker, or look at the reservations, unless the request is
      new. */
  function ClaimLooks(r: LaunchRecord, isNew: bool, found: Lookup, now: int): Stage {
    match found
    case LookupFailed => Refuse(Unavailable)
    case Present(w) =>
      if w.key != r.key || w.fingerprint != r.fingerprint then Refuse(Conflict)
      else Writing(r.(state := Complete, workerId := w.id, lease := "", updatedAt := now))
    case Absent => if isNew then Drawing(r) else Surveying(r)
  }

  /** A reservation that is still there has to be recovered first. */
  function ClaimSurveys(r: LaunchRecord, inventory: Inventory): Stage {
    if !inventory.Reserved? then Refuse(Unavailable)
    else if r.key in inventory.keys then Answer(r.(lease := ""))
    else Drawing(r)
  }

  function ClaimDraws(r: LaunchRecord, random: Option<string>, now: int): Stage {
    if random.None? then Refuse(Unavailable)
    else Writing(r.(attempt := r.attempt + 1, state := Pending, lease := random.value, workerId := "",
      updatedAt := now))
  }

  predicate Holds(launches: Launches, key: string, lease: string) {
    key in launches && launches[key].state.Pending? && launches[key].lease == lease && lease != ""
  }

  function FinishBegins(launches: Launches, key: string, lease: string, workerId: string): Stage {
    if !IsDigest(key) then Refuse(InvalidDigest)
    else if key !in launches then Refuse(NotFound)
    else if !Holds(launches, key, lease) then Refuse(LeaseNotCurrent)
    else Matching(launches[key], workerId)
  }

  function FinishLooks(r: LaunchRecord, workerId: string, found: Lookup, now: int): Stage {
    match found
    case LookupFailed => Refuse(Unavailable)
    case Absent => Refuse(Mismatch)
    case Present(w) =>
      if w.id != workerId || w.key != r.key || w.fingerprint != r.fingerprint then Refuse(Mismatch)
      else Writing(r.(state := Complete, workerId := w.id, lease := "", updatedAt := now))
  }

  function AbortBegins(launches: Launches, now: int, key: string, lease: string, workerId: string): Stage {
    if !IsDigest(key) then Refuse(InvalidDigest)
    else if key !in launches then Refuse(NotFound)
    else if !Holds(launches, key, lease) then Refuse(LeaseNotCurrent)
    else if workerId == "" then Writing(launches[key].(state := Failed, lease := "", updatedAt := now))
    else Writing(launches[key].(state := CleanupPending, workerId := workerId, lease := "", updatedAt := now))
  }

  function Conclude(launches: Launches, stage: Stage, write: Write): Outcome
    requires stage.Writing? || stage.Replied?
  {
    match stage
    case Writing(r) => Store(launches, r, write)
    case Replied(reply) => Outcome(launches, reply)
  }

  /** What one claim is told, each answer at a moment of its own. */
  datatype Answers = Answers(alive: bool, began: int, found: Lookup, looked: int, inventory: Inventory,
        random: Option<string>, drew: int, write: Write)

  /** A claim as a whole: its stages, one after the other. */
  function Claimed(launches: Launches, a: Answers, key: string, fingerprint: string): Outcome {
    var began := ClaimBegins(launches, a.alive, a.began, key, fingerprint);
    if !began.Looking? then Conclude(launches, began, a.write) else Reconciled(launches, began.record, began.isNew, a)
  }

  function Reconciled(launches: Launches, r: LaunchRecord, isNew: bool, a: Answers): Outcome {
    var looked := ClaimLooks(r, isNew, a.found, a.looked);
    var surveyed := if looked.Surveying? then ClaimSurveys(looked.record, a.inventory) else looked;
    var drawn := if surveyed.Drawing? then ClaimDraws(surveyed.record, a.random, a.drew) else surveyed;
    Conclude(launches, drawn, a.write)
  }

  function Finished(launches: Launches, found: Lookup, now: int, write: Write, key: string, lease: string,
        workerId: string): Outcome {
    var began := FinishBegins(launches, key, lease, workerId);
    var matched := if began.Matching? then FinishLooks(began.record, began.workerId, found, now) else began;
    Conclude(launches, matched, write)
  }

  function Aborted(launches: Launches, now: int, write: Write, key: string, lease: string, workerId: string): Outcome {
    Conclude(launches, AbortBegins(launches, now, key, lease, workerId), write)
  }

  /** The guard's methods as the source runs them, one at a time under the broker's mutex. The answers
      of the engine, the inventory and the clock are parameters. */
  class Guard {
    var launches: Launches

    constructor ()
      ensures launches == map[]
    {
      launches := map[];
    }

    method WriteLaunch(r: LaunchRecord, write: Write) returns (error: Option<Error>)
      modifies this
      ensures Outcome(launches, Reply(Some(r), error)) == Store(old(launches), r, write)
    {
      if write.NotWritten? {
        return Some(WriteFailed);
      }
      launches := launches[r.key := r];
      error := if write.Written? then None else Some(WriteFailed);
    }

    method ClaimLaunch(a: Answers, key: string, fingerprint: string) returns (reply: Reply)
      requires forall k | k in launches :: launches[k].key == k
      modifies this
      ensures Outcome(launches, reply) == Claimed(old(launches), a, key, fingerprint)
    {
      hide IsDigest, Reconciled;
      if !IsDigest(key) || !IsDigest(fingerprint) {
        return Reply(None, Some(InvalidDigest));
      }
      if !a.alive {
        return Reply(None, Some(Cancelled));
      }
      var isNew := key !in launches;
      var r := if isNew then Blank(key, fingerprint) else launches[key];
      if r.fingerprint != fingerprint {
        return Reply(None, Some(Conflict));
      }
      if r.state.Complete? || r.state.CleanupPending? {
        return Reply(Some(r), None);
      }
      if r.state.Pending? && a.began - r.updatedAt < LEASE_PERIOD {
        r := r.(lease := "");
        return Reply(Some(r), None);
      }
      reply := Reconcile(r, isNew, a);
    }

    method Reconcile(record: LaunchRecord, isNew: bool, a: Answers) returns (reply: Reply)
      requires !Closed(record)
      modifies this
      ensures Outcome(launches, reply) == Reconciled(old(launches), record, isNew, a)
    {
      var r := record;
      if a.found.LookupFailed? {
        return Reply(None, Some(Unavailable));
      }
      if a.found.Present? {
        if a.found.worker.key != r.key || a.found.worker.fingerprint != r.fingerprint {
          return Reply(None, Some(Conflict));
        }
        r := r.(state := Complete, workerId := a.found.worker.id, lease := "", updatedAt := a.looked);
        var failure := WriteLaunch(r, a.write);
        return Reply(Some(r), failure);
      }
      if !isNew && (r.state.Pending? || r.state.Failed?) {
        if a.inventory.InventoryFailed? || a.inventory.EngineUnavailable? {
          return Reply(None, Some(Unavailable));
        }
        if r.key in a.inventory.keys {
          r := r.(lease := "");
          return Reply(Some(r), None);
        }
      }
      if a.random.None? {
        return Reply(None, Some(Unavailable));
      }
      r := r.(attempt := r.attempt + 1);
      r := r.(state := Pending, lease := a.random.value, workerId := "", updatedAt := a.drew);
      var failure := WriteLaunch(r, a.write);
      reply := Reply(Some(r), failure);
    }

    method FinishLaunch(found: Lookup, now: int, write: Write, key: string, lease: string, workerId: string)
      returns (reply: Reply)
      requires forall k | k in launches :: launches[k].key == k
      modifies this
      ensures Outcome(launches, reply) == Finished(old(launches), found, now, write, key, lease, workerId)
    {
      hide IsDigest;
      if !IsDigest(key) {
        return Reply(None, Some(InvalidDigest));
      }
      if key !in launches {
        return Reply(None, Some(NotFound));
      }
      var r := launches[key];
      if !r.state.Pending? || r.lease != lease || lease == "" {
        return Reply(None, Some(LeaseNotCurrent));
      }
      if found.LookupFailed? {
        return Reply(None, Some(Unavailable));
      }
      if found.Absent? || found.worker.id != workerId || found.worker.key != key ||
        found.worker.fingerprint != r.fingerprint {
        return Reply(None, Some(Mismatch));
      }
      r := r.(state := Complete, workerId := found.worker.id, lease := "", updatedAt := now);
      var failure := WriteLaunch(r, write);
      reply := Reply(Some(r), failure);
    }

    method AbortLaunch(now: int, write: Write, key: string, lease: string, workerId: string) returns (reply: Reply)
      requires forall k | k in launches :: launches[k].key == k
      modifies this
      ensures Outcome(launches, reply) == Aborted(old(launches), now, write, key, lease, workerId)
    {
      hide IsDigest;
      if !IsDigest(key) {
        return Reply(None, Some(InvalidDigest));
      }
      if key !in launches {
        return Reply(None, Some(NotFound));
      }
      var r := launches[key];
      if !r.state.Pending? || r.lease != lease || lease == "" {
        return Reply(None, Some(LeaseNotCurrent));
      }
      if workerId == "" {
        r := r.(state := Failed);
      } else {
        r := r.(state := CleanupPending, workerId := workerId);
      }
      r := r.(lease := "", updatedAt := now);
      var failure := WriteLaunch(r, write);
      reply := Reply(Some(r), failure);
    }
  }
}
