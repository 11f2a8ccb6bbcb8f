/**
 * The dashboard page's share of the lifecycle: its own expiry sweep, which
 * drops every expired record whatever its status and tracks in a flag
 * whether anything changed; the repair of In Process records whose
 * `acceptedBy` is missing; and the status counts on the stat cards.
 */
module Dashboard {
  import opened Wrappers
  import opened Seqs
  import opened RequestModel
  import opened Storage
  import Profile

  // ---------------------------------------------------------------------
  // Expiry sweep (checkExpiredRequests)
  // ---------------------------------------------------------------------

  /**
   * The map callback of the dashboard's expiry sweep: mark a record due for
   * expiry; otherwise drop any record already marked, whatever its status.
   */
  function ExpireStep(r: Request, now: Time): Option<Request> {
    if DueForExpiry(r, now) then Some(r.(isExpired := true))
    else if r.isExpired then None
    else Some(r)
  }

  /** The collection after one pass of the dashboard's expiry sweep. */
  function ExpireSweep(rs: seq<Request>, now: Time): (out: seq<Request>)
    ensures |out| <= |rs|
    ensures forall y :: y in out && y.isExpired ==> IsFinished(y.status) && y.lastStatusUpdate.Some?
  {
    FilterMap((x: Request) => ExpireStep(x, now), rs)
  }

  /**
   * checkExpiredRequests without its storage calls: the `map` over the stored
   * records with the `updated` flag its callback sets, then the removal of the
   * records marked for deletion.
   */
  method SweepExpired(storedRequests: seq<Request>, now: Time) returns (updatedRequests: seq<Request>, updated: bool)
    ensures updatedRequests == ExpireSweep(storedRequests, now)
    ensures updated <==> exists x :: x in storedRequests && (DueForExpiry(x, now) || x.isExpired)
  {
    updatedRequests := [];
    updated := false;
    var i := 0;
    while i < |storedRequests|
      invariant 0 <= i <= |storedRequests|
      invariant updatedRequests == ExpireSweep(storedRequests[..i], now)
      invariant updated <==> exists x :: x in storedRequests[..i] && (DueForExpiry(x, now) || x.isExpired)
    {
      var req := storedRequests[i];
      var mapped: Option<Request>;
      if IsFinished(req.status) && req.lastStatusUpdate.Some? && now > req.lastStatusUpdate.value + DAY && !req.isExpired {
        updated := true;
        mapped := Some(req.(isExpired := true));
      } else if req.isExpired {
        updated := true;
        mapped := None;
      } else {
        mapped := Some(req);
      }
      assert mapped == ExpireStep(req, now);
      StepAppended(storedRequests[..i], req, now);
      assert storedRequests[..i + 1] == storedRequests[..i] + [req];
      updatedRequests := updatedRequests + (if mapped.Some? then [mapped.value] else []);
      i := i + 1;
    }
    assert storedRequests[..i] == storedRequests;
  }

  /** Sweeping one more record appends what its callback returned. */
  lemma StepAppended(done: seq<Request>, req: Request, now: Time)
    ensures ExpireSweep(done + [req], now) == ExpireSweep(done, now) + (match ExpireStep(req, now) case Some(y) => [y] case None => [])
  {
    FilterMapConcat((x: Request) => ExpireStep(x, now), done, [req]);
  }

  /**
   * The sweep drops every expired record and marks every record due for
   * expiry; the result is the unexpired records, in order, some of them marked.
   */
  lemma {:induction false} ExpireSweepIsMarkAfterFilter(rs: seq<Request>, now: Time)
    ensures ExpireSweep(rs, now) == Map((x: Request) => MarkIfDue(x, now), Filter((x: Request) => !x.isExpired, rs))
    ensures IsSubsequence(Filter((x: Request) => !x.isExpired, rs), rs)
  {
    FilterMapIsMapOfFilter((x: Request) => ExpireStep(x, now), (x: Request) => !x.isExpired, (x: Request) => MarkIfDue(x, now), rs);
    FilterIsSubsequence((x: Request) => !x.isExpired, rs);
  }

  /** A record marked in this pass is not removed in the same pass. */
  lemma ExpireSweepMarksDue(rs: seq<Request>, now: Time, x: Request)
    requires x in rs && DueForExpiry(x, now)
    ensures x.(isExpired := true) in ExpireSweep(rs, now)
  {
    ExpireSweepIsMarkAfterFilter(rs, now);
    var kept := Filter((x: Request) => !x.isExpired, rs);
    var i :| 0 <= i < |kept| && kept[i] == x;
    assert Map((x: Request) => MarkIfDue(x, now), kept)[i] == x.(isExpired := true);
  }

  /** The sweep's result differs from its input, and the flag is raised, exactly when something is marked or dropped. */
  lemma ExpireSweepChanges(rs: seq<Request>, now: Time)
    ensures ExpireSweep(rs, now) != rs <==> exists x :: x in rs && (DueForExpiry(x, now) || x.isExpired)
  {
    FilterMapUnchanged((x: Request) => ExpireStep(x, now), rs);
    assert forall x :: ExpireStep(x, now) == Some(x) <==> !DueForExpiry(x, now) && !x.isExpired by {
      forall x ensures ExpireStep(x, now) == Some(x) <==> !DueForExpiry(x, now) && !x.isExpired {
        if DueForExpiry(x, now) { assert x.(isExpired := true) != x; }
      }
    }
  }

  /**
   * Two sweeps at the same instant are not idempotent: the second removes
   * exactly the records the first marked, leaving the records the first
   * pass did not touch.
   */
  lemma {:induction false} ExpireSweepTwice(rs: seq<Request>, now: Time)
    ensures ExpireSweep(ExpireSweep(rs, now), now) == Filter((x: Request) => !x.isExpired, ExpireSweep(rs, now))
    ensures ExpireSweep(ExpireSweep(rs, now), now) == Filter((x: Request) => !x.isExpired && !DueForExpiry(x, now), rs)
  {
    if rs != [] {
      var x, t := rs[0], rs[1..];
      var first := if x.isExpired then [] else [MarkIfDue(x, now)];
      assert ExpireSweep(rs, now) == first + ExpireSweep(t, now);
      FilterMapConcat((y: Request) => ExpireStep(y, now), first, ExpireSweep(t, now));
      FilterConcat((y: Request) => !y.isExpired, first, ExpireSweep(t, now));
      ExpireSweepTwice(t, now);
    }
  }

  /** A record the profile sweep keeps although it is marked: expired, but not Completed/Rejected with a timestamp. */
  predicate LeftoverExpired(r: Request) {
    r.isExpired && !Profile.Condemned(r)
  }

  /**
   * The two sweeps agree except that the dashboard's also drops the expired
   * records the profile's keeps (those of other statuses or without a timestamp).
   */
  lemma {:induction false} SweepsCompared(rs: seq<Request>, now: Time)
    ensures ExpireSweep(rs, now) == Filter((y: Request) => !LeftoverExpired(y), Profile.ExpireSweep(rs, now))
  {
    if rs != [] {
      var x, t := rs[0], rs[1..];
      var first := if Profile.Condemned(x) then [] else [MarkIfDue(x, now)];
      assert Profile.ExpireSweep(rs, now) == first + Profile.ExpireSweep(t, now);
      FilterConcat((y: Request) => !LeftoverExpired(y), first, Profile.ExpireSweep(t, now));
      SweepsCompared(t, now);
    }
  }

  // ---------------------------------------------------------------------
  // Structure repair (fixRequestsStructure)
  // ---------------------------------------------------------------------

  /** `!req.acceptedBy || req.acceptedBy === true`: absent, null, the empty name, or a boolean. */
  predicate AcceptedByMissing(a: AcceptedBy) {
    a.NoAcceptor? || a == Scalar("") || a.Flag?
  }

  /** `user?.username || "unknown"`. */
  function FallbackName(user: Option<User>): (name: string)
    ensures name != ""
    ensures user.Some? && user.value.username != "" ==> name == user.value.username
    ensures !(user.Some? && user.value.username != "") ==> name == "unknown"
  {
    if user.Some? && user.value.username != "" then user.value.username else "unknown"
  }

  /** Whether the repair rewrites a record. */
  predicate NeedsRepair(r: Request) {
    r.status == InProcess && AcceptedByMissing(r.acceptedBy)
  }

  /** The map callback of the repair. */
  function RepairRecord(r: Request, user: Option<User>): Request {
    if NeedsRepair(r) then r.(acceptedBy := Scalar(FallbackName(user))) else r
  }

  /** fixRequestsStructure without its storage calls. */
  function FixStructure(rs: seq<Request>, user: Option<User>): (out: seq<Request>)
    ensures |out| == |rs|
    ensures forall i :: 0 <= i < |rs| && NeedsRepair(rs[i]) ==>
      out[i].acceptedBy == Scalar(FallbackName(user)) && out[i].(acceptedBy := rs[i].acceptedBy) == rs[i]
    ensures forall i :: 0 <= i < |rs| && !NeedsRepair(rs[i]) ==> out[i] == rs[i]
    ensures forall i :: 0 <= i < |out| && out[i].status == InProcess ==> !AcceptedByMissing(out[i].acceptedBy)
  {
    Map((x: Request) => RepairRecord(x, user), rs)
  }

  /** Repairing twice is repairing once: the fallback name is never the empty name. */
  lemma FixStructureIdempotent(rs: seq<Request>, user: Option<User>)
    ensures FixStructure(FixStructure(rs, user), user) == FixStructure(rs, user)
  {
    var once := FixStructure(rs, user);
    assert forall x :: x in once ==> RepairRecord(x, user) == x;
    MapIdentity((x: Request) => RepairRecord(x, user), once);
  }

  // ---------------------------------------------------------------------
  // Stat cards
  // ---------------------------------------------------------------------

  /** `requests.filter(r => r.status === s).length`. */
  function StatusCount(rs: seq<Request>, s: Status): nat {
    Count((x: Request) => x.status == s, rs)
  }

  /** Every record has exactly one of the four statuses. */
  lemma {:induction false} StatusCountsPartition(rs: seq<Request>)
    ensures StatusCount(rs, Pending) + StatusCount(rs, InProcess) + StatusCount(rs, Completed) + StatusCount(rs, Rejected) == |rs|
  {
    if rs != [] {
      StatusCountsPartition(rs[1..]);
    }
  }

  /** The pending, completed and rejected cards never exceed the total, alone or together. */
  lemma StatCardsBounded(rs: seq<Request>)
    ensures StatusCount(rs, Pending) <= |rs| && StatusCount(rs, Completed) <= |rs| && StatusCount(rs, Rejected) <= |rs|
    ensures StatusCount(rs, Pending) + StatusCount(rs, Completed) + StatusCount(rs, Rejected) <= |rs|
  {
    StatusCountsPartition(rs);
  }

  // ---------------------------------------------------------------------
  // The page
  // ---------------------------------------------------------------------

  /** The dashboard page's state: its `requests`, the signed-in user and the stored blob it shares. */
  class DashboardPage {
    const storage: LocalStorage
    const user: Option<User>
    var requests: seq<Request>

    constructor (storage: LocalStorage, user: Option<User>)
      ensures this.storage == storage && this.user == user && requests == []
    {
      this.storage := storage;
      this.user := user;
      requests := [];
    }

    /** The mount effect's load, also used after a request is created: adopt the stored collection when the key exists. */
    method LoadRequests()
      modifies this
      ensures requests == if storage.blob.Some? then storage.blob.value else old(requests)
    {
      if storage.blob.Some? {
        requests := storage.blob.value;
      }
    }

    /** checkExpiredRequests: sweep the stored collection; write back only when the flag is raised. */
    method CheckExpiredRequests(now: Time) returns (updated: bool)
      modifies this, storage
      ensures updated <==> exists x :: x in old(storage.Stored()) && (DueForExpiry(x, now) || x.isExpired)
      ensures updated ==> storage.blob == Some(ExpireSweep(old(storage.Stored()), now))
                          && requests == ExpireSweep(old(storage.Stored()), now)
      ensures !updated ==> storage.blob == old(storage.blob) && requests == old(requests)
    {
      var stored := storage.Stored();
      var updatedRequests;
      updatedRequests, updated := SweepExpired(stored, now);
      if updated {
        storage.SetRequests(updatedRequests);
        requests := updatedRequests;
      }
    }

    /** fixRequestsStructure: repair the stored collection and write it back unconditionally. */
    method FixRequestsStructure()
      modifies this, storage
      ensures storage.blob == Some(FixStructure(old(storage.Stored()), user))
      ensures requests == FixStructure(old(storage.Stored()), user)
    {
      var fixedRequests := FixStructure(storage.Stored(), user);
      storage.SetRequests(fixedRequests);
      requests := fixedRequests;
    }
  }
}
