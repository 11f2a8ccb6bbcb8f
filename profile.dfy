/**
 * The request lifecycle as the profile page runs it: the two time-based
 * sweeps (archive purge after seven days, expiry after one day), the action
 * handlers (mark completed, reject/abandon, unarchive, delete, clear
 * history) and the derived views the page's tabs show.
 *
 * Every transformation is a pure function from (collection, user, now) to a
 * new collection; the `ProfilePage` class at the end holds the page's
 * `requests` state and writes each result back to the stored blob.
 */
module Profile {
  import opened Wrappers
  import opened Seqs
  import opened RequestModel
  import opened Storage

  // ---------------------------------------------------------------------
  // Archive purge (checkArchivedProjects)
  // ---------------------------------------------------------------------

  /** The filter callback of the archive purge: `true` keeps the record. */
  predicate SurvivesArchivePurge(r: Request, now: Time) {
    if !r.archived || r.status != Pending then true
    else if r.archivedAt.Some? then now <= r.archivedAt.value + WEEK
    else true
  }

  /** An archived Pending record whose archive date is more than seven days back. */
  predicate PurgeDue(r: Request, now: Time) {
    r.archived && r.status == Pending && r.archivedAt.Some? && now > r.archivedAt.value + WEEK
  }

  /** The collection after the seven-day archive purge. */
  function ArchivePurge(rs: seq<Request>, now: Time): (out: seq<Request>)
    ensures forall x :: x in out <==> x in rs && !PurgeDue(x, now)
    ensures forall x :: multiset(out)[x] == if PurgeDue(x, now) then 0 else multiset(rs)[x]
    ensures IsSubsequence(out, rs)
  {
    FilterIsSubsequence((x: Request) => SurvivesArchivePurge(x, now), rs);
    FilterMultiset((x: Request) => SurvivesArchivePurge(x, now), rs);
    Filter((x: Request) => SurvivesArchivePurge(x, now), rs)
  }

  /** The purge shrinks the collection (and so writes it and notifies) exactly when some record is due. */
  lemma ArchivePurgeShrinks(rs: seq<Request>, now: Time)
    ensures |ArchivePurge(rs, now)| < |rs| <==> exists x :: x in rs && PurgeDue(x, now)
    ensures ArchivePurge(rs, now) == rs <==> forall x :: x in rs ==> !PurgeDue(x, now)
  {
    FilterShrinks((x: Request) => SurvivesArchivePurge(x, now), rs);
  }

  /** Purging distributes over concatenation: survivors keep their relative order. */
  lemma ArchivePurgeConcat(a: seq<Request>, b: seq<Request>, now: Time)
    ensures ArchivePurge(a + b, now) == ArchivePurge(a, now) + ArchivePurge(b, now)
  {
    FilterConcat((x: Request) => SurvivesArchivePurge(x, now), a, b);
  }

  // ---------------------------------------------------------------------
  // Expiry sweep (checkExpiredItems)
  // ---------------------------------------------------------------------

  /** The map callback of the profile's expiry sweep; `None` is the `null` later filtered out. */
  function ExpireStep(r: Request, now: Time): Option<Request> {
    if IsFinished(r.status) && r.lastStatusUpdate.Some? then
      if now > r.lastStatusUpdate.value + DAY && !r.isExpired then Some(r.(isExpired := true))
      else if r.isExpired then None
      else Some(r)
    else Some(r)
  }

  /** A Completed or Rejected record with a timestamp that an earlier pass already marked. */
  predicate Condemned(r: Request) {
    IsFinished(r.status) && r.lastStatusUpdate.Some? && r.isExpired
  }

  /** The collection after one pass of the profile's expiry sweep. */
  function ExpireSweep(rs: seq<Request>, now: Time): (out: seq<Request>)
    ensures |out| <= |rs|
    ensures forall y :: y in out ==> exists x :: x in rs && !Condemned(x) && y == MarkIfDue(x, now)
  {
    FilterMap((x: Request) => ExpireStep(x, now), rs)
  }

  /**
   * The sweep drops exactly the condemned records and marks exactly the
   * records due for expiry; every other record, an expired record of
   * another status included, comes back unchanged and in order.
   */
  lemma {:induction false} ExpireSweepIsMarkAfterFilter(rs: seq<Request>, now: Time)
    ensures ExpireSweep(rs, now) == Map((x: Request) => MarkIfDue(x, now), Filter((x: Request) => !Condemned(x), rs))
  {
    FilterMapIsMapOfFilter((x: Request) => ExpireStep(x, now), (x: Request) => !Condemned(x), (x: Request) => MarkIfDue(x, now), rs);
  }

  /** An expired record that is not Completed/Rejected-with-a-timestamp survives the sweep untouched. */
  lemma ExpireSweepKeepsOtherExpired(rs: seq<Request>, now: Time, x: Request)
    requires x in rs && x.isExpired && !(IsFinished(x.status) && x.lastStatusUpdate.Some?)
    ensures x in ExpireSweep(rs, now)
  {
    ExpireSweepIsMarkAfterFilter(rs, now);
    var kept := Filter((x: Request) => !Condemned(x), rs);
    var i :| 0 <= i < |kept| && kept[i] == x;
    assert Map((x: Request) => MarkIfDue(x, now), kept)[i] == x;
  }

  /** A record due for expiry comes back marked and is kept in this pass. */
  lemma ExpireSweepMarksDue(rs: seq<Request>, now: Time, x: Request)
    requires x in rs && DueForExpiry(x, now)
    ensures x.(isExpired := true) in ExpireSweep(rs, now)
  {
    ExpireSweepIsMarkAfterFilter(rs, now);
    var kept := Filter((x: Request) => !Condemned(x), rs);
    var i :| 0 <= i < |kept| && kept[i] == x;
    assert Map((x: Request) => MarkIfDue(x, now), kept)[i] == x.(isExpired := true);
  }

  /**
   * A Rejected record last updated two days ago with no mark: one pass marks
   * it, the next pass removes it.
   */
  lemma RejectedTwoDaysAgo(r: Request, now: Time)
    requires r.status == Rejected && r.lastStatusUpdate == Some(now - 2 * DAY) && !r.isExpired
    ensures ExpireSweep([r], now) == [r.(isExpired := true)]
    ensures ExpireSweep(ExpireSweep([r], now), now) == []
  {
  }

  /**
   * Two passes at the same instant: the second removes exactly the records
   * the first marked, so what is left are the records the first pass did
   * not touch.
   */
  lemma {:induction false} ExpireSweepTwice(rs: seq<Request>, now: Time)
    ensures ExpireSweep(ExpireSweep(rs, now), now) == Filter((x: Request) => !Condemned(x) && !DueForExpiry(x, now), rs)
  {
    if rs != [] {
      var x, t := rs[0], rs[1..];
      var first := if Condemned(x) then [] else [MarkIfDue(x, now)];
      assert ExpireSweep(rs, now) == first + ExpireSweep(t, now);
      FilterMapConcat((y: Request) => ExpireStep(y, now), first, ExpireSweep(t, now));
      ExpireSweepTwice(t, now);
    }
  }

  /** The sweep's result differs from its input exactly when some record is due for expiry or condemned. */
  lemma ExpireSweepChanges(rs: seq<Request>, now: Time)
    ensures ExpireSweep(rs, now) != rs <==> exists x :: x in rs && (DueForExpiry(x, now) || Condemned(x))
  {
    FilterMapUnchanged((x: Request) => ExpireStep(x, now), rs);
    assert forall x :: ExpireStep(x, now) == Some(x) <==> !DueForExpiry(x, now) && !Condemned(x) by {
      forall x ensures ExpireStep(x, now) == Some(x) <==> !DueForExpiry(x, now) && !Condemned(x) {
        if DueForExpiry(x, now) { assert x.(isExpired := true) != x; }
      }
    }
  }

  // ---------------------------------------------------------------------
  // Mark completed (handleMarkCompleted)
  // ---------------------------------------------------------------------

  /** `hasMarkedCompleted`: the user is among a project's completers. */
  function HasMarkedCompleted(item: Request, username: Option<string>): (marked: bool)
    ensures marked ==> item.kind == ProjectKind && item.participantsCompleted.Some?
    // a user already marked adds no one when marking again
    ensures marked ==> WithCompleter(CompletedList(item), ActorName(username)) == CompletedList(item)
  {
    item.kind == ProjectKind && item.participantsCompleted.Some? && ActorName(username) in item.participantsCompleted.value
  }

  /** The completers of a project after `actor` marks it: added once, at the end. */
  function WithCompleter(done: seq<string>, actor: string): (out: seq<string>)
    ensures actor in out
    ensures done <= out
    ensures forall n :: n in done ==> n in out
    ensures NoDuplicates(done) ==> NoDuplicates(out)
    ensures |out| == if actor in done then |done| else |done| + 1
  {
    if actor in done then done else done + [actor]
  }

  /** The update handleMarkCompleted applies to the record with the given id. */
  function CompleteRecord(r: Request, username: Option<string>, now: Time, nowText: string): (r': Request)
    // a project: the actor joins the completers without duplication ...
    ensures r.kind == ProjectKind ==> r'.participantsCompleted == Some(WithCompleter(CompletedList(r), ActorName(username)))
    ensures r.kind == ProjectKind ==> HasMarkedCompleted(r', username)
    // ... it completes once there are as many completers as acceptors ...
    ensures r.kind == ProjectKind && |CompletedList(r')| == |AcceptedList(r.acceptedBy)| ==>
      r'.status == Completed && r'.lastStatusUpdate == Some(now) && r'.lastStatusUpdateTime == Some(nowText)
      && r'.(status := r.status, lastStatusUpdate := r.lastStatusUpdate,
             lastStatusUpdateTime := r.lastStatusUpdateTime, participantsCompleted := r.participantsCompleted) == r
    // ... and otherwise only the completers change
    ensures r.kind == ProjectKind && |CompletedList(r')| != |AcceptedList(r.acceptedBy)| ==>
      r'.(participantsCompleted := r.participantsCompleted) == r
    // a project whose acceptedBy is not an array never completes
    ensures r.kind == ProjectKind && !r.acceptedBy.Arr? ==> r'.status == r.status
    // a request completes unconditionally
    ensures r.kind == RequestKind ==>
      r'.status == Completed && r'.lastStatusUpdate == Some(now) && r'.lastStatusUpdateTime == Some(nowText)
      && r'.(status := r.status, lastStatusUpdate := r.lastStatusUpdate, lastStatusUpdateTime := r.lastStatusUpdateTime) == r
  {
    if r.kind == ProjectKind then
      var done := WithCompleter(CompletedList(r), ActorName(username));
      if |done| == |AcceptedList(r.acceptedBy)| then
        Stamp(r, now, nowText).(status := Completed, participantsCompleted := Some(done))
      else
        r.(participantsCompleted := Some(done))
    else
      Stamp(r, now, nowText).(status := Completed)
  }

  /** handleMarkCompleted: every record with the id is updated, every other record is left alone. */
  function MarkCompleted(rs: seq<Request>, itemId: string, username: Option<string>, now: Time, nowText: string): (out: seq<Request>)
    ensures |out| == |rs|
    ensures forall i :: 0 <= i < |rs| && rs[i].id == itemId ==> out[i] == CompleteRecord(rs[i], username, now, nowText)
    ensures forall i :: 0 <= i < |rs| && rs[i].id != itemId ==> out[i] == rs[i]
    ensures (forall x :: x in rs ==> x.id != itemId) ==> out == rs
  {
    var f := (x: Request) => if x.id == itemId then CompleteRecord(x, username, now, nowText) else x;
    if forall x :: x in rs ==> x.id != itemId then
      MapIdentity(f, rs);
      Map(f, rs)
    else
      Map(f, rs)
  }

  /**
   * A project accepted by A and B completes only after both have marked it:
   * after A it is still In Process with A as the only completer.
   */
  lemma TwoParticipantCompletion(p: Request, now1: Time, nowText1: string, now2: Time, nowText2: string)
    requires p.kind == ProjectKind && p.status == InProcess
    requires p.acceptedBy == Arr(["A", "B"]) && CompletedList(p) == []
    ensures var p1 := CompleteRecord(p, Some("A"), now1, nowText1);
      p1.status == InProcess && p1.participantsCompleted == Some(["A"])
      && var p2 := CompleteRecord(p1, Some("B"), now2, nowText2);
      p2.status == Completed && p2.participantsCompleted == Some(["A", "B"]) && p2.lastStatusUpdate == Some(now2)
  {
    assert "A" !in [];
    assert [] + ["A"] == ["A"];
    assert "B" !in ["A"];
    assert ["A"] + ["B"] == ["A", "B"];
  }

  // ---------------------------------------------------------------------
  // Reject / abandon (handleAbandon)
  // ---------------------------------------------------------------------

  /** `requests.find(r => r.id === itemId)`: the first record with the id. */
  function FindById(rs: seq<Request>, id: string): (found: Option<Request>)
    ensures found.None? <==> forall i :: 0 <= i < |rs| ==> rs[i].id != id
    ensures found.Some? ==> exists i :: 0 <= i < |rs| && rs[i] == found.value && rs[i].id == id
                                        && forall j :: 0 <= j < i ==> rs[j].id != id
  {
    if rs == [] then None
    else if rs[0].id == id then Some(rs[0])
    else
      var rest := FindById(rs[1..], id);
      assert forall i :: 0 < i < |rs| ==> rs[i] == rs[1..][i - 1];
      if rest.Some? then
        var k :| 0 <= k < |rs[1..]| && rs[1..][k] == rest.value && rs[1..][k].id == id
                 && forall j :: 0 <= j < k ==> rs[1..][j].id != id;
        assert rs[k + 1] == rest.value && forall j :: 0 <= j < k + 1 ==> rs[j].id != id;
        rest
      else
        rest
  }

  /** Multi-department requests and projects lose one participant instead of being rejected. */
  predicate IsMultiParty(r: Request) {
    r.multiDepartment || r.kind == ProjectKind
  }

  /** The multi-party branch: the user leaves `acceptedBy`; an empty list sends the item back to Pending. */
  function WithdrawRecord(r: Request, username: Option<string>, now: Time, nowText: string): (r': Request)
    ensures r'.acceptedBy.Arr?
    ensures forall n :: n in r'.acceptedBy.names <==> n in AcceptedList(r.acceptedBy) && !IsUser(n, username)
    ensures forall n :: multiset(r'.acceptedBy.names)[n] == if IsUser(n, username) then 0 else multiset(AcceptedList(r.acceptedBy))[n]
    ensures IsSubsequence(r'.acceptedBy.names, AcceptedList(r.acceptedBy))
    ensures r'.usersAccepted == Some(UsersAcceptedOrZero(r) - 1)
    ensures r'.acceptedBy.names == [] ==> r'.status == Pending
    ensures r'.acceptedBy.names != [] ==> r'.status == r.status
    ensures r'.lastStatusUpdate == if r'.status != r.status then Some(now) else r.lastStatusUpdate
    ensures r'.lastStatusUpdateTime == if r'.status != r.status then Some(nowText) else r.lastStatusUpdateTime
    ensures r'.(acceptedBy := r.acceptedBy, usersAccepted := r.usersAccepted, status := r.status,
                lastStatusUpdate := r.lastStatusUpdate, lastStatusUpdateTime := r.lastStatusUpdateTime) == r
  {
    var remaining := Filter((n: string) => !IsUser(n, username), AcceptedList(r.acceptedBy));
    FilterIsSubsequence((n: string) => !IsUser(n, username), AcceptedList(r.acceptedBy));
    FilterMultiset((n: string) => !IsUser(n, username), AcceptedList(r.acceptedBy));
    var newStatus := if |remaining| == 0 then Pending else r.status;
    var base := if newStatus != r.status then Stamp(r, now, nowText) else r;
    base.(acceptedBy := Arr(remaining), usersAccepted := Some(UsersAcceptedOrZero(r) - 1), status := newStatus)
  }

  /** The solo branch: the item becomes Rejected, whatever `acceptedBy` holds. */
  function RejectRecord(r: Request, now: Time, nowText: string): (r': Request)
    ensures r'.status == Rejected && r'.lastStatusUpdate == Some(now) && r'.lastStatusUpdateTime == Some(nowText)
    ensures r'.(status := r.status, lastStatusUpdate := r.lastStatusUpdate, lastStatusUpdateTime := r.lastStatusUpdateTime) == r
  {
    Stamp(r, now, nowText).(status := Rejected)
  }

  /**
   * handleAbandon: the first record with the id decides the branch, which is
   * then applied to every record with that id. A missing id falls through
   * to the solo branch and changes nothing.
   */
  function Abandon(rs: seq<Request>, itemId: string, username: Option<string>, now: Time, nowText: string): (out: seq<Request>)
    ensures |out| == |rs|
    ensures forall i :: 0 <= i < |rs| && rs[i].id != itemId ==> out[i] == rs[i]
    ensures var item := FindById(rs, itemId);
      item.Some? && IsMultiParty(item.value) ==>
        forall i :: 0 <= i < |rs| && rs[i].id == itemId ==> out[i] == WithdrawRecord(rs[i], username, now, nowText)
    ensures var item := FindById(rs, itemId);
      !(item.Some? && IsMultiParty(item.value)) ==>
        forall i :: 0 <= i < |rs| && rs[i].id == itemId ==> out[i] == RejectRecord(rs[i], now, nowText)
    ensures (forall x :: x in rs ==> x.id != itemId) ==> out == rs
  {
    var item := FindById(rs, itemId);
    if item.Some? && IsMultiParty(item.value) then
      Map((x: Request) => if x.id == itemId then WithdrawRecord(x, username, now, nowText) else x, rs)
    else
      var f := (x: Request) => if x.id == itemId then RejectRecord(x, now, nowText) else x;
      if forall x :: x in rs ==> x.id != itemId then
        MapIdentity(f, rs);
        Map(f, rs)
      else
        Map(f, rs)
  }

  /**
   * A project accepted by A and B: A's rejection leaves B, one accepted user
   * and the status unchanged; B's rejection afterwards empties the list and
   * sends the project back to Pending.
   */
  lemma WithdrawBothParticipants(p: Request, now1: Time, nowText1: string, now2: Time, nowText2: string)
    requires p.kind == ProjectKind && p.status == InProcess
    requires p.acceptedBy == Arr(["A", "B"]) && p.usersAccepted == Some(2)
    ensures var rs1 := Abandon([p], p.id, Some("A"), now1, nowText1);
      |rs1| == 1 && rs1[0].acceptedBy == Arr(["B"]) && rs1[0].usersAccepted == Some(1)
      && rs1[0].status == InProcess && rs1[0].lastStatusUpdate == p.lastStatusUpdate
      && var rs2 := Abandon(rs1, p.id, Some("B"), now2, nowText2);
      |rs2| == 1 && rs2[0].acceptedBy == Arr([]) && rs2[0].usersAccepted == Some(0)
      && rs2[0].status == Pending && rs2[0].lastStatusUpdate == Some(now2)
  {
    var rs1 := Abandon([p], p.id, Some("A"), now1, nowText1);
    assert Filter((n: string) => !IsUser(n, Some("A")), ["A", "B"]) == ["B"] by {
      assert ["A", "B"][1..] == ["B"];
      assert ["B"][1..] == [];
    }
    assert rs1[0] == WithdrawRecord(p, Some("A"), now1, nowText1);
    var rs2 := Abandon(rs1, p.id, Some("B"), now2, nowText2);
    assert Filter((n: string) => !IsUser(n, Some("B")), ["B"]) == [] by {
      assert ["B"][1..] == [];
    }
    assert rs2[0] == WithdrawRecord(rs1[0], Some("B"), now2, nowText2);
  }

  /** A solo request is rejected at once, whoever has accepted it. */
  lemma SoloRequestRejected(r: Request, username: Option<string>, now: Time, nowText: string)
    requires r.kind == RequestKind && !r.multiDepartment
    ensures var out := Abandon([r], r.id, username, now, nowText);
      out == [r.(status := Rejected, lastStatusUpdate := Some(now), lastStatusUpdateTime := Some(nowText))]
  {
    var out := Abandon([r], r.id, username, now, nowText);
    assert out[0] == RejectRecord(r, now, nowText);
  }

  /** The accepted-user counter is decremented without clamping: a missing counter becomes -1. */
  lemma WithdrawDoesNotClamp(r: Request, username: Option<string>, now: Time, nowText: string)
    requires r.usersAccepted.None? || r.usersAccepted == Some(0)
    ensures WithdrawRecord(r, username, now, nowText).usersAccepted == Some(-1)
  {
  }

  /**
   * Completion is decided by counting, and a participant who completed and then
   * left stays among the completers: with A and B accepted, A completing, A
   * leaving and B completing gives two completers against one acceptor, and
   * the project stays In Process however often B marks it again.
   */
  lemma CompletedThenWithdrawnStaysOpen(p: Request, now: Time, nowText: string)
    requires p.kind == ProjectKind && p.status == InProcess
    requires p.acceptedBy == Arr(["A", "B"]) && CompletedList(p) == []
    ensures var p1 := CompleteRecord(p, Some("A"), now, nowText);
      var p2 := WithdrawRecord(p1, Some("A"), now, nowText);
      var p3 := CompleteRecord(p2, Some("B"), now, nowText);
      p2.acceptedBy == Arr(["B"]) && p2.status == InProcess
      && p3.status == InProcess && CompletedList(p3) == ["A", "B"]
      && CompleteRecord(p3, Some("B"), now, nowText) == p3
  {
    assert "A" !in [];
    var p1 := CompleteRecord(p, Some("A"), now, nowText);
    assert Filter((n: string) => !IsUser(n, Some("A")), ["A", "B"]) == ["B"] by {
      assert ["A", "B"][1..] == ["B"];
      assert ["B"][1..] == [];
    }
    assert "B" !in ["A"];
  }

  // ---------------------------------------------------------------------
  // Unarchive, delete, clear history
  // ---------------------------------------------------------------------

  /** handleUnarchive: the project with the id leaves the archive; nothing else changes. */
  function Unarchive(rs: seq<Request>, projectId: string): (out: seq<Request>)
    ensures |out| == |rs|
    ensures forall i :: 0 <= i < |rs| && rs[i].id == projectId ==>
      !out[i].archived && out[i].archivedAt.None? && out[i].(archived := rs[i].archived, archivedAt := rs[i].archivedAt) == rs[i]
    ensures forall i :: 0 <= i < |rs| && rs[i].id != projectId ==> out[i] == rs[i]
  {
    Map((x: Request) => if x.id == projectId then x.(archived := false, archivedAt := None) else x, rs)
  }

  /** An unarchived project survives every later archive purge. */
  lemma UnarchiveProtectsFromPurge(rs: seq<Request>, projectId: string, now: Time)
    ensures forall x :: x in Unarchive(rs, projectId) && x.id == projectId ==> x in ArchivePurge(Unarchive(rs, projectId), now)
  {
  }

  /** handleDelete: exactly the records with the id go; the rest keep their order. */
  function Delete(rs: seq<Request>, projectId: string): (out: seq<Request>)
    ensures forall x :: x in out <==> x in rs && x.id != projectId
    ensures forall x :: multiset(out)[x] == if x.id == projectId then 0 else multiset(rs)[x]
    ensures IsSubsequence(out, rs)
    ensures FindById(out, projectId).None?
  {
    FilterIsSubsequence((x: Request) => x.id != projectId, rs);
    FilterMultiset((x: Request) => x.id != projectId, rs);
    Filter((x: Request) => x.id != projectId, rs)
  }

  /** handleClearHistory: a user's own Completed and Rejected records go; the rest keep their order. */
  function ClearHistory(rs: seq<Request>, username: Option<string>): (out: seq<Request>)
    ensures forall x :: x in out <==> x in rs && !(IsUser(x.creator, username) && IsFinished(x.status))
    ensures forall x :: multiset(out)[x] == if IsUser(x.creator, username) && IsFinished(x.status) then 0 else multiset(rs)[x]
    ensures IsSubsequence(out, rs)
  {
    FilterIsSubsequence((x: Request) => !(IsUser(x.creator, username) && IsFinished(x.status)), rs);
    FilterMultiset((x: Request) => !(IsUser(x.creator, username) && IsFinished(x.status)), rs);
    Filter((x: Request) => !(IsUser(x.creator, username) && IsFinished(x.status)), rs)
  }

  /**
   * Clearing is creator-scoped: afterwards the history view holds only
   * records the user accepted but did not create, and every one of those
   * is still there.
   */
  lemma ClearHistoryKeepsAcceptedOnly(rs: seq<Request>, username: Option<string>)
    ensures forall x :: x in HistoryItems(ClearHistory(rs, username), username) ==> !IsUser(x.creator, username)
    ensures forall x :: x in HistoryItems(rs, username) && !IsUser(x.creator, username) ==>
      x in HistoryItems(ClearHistory(rs, username), username)
  {
  }

  /** A Completed record created by A and one created by B but accepted by A: clearing A's history removes only the first. */
  lemma ClearHistoryScenario(mine: Request, theirs: Request)
    requires mine.creator == "A" && mine.status == Completed
    requires theirs.creator == "B" && theirs.status == Completed && theirs.acceptedBy == Scalar("A")
    ensures ClearHistory([mine, theirs], Some("A")) == [theirs]
  {
    assert [mine, theirs][1..] == [theirs];
    assert [theirs][1..] == [];
  }

  // ---------------------------------------------------------------------
  // Derived views
  // ---------------------------------------------------------------------

  /** Whether a user name occurs in an `acceptedBy` array: `arr.includes(name)`. */
  predicate ArrayIncludes(a: AcceptedBy, name: string) {
    a.Arr? && name in a.names
  }

  /** The filter callback of `userRequests`. */
  predicate IsUserRequest(r: Request, username: Option<string>) {
    IsUser(r.creator, username)
    || (r.kind == ProjectKind && r.acceptedBy.Arr? && username.Some? && username.value in r.acceptedBy.names)
  }

  /** `userRequests`: what the user created, and the projects the user has joined. */
  function UserRequests(rs: seq<Request>, username: Option<string>): (out: seq<Request>)
    ensures forall x :: x in out <==> (x in rs &&
      exists n :: username == Some(n) && (x.creator == n || (x.kind == ProjectKind && ArrayIncludes(x.acceptedBy, n))))
    ensures forall x :: multiset(out)[x] == if IsUserRequest(x, username) then multiset(rs)[x] else 0
    ensures IsSubsequence(out, rs)
  {
    FilterIsSubsequence((x: Request) => IsUserRequest(x, username), rs);
    FilterMultiset((x: Request) => IsUserRequest(x, username), rs);
    Filter((x: Request) => IsUserRequest(x, username), rs)
  }

  /** The filter callback of `archivedProjects`. */
  predicate IsVisibleArchived(r: Request, user: Option<User>) {
    r.kind == ProjectKind && r.archived
    && (if user.Some? && user.value.role == "admin" then r.department == user.value.department
        else IsUser(r.creator, UserName(user)))
  }

  /** `archivedProjects`: admins see their department's archived projects, anyone else their own. */
  function ArchivedProjects(rs: seq<Request>, user: Option<User>): (out: seq<Request>)
    ensures forall x :: x in out ==> x in rs && x.kind == ProjectKind && x.archived
    ensures forall x :: x in rs && x.kind == ProjectKind && x.archived ==>
      (x in out <==> exists u :: (user == Some(u) &&
        if u.role == "admin" then x.department == u.department else x.creator == u.username))
    ensures forall x :: multiset(out)[x] == if IsVisibleArchived(x, user) then multiset(rs)[x] else 0
    ensures IsSubsequence(out, rs)
  {
    FilterIsSubsequence((x: Request) => IsVisibleArchived(x, user), rs);
    FilterMultiset((x: Request) => IsVisibleArchived(x, user), rs);
    Filter((x: Request) => IsVisibleArchived(x, user), rs)
  }

  /** The filter callback of `acceptedItems`, case by case as the page writes it. */
  predicate IsAcceptedItem(r: Request, username: Option<string>) {
    if r.status != InProcess then false
    else if r.kind == ProjectKind then
      r.acceptedBy.Arr? && ActorName(username) in r.acceptedBy.names
    else if r.acceptedBy.Scalar? then
      IsUser(r.acceptedBy.name, username)
    else if r.acceptedBy.Arr? then
      ActorName(username) in r.acceptedBy.names
    else false
  }

  /**
   * `acceptedItems`: In Process items the user has accepted. For a project
   * only array membership counts; for a request a scalar equal to the user
   * name or array membership.
   */
  function AcceptedItems(rs: seq<Request>, username: Option<string>): (out: seq<Request>)
    ensures forall x :: x in out ==> x in rs && x.status == InProcess
    ensures forall x :: x in rs && x.status == InProcess && x.kind == ProjectKind ==>
      (x in out <==> ArrayIncludes(x.acceptedBy, ActorName(username)))
    ensures forall x :: x in rs && x.status == InProcess && x.kind == RequestKind ==>
      (x in out <==> (x.acceptedBy.Scalar? && IsUser(x.acceptedBy.name, username))
                     || ArrayIncludes(x.acceptedBy, ActorName(username)))
    ensures forall x :: multiset(out)[x] == if IsAcceptedItem(x, username) then multiset(rs)[x] else 0
    ensures IsSubsequence(out, rs)
  {
    FilterIsSubsequence((x: Request) => IsAcceptedItem(x, username), rs);
    FilterMultiset((x: Request) => IsAcceptedItem(x, username), rs);
    Filter((x: Request) => IsAcceptedItem(x, username), rs)
  }

  /** The filter callback of `historyItems`. */
  predicate IsHistoryItem(r: Request, username: Option<string>) {
    if r.status != Completed && r.status != Rejected then false
    else if IsUser(r.creator, username) then true
    else if r.acceptedBy.Scalar? then IsUser(r.acceptedBy.name, username)
    else if r.acceptedBy.Arr? then ActorName(username) in r.acceptedBy.names
    else false
  }

  /** `historyItems`: Completed or Rejected items the user created or accepted. */
  function HistoryItems(rs: seq<Request>, username: Option<string>): (out: seq<Request>)
    ensures forall x :: x in out <==> (x in rs && IsFinished(x.status) &&
      (IsUser(x.creator, username)
       || (x.acceptedBy.Scalar? && IsUser(x.acceptedBy.name, username))
       || ArrayIncludes(x.acceptedBy, ActorName(username))))
    ensures forall x :: multiset(out)[x] == if IsHistoryItem(x, username) then multiset(rs)[x] else 0
    ensures IsSubsequence(out, rs)
  {
    FilterIsSubsequence((x: Request) => IsHistoryItem(x, username), rs);
    FilterMultiset((x: Request) => IsHistoryItem(x, username), rs);
    Filter((x: Request) => IsHistoryItem(x, username), rs)
  }

  /** `recentActivity`: the first three non-archived items of `userRequests`. */
  function RecentActivity(rs: seq<Request>, username: Option<string>): (out: seq<Request>)
    ensures |out| <= 3
    ensures var candidates := Filter((x: Request) => !x.archived, UserRequests(rs, username));
      |out| == if |candidates| <= 3 then |candidates| else 3
    ensures forall x :: x in out ==> x in UserRequests(rs, username) && !x.archived
    ensures out <= Filter((x: Request) => !x.archived, UserRequests(rs, username))
    ensures |Filter((x: Request) => !x.archived, UserRequests(rs, username))| <= 3 ==> out == Filter((x: Request) => !x.archived, UserRequests(rs, username))
  {
    Take(Filter((x: Request) => !x.archived, UserRequests(rs, username)), 3)
  }

  /**
   * No item is on the accepted tab and the history tab at once. This rests on
   * the two status tests alone (In Process against Completed or Rejected).
   */
  lemma AcceptedAndHistoryDisjoint(rs: seq<Request>, username: Option<string>)
    ensures forall x :: !(x in AcceptedItems(rs, username) && x in HistoryItems(rs, username))
  {
  }

  /**
   * For a request and a signed-in user, a legacy scalar `acceptedBy` and a
   * one-element array are the same membership test on the accepted and the
   * history tabs; for a project the scalar is never taken as membership.
   */
  lemma ScalarAndArrayAgree(r: Request, name: string, u: User)
    ensures r.kind == RequestKind ==>
      (IsAcceptedItem(r.(acceptedBy := Scalar(name)), Some(u.username)) <==> IsAcceptedItem(r.(acceptedBy := Arr([name])), Some(u.username)))
    ensures IsHistoryItem(r.(acceptedBy := Scalar(name)), Some(u.username)) <==> IsHistoryItem(r.(acceptedBy := Arr([name])), Some(u.username))
    ensures r.kind == ProjectKind ==> !IsAcceptedItem(r.(acceptedBy := Scalar(name)), Some(u.username))
  {
  }

  /**
   * Without a signed-in user the two shapes part ways: the array test falls
   * back to the empty name, the scalar test compares with `undefined`.
   */
  lemma NoUserShapesDisagree(r: Request)
    requires r.kind == RequestKind && r.status == InProcess
    ensures IsAcceptedItem(r.(acceptedBy := Arr([""])), None)
    ensures !IsAcceptedItem(r.(acceptedBy := Scalar("")), None)
  {
  }

  // ---------------------------------------------------------------------
  // The page
  // ---------------------------------------------------------------------

  /** The profile page's state: its `requests`, the signed-in user and the stored blob it shares. */
  class ProfilePage {
    const storage: LocalStorage
    const user: Option<User>
    var requests: seq<Request>

    constructor (storage: LocalStorage, user: Option<User>)
      ensures this.storage == storage && this.user == user && requests == []
    {
      this.storage := storage;
      this.user := user;
      requests := [];
    }

    /** loadRequests: adopt the stored collection when the key exists. */
    method LoadRequests()
      modifies this
      ensures requests == if storage.blob.Some? then storage.blob.value else old(requests)
    {
      if storage.blob.Some? {
        requests := storage.blob.value;
      }
    }

    /** checkArchivedProjects: purge from the stored collection; write back (and notify) only when something went. */
    method CheckArchivedProjects(now: Time) returns (purged: bool)
      modifies this, storage
      ensures purged <==> exists x :: x in old(storage.Stored()) && PurgeDue(x, now)
      ensures purged ==> storage.blob == Some(ArchivePurge(old(storage.Stored()), now))
                         && requests == ArchivePurge(old(storage.Stored()), now)
      ensures !purged ==> storage.blob == old(storage.blob) && requests == old(requests)
    {
      var stored := storage.Stored();
      var updatedRequests := ArchivePurge(stored, now);
      ArchivePurgeShrinks(stored, now);
      purged := |updatedRequests| < |stored|;
      if purged {
        storage.SetRequests(updatedRequests);
        requests := updatedRequests;
      }
    }

    /** checkExpiredItems: sweep the stored collection; write back only when the result differs. */
    method CheckExpiredItems(now: Time) returns (written: bool)
      modifies this, storage
      ensures written <==> exists x :: x in old(storage.Stored()) && (DueForExpiry(x, now) || Condemned(x))
      ensures written ==> storage.blob == Some(ExpireSweep(old(storage.Stored()), now))
                          && requests == ExpireSweep(old(storage.Stored()), now)
      ensures !written ==> storage.blob == old(storage.blob) && requests == old(requests)
    {
      var stored := storage.Stored();
      var updatedRequests := ExpireSweep(stored, now);
      ExpireSweepChanges(stored, now);
      written := |updatedRequests| < |stored| || updatedRequests != stored;
      if written {
        storage.SetRequests(updatedRequests);
        requests := updatedRequests;
      }
    }

    /**
     * One tick of the minute timer: the archive purge, then the expiry sweep
     * on what the purge left in storage.
     */
    method IntervalTick(now: Time) returns (purged: bool, written: bool)
      modifies this, storage
      ensures purged <==> exists x :: x in old(storage.Stored()) && PurgeDue(x, now)
      ensures written <==> exists x :: x in ArchivePurge(old(storage.Stored()), now) && (DueForExpiry(x, now) || Condemned(x))
      ensures storage.Stored() == ExpireSweep(ArchivePurge(old(storage.Stored()), now), now)
      ensures purged || written ==> storage.blob.Some? && requests == storage.Stored()
      ensures !purged && !written ==> storage.blob == old(storage.blob) && requests == old(requests)
    {
      ghost var before := storage.Stored();
      ArchivePurgeShrinks(before, now);
      purged := CheckArchivedProjects(now);
      ghost var middle := storage.Stored();
      assert middle == ArchivePurge(before, now);
      ExpireSweepChanges(middle, now);
      written := CheckExpiredItems(now);
    }

    method HandleUnarchive(projectId: string)
      modifies this, storage
      ensures requests == Unarchive(old(requests), projectId) && storage.blob == Some(requests)
    {
      var updatedRequests := Unarchive(requests, projectId);
      requests := updatedRequests;
      storage.SetRequests(updatedRequests);
    }

    method HandleDelete(projectId: string)
      modifies this, storage
      ensures requests == Delete(old(requests), projectId) && storage.blob == Some(requests)
    {
      var updatedRequests := Delete(requests, projectId);
      requests := updatedRequests;
      storage.SetRequests(updatedRequests);
    }

    method HandleMarkCompleted(itemId: string, now: Time, nowText: string)
      modifies this, storage
      ensures requests == MarkCompleted(old(requests), itemId, UserName(user), now, nowText) && storage.blob == Some(requests)
    {
      var updatedRequests := MarkCompleted(requests, itemId, UserName(user), now, nowText);
      requests := updatedRequests;
      storage.SetRequests(updatedRequests);
    }

    method HandleAbandon(itemId: string, now: Time, nowText: string)
      modifies this, storage
      ensures requests == Abandon(old(requests), itemId, UserName(user), now, nowText) && storage.blob == Some(requests)
    {
      var updatedRequests := Abandon(requests, itemId, UserName(user), now, nowText);
      requests := updatedRequests;
      storage.SetRequests(updatedRequests);
    }

    method HandleClearHistory()
      modifies this, storage
      ensures requests == ClearHistory(old(requests), UserName(user)) && storage.blob == Some(requests)
    {
      var updatedRequests := ClearHistory(requests, UserName(user));
      requests := updatedRequests;
      storage.SetRequests(updatedRequests);
    }
  }
}
