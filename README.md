# Request lifecycle of the profile and dashboard pages

This project models how the department request tracker's profile page and
dashboard page manage request records. Both pages keep the whole collection in
one browser storage entry, `jd-requests`, as an array of records. A record is a
*request*, which may be flagged multi-department, or a multi-participant
*project*. The model covers:

- the two sweeps run by the profile page's one-minute timer:
  - the seven-day purge of archived Pending records;
  - the one-day expiry of Completed and Rejected items;
- the profile page's handlers: unarchive, delete, mark completed, abandon and
  clear history;
- the profile page's derived views: the user's requests, archived projects,
  accepted items, history items and recent activity;
- the dashboard's expiry sweep, its structure repair of `acceptedBy`, and its
  count of records per status.

Module layout:

- `Wrappers` holds `Option`.
- `Seqs` holds the JavaScript array operations the pages are written with:
  `filter`, `map`, `map(...).filter(Boolean)` and `slice(0, n)`, with their
  facts.
- `RequestModel` holds the record, the user, the statuses, the shapes of
  `acceptedBy` that occur in storage, and the one-day expiry rule.
- `Storage.LocalStorage` is the storage entry. It is a class whose only field
  is the stored collection.
- `Profile` holds the profile page's logic as functions on the collection,
  plus the class `Profile.ProfilePage`. The class has the page's `requests`
  state and one method per source handler. Each method writes the function's
  result into its state and into storage.
- `Dashboard` holds the dashboard's logic and the class
  `Dashboard.DashboardPage`. The dashboard's expiry sweep keeps an `updated`
  flag while it walks the collection, so it is modelled as a loop method,
  `Dashboard.SweepExpired`. That method is proved against the function
  `Dashboard.ExpireSweep`.

Representation choices:

- Times are integers in milliseconds. "One day later" is `+ DAY` and "seven
  days later" is `+ WEEK`.
- The current moment is a parameter `now`. Its display string, written to
  `lastStatusUpdateTime`, is the parameter `nowText`.
- The signed-in user is an `Option<User>`. `user?.username` is
  `UserName(user)`. A comparison `x === user?.username` is `IsUser`, which is
  never true without a user. `user?.username || ''` is `ActorName`.

Three behaviours of the code are easy to miss:

- Withdrawing from a project subtracts one from `usersAccepted` with no lower
  bound, so an absent or zero counter becomes -1.
  `Profile.WithdrawDoesNotClamp` states this.
- Withdrawal does not remove the user from `participantsCompleted`, so that
  list can stop being a subset of `acceptedBy`. A project can then stay In
  Process even though all its current acceptors marked it completed.
  `Profile.CompletedThenWithdrawnStaysOpen` states this.
- The dashboard sweep deletes every record marked `isExpired`, whatever its
  status. The profile sweep deletes only Completed or Rejected records that
  have a timestamp. `Dashboard.SweepsCompared` states the exact difference.

## Model

| member | source | states |
|---|---|---|
| Storage.LocalStorage.SetRequests | src/pages/dashboard/Profile.tsx:102 | after `setItem` the stored collection is exactly the written array |
| Profile.ArchivePurge | src/pages/dashboard/Profile.tsx:49-63 | a record survives the purge iff it is not an archived Pending record more than seven days past `archivedAt`; survivors keep their order and every copy of a kept record stays |
| Profile.ArchivePurgeShrinks | src/pages/dashboard/Profile.tsx:65-74 | the purged collection is shorter (the write-back and toast condition) iff some record is due; it is unchanged iff none is |
| Profile.ArchivePurgeConcat | src/pages/dashboard/Profile.tsx:49-63 | purging a concatenation is concatenating the purges: each record is judged on its own |
| Profile.ExpireSweep | src/pages/dashboard/Profile.tsx:82-99 | the expiry sweep never lengthens the collection, and every survivor is a record that was not already expired and finished with a timestamp, marked if it was due |
| Profile.ExpireSweepIsMarkAfterFilter | src/pages/dashboard/Profile.tsx:82-99 | the sweep drops exactly the already-expired Completed/Rejected records with a timestamp and marks the ones more than a day past their status update |
| Profile.ExpireSweepKeepsOtherExpired | src/pages/dashboard/Profile.tsx:84-98 | a record marked expired but not Completed/Rejected with a timestamp survives, unchanged |
| Profile.ExpireSweepMarksDue | src/pages/dashboard/Profile.tsx:88-93 | a record due for expiry comes back with `isExpired` set and is not removed in the same pass |
| Profile.RejectedTwoDaysAgo | src/pages/dashboard/Profile.tsx:84-97 | a Rejected record updated two days ago is marked by the first pass and removed by the second |
| Profile.ExpireSweepTwice | src/pages/dashboard/Profile.tsx:82-99 | two passes at one instant remove every Completed/Rejected record with a timestamp that is expired or due |
| Profile.ExpireSweepChanges | src/pages/dashboard/Profile.tsx:101-104 | the sweep's result differs from the stored array (the write-back condition) iff some record is due or already expired and finished |
| Profile.WithCompleter | src/pages/dashboard/Profile.tsx:206-210 | the earlier completers are a prefix of the result, the actor is among the completers, no duplicate is introduced, and the length grows by one exactly when the actor was new: the actor is appended once at the end |
| Profile.HasMarkedCompleted | src/pages/dashboard/Profile.tsx:341-345 | only a project with a completers array can count as marked, and a user already marked adds no one by marking again |
| Profile.CompleteRecord | src/pages/dashboard/Profile.tsx:202-233 | a project records the user as completer and becomes Completed, with fresh timestamps, exactly when the completer count equals the acceptor count; a request becomes Completed with fresh timestamps; no other field changes |
| Profile.MarkCompleted | src/pages/dashboard/Profile.tsx:200-235 | only records with the given id change, each as `CompleteRecord` says; an unknown id leaves the collection equal |
| Profile.TwoParticipantCompletion | src/pages/dashboard/Profile.tsx:204-225 | a two-acceptor project stays In Process after the first completer and becomes Completed after the second |
| Profile.FindById | src/pages/dashboard/Profile.tsx:246 | `find` returns the first record with the id, or none when no record has it |
| Profile.WithdrawRecord | src/pages/dashboard/Profile.tsx:253-274 | withdrawal removes exactly the user's entries from `acceptedBy`, keeps every other entry with its multiplicity and in order, decrements `usersAccepted`, returns the item to Pending iff no acceptor is left, and stamps the time only then; nothing else changes |
| Profile.RejectRecord | src/pages/dashboard/Profile.tsx:290-297 | the record becomes Rejected with fresh timestamps and nothing else changes |
| Profile.Abandon | src/pages/dashboard/Profile.tsx:245-306 | the first record with the id decides: if it is multi-party (a project or a multi-department request) every record with the id is withdrawn from, otherwise every one is rejected; other records are untouched; an unknown id changes nothing |
| Profile.WithdrawBothParticipants | src/pages/dashboard/Profile.tsx:251-274 | a project with two acceptors stays In Process after one withdraws and returns to Pending after both have |
| Profile.SoloRequestRejected | src/pages/dashboard/Profile.tsx:288-300 | abandoning a single-department request rejects it |
| Profile.WithdrawDoesNotClamp | src/pages/dashboard/Profile.tsx:259 | the decrement reaches -1 when `usersAccepted` is absent or zero |
| Profile.CompletedThenWithdrawnStaysOpen | src/pages/dashboard/Profile.tsx:204-274 | after one acceptor marks completed and then withdraws, the other acceptor's completion leaves the project In Process |
| Profile.Unarchive | src/pages/dashboard/Profile.tsx:174-177 | the project with the id loses its archived flag and archive date; other records are unchanged |
| Profile.UnarchiveProtectsFromPurge | src/pages/dashboard/Profile.tsx:175-177 | an unarchived project is never purged, however late |
| Profile.Delete | src/pages/dashboard/Profile.tsx:188-189 | the records with the id are removed, every other record stays with its multiplicity and in order, and afterwards no record has the id |
| Profile.ClearHistory | src/pages/dashboard/Profile.tsx:309-313 | exactly the Completed and Rejected records the user created are removed; every other record stays with its multiplicity and in order |
| Profile.ClearHistoryKeepsAcceptedOnly | src/pages/dashboard/Profile.tsx:310-312 | afterwards the history tab holds only records the user accepted but did not create, and every such record is still there |
| Profile.ClearHistoryScenario | src/pages/dashboard/Profile.tsx:310-312 | clearing removes the user's own Completed request and keeps a Completed request another user created and the user accepted |
| Profile.UserRequests | src/pages/dashboard/Profile.tsx:108-113 | a record is the user's iff they created it or it is a project whose acceptor array includes them; the view keeps the collection's order and multiplicities |
| Profile.ArchivedProjects | src/pages/dashboard/Profile.tsx:116-120 | an admin sees the archived projects of their department; anyone else sees the archived projects they created; the view keeps the collection's order and multiplicities |
| Profile.AcceptedItems | src/pages/dashboard/Profile.tsx:123-146 | an accepted item is In Process and names the user as its acceptor, in the shapes each kind allows; the view keeps the collection's order and multiplicities |
| Profile.HistoryItems | src/pages/dashboard/Profile.tsx:149-166 | a history item is Completed or Rejected and created or accepted by the user; the view keeps the collection's order and multiplicities |
| Profile.RecentActivity | src/pages/dashboard/Profile.tsx:169-171 | the first min(3, n) of the user's n non-archived records, in order: a prefix of that list of exactly that length |
| Profile.AcceptedAndHistoryDisjoint | src/pages/dashboard/Profile.tsx:123-166 | no record is both an accepted item and a history item; this follows from the two status tests alone (In Process against Completed or Rejected) |
| Profile.ScalarAndArrayAgree | src/pages/dashboard/Profile.tsx:134-163 | for a signed-in user, a request accepted under the scalar name and one accepted under the one-name array are classified alike |
| Profile.NoUserShapesDisagree | src/pages/dashboard/Profile.tsx:136-142 | without a user, the scalar shape `""` is not accepted while the array `[""]` is |
| Profile.ProfilePage.constructor | src/pages/dashboard/Profile.tsx:19-23 | the page starts with an empty `requests` state over the given storage and user |
| Profile.ProfilePage.LoadRequests | src/pages/dashboard/Profile.tsx:37-42 | the state adopts the stored collection when the key exists and is kept otherwise |
| Profile.ProfilePage.CheckArchivedProjects | src/pages/dashboard/Profile.tsx:45-75 | storage and state become the purged collection iff some record was due; otherwise nothing changes |
| Profile.ProfilePage.CheckExpiredItems | src/pages/dashboard/Profile.tsx:78-105 | storage and state become the swept collection iff the sweep changed something; otherwise nothing changes |
| Profile.ProfilePage.IntervalTick | src/pages/dashboard/Profile.tsx:29-32 | after one timer tick storage holds the expiry sweep of the purge of what it held; `purged` is raised iff some record was due for purging and `written` iff the sweep found a record due or condemned; storage and state are written only then |
| Profile.ProfilePage.HandleUnarchive | src/pages/dashboard/Profile.tsx:174-185 | state and storage become `Unarchive` of the state |
| Profile.ProfilePage.HandleDelete | src/pages/dashboard/Profile.tsx:188-197 | state and storage become `Delete` of the state |
| Profile.ProfilePage.HandleMarkCompleted | src/pages/dashboard/Profile.tsx:200-242 | state and storage become `MarkCompleted` of the state for the signed-in user |
| Profile.ProfilePage.HandleAbandon | src/pages/dashboard/Profile.tsx:245-306 | state and storage become `Abandon` of the state for the signed-in user |
| Profile.ProfilePage.HandleClearHistory | src/pages/dashboard/Profile.tsx:309-320 | state and storage become `ClearHistory` of the state for the signed-in user |
| Dashboard.ExpireSweep | src/pages/dashboard/Dashboard.tsx:43-63 | the dashboard's expiry sweep never lengthens the collection, and every expired record left is one this pass marked, so it is Completed or Rejected with a timestamp; expired records of other statuses are removed |
| Dashboard.SweepExpired | src/pages/dashboard/Dashboard.tsx:41-63 | the loop's array is the sweep of the stored array, and the `updated` flag is raised iff some record was due for expiry or already expired |
| Dashboard.ExpireSweepIsMarkAfterFilter | src/pages/dashboard/Dashboard.tsx:43-63 | the sweep drops every expired record and marks those due; survivors keep their order |
| Dashboard.ExpireSweepMarksDue | src/pages/dashboard/Dashboard.tsx:50-53 | a record marked in this pass is not removed in the same pass |
| Dashboard.ExpireSweepChanges | src/pages/dashboard/Dashboard.tsx:41-65 | the sweep's result differs from the stored array iff the flag is raised |
| Dashboard.ExpireSweepTwice | src/pages/dashboard/Dashboard.tsx:43-63 | two passes at one instant remove every record that was expired or due |
| Dashboard.SweepsCompared | src/pages/dashboard/Dashboard.tsx:43-63 | the dashboard's sweep is the profile's sweep followed by dropping the expired records the profile keeps |
| Dashboard.FallbackName | src/pages/dashboard/Dashboard.tsx:90 | the fallback acceptor is the user's name when it is non-empty and `"unknown"` otherwise, never empty |
| Dashboard.FixStructure | src/pages/dashboard/Dashboard.tsx:85-94 | In Process records with a missing `acceptedBy` get the fallback name, other records are unchanged, and afterwards no In Process record lacks an acceptor |
| Dashboard.FixStructureIdempotent | src/pages/dashboard/Dashboard.tsx:85-94 | repairing twice is repairing once |
| Dashboard.StatusCountsPartition | src/pages/dashboard/Dashboard.tsx:107-110 | the four per-status counts add up to the total |
| Dashboard.StatCardsBounded | src/pages/dashboard/Dashboard.tsx:107-110 | the pending, completed and rejected cards each, and together, stay within the total |
| Dashboard.DashboardPage.constructor | src/pages/dashboard/Dashboard.tsx:18-21 | the page starts with an empty `requests` state over the given storage and user |
| Dashboard.DashboardPage.LoadRequests | src/pages/dashboard/Dashboard.tsx:71-78 | the mount load and the reload after a new request: the state adopts the stored collection when the key exists |
| Dashboard.DashboardPage.CheckExpiredRequests | src/pages/dashboard/Dashboard.tsx:37-69 | storage and state become the swept collection iff the flag was raised; otherwise nothing changes |
| Dashboard.DashboardPage.FixRequestsStructure | src/pages/dashboard/Dashboard.tsx:81-99 | storage and state become the repaired collection, unconditionally |

## Left out

- Rendering, routing, dialogs and the sidebar, history and archive components:
  they display records and do not change the lifecycle.
- React's effect scheduling. The mount and `[user]` effects and the
  one-minute `setInterval` are the methods themselves, called by whoever
  drives the page. `clearInterval` on unmount is not modelled.
- Toasts: the purge's notification is the returned `purged` flag. The other
  handlers' toasts are not modelled.
- `console.log` in the structure repair.
- JSON serialisation: the stored blob holds the collection itself. A
  malformed blob, which makes the source throw, is not modelled.
- Date arithmetic: `setDate(getDate() + n)` in local time is a fixed offset
  of whole days of milliseconds, so daylight-saving shifts are not modelled.
  The display string `toLocaleTimeString()` is an opaque parameter.
- `getDaysRemaining` (Profile.tsx:323-335) is left out. It is a display
  countdown that changes no record.
- Records appear from the request form, are accepted from the department
  views, and are archived elsewhere. Those transitions are not part of these
  files, so they are not part of this model. The lifecycle here starts from
  whatever is in storage.
- Profile.ExpireSweep: its own contract states the length bound and where each
  survivor comes from. That every record which is not removed does survive is
  in the lemmas `Profile.ExpireSweepIsMarkAfterFilter` and
  `Profile.ExpireSweepChanges`.
- Dashboard.ExpireSweep: the same split. The converse is in
  `Dashboard.ExpireSweepIsMarkAfterFilter` and `Dashboard.ExpireSweepMarksDue`.
- Properties of untyped stored values are not modelled:
  - The statuses are the four known ones.
  - `acceptedBy` is one of absent, a name, an array of names or a boolean.
  - Counts are integers.
- Concurrent writes by other open pages to the same storage entry are not
  modelled. Each method reads and writes storage in one step.
