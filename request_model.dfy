/**
 * The records of the `jd-requests` collection and the small vocabulary shared
 * by the profile and dashboard pages: statuses, the `request`/`project`
 * discriminant, the legacy shapes of `acceptedBy`, the signed-in user, and the
 * one-day expiry rule both expiry sweeps start from.
 */
module RequestModel {
  import opened Wrappers

  /** A point in time, in milliseconds; the ISO strings of the stored records, parsed. */
  type Time = int

  /** "One day later" and "seven days later" as fixed offsets. */
  const DAY: int := 86_400_000
  const WEEK: int := 7 * DAY

  /** "Pending", "In Process", "Completed", "Rejected". */
  datatype Status = Pending | InProcess | Completed | Rejected

  /** The `type` discriminant: "request" or "project". */
  datatype Kind = RequestKind | ProjectKind

  /**
   * The stored shapes of `acceptedBy`: absent or `null`, a single user name
   * (legacy request records), an array of user names, or a stray boolean
   * (the `true` that the dashboard's structure repair looks for).
   */
  datatype AcceptedBy = NoAcceptor | Scalar(name: string) | Arr(names: seq<string>) | Flag(flag: bool)

  /**
   * One stored record. Optional fields are `None` when absent or `null`;
   * boolean flags that may be absent are `false` when absent.
   */
  datatype Request = Request(
    id: string,
    kind: Kind,
    creator: string,
    department: string,
    title: string,
    status: Status,
    multiDepartment: bool,
    acceptedBy: AcceptedBy,
    usersNeeded: Option<int>,
    usersAccepted: Option<int>,
    participantsCompleted: Option<seq<string>>,
    archived: bool,
    archivedAt: Option<Time>,
    isExpired: bool,
    lastStatusUpdate: Option<Time>,
    lastStatusUpdateTime: Option<string>)

  /** The signed-in user as the authentication context hands it over. */
  datatype User = User(username: string, role: string, department: string)

  /** Completed or Rejected: the statuses that count as history and can expire. */
  predicate IsFinished(s: Status) {
    s == Completed || s == Rejected
  }

  /** `user?.username`. */
  function UserName(user: Option<User>): Option<string> {
    match user
    case Some(u) => Some(u.username)
    case None => None
  }

  /** `name === user?.username`: never true when there is no user. */
  predicate IsUser(name: string, username: Option<string>) {
    username == Some(name)
  }

  /** `user?.username || ''`: the name the handlers act under. */
  function ActorName(username: Option<string>): string {
    username.GetOr("")
  }

  /** `Array.isArray(r.acceptedBy) ? r.acceptedBy : []`. */
  function AcceptedList(a: AcceptedBy): seq<string> {
    if a.Arr? then a.names else []
  }

  /** `Array.isArray(r.participantsCompleted) ? [...r.participantsCompleted] : []`. */
  function CompletedList(r: Request): seq<string> {
    r.participantsCompleted.GetOr([])
  }

  /** `(r.usersAccepted || 0)`. */
  function UsersAcceptedOrZero(r: Request): int {
    r.usersAccepted.GetOr(0)
  }

  /** Sets `lastStatusUpdate` (`now.toISOString()`) and `lastStatusUpdateTime` (its display form). */
  function Stamp(r: Request, now: Time, nowText: string): Request {
    r.(lastStatusUpdate := Some(now), lastStatusUpdateTime := Some(nowText))
  }

  /**
   * Both expiry sweeps mark a record when it is Completed or Rejected, has a
   * status timestamp, is more than one day past it, and is not yet marked.
   */
  predicate DueForExpiry(r: Request, now: Time) {
    IsFinished(r.status) && r.lastStatusUpdate.Some? && now > r.lastStatusUpdate.value + DAY && !r.isExpired
  }

  /** `{ ...req, isExpired: true }` for a record due for expiry; the record itself otherwise. */
  function MarkIfDue(r: Request, now: Time): Request {
    if DueForExpiry(r, now) then r.(isExpired := true) else r
  }

  /** No user name occurs twice. */
  predicate NoDuplicates(s: seq<string>) {
    forall i, j :: 0 <= i < j < |s| ==> s[i] != s[j]
  }
}
