/** The entities of the chore/reward store. Every table is append-only in
    the service layer (rows are updated, never deleted), so each table is a
    sequence and a row's id is its position plus one, as SQLite's
    AUTOINCREMENT hands them out. */
module Store {
  import opened Errors

  datatype Role = Admin | Parent | Child

  function RoleName(r: Role): string {
    match r
    case Admin => "ADMIN"
    case Parent => "PARENT"
    case Child => "CHILD"
  }

  /** The role check of create_user and patch_user. */
  function ParseRole(s: string): (r: Option<Role>)
    ensures r.Some? <==> s in {"ADMIN", "PARENT", "CHILD"}
    ensures r.Some? ==> RoleName(r.value) == s
  {
    if s == "ADMIN" then Some(Admin)
    else if s == "PARENT" then Some(Parent)
    else if s == "CHILD" then Some(Child)
    else None
  }

  /** The roles allowed to create, approve and reject. */
  predicate IsManager(r: Role) {
    r == Admin || r == Parent
  }

  /** NONE, DAILY or WEEKLY. */
  datatype Recurrence = NoRecurrence | Daily | Weekly

  function RecurrenceName(r: Recurrence): string {
    match r
    case NoRecurrence => "NONE"
    case Daily => "DAILY"
    case Weekly => "WEEKLY"
  }

  function ParseRecurrence(s: string): (r: Option<Recurrence>)
    ensures r.Some? <==> s in {"NONE", "DAILY", "WEEKLY"}
    ensures r.Some? ==> RecurrenceName(r.value) == s
  {
    if s == "NONE" then Some(NoRecurrence)
    else if s == "DAILY" then Some(Daily)
    else if s == "WEEKLY" then Some(Weekly)
    else None
  }

  datatype ChoreStatus = Assigned | DonePending | Approved | Rejected

  function StatusName(st: ChoreStatus): string {
    match st
    case Assigned => "ASSIGNED"
    case DonePending => "DONE_PENDING"
    case Approved => "APPROVED"
    case Rejected => "REJECTED"
  }

  /** The chore lifecycle: the only status changes an operation may make. */
  predicate Edge(from: ChoreStatus, to: ChoreStatus) {
    || (from == Assigned && to == DonePending)
    || (from == Rejected && to == DonePending)
    || (from == DonePending && to == Approved)
    || (from == DonePending && to == Rejected)
  }

  datatype RedemptionStatus = Requested | Granted | Denied

  datatype RefType = ChoreRef | RewardRef | AdminAdjust

  datatype User = User(
    username: string,
    displayName: string,
    role: Role,
    avatar: string,
    active: bool,
    mustChangePassword: bool)

  datatype Chore = Chore(
    title: string,
    description: string,
    points: int,
    recurrence: Recurrence,
    dueDate: Option<string>,
    status: ChoreStatus,
    createdBy: int,
    assignees: set<int>)

  /** An audit record; fromStatus is None for the creation event. */
  datatype ChoreEvent = ChoreEvent(
    choreId: int,
    fromStatus: Option<ChoreStatus>,
    toStatus: ChoreStatus,
    actor: int,
    note: string)

  datatype Reward = Reward(
    name: string,
    cost: int,
    active: bool,
    limitPerWeek: Option<int>,
    createdBy: int)

  /** createdAt and updatedAt are instants on one clock; only their order matters. */
  datatype Redemption = Redemption(
    rewardId: int,
    userId: int,
    status: RedemptionStatus,
    note: string,
    createdAt: int,
    updatedAt: int,
    handledBy: Option<int>)

  datatype LedgerEntry = LedgerEntry(
    userId: int,
    delta: int,
    reason: string,
    refType: RefType,
    refId: Option<int>)

  /** The authenticated user performing an operation. */
  datatype Actor = Actor(id: int, role: Role)

  datatype Store = Store(
    users: seq<User>,
    chores: seq<Chore>,
    events: seq<ChoreEvent>,
    rewards: seq<Reward>,
    redemptions: seq<Redemption>,
    ledger: seq<LedgerEntry>)

  const EmptyStore := Store([], [], [], [], [], [])

  predicate HasUser(s: Store, id: int) {
    1 <= id <= |s.users|
  }

  function UserAt(s: Store, id: int): User
    requires HasUser(s, id)
  {
    s.users[id - 1]
  }

  predicate HasChore(s: Store, id: int) {
    1 <= id <= |s.chores|
  }

  function ChoreAt(s: Store, id: int): Chore
    requires HasChore(s, id)
  {
    s.chores[id - 1]
  }

  predicate HasReward(s: Store, id: int) {
    1 <= id <= |s.rewards|
  }

  function RewardAt(s: Store, id: int): Reward
    requires HasReward(s, id)
  {
    s.rewards[id - 1]
  }

  predicate HasRedemption(s: Store, id: int) {
    1 <= id <= |s.redemptions|
  }

  function RedemptionAt(s: Store, id: int): Redemption
    requires HasRedemption(s, id)
  {
    s.redemptions[id - 1]
  }

  /** Python's `text or default`: a missing or empty text gives the default. */
  function OrDefault(text: Option<string>, default: string): (r: string)
    ensures text.Some? && text.value != [] ==> r == text.value
    ensures text.None? || text.value == [] ==> r == default
  {
    if text.Some? && text.value != [] then text.value else default
  }

  /** Python's truthiness of an optional id: None and 0 are both false. */
  predicate Truthy(id: Option<int>) {
    id.Some? && id.value != 0
  }
}
