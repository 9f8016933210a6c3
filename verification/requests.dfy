/** Requests as the web layer issues them: the session names a stored,
    active user whose stored role is the actor's role; a failed request
    is rolled back and leaves the store as it was. */
module Requests {
  import opened Errors
  import opened Store
  import opened Users
  import opened Chores
  import opened Rewards
  import opened Invariants
  import opened Preservation

  datatype Op =
    | NewUser(username: string, displayName: string, role: string, password: string, avatar: string)
    | EditUser(userId: int, patch: UserPatch)
    | NewChore(title: string, description: Option<string>, points: int, assigneeIds: seq<int>,
               recurrence: string, dueDate: Option<string>)
    | ChoreDone(choreId: int)
    | ChoreApprove(choreId: int, note: Option<string>)
    | ChoreReject(choreId: int, note: Option<string>)
    | NewReward(name: string, cost: int, active: bool, limitPerWeek: Option<int>)
    | Redeem(rewardId: int, now: int, weekStart: int)
    | RedemptionApprove(redemptionId: int, note: Option<string>, now: int)
    | RedemptionDeny(redemptionId: int, note: Option<string>, now: int)

  /** A request made in the session of user `sender`. */
  datatype Request = Request(sender: int, op: Op)

  /** The session's user: only a stored, active user is logged in, and acts
      with the role the store holds for it. */
  function SessionActor(s: Store, userId: int): (a: Option<Actor>)
    ensures a.Some? <==> HasUser(s, userId) && UserAt(s, userId).active
    ensures a.Some? ==> a.value.id == userId && a.value.role == UserAt(s, userId).role
  {
    if HasUser(s, userId) && UserAt(s, userId).active then Some(Actor(userId, UserAt(s, userId).role)) else None
  }

  predicate IsUserAdministration(op: Op) {
    op.NewUser? || op.EditUser?
  }

  /** One request: 401 without a session, 403 when a non-ADMIN administers
      users, otherwise the operation itself. */
  function Apply(s: Store, req: Request): (r: Result<Store>)
    ensures SessionActor(s, req.sender).None? ==> FailsWith(r, 401)
    ensures SessionActor(s, req.sender).Some? && IsUserAdministration(req.op) && UserAt(s, req.sender).role != Admin ==>
      FailsWith(r, 403)
    ensures r.Ok? ==> HasUser(s, req.sender) && UserAt(s, req.sender).active
  {
    match SessionActor(s, req.sender)
    case None => Fail("Authentication required", 401)
    case Some(actor) =>
      if IsUserAdministration(req.op) && actor.role != Admin then Fail("Insufficient permissions", 403)
      else
        match req.op
        case NewUser(username, displayName, role, password, avatar) =>
          var (s', _) :- CreateUser(s, username, displayName, role, password, avatar); Ok(s')
        case EditUser(userId, patch) =>
          var (s', _) :- PatchUser(s, userId, patch); Ok(s')
        case NewChore(title, description, points, assigneeIds, recurrence, dueDate) =>
          var (s', _) :- CreateChore(s, actor, title, description, points, assigneeIds, recurrence, dueDate); Ok(s')
        case ChoreDone(choreId) =>
          var (s', _) :- MarkChoreDone(s, actor, choreId); Ok(s')
        case ChoreApprove(choreId, note) =>
          var (s', _) :- ApproveChore(s, actor, choreId, note); Ok(s')
        case ChoreReject(choreId, note) =>
          var (s', _) :- RejectChore(s, actor, choreId, note); Ok(s')
        case NewReward(name, cost, active, limitPerWeek) =>
          var (s', _) :- CreateReward(s, actor, name, cost, active, limitPerWeek); Ok(s')
        case Redeem(rewardId, now, weekStart) =>
          var (s', _) :- RequestRedemption(s, actor, rewardId, now, weekStart); Ok(s')
        case RedemptionApprove(id, note, now) =>
          var (s', _) :- ApproveRedemption(s, actor, id, note, now); Ok(s')
        case RedemptionDeny(id, note, now) =>
          var (s', _) :- DenyRedemption(s, actor, id, note, now); Ok(s')
  }

  /** The store after a sequence of requests, each failed one rolled back. */
  function Run(s: Store, reqs: seq<Request>): (s': Store)
    ensures reqs == [] ==> s' == s
    decreases |reqs|
  {
    if reqs == [] then s
    else
      var last := reqs[|reqs| - 1];
      var before := Run(s, reqs[..|reqs| - 1]);
      match Apply(before, last)
      case Ok(next) => next
      case Err(_) => before
  }

  /** Every successful request keeps the store valid. */
  lemma ApplyPreservesValid(s: Store, req: Request)
    requires Valid(s)
    requires Apply(s, req).Ok?
    ensures Valid(Apply(s, req).value)
  {
    var actor := SessionActor(s, req.sender).value;
    match req.op
    case NewUser(username, displayName, role, password, avatar) =>
      CreateUserPreservesValid(s, username, displayName, role, password, avatar);
    case EditUser(userId, patch) =>
      PatchUserPreservesValid(s, userId, patch);
    case NewChore(title, description, points, assigneeIds, recurrence, dueDate) =>
      CreateChorePreservesValid(s, actor, title, description, points, assigneeIds, recurrence, dueDate);
    case ChoreDone(choreId) =>
      MarkChoreDonePreservesValid(s, actor, choreId);
    case ChoreApprove(choreId, note) =>
      ApproveChorePreservesValid(s, actor, choreId, note);
    case ChoreReject(choreId, note) =>
      RejectChorePreservesValid(s, actor, choreId, note);
    case NewReward(name, cost, active, limitPerWeek) =>
      CreateRewardPreservesValid(s, actor, name, cost, active, limitPerWeek);
    case Redeem(rewardId, now, weekStart) =>
      RequestRedemptionPreservesValid(s, actor, rewardId, now, weekStart);
    case RedemptionApprove(id, note, now) =>
      ApproveRedemptionPreservesValid(s, actor, id, note, now);
    case RedemptionDeny(id, note, now) =>
      DenyRedemptionPreservesValid(s, actor, id, note, now);
  }

  lemma {:induction false} RunPreservesValid(s: Store, reqs: seq<Request>)
    requires Valid(s)
    ensures Valid(Run(s, reqs))
    decreases |reqs|
  {
    if reqs != [] {
      var before := Run(s, reqs[..|reqs| - 1]);
      RunPreservesValid(s, reqs[..|reqs| - 1]);
      if Apply(before, reqs[|reqs| - 1]).Ok? {
        ApplyPreservesValid(before, reqs[|reqs| - 1]);
      }
    }
  }

  /** The store init_db leaves on a fresh installation: the default
      administrator, who must change the password, and nothing else. */
  const InitialStore := EmptyStore.(users := [User("admin", "Admin", Admin, "\U{1F6E1}\U{FE0F}", true, true)])

  lemma InitialStoreValid()
    ensures Valid(InitialStore)
    ensures SessionActor(InitialStore, 1) == Some(Actor(1, Admin))
  {
    EmptyStoreValid();
    assert Ledger.Balance([], 0) == 0;
  }

  /** Whatever requests a fresh installation serves, no balance goes negative,
      every chore is credited exactly once if APPROVED and never otherwise,
      and every redemption is debited exactly once if APPROVED and never otherwise. */
  lemma ReachableStoresAreSound(reqs: seq<Request>)
    ensures var s := Run(InitialStore, reqs);
      && (forall u :: Ledger.Balance(s.ledger, u) >= 0)
      && CreditedOnce(s)
      && DebitedOnce(s)
  {
    InitialStoreValid();
    RunPreservesValid(InitialStore, reqs);
  }
}
