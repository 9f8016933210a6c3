/** What a request may change: chores move only along the lifecycle edges,
    redemptions are settled at most once, usernames never change, and
    events, rewards and the ledger only grow at the end. */
module History {
  import opened Errors
  import opened Store
  import opened Users
  import opened Chores
  import opened Rewards
  import opened Requests

  /** A chore either stays as it was or takes one lifecycle edge, keeping every other field. */
  predicate ChoreMoves(c: Chore, c': Chore) {
    c' == c || (Edge(c.status, c'.status) && c' == c.(status := c'.status))
  }

  /** A redemption either stays as it was or leaves REQUESTED for good, keeping its reward and user. */
  predicate RedemptionMoves(rd: Redemption, rd': Redemption) {
    rd' == rd
    || (rd.status == Requested && rd'.status != Requested && rd'.rewardId == rd.rewardId && rd'.userId == rd.userId)
  }

  /** The change one successful request may make. */
  predicate Advances(s: Store, s': Store) {
    && |s.users| <= |s'.users|
    && (forall i :: 0 <= i < |s.users| ==> s'.users[i].username == s.users[i].username)
    && |s.chores| <= |s'.chores|
    && (forall i :: 0 <= i < |s.chores| ==> ChoreMoves(s.chores[i], s'.chores[i]))
    && (forall i :: |s.chores| <= i < |s'.chores| ==> s'.chores[i].status == Assigned)
    && s.events <= s'.events
    && s.rewards <= s'.rewards
    && |s.redemptions| <= |s'.redemptions|
    && (forall i :: 0 <= i < |s.redemptions| ==> RedemptionMoves(s.redemptions[i], s'.redemptions[i]))
    && (forall i :: |s.redemptions| <= i < |s'.redemptions| ==> s'.redemptions[i].status == Requested)
    && s.ledger <= s'.ledger
  }

  /** What survives any number of requests: recorded history and settled
      outcomes are final. */
  predicate Settles(s: Store, s': Store) {
    && |s.users| <= |s'.users|
    && (forall i :: 0 <= i < |s.users| ==> s'.users[i].username == s.users[i].username)
    && |s.chores| <= |s'.chores|
    && (forall i :: 0 <= i < |s.chores| && s.chores[i].status == Approved ==> s'.chores[i] == s.chores[i])
    && s.events <= s'.events
    && s.rewards <= s'.rewards
    && |s.redemptions| <= |s'.redemptions|
    && (forall i :: 0 <= i < |s.redemptions| && s.redemptions[i].status != Requested ==>
          s'.redemptions[i] == s.redemptions[i])
    && s.ledger <= s'.ledger
  }

  /** Changing one user's fields other than the username, or appending a user or reward. */
  lemma DirectoryChangeAdvances(s: Store, s': Store)
    requires s'.chores == s.chores && s'.events == s.events && s'.redemptions == s.redemptions && s'.ledger == s.ledger
    requires |s.users| <= |s'.users| && forall i :: 0 <= i < |s.users| ==> s'.users[i].username == s.users[i].username
    requires s.rewards <= s'.rewards
    ensures Advances(s, s')
  {
  }

  /** Moving one chore along an edge, with events appended. */
  lemma StatusChangeAdvances(s: Store, s': Store, id: int, st: ChoreStatus)
    requires HasChore(s, id) && Edge(ChoreAt(s, id).status, st)
    requires s' == s.(chores := s.chores[id - 1 := ChoreAt(s, id).(status := st)], events := s'.events)
    requires s.events <= s'.events
    ensures Advances(s, s')
  {
  }

  lemma CreateUserAdvances(s: Store, username: string, displayName: string, role: string, password: string, avatar: string)
    requires CreateUser(s, username, displayName, role, password, avatar).Ok?
    ensures Advances(s, CreateUser(s, username, displayName, role, password, avatar).value.0)
  {
    var s' := CreateUser(s, username, displayName, role, password, avatar).value.0;
    assert forall i :: 0 <= i < |s.users| ==> s'.users[i] == s.users[i];
    DirectoryChangeAdvances(s, s');
  }

  lemma PatchUserAdvances(s: Store, id: int, p: UserPatch)
    requires PatchUser(s, id, p).Ok?
    ensures Advances(s, PatchUser(s, id, p).value.0)
  {
    DirectoryChangeAdvances(s, PatchUser(s, id, p).value.0);
  }

  lemma CreateRewardAdvances(s: Store, actor: Actor, name: string, cost: int, active: bool, limit: Option<int>)
    requires CreateReward(s, actor, name, cost, active, limit).Ok?
    ensures Advances(s, CreateReward(s, actor, name, cost, active, limit).value.0)
  {
    DirectoryChangeAdvances(s, CreateReward(s, actor, name, cost, active, limit).value.0);
  }

  /** Appending one ASSIGNED chore, with events appended. */
  lemma AppendChoreAdvances(s: Store, s': Store, c: Chore)
    requires c.status == Assigned
    requires s' == s.(chores := s.chores + [c], events := s'.events) && s.events <= s'.events
    ensures Advances(s, s')
  {
  }

  lemma CreateChoreAdvances(s: Store, actor: Actor, title: string, description: Option<string>, points: int,
                            assigneeIds: seq<int>, recurrence: string, dueDate: Option<string>)
    requires CreateChore(s, actor, title, description, points, assigneeIds, recurrence, dueDate).Ok?
    ensures Advances(s, CreateChore(s, actor, title, description, points, assigneeIds, recurrence, dueDate).value.0)
  {
    var r := CreateChore(s, actor, title, description, points, assigneeIds, recurrence, dueDate);
    AppendChoreAdvances(s, r.value.0, ChoreAt(r.value.0, r.value.1));
  }

  lemma MarkChoreDoneAdvances(s: Store, actor: Actor, choreId: int)
    requires MarkChoreDone(s, actor, choreId).Ok?
    ensures Advances(s, MarkChoreDone(s, actor, choreId).value.0)
  {
    StatusChangeAdvances(s, MarkChoreDone(s, actor, choreId).value.0, choreId, DonePending);
  }

  lemma RejectChoreAdvances(s: Store, actor: Actor, choreId: int, note: Option<string>)
    requires RejectChore(s, actor, choreId, note).Ok?
    ensures Advances(s, RejectChore(s, actor, choreId, note).value.0)
  {
    StatusChangeAdvances(s, RejectChore(s, actor, choreId, note).value.0, choreId, Rejected);
  }

  lemma ApproveChoreAdvances(s: Store, actor: Actor, choreId: int, note: Option<string>)
    requires ApproveChore(s, actor, choreId, note).Ok?
    ensures Advances(s, ApproveChore(s, actor, choreId, note).value.0)
  {
    var s' := ApproveChore(s, actor, choreId, note).value.0;
    assert forall i :: 0 <= i < |s.chores| ==> s'.chores[i] == s'.chores[..|s.chores|][i];
  }

  /** Appending one REQUESTED redemption. */
  lemma AppendRedemptionAdvances(s: Store, rd: Redemption)
    requires rd.status == Requested
    ensures Advances(s, s.(redemptions := s.redemptions + [rd]))
  {
  }

  /** Settling one REQUESTED redemption, keeping its reward and user, with ledger entries appended. */
  lemma SettleAdvances(s: Store, s': Store, id: int, rd: Redemption)
    requires HasRedemption(s, id) && RedemptionAt(s, id).status == Requested && rd.status != Requested
    requires rd.rewardId == RedemptionAt(s, id).rewardId && rd.userId == RedemptionAt(s, id).userId
    requires s' == s.(redemptions := s.redemptions[id - 1 := rd], ledger := s'.ledger) && s.ledger <= s'.ledger
    ensures Advances(s, s')
  {
  }

  lemma RequestRedemptionAdvances(s: Store, actor: Actor, rewardId: int, now: int, weekStart: int)
    requires RequestRedemption(s, actor, rewardId, now, weekStart).Ok?
    ensures Advances(s, RequestRedemption(s, actor, rewardId, now, weekStart).value.0)
  {
    AppendRedemptionAdvances(s, Redemption(rewardId, actor.id, Requested, "Requested by child", now, now, None));
  }

  lemma ApproveRedemptionAdvances(s: Store, actor: Actor, id: int, note: Option<string>, now: int)
    requires ApproveRedemption(s, actor, id, note, now).Ok?
    ensures Advances(s, ApproveRedemption(s, actor, id, note, now).value.0)
  {
    var r := ApproveRedemption(s, actor, id, note, now);
    SettleAdvances(s, r.value.0, id, r.value.1);
  }

  lemma DenyRedemptionAdvances(s: Store, actor: Actor, id: int, note: Option<string>, now: int)
    requires DenyRedemption(s, actor, id, note, now).Ok?
    ensures Advances(s, DenyRedemption(s, actor, id, note, now).value.0)
  {
    var r := DenyRedemption(s, actor, id, note, now);
    SettleAdvances(s, r.value.0, id, r.value.1);
  }

  /** Every successful request changes the store only as Advances allows. */
  lemma ApplyAdvances(s: Store, req: Request)
    requires Apply(s, req).Ok?
    ensures Advances(s, Apply(s, req).value)
  {
    var actor := SessionActor(s, req.sender).value;
    match req.op
    case NewUser(username, displayName, role, password, avatar) =>
      CreateUserAdvances(s, username, displayName, role, password, avatar);
    case EditUser(userId, patch) =>
      PatchUserAdvances(s, userId, patch);
    case NewChore(title, description, points, assigneeIds, recurrence, dueDate) =>
      CreateChoreAdvances(s, actor, title, description, points, assigneeIds, recurrence, dueDate);
    case ChoreDone(choreId) =>
      MarkChoreDoneAdvances(s, actor, choreId);
    case ChoreApprove(choreId, note) =>
      ApproveChoreAdvances(s, actor, choreId, note);
    case ChoreReject(choreId, note) =>
      RejectChoreAdvances(s, actor, choreId, note);
    case NewReward(name, cost, active, limitPerWeek) =>
      CreateRewardAdvances(s, actor, name, cost, active, limitPerWeek);
    case Redeem(rewardId, now, weekStart) =>
      RequestRedemptionAdvances(s, actor, rewardId, now, weekStart);
    case RedemptionApprove(id, note, now) =>
      ApproveRedemptionAdvances(s, actor, id, note, now);
    case RedemptionDeny(id, note, now) =>
      DenyRedemptionAdvances(s, actor, id, note, now);
  }

  lemma AdvancesSettles(s: Store, s': Store)
    requires Advances(s, s')
    ensures Settles(s, s')
  {
  }

  lemma SettlesTransitive(s1: Store, s2: Store, s3: Store)
    requires Settles(s1, s2) && Settles(s2, s3)
    ensures Settles(s1, s3)
  {
  }

  /** Over any run, history only grows and settled outcomes stay settled:
      an APPROVED chore, a settled redemption, an event or a ledger entry,
      once there, is there for good. */
  lemma {:induction false} RunSettles(s: Store, reqs: seq<Request>)
    ensures Settles(s, Run(s, reqs))
    decreases |reqs|
  {
    if reqs == [] {
    } else {
      var before := Run(s, reqs[..|reqs| - 1]);
      RunSettles(s, reqs[..|reqs| - 1]);
      if Apply(before, reqs[|reqs| - 1]).Ok? {
        ApplyAdvances(before, reqs[|reqs| - 1]);
        AdvancesSettles(before, Run(s, reqs));
        SettlesTransitive(s, before, Run(s, reqs));
      }
    }
  }
}
