/** What every operation keeps true of the store, and what follows from it
    for every store the operations can reach. */
module Invariants {
  import opened Errors
  import opened Store
  import opened Ledger
  import opened Users
  import opened Chores
  import opened Rewards

  /** Points are non-negative and every chore has assignees, all of them users. */
  predicate ChoresWellFormed(s: Store) {
    forall i :: 0 <= i < |s.chores| ==>
      && s.chores[i].points >= 0
      && s.chores[i].assignees != {}
      && (forall a :: a in s.chores[i].assignees ==> HasUser(s, a))
  }

  /** An event records creation (into ASSIGNED) or one lifecycle edge. */
  predicate EventFollowsLifecycle(e: ChoreEvent) {
    match e.fromStatus
    case None => e.toStatus == Assigned
    case Some(from) => Edge(from, e.toStatus)
  }

  predicate EventsWellFormed(s: Store) {
    forall k :: 0 <= k < |s.events| ==> HasChore(s, s.events[k].choreId) && EventFollowsLifecycle(s.events[k])
  }

  /** A DONE_PENDING chore has a DONE_PENDING event whose actor is an assignee. */
  predicate PendingChoresHaveDoer(s: Store) {
    forall i :: 0 <= i < |s.chores| && s.chores[i].status == DonePending ==>
      PendingActor(s.events, i + 1).Some? && PendingActor(s.events, i + 1).value in s.chores[i].assignees
  }

  predicate RewardsWellFormed(s: Store) {
    forall i :: 0 <= i < |s.rewards| ==> s.rewards[i].cost >= 0
  }

  /** A redemption names its reward and user, and has a handler exactly when it is no longer REQUESTED. */
  predicate RedemptionsWellFormed(s: Store) {
    forall i :: 0 <= i < |s.redemptions| ==>
      && HasReward(s, s.redemptions[i].rewardId)
      && HasUser(s, s.redemptions[i].userId)
      && (s.redemptions[i].status == Requested <==> s.redemptions[i].handledBy.None?)
  }

  /** Every ledger entry is a chore credit of the chore's points to one of
      its assignees, or a reward debit of the cost from the redeeming child. */
  predicate EntryWellFormed(s: Store, e: LedgerEntry) {
    match e.refType
    case ChoreRef =>
      e.refId.Some? && HasChore(s, e.refId.value)
      && e.delta == ChoreAt(s, e.refId.value).points
      && e.userId in ChoreAt(s, e.refId.value).assignees
    case RewardRef =>
      e.refId.Some? && Found(s, e.refId.value)
      && e.delta == -CostOf(s, e.refId.value)
      && e.userId == RedemptionAt(s, e.refId.value).userId
    case AdminAdjust => false
  }

  predicate LedgerWellFormed(s: Store) {
    forall k :: 0 <= k < |s.ledger| ==> EntryWellFormed(s, s.ledger[k])
  }

  /** A chore is credited once if it is APPROVED and never otherwise. */
  predicate CreditedOnce(s: Store) {
    forall i :: 0 <= i < |s.chores| ==>
      CountRefs(s.ledger, ChoreRef, i + 1) == if s.chores[i].status == Approved then 1 else 0
  }

  /** A redemption is debited once if it is APPROVED and never otherwise. */
  predicate DebitedOnce(s: Store) {
    forall i :: 0 <= i < |s.redemptions| ==>
      CountRefs(s.ledger, RewardRef, i + 1) == if s.redemptions[i].status == Granted then 1 else 0
  }

  ghost predicate BalancesNonNegative(s: Store) {
    forall u :: Balance(s.ledger, u) >= 0
  }

  ghost predicate Valid(s: Store) {
    && UniqueUsernames(s)
    && ChoresWellFormed(s)
    && EventsWellFormed(s)
    && PendingChoresHaveDoer(s)
    && RewardsWellFormed(s)
    && RedemptionsWellFormed(s)
    && LedgerWellFormed(s)
    && CreditedOnce(s)
    && DebitedOnce(s)
    && BalancesNonNegative(s)
  }

  lemma EmptyStoreValid()
    ensures Valid(EmptyStore)
  {
    assert Balance([], 0) == 0;
  }

  /** Under the invariant the fallback of approve_chore is never taken: the
      credited child is the one who marked the chore done, an assignee. */
  lemma CreditedChildIsDoer(s: Store, choreId: int)
    requires Valid(s) && HasChore(s, choreId) && ChoreAt(s, choreId).status == DonePending
    ensures CreditedChild(s, choreId) == PendingActor(s.events, choreId)
    ensures CreditedChild(s, choreId).Some? && CreditedChild(s, choreId).value in ChoreAt(s, choreId).assignees
  {
    var i := choreId - 1;
    assert s.chores[i].status == DonePending;
    var a := PendingActor(s.events, choreId).value;
    assert a in s.chores[i].assignees;
    assert HasUser(s, a);
  }
}
