/** Each operation, on success, keeps the store valid. */
module Preservation {
  import opened Errors
  import opened Store
  import opened Ledger
  import opened Users
  import opened Chores
  import opened Rewards
  import opened Invariants

  /** Adding users or rewards, or changing user fields other than the
      username, leaves every invariant intact. */
  lemma DirectoryChangePreservesValid(s: Store, s': Store)
    requires Valid(s)
    requires |s.users| <= |s'.users| && UniqueUsernames(s')
    requires |s.rewards| <= |s'.rewards| && s'.rewards[..|s.rewards|] == s.rewards && RewardsWellFormed(s')
    requires s'.chores == s.chores && s'.events == s.events && s'.redemptions == s.redemptions && s'.ledger == s.ledger
    ensures Valid(s')
  {
    assert forall id :: HasReward(s, id) ==> RewardAt(s', id) == RewardAt(s, id) by {
      forall id | HasReward(s, id)
        ensures RewardAt(s', id) == RewardAt(s, id)
      {
        assert s'.rewards[..|s.rewards|][id - 1] == s'.rewards[id - 1];
      }
    }
    assert ChoresWellFormed(s');
    assert RedemptionsWellFormed(s');
    assert LedgerWellFormed(s') by {
      forall k | 0 <= k < |s'.ledger|
        ensures EntryWellFormed(s', s'.ledger[k])
      {
        assert EntryWellFormed(s, s.ledger[k]);
      }
    }
  }

  lemma CreateUserPreservesValid(s: Store, username: string, displayName: string, role: string, password: string, avatar: string)
    requires Valid(s)
    requires CreateUser(s, username, displayName, role, password, avatar).Ok?
    ensures Valid(CreateUser(s, username, displayName, role, password, avatar).value.0)
  {
    var s' := CreateUser(s, username, displayName, role, password, avatar).value.0;
    CreateUserKeepsUsernamesUnique(s, username, displayName, role, password, avatar);
    assert s'.rewards[..|s.rewards|] == s.rewards;
    DirectoryChangePreservesValid(s, s');
  }

  lemma PatchUserPreservesValid(s: Store, id: int, p: UserPatch)
    requires Valid(s)
    requires PatchUser(s, id, p).Ok?
    ensures Valid(PatchUser(s, id, p).value.0)
  {
    var s' := PatchUser(s, id, p).value.0;
    assert forall i :: 0 <= i < |s.users| ==> s'.users[i].username == s.users[i].username;
    assert s'.rewards[..|s.rewards|] == s.rewards;
    DirectoryChangePreservesValid(s, s');
  }

  lemma CreateRewardPreservesValid(s: Store, actor: Actor, name: string, cost: int, active: bool, limit: Option<int>)
    requires Valid(s)
    requires CreateReward(s, actor, name, cost, active, limit).Ok?
    ensures Valid(CreateReward(s, actor, name, cost, active, limit).value.0)
  {
    var s' := CreateReward(s, actor, name, cost, active, limit).value.0;
    assert s'.rewards[..|s.rewards|] == s.rewards;
    DirectoryChangePreservesValid(s, s');
  }

  /** Entries that refer to chores refer to existing ones, so a new chore id has no credit yet. */
  lemma NewChoreUncredited(s: Store)
    requires LedgerWellFormed(s)
    ensures CountRefs(s.ledger, ChoreRef, |s.chores| + 1) == 0
  {
    forall k | 0 <= k < |s.ledger|
      ensures !RefersTo(s.ledger[k], ChoreRef, |s.chores| + 1)
    {
      assert EntryWellFormed(s, s.ledger[k]);
    }
    CountRefsNone(s.ledger, ChoreRef, |s.chores| + 1);
  }

  /** Appending an event that is not a DONE_PENDING one keeps every chore's pending actor. */
  lemma PendingActorsKept(events: seq<ChoreEvent>, e: ChoreEvent)
    requires e.toStatus != DonePending
    ensures forall id :: PendingActor(events + [e], id) == PendingActor(events, id)
  {
    forall id
      ensures PendingActor(events + [e], id) == PendingActor(events, id)
    {
      PendingActorAppend(events, e, id);
    }
  }

  /** Appending a well-formed ASSIGNED chore with its creation event keeps the store valid. */
  lemma AppendChorePreservesValid(s: Store, c: Chore, creator: int, note: string)
    requires Valid(s)
    requires c.status == Assigned && c.points >= 0 && c.assignees != {}
    requires forall a :: a in c.assignees ==> HasUser(s, a)
    ensures Valid(s.(chores := s.chores + [c], events := s.events + [ChoreEvent(|s.chores| + 1, None, Assigned, creator, note)]))
  {
    var e := ChoreEvent(|s.chores| + 1, None, Assigned, creator, note);
    var s' := s.(chores := s.chores + [c], events := s.events + [e]);
    assert forall i :: 0 <= i < |s.chores| ==> s'.chores[i] == s.chores[i];
    assert ChoresWellFormed(s');
    assert EventsWellFormed(s');
    PendingActorsKept(s.events, e);
    assert PendingChoresHaveDoer(s');
    assert LedgerWellFormed(s') by {
      forall k | 0 <= k < |s'.ledger|
        ensures EntryWellFormed(s', s'.ledger[k])
      {
        assert EntryWellFormed(s, s.ledger[k]);
      }
    }
    NewChoreUncredited(s);
    assert CreditedOnce(s');
  }

  lemma CreateChorePreservesValid(s: Store, actor: Actor, title: string, description: Option<string>, points: int,
                                  assigneeIds: seq<int>, recurrence: string, dueDate: Option<string>)
    requires Valid(s)
    requires CreateChore(s, actor, title, description, points, assigneeIds, recurrence, dueDate).Ok?
    ensures Valid(CreateChore(s, actor, title, description, points, assigneeIds, recurrence, dueDate).value.0)
  {
    var r := CreateChore(s, actor, title, description, points, assigneeIds, recurrence, dueDate);
    var s' := r.value.0;
    var c := ChoreAt(s', r.value.1);
    assert assigneeIds[0] in c.assignees;
    assert s'.chores == s.chores + [c];
    AppendChorePreservesValid(s, c, actor.id, "Chore created");
  }

  /** Moving a chore along a lifecycle edge other than approval, with its
      event, keeps the store valid when a DONE_PENDING move is made by an assignee. */
  lemma SetStatusPreservesValid(s: Store, id: int, st: ChoreStatus, actorId: int, note: string)
    requires Valid(s) && HasChore(s, id)
    requires Edge(ChoreAt(s, id).status, st) && st != Approved
    requires st == DonePending ==> actorId in ChoreAt(s, id).assignees
    ensures
      var c := ChoreAt(s, id);
      Valid(s.(chores := s.chores[id - 1 := c.(status := st)],
               events := s.events + [ChoreEvent(id, Some(c.status), st, actorId, note)]))
  {
    var c := ChoreAt(s, id);
    var e := ChoreEvent(id, Some(c.status), st, actorId, note);
    var s' := s.(chores := s.chores[id - 1 := c.(status := st)], events := s.events + [e]);
    forall x
      ensures PendingActor(s'.events, x) == if IsDoneEventOf(e, x) then Some(actorId) else PendingActor(s.events, x)
    {
      PendingActorAppend(s.events, e, x);
    }
    assert ChoresWellFormed(s');
    assert EventsWellFormed(s');
    assert PendingChoresHaveDoer(s');
    assert LedgerWellFormed(s') by {
      forall k | 0 <= k < |s'.ledger|
        ensures EntryWellFormed(s', s'.ledger[k])
      {
        assert EntryWellFormed(s, s.ledger[k]);
      }
    }
    assert CreditedOnce(s');
  }

  lemma MarkChoreDonePreservesValid(s: Store, actor: Actor, choreId: int)
    requires Valid(s)
    requires MarkChoreDone(s, actor, choreId).Ok?
    ensures Valid(MarkChoreDone(s, actor, choreId).value.0)
  {
    SetStatusPreservesValid(s, choreId, DonePending, actor.id, "Marked done");
  }

  lemma RejectChorePreservesValid(s: Store, actor: Actor, choreId: int, note: Option<string>)
    requires Valid(s)
    requires RejectChore(s, actor, choreId, note).Ok?
    ensures Valid(RejectChore(s, actor, choreId, note).value.0)
  {
    SetStatusPreservesValid(s, choreId, Rejected, actor.id, OrDefault(note, "Rejected"));
  }

  /** Approving a DONE_PENDING chore, with its event and one credit of its
      points to an assignee, keeps the store valid. */
  lemma CreditPreservesValid(s: Store, id: int, actorId: int, note: string, child: int, reason: string)
    requires Valid(s) && HasChore(s, id) && ChoreAt(s, id).status == DonePending
    requires child in ChoreAt(s, id).assignees
    ensures
      var c := ChoreAt(s, id);
      Valid(s.(chores := s.chores[id - 1 := c.(status := Approved)],
               events := s.events + [ChoreEvent(id, Some(DonePending), Approved, actorId, note)],
               ledger := s.ledger + [LedgerEntry(child, c.points, reason, ChoreRef, Some(id))]))
  {
    var c := ChoreAt(s, id);
    var e := ChoreEvent(id, Some(DonePending), Approved, actorId, note);
    var credit := LedgerEntry(child, c.points, reason, ChoreRef, Some(id));
    var s' := s.(chores := s.chores[id - 1 := c.(status := Approved)], events := s.events + [e], ledger := s.ledger + [credit]);
    PendingActorsKept(s.events, e);
    assert ChoresWellFormed(s');
    assert EventsWellFormed(s');
    assert PendingChoresHaveDoer(s');
    assert LedgerWellFormed(s') by {
      forall k | 0 <= k < |s'.ledger|
        ensures EntryWellFormed(s', s'.ledger[k])
      {
        if k < |s.ledger| {
          assert EntryWellFormed(s, s.ledger[k]);
        }
      }
    }
    forall x
      ensures CountRefs(s'.ledger, ChoreRef, x) == CountRefs(s.ledger, ChoreRef, x) + (if x == id then 1 else 0)
      ensures CountRefs(s'.ledger, RewardRef, x) == CountRefs(s.ledger, RewardRef, x)
    {
      CountRefsAppend(s.ledger, credit, ChoreRef, x);
      CountRefsAppend(s.ledger, credit, RewardRef, x);
    }
    assert CreditedOnce(s');
    assert DebitedOnce(s');
    forall u
      ensures Balance(s'.ledger, u) >= 0
    {
      BalanceAppend(s.ledger, credit, u);
      assert Balance(s.ledger, u) >= 0;
    }
  }

  lemma ApproveChorePreservesValid(s: Store, actor: Actor, choreId: int, note: Option<string>)
    requires Valid(s)
    requires ApproveChore(s, actor, choreId, note).Ok?
    ensures Valid(ApproveChore(s, actor, choreId, note).value.0)
  {
    var c := ChoreAt(s, choreId);
    CreditedChildIsDoer(s, choreId);
    var child := CreditedChild(s, choreId).value;
    var approval := ChoreEvent(choreId, Some(DonePending), Approved, actor.id, OrDefault(note, "Approved"));
    var credit := LedgerEntry(child, c.points, "Chore approved: " + c.title, ChoreRef, Some(choreId));
    var s2 := s.(chores := s.chores[choreId - 1 := c.(status := Approved)], events := s.events + [approval], ledger := s.ledger + [credit]);
    CreditPreservesValid(s, choreId, actor.id, OrDefault(note, "Approved"), child, "Chore approved: " + c.title);
    var s' := ApproveChore(s, actor, choreId, note).value.0;
    if c.recurrence == NoRecurrence {
      assert s' == s2;
    } else {
      var successor := c.(dueDate := NextDueDate(c.dueDate, c.recurrence).value, status := Assigned);
      assert s'.chores == s2.chores + [successor];
      assert s' == s2.(chores := s2.chores + [successor],
                       events := s2.events + [ChoreEvent(|s2.chores| + 1, None, Assigned, c.createdBy, "Auto-created recurrence")]);
      assert c.points >= 0 && c.assignees != {} && forall a :: a in c.assignees ==> HasUser(s, a);
      AppendChorePreservesValid(s2, successor, c.createdBy, "Auto-created recurrence");
    }
  }

  /** Appending a fresh REQUESTED redemption of an existing reward by an
      existing user keeps the store valid. */
  lemma AppendRedemptionPreservesValid(s: Store, rd: Redemption)
    requires Valid(s) && HasReward(s, rd.rewardId) && HasUser(s, rd.userId)
    requires rd.status == Requested && rd.handledBy.None?
    ensures Valid(s.(redemptions := s.redemptions + [rd]))
  {
    var s' := s.(redemptions := s.redemptions + [rd]);
    assert RedemptionsWellFormed(s');
    assert LedgerWellFormed(s') by {
      forall k | 0 <= k < |s'.ledger|
        ensures EntryWellFormed(s', s'.ledger[k])
      {
        assert EntryWellFormed(s, s.ledger[k]);
      }
    }
    assert DebitedOnce(s') by {
      var newId := |s'.redemptions|;
      forall k | 0 <= k < |s.ledger|
        ensures !RefersTo(s.ledger[k], RewardRef, newId)
      {
        assert EntryWellFormed(s, s.ledger[k]);
      }
      CountRefsNone(s.ledger, RewardRef, newId);
    }
  }

  lemma RequestRedemptionPreservesValid(s: Store, actor: Actor, rewardId: int, now: int, weekStart: int)
    requires Valid(s) && HasUser(s, actor.id)
    requires RequestRedemption(s, actor, rewardId, now, weekStart).Ok?
    ensures Valid(RequestRedemption(s, actor, rewardId, now, weekStart).value.0)
  {
    AppendRedemptionPreservesValid(s, Redemption(rewardId, actor.id, Requested, "Requested by child", now, now, None));
  }

  /** Settling a REQUESTED redemption (its reward and user unchanged) with a
      handler keeps every part of the invariant that does not involve the ledger. */
  lemma SettlePreservesValid(s: Store, id: int, rd: Redemption)
    requires Valid(s) && Found(s, id) && RedemptionAt(s, id).status == Requested
    requires rd.rewardId == RedemptionAt(s, id).rewardId && rd.userId == RedemptionAt(s, id).userId
    requires rd.status == Denied && rd.handledBy.Some?
    ensures Valid(s.(redemptions := s.redemptions[id - 1 := rd]))
  {
    var s' := s.(redemptions := s.redemptions[id - 1 := rd]);
    assert RedemptionsWellFormed(s');
    assert LedgerWellFormed(s') by {
      forall k | 0 <= k < |s'.ledger|
        ensures EntryWellFormed(s', s'.ledger[k])
      {
        assert EntryWellFormed(s, s.ledger[k]);
      }
    }
    assert DebitedOnce(s');
  }

  lemma DenyRedemptionPreservesValid(s: Store, actor: Actor, id: int, note: Option<string>, now: int)
    requires Valid(s)
    requires DenyRedemption(s, actor, id, note, now).Ok?
    ensures Valid(DenyRedemption(s, actor, id, note, now).value.0)
  {
    SettlePreservesValid(s, id, DenyRedemption(s, actor, id, note, now).value.1);
  }

  /** Granting a REQUESTED redemption together with one debit of its cost
      from its child, who can afford it, keeps the store valid. */
  lemma DebitPreservesValid(s: Store, id: int, rd: Redemption, reason: string)
    requires Valid(s) && Found(s, id) && RedemptionAt(s, id).status == Requested
    requires rd.rewardId == RedemptionAt(s, id).rewardId && rd.userId == RedemptionAt(s, id).userId
    requires rd.status == Granted && rd.handledBy.Some?
    requires Balance(s.ledger, rd.userId) >= CostOf(s, id)
    ensures Valid(s.(redemptions := s.redemptions[id - 1 := rd],
                     ledger := s.ledger + [LedgerEntry(rd.userId, -CostOf(s, id), reason, RewardRef, Some(id))]))
  {
    var debit := LedgerEntry(rd.userId, -CostOf(s, id), reason, RewardRef, Some(id));
    var s' := s.(redemptions := s.redemptions[id - 1 := rd], ledger := s.ledger + [debit]);
    assert RedemptionsWellFormed(s');
    assert LedgerWellFormed(s') by {
      forall k | 0 <= k < |s'.ledger|
        ensures EntryWellFormed(s', s'.ledger[k])
      {
        if k < |s.ledger| {
          assert EntryWellFormed(s, s.ledger[k]);
        }
      }
    }
    forall x
      ensures CountRefs(s'.ledger, RewardRef, x) == CountRefs(s.ledger, RewardRef, x) + (if x == id then 1 else 0)
      ensures CountRefs(s'.ledger, ChoreRef, x) == CountRefs(s.ledger, ChoreRef, x)
    {
      CountRefsAppend(s.ledger, debit, ChoreRef, x);
      CountRefsAppend(s.ledger, debit, RewardRef, x);
    }
    assert CreditedOnce(s');
    assert DebitedOnce(s');
    assert BalancesNonNegative(s') by {
      forall u
        ensures Balance(s'.ledger, u) >= 0
      {
        BalanceAppend(s.ledger, debit, u);
        assert Balance(s.ledger, u) >= 0;
      }
    }
  }

  /** The parts of a successful approve_redemption that the invariant needs. */
  lemma ApproveRedemptionShape(s: Store, actor: Actor, id: int, note: Option<string>, now: int)
    requires ApproveRedemption(s, actor, id, note, now).Ok?
    ensures
      var r := ApproveRedemption(s, actor, id, note, now);
      var rd := RedemptionAt(s, id);
      && Found(s, id) && rd.status == Requested && Balance(s.ledger, rd.userId) >= CostOf(s, id)
      && r.value.1.rewardId == rd.rewardId && r.value.1.userId == rd.userId
      && r.value.1.status == Granted && r.value.1.handledBy.Some?
      && r.value.0 == s.(redemptions := s.redemptions[id - 1 := r.value.1],
                         ledger := s.ledger + [LedgerEntry(rd.userId, -CostOf(s, id), "Reward approved: " + RewardAt(s, rd.rewardId).name, RewardRef, Some(id))])
  {
  }

  lemma ApproveRedemptionPreservesValid(s: Store, actor: Actor, id: int, note: Option<string>, now: int)
    requires Valid(s)
    requires ApproveRedemption(s, actor, id, note, now).Ok?
    ensures Valid(ApproveRedemption(s, actor, id, note, now).value.0)
  {
    ApproveRedemptionShape(s, actor, id, note, now);
    var rd := RedemptionAt(s, id);
    DebitPreservesValid(s, id, ApproveRedemption(s, actor, id, note, now).value.1, "Reward approved: " + RewardAt(s, rd.rewardId).name);
  }
}
