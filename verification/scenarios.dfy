/** Consequences of the operations' contracts that the application relies
    on: terminal states are final, a rejected chore can be redone, queued
    requests do not use up the weekly limit, and recurrence dates advance
    across month and year ends. */
module Scenarios {
  import opened Errors
  import opened Calendar
  import opened Store
  import opened Ledger
  import opened Chores
  import opened Rewards

  /** Once approved, a chore can be neither approved again, rejected nor
      marked done, so its points are never credited twice. */
  lemma ApprovalIsFinal(s: Store, actor: Actor, id: int, note: Option<string>, other: Actor, note2: Option<string>)
    requires ApproveChore(s, actor, id, note).Ok?
    ensures var s' := ApproveChore(s, actor, id, note).value.0;
      && ApproveChore(s', other, id, note2).Err?
      && RejectChore(s', other, id, note2).Err?
      && MarkChoreDone(s', other, id).Err?
      && (IsManager(other.role) ==> FailsWith(ApproveChore(s', other, id, note2), 400))
  {
    var s' := ApproveChore(s, actor, id, note).value.0;
    assert s'.chores[id - 1] == s'.chores[..|s.chores|][id - 1];
    assert ChoreAt(s', id).status == Approved;
  }

  /** A rejected chore goes back to its assignees: any assigned CHILD can
      mark it done again. */
  lemma RejectedChoreCanBeRedone(s: Store, actor: Actor, id: int, note: Option<string>, child: Actor)
    requires RejectChore(s, actor, id, note).Ok?
    requires child.role == Child && child.id in ChoreAt(s, id).assignees
    ensures MarkChoreDone(RejectChore(s, actor, id, note).value.0, child, id).Ok?
  {
    var s' := RejectChore(s, actor, id, note).value.0;
    assert ChoreAt(s', id) == ChoreAt(s, id).(status := Rejected);
  }

  /** A settled redemption stays settled: neither approving nor denying it
      again succeeds, so a reward is never debited twice. */
  lemma GrantIsFinal(s: Store, actor: Actor, id: int, note: Option<string>, now: int,
                     other: Actor, note2: Option<string>, now2: int)
    requires ApproveRedemption(s, actor, id, note, now).Ok?
    ensures var s' := ApproveRedemption(s, actor, id, note, now).value.0;
      && ApproveRedemption(s', other, id, note2, now2).Err?
      && DenyRedemption(s', other, id, note2, now2).Err?
  {
    var s' := ApproveRedemption(s, actor, id, note, now).value.0;
    assert RedemptionAt(s', id).status == Granted;
  }

  lemma DenialIsFinal(s: Store, actor: Actor, id: int, note: Option<string>, now: int,
                      other: Actor, note2: Option<string>, now2: int)
    requires DenyRedemption(s, actor, id, note, now).Ok?
    ensures var s' := DenyRedemption(s, actor, id, note, now).value.0;
      && ApproveRedemption(s', other, id, note2, now2).Err?
      && DenyRedemption(s', other, id, note2, now2).Err?
      && s'.ledger == s.ledger
  {
    var s' := DenyRedemption(s, actor, id, note, now).value.0;
    assert RedemptionAt(s', id).status == Denied;
  }

  /** The weekly limit counts APPROVED redemptions only: a request that
      succeeds can be repeated at once, as nothing is reserved and the
      queued request does not count. */
  lemma QueuedRequestsDoNotCount(s: Store, actor: Actor, rewardId: int, now: int, weekStart: int, later: int)
    requires RequestRedemption(s, actor, rewardId, now, weekStart).Ok?
    ensures RequestRedemption(RequestRedemption(s, actor, rewardId, now, weekStart).value.0, actor, rewardId, later, weekStart).Ok?
  {
    var rd := Redemption(rewardId, actor.id, Requested, "Requested by child", now, now, None);
    ApprovedSinceAppend(s.redemptions, rd, actor.id, rewardId, weekStart);
  }

  /** A CHILD sees only chores a manager sees too. */
  lemma ChildSeesLessThanManager(s: Store, child: Actor, manager: Actor, filter: string)
    requires child.role == Child && IsManager(manager.role)
    ensures forall id :: id in ListChores(s, child, filter) ==> id in ListChores(s, manager, filter)
  {
    forall id | id in ListChores(s, child, filter)
      ensures id in ListChores(s, manager, filter)
    {
      assert child.id in ChoreAt(s, id).assignees;
    }
  }

  lemma ParsesJan10()
    ensures ParseDate("2024-01-10") == Ok(Date(2024, 1, 10))
  {
    var s := "2024-01-10";
    assert s[..4] == "2024" && s[5..7] == "01" && s[8..] == "10";
    assert FourDigits("2024") == 2024;
  }

  /** A DAILY chore due 2024-01-10 is succeeded by one due 2024-01-11. */
  lemma DailyRecurrence()
    ensures NextDueDate(Some("2024-01-10"), Daily) == Ok(Some("2024-01-11"))
  {
    ParsesJan10();
    assert AddDays(Date(2024, 1, 10), 1) == Ok(Date(2024, 1, 11));
    assert FormatDate(Date(2024, 1, 11)) == "2024-01-11";
  }

  /** A recurring due date that parses to d and advances to e is succeeded
      by e's YYYY-MM-DD form. */
  lemma NextDueDateIs(current: string, rec: Recurrence, d: Date, e: Date)
    requires current != [] && rec != NoRecurrence
    requires ParseDate(current) == Ok(d) && AddDays(d, Step(rec)) == Ok(e)
    ensures NextDueDate(Some(current), rec) == Ok(Some(FormatDate(e)))
  {
  }

  /** A WEEKLY chore due 2024-01-10 is succeeded by one due 2024-01-17. */
  lemma WeeklyRecurrence()
    ensures NextDueDate(Some("2024-01-10"), Weekly) == Ok(Some("2024-01-17"))
  {
    ParsesJan10();
    assert AddDays(Date(2024, 1, 14), 3) == Ok(Date(2024, 1, 17));
    assert AddDays(Date(2024, 1, 12), 5) == AddDays(Date(2024, 1, 14), 3);
    assert AddDays(Date(2024, 1, 10), 7) == AddDays(Date(2024, 1, 12), 5);
    NextDueDateIs("2024-01-10", Weekly, Date(2024, 1, 10), Date(2024, 1, 17));
    assert FormatDate(Date(2024, 1, 17)) == "2024-01-17";
  }

  /** 2024 is a leap year: a DAILY chore due 2024-02-28 recurs on 2024-02-29. */
  lemma LeapDayRecurrence()
    ensures NextDueDate(Some("2024-02-28"), Daily) == Ok(Some("2024-02-29"))
  {
    var s := "2024-02-28";
    assert s[..4] == "2024" && s[5..7] == "02" && s[8..] == "28";
    assert FourDigits("2024") == 2024;
    assert ParseDate(s) == Ok(Date(2024, 2, 28));
    assert AddDays(Date(2024, 2, 28), 1) == Ok(Date(2024, 2, 29));
    assert FormatDate(Date(2024, 2, 29)) == "2024-02-29";
  }

  /** The last representable date has no successor: approving a DAILY chore
      due 9999-12-31 ends in the date library's overflow error, so such a
      chore can never be approved. */
  lemma LastDateHasNoSuccessor(s: Store, actor: Actor, id: int, note: Option<string>)
    requires HasChore(s, id) && ChoreAt(s, id).recurrence == Daily && ChoreAt(s, id).dueDate == Some("9999-12-31")
    ensures NextDueDate(Some("9999-12-31"), Daily).Err?
    ensures ApproveChore(s, actor, id, note).Err?
  {
    var text := "9999-12-31";
    assert text[..4] == "9999" && text[5..7] == "12" && text[8..] == "31";
    assert FourDigits("9999") == 9999;
    assert ParseDate(text) == Ok(MaxDate);
  }
}
