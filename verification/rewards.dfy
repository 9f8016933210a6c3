/** Rewards and the redemption flow: a CHILD requests, a PARENT or ADMIN
    approves (debiting the reward's cost) or denies. */
module Rewards {
  import opened Errors
  import opened Text
  import opened Store
  import opened Ledger

  /** create_reward: a PARENT or ADMIN (403 otherwise) adds a reward with a
      non-empty name and a cost of at least 0 (400 otherwise); the name is
      stored stripped and the weekly limit is stored unchecked. */
  function CreateReward(s: Store, actor: Actor, name: string, cost: int, active: bool, limitPerWeek: Option<int>): (r: Result<(Store, int)>)
    ensures !IsManager(actor.role) ==> FailsWith(r, 403)
    ensures IsManager(actor.role) && r.Err? ==> FailsWith(r, 400)
    ensures r.Ok? <==> IsManager(actor.role) && name != [] && cost >= 0
    ensures r.Ok? ==>
      && r.value.1 == |s.rewards| + 1
      && r.value.0 == s.(rewards := s.rewards + [Reward(Strip(name), cost, active, limitPerWeek, actor.id)])
  {
    if !IsManager(actor.role) then Fail("Not allowed", 403)
    else if name == [] then Fail("name is required", 400)
    else if cost < 0 then Fail("cost must be >=0", 400)
    else Ok((s.(rewards := s.rewards + [Reward(Strip(name), cost, active, limitPerWeek, actor.id)]), |s.rewards| + 1))
  }

  /** The redemption uses up one of the user's weekly allowance for the
      reward: it is APPROVED and was created at or after the week start. */
  predicate CountsTowardLimit(rd: Redemption, userId: int, rewardId: int, weekStart: int) {
    rd.userId == userId && rd.rewardId == rewardId && rd.status == Granted && rd.createdAt >= weekStart
  }

  /** The COUNT(*) of the weekly-limit query. */
  function ApprovedSince(rs: seq<Redemption>, userId: int, rewardId: int, weekStart: int): nat {
    if rs == [] then 0
    else (if CountsTowardLimit(rs[0], userId, rewardId, weekStart) then 1 else 0) + ApprovedSince(rs[1..], userId, rewardId, weekStart)
  }

  lemma {:induction false} ApprovedSinceAppend(rs: seq<Redemption>, rd: Redemption, userId: int, rewardId: int, weekStart: int)
    ensures ApprovedSince(rs + [rd], userId, rewardId, weekStart)
            == ApprovedSince(rs, userId, rewardId, weekStart) + (if CountsTowardLimit(rd, userId, rewardId, weekStart) then 1 else 0)
  {
    if rs != [] {
      assert (rs + [rd])[1..] == rs[1..] + [rd];
      ApprovedSinceAppend(rs[1..], rd, userId, rewardId, weekStart);
    }
  }

  lemma {:induction false} ApprovedSinceUpdate(rs: seq<Redemption>, i: nat, rd: Redemption, userId: int, rewardId: int, weekStart: int)
    requires i < |rs|
    ensures ApprovedSince(rs[i := rd], userId, rewardId, weekStart)
            == ApprovedSince(rs, userId, rewardId, weekStart)
               - (if CountsTowardLimit(rs[i], userId, rewardId, weekStart) then 1 else 0)
               + (if CountsTowardLimit(rd, userId, rewardId, weekStart) then 1 else 0)
  {
    if i > 0 {
      assert rs[i := rd][1..] == rs[1..][i - 1 := rd];
      ApprovedSinceUpdate(rs[1..], i - 1, rd, userId, rewardId, weekStart);
    } else {
      assert rs[i := rd][1..] == rs[1..];
    }
  }

  /** The weekly limit, if the reward has one, is used up. */
  predicate LimitReached(s: Store, userId: int, rewardId: int, weekStart: int)
    requires HasReward(s, rewardId)
  {
    var limit := RewardAt(s, rewardId).limitPerWeek;
    limit.Some? && ApprovedSince(s.redemptions, userId, rewardId, weekStart) >= limit.value
  }

  /** request_redemption: only a CHILD (403) may request an existing (404),
      active reward (400) it can afford now (400) and whose weekly limit it
      has not used up (400); weekStart is the Monday 00:00 UTC of the
      current week and now the request time. On success one REQUESTED
      redemption is appended; nothing is reserved on the ledger. */
  function RequestRedemption(s: Store, actor: Actor, rewardId: int, now: int, weekStart: int): (r: Result<(Store, int)>)
    ensures actor.role != Child ==> FailsWith(r, 403)
    ensures actor.role == Child && !HasReward(s, rewardId) ==> FailsWith(r, 404)
    ensures actor.role == Child && HasReward(s, rewardId) && r.Err? ==> FailsWith(r, 400)
    ensures r.Ok? <==>
      && actor.role == Child
      && HasReward(s, rewardId)
      && RewardAt(s, rewardId).active
      && Balance(s.ledger, actor.id) >= RewardAt(s, rewardId).cost
      && !LimitReached(s, actor.id, rewardId, weekStart)
    ensures r.Ok? ==>
      && r.value.1 == |s.redemptions| + 1
      && r.value.0 == s.(redemptions := s.redemptions + [Redemption(rewardId, actor.id, Requested, "Requested by child", now, now, None)])
  {
    if actor.role != Child then Fail("Only CHILD can redeem", 403)
    else if !HasReward(s, rewardId) then Fail("Reward not found", 404)
    else
      var reward := RewardAt(s, rewardId);
      if !reward.active then Fail("Reward is inactive", 400)
      else if GetPointsTotal(s, actor.id) < reward.cost then Fail("Not enough points", 400)
      else if reward.limitPerWeek.Some? && ApprovedSince(s.redemptions, actor.id, rewardId, weekStart) >= reward.limitPerWeek.value then
        Fail("Weekly limit reached", 400)
      else
        var rd := Redemption(rewardId, actor.id, Requested, "Requested by child", now, now, None);
        Ok((s.(redemptions := s.redemptions + [rd]), |s.redemptions| + 1))
  }

  /** get_redemption joins the redemption with its reward and its user; a
      row missing any of the three is "Redemption not found". */
  predicate Found(s: Store, id: int) {
    HasRedemption(s, id) && HasReward(s, RedemptionAt(s, id).rewardId) && HasUser(s, RedemptionAt(s, id).userId)
  }

  /** The cost the join reports for the redemption's reward. */
  function CostOf(s: Store, id: int): int
    requires Found(s, id)
  {
    RewardAt(s, RedemptionAt(s, id).rewardId).cost
  }

  /** approve_redemption: a PARENT or ADMIN (403) approves a found (404)
      REQUESTED (400) redemption whose child still has at least the cost
      (400); the status becomes APPROVED with the handler recorded, and one
      REWARD entry debits the cost from that child only. */
  function ApproveRedemption(s: Store, actor: Actor, id: int, note: Option<string>, now: int): (r: Result<(Store, Redemption)>)
    ensures !IsManager(actor.role) ==> FailsWith(r, 403)
    ensures IsManager(actor.role) && !Found(s, id) ==> FailsWith(r, 404)
    ensures IsManager(actor.role) && Found(s, id) && r.Err? ==> FailsWith(r, 400)
    ensures r.Ok? <==>
      && IsManager(actor.role) && Found(s, id)
      && RedemptionAt(s, id).status == Requested
      && Balance(s.ledger, RedemptionAt(s, id).userId) >= CostOf(s, id)
    ensures r.Ok? ==>
      var rd := RedemptionAt(s, id);
      var s' := r.value.0;
      && r.value.1 == rd.(status := Granted, note := OrDefault(note, "Approved"), updatedAt := now, handledBy := Some(actor.id))
      && s' == s.(redemptions := s.redemptions[id - 1 := r.value.1], ledger := s'.ledger)
      && s'.ledger == s.ledger + [LedgerEntry(rd.userId, -CostOf(s, id), "Reward approved: " + RewardAt(s, rd.rewardId).name, RewardRef, Some(id))]
      && Balance(s'.ledger, rd.userId) == Balance(s.ledger, rd.userId) - CostOf(s, id) >= 0
      && (forall u :: u != rd.userId ==> Balance(s'.ledger, u) == Balance(s.ledger, u))
  {
    if !IsManager(actor.role) then Fail("Not allowed", 403)
    else if !Found(s, id) then Fail("Redemption not found", 404)
    else
      var rd := RedemptionAt(s, id);
      if rd.status != Requested then Fail("Redemption not pending", 400)
      else if GetPointsTotal(s, rd.userId) < CostOf(s, id) then Fail("Child no longer has enough points", 400)
      else
        var approved := rd.(status := Granted, note := OrDefault(note, "Approved"), updatedAt := now, handledBy := Some(actor.id));
        var s1 := s.(redemptions := s.redemptions[id - 1 := approved]);
        var s2 := AddLedgerEntry(s1, rd.userId, -CostOf(s, id), "Reward approved: " + RewardAt(s, rd.rewardId).name, RewardRef, Some(id)).0;
        Ok((s2, approved))
  }

  /** deny_redemption: the guards of approve_redemption without the balance
      check; the status becomes DENIED with the handler recorded, and the
      ledger is untouched. */
  function DenyRedemption(s: Store, actor: Actor, id: int, note: Option<string>, now: int): (r: Result<(Store, Redemption)>)
    ensures !IsManager(actor.role) ==> FailsWith(r, 403)
    ensures IsManager(actor.role) && !Found(s, id) ==> FailsWith(r, 404)
    ensures IsManager(actor.role) && Found(s, id) && r.Err? ==> FailsWith(r, 400)
    ensures r.Ok? <==> IsManager(actor.role) && Found(s, id) && RedemptionAt(s, id).status == Requested
    ensures r.Ok? ==>
      var rd := RedemptionAt(s, id);
      && r.value.1 == rd.(status := Denied, note := OrDefault(note, "Denied"), updatedAt := now, handledBy := Some(actor.id))
      && r.value.0 == s.(redemptions := s.redemptions[id - 1 := r.value.1])
  {
    if !IsManager(actor.role) then Fail("Not allowed", 403)
    else if !Found(s, id) then Fail("Redemption not found", 404)
    else
      var rd := RedemptionAt(s, id);
      if rd.status != Requested then Fail("Redemption not pending", 400)
      else
        var denied := rd.(status := Denied, note := OrDefault(note, "Denied"), updatedAt := now, handledBy := Some(actor.id));
        Ok((s.(redemptions := s.redemptions[id - 1 := denied]), denied))
  }

  /** The rows list_redemptions returns: found by the join and, for a
      CHILD, the actor's own. */
  predicate ShownTo(s: Store, actor: Actor, id: int) {
    Found(s, id) && (actor.role == Child ==> RedemptionAt(s, id).userId == actor.id)
  }

  function ShownUpTo(s: Store, actor: Actor, n: nat): (r: seq<int>)
    requires n <= |s.redemptions|
    ensures forall id :: id in r <==> 1 <= id <= n && ShownTo(s, actor, id)
    ensures forall k, m :: 0 <= k < m < |r| ==> r[k] > r[m]
  {
    if n == 0 then []
    else
      var rest := ShownUpTo(s, actor, n - 1);
      assert forall k :: 0 <= k < |rest| ==> rest[k] < n by {
        forall k | 0 <= k < |rest|
          ensures rest[k] < n
        {
          assert rest[k] in rest;
        }
      }
      if ShownTo(s, actor, n) then [n] + rest else rest
  }

  /** list_redemptions: the ids of the rows shown to the actor, newest first. */
  function ListRedemptions(s: Store, actor: Actor): (r: seq<int>)
    ensures forall id :: id in r <==> ShownTo(s, actor, id)
    ensures forall k, m :: 0 <= k < m < |r| ==> r[k] > r[m]
  {
    ShownUpTo(s, actor, |s.redemptions|)
  }
}
