/** The chore lifecycle: creation, completion, approval with its ledger
    credit and recurrence, rejection, and the chore listings. */
module Chores {
  import opened Errors
  import opened Text
  import opened Calendar
  import opened Store
  import opened Ledger
  import opened Sets

  predicate IsActiveChild(s: Store, id: int) {
    HasUser(s, id) && UserAt(s, id).role == Child && UserAt(s, id).active
  }

  /** The assignee checks of create_chore: every id must name a user (else
      "Invalid assignee(s)"), and every such user must be an active CHILD. */
  function CheckAssignees(s: Store, ids: seq<int>): (r: Result<()>)
    ensures r.Ok? <==> forall a :: a in ids ==> IsActiveChild(s, a)
    ensures r.Err? ==> FailsWith(r, 400)
  {
    if exists a :: a in ids && !HasUser(s, a) then Fail("Invalid assignee(s)", 400)
    else if exists a :: a in ids && !IsActiveChild(s, a) then Fail("Assignees must be active CHILD users", 400)
    else Ok(())
  }

  /** create_chore: checks, in this order, the actor's role (403), the title,
      the points, the recurrence, the assignee list and the assignees (400);
      on success appends one ASSIGNED chore whose assignees are the distinct
      input ids, and one creation event. Title and description are stored
      stripped; nothing else changes. */
  function CreateChore(s: Store, actor: Actor, title: string, description: Option<string>, points: int,
                       assigneeIds: seq<int>, recurrence: string, dueDate: Option<string>): (r: Result<(Store, int)>)
    ensures !IsManager(actor.role) ==> FailsWith(r, 403)
    ensures IsManager(actor.role) && r.Err? ==> FailsWith(r, 400)
    ensures r.Ok? <==>
      && IsManager(actor.role)
      && title != []
      && points >= 0
      && ParseRecurrence(recurrence).Some?
      && assigneeIds != []
      && (forall a :: a in assigneeIds ==> IsActiveChild(s, a))
    ensures r.Ok? ==>
      var id := r.value.1;
      var s' := r.value.0;
      && id == |s.chores| + 1 == |s'.chores|
      && s' == s.(chores := s'.chores, events := s'.events)
      && s'.chores == s.chores + [ChoreAt(s', id)]
      && ChoreAt(s', id).status == Assigned
      && ChoreAt(s', id).points == points
      && RecurrenceName(ChoreAt(s', id).recurrence) == recurrence
      && ChoreAt(s', id).title == Strip(title)
      && ChoreAt(s', id).description == Strip(OrDefault(description, ""))
      && ChoreAt(s', id).dueDate == dueDate
      && ChoreAt(s', id).createdBy == actor.id
      && (forall a :: a in ChoreAt(s', id).assignees <==> a in assigneeIds)
      && s'.events == s.events + [ChoreEvent(id, None, Assigned, actor.id, "Chore created")]
  {
    if !IsManager(actor.role) then Fail("Not allowed", 403)
    else if title == [] then Fail("title is required", 400)
    else if points < 0 then Fail("points must be >= 0", 400)
    else if ParseRecurrence(recurrence).None? then Fail("invalid recurrence", 400)
    else if assigneeIds == [] then Fail("At least one assignee is required", 400)
    else
      var _ :- CheckAssignees(s, assigneeIds);
      var id := |s.chores| + 1;
      var c := Chore(Strip(title), Strip(OrDefault(description, "")), points, ParseRecurrence(recurrence).value,
                     dueDate, Assigned, actor.id, set a | a in assigneeIds);
      Ok((s.(chores := s.chores + [c], events := s.events + [ChoreEvent(id, None, Assigned, actor.id, "Chore created")]), id))
  }

  /** mark_chore_done: only an assigned CHILD (403 otherwise; 404 for an
      unknown chore) may move an ASSIGNED or REJECTED chore (400 otherwise)
      to DONE_PENDING; one event records the prior status and the child. The
      ledger and every other chore are untouched. */
  function MarkChoreDone(s: Store, actor: Actor, choreId: int): (r: Result<(Store, Chore)>)
    ensures actor.role != Child ==> FailsWith(r, 403)
    ensures actor.role == Child && !HasChore(s, choreId) ==> FailsWith(r, 404)
    ensures actor.role == Child && HasChore(s, choreId) && actor.id !in ChoreAt(s, choreId).assignees ==> FailsWith(r, 403)
    ensures (actor.role == Child && HasChore(s, choreId) && actor.id in ChoreAt(s, choreId).assignees
             && ChoreAt(s, choreId).status !in {Assigned, Rejected}) ==> FailsWith(r, 400)
    ensures r.Ok? <==>
      actor.role == Child && HasChore(s, choreId) && actor.id in ChoreAt(s, choreId).assignees
      && ChoreAt(s, choreId).status in {Assigned, Rejected}
    ensures r.Ok? ==>
      var c := ChoreAt(s, choreId);
      var s' := r.value.0;
      && Edge(c.status, DonePending)
      && r.value.1 == c.(status := DonePending)
      && s' == s.(chores := s.chores[choreId - 1 := c.(status := DonePending)], events := s'.events)
      && s'.events == s.events + [ChoreEvent(choreId, Some(c.status), DonePending, actor.id, "Marked done")]
  {
    if actor.role != Child then Fail("Only CHILD can mark done", 403)
    else if !HasChore(s, choreId) then Fail("Chore not found", 404)
    else
      var c := ChoreAt(s, choreId);
      if actor.id !in c.assignees then Fail("Not assigned to this chore", 403)
      else if c.status !in {Assigned, Rejected} then Fail("Chore cannot be marked done now", 400)
      else
        var done := c.(status := DonePending);
        Ok((s.(chores := s.chores[choreId - 1 := done],
               events := s.events + [ChoreEvent(choreId, Some(c.status), DonePending, actor.id, "Marked done")]), done))
  }

  /** The event records a transition of the chore into DONE_PENDING. */
  predicate IsDoneEventOf(e: ChoreEvent, choreId: int) {
    e.choreId == choreId && e.toStatus == DonePending
  }

  /** _pending_actor_for_chore: the actor of the most recent DONE_PENDING
      event of the chore, or None when it has none. */
  function PendingActor(events: seq<ChoreEvent>, choreId: int): (r: Option<int>)
    ensures r.None? <==> forall i :: 0 <= i < |events| ==> !IsDoneEventOf(events[i], choreId)
    ensures r.Some? ==>
      exists i :: 0 <= i < |events| && IsDoneEventOf(events[i], choreId) && events[i].actor == r.value
                  && forall j :: i < j < |events| ==> !IsDoneEventOf(events[j], choreId)
  {
    if events == [] then None
    else
      var last := events[|events| - 1];
      if IsDoneEventOf(last, choreId) then Some(last.actor)
      else
        var r := PendingActor(events[..|events| - 1], choreId);
        assert forall i :: 0 <= i < |events| - 1 ==> events[..|events| - 1][i] == events[i];
        r
  }

  lemma PendingActorAppend(events: seq<ChoreEvent>, e: ChoreEvent, choreId: int)
    ensures PendingActor(events + [e], choreId) ==
            if IsDoneEventOf(e, choreId) then Some(e.actor) else PendingActor(events, choreId)
  {
    assert (events + [e])[..|events|] == events;
  }

  /** The child approve_chore credits: the pending actor, or else the first
      assignee row, which is the least assignee id; None stands for "No
      assignee found". An id of 0 counts as missing, as Python's `not`
      treats it. */
  function CreditedChild(s: Store, choreId: int): (r: Option<int>)
    requires HasChore(s, choreId)
    ensures Truthy(PendingActor(s.events, choreId)) ==> r == PendingActor(s.events, choreId)
    ensures !Truthy(PendingActor(s.events, choreId)) && r.Some? ==>
      r.value in ChoreAt(s, choreId).assignees && forall x :: x in ChoreAt(s, choreId).assignees ==> r.value <= x
    ensures r.Some? ==> r.value != 0
    ensures r.None? ==> !Truthy(PendingActor(s.events, choreId))
    ensures r.None? ==>
      || ChoreAt(s, choreId).assignees == {}
      || (0 in ChoreAt(s, choreId).assignees && forall x :: x in ChoreAt(s, choreId).assignees ==> 0 <= x)
  {
    var pending := PendingActor(s.events, choreId);
    if Truthy(pending) then pending
    else
      var a := ChoreAt(s, choreId).assignees;
      var first := if a == {} then None else Some(Least(a));
      if Truthy(first) then first else None
  }

  /** The number of days one recurrence step advances the due date. */
  function Step(rec: Recurrence): nat {
    match rec
    case NoRecurrence => 0
    case Daily => 1
    case Weekly => 7
  }

  /** _next_due_date: a missing (or empty) due date stays missing; otherwise
      the date must parse (a ValueError otherwise) and moves forward one day
      for DAILY and seven for WEEKLY (an OverflowError past 9999-12-31); for
      NONE the input comes back as it was. */
  function NextDueDate(current: Option<string>, rec: Recurrence): (r: Result<Option<string>>)
    ensures current.None? || current.value == [] ==> r == Ok(None)
    ensures current.Some? && current.value != [] ==>
      (r.Ok? <==> ParseDate(current.value).Ok?
                  && DayNumber(ParseDate(current.value).value) + Step(rec) <= MaxOrdinal())
    ensures current.Some? && current.value != [] && r.Ok? && rec == NoRecurrence ==> r.value == current
    ensures current.Some? && current.value != [] && r.Ok? && rec != NoRecurrence ==>
      && r.value.Some?
      && ParseDate(r.value.value).Ok?
      && DayNumber(ParseDate(r.value.value).value) == DayNumber(ParseDate(current.value).value) + Step(rec)
      && FormatDate(ParseDate(r.value.value).value) == r.value.value
    ensures r.Err? ==> r.error.Uncaught?
  {
    if current.None? || current.value == [] then Ok(None)
    else
      var d :- ParseDate(current.value);
      DayNumberBound(d);
      if rec == NoRecurrence then Ok(current)
      else
        var e :- AddDays(d, Step(rec));
        ParseFormat(e);
        Ok(Some(FormatDate(e)))
  }

  /** _create_next_recurrence: for DAILY and WEEKLY appends one ASSIGNED
      successor with the same title, description, points, recurrence,
      creator and assignees, the next due date, and one creation event by
      the chore's creator; for NONE does nothing. */
  function CreateNextRecurrence(s: Store, c: Chore): (r: Result<Store>)
    ensures c.recurrence == NoRecurrence ==> r == Ok(s)
    ensures c.recurrence != NoRecurrence ==> (r.Ok? <==> NextDueDate(c.dueDate, c.recurrence).Ok?)
    ensures c.recurrence != NoRecurrence && r.Ok? ==>
      var next := |s.chores| + 1;
      var s' := r.value;
      && s' == s.(chores := s'.chores, events := s'.events)
      && s'.chores == s.chores + [c.(status := Assigned, dueDate := NextDueDate(c.dueDate, c.recurrence).value)]
      && s'.events == s.events + [ChoreEvent(next, None, Assigned, c.createdBy, "Auto-created recurrence")]
    ensures r.Err? ==> r.error.Uncaught?
  {
    if c.recurrence == NoRecurrence then Ok(s)
    else
      var due :- NextDueDate(c.dueDate, c.recurrence);
      var next := |s.chores| + 1;
      var successor := Chore(c.title, c.description, c.points, c.recurrence, due, Assigned, c.createdBy, c.assignees);
      Ok(s.(chores := s.chores + [successor],
            events := s.events + [ChoreEvent(next, None, Assigned, c.createdBy, "Auto-created recurrence")]))
  }

  /** approve_chore: a PARENT or ADMIN (403 otherwise; 404 for an unknown
      chore) moves a DONE_PENDING chore (400 otherwise) to APPROVED, records
      one event, credits the chore's points to the credited child with one
      CHORE entry, and for a recurring chore creates its successor. A date
      failure in the successor undoes all of it. */
  function ApproveChore(s: Store, actor: Actor, choreId: int, note: Option<string>): (r: Result<(Store, Chore)>)
    ensures !IsManager(actor.role) ==> FailsWith(r, 403)
    ensures IsManager(actor.role) && !HasChore(s, choreId) ==> FailsWith(r, 404)
    ensures IsManager(actor.role) && HasChore(s, choreId) && ChoreAt(s, choreId).status != DonePending ==> FailsWith(r, 400)
    ensures IsManager(actor.role) && HasChore(s, choreId) && ChoreAt(s, choreId).status == DonePending
              && CreditedChild(s, choreId).None?
            ==> FailsWith(r, 400)
    ensures IsManager(actor.role) && HasChore(s, choreId) && ChoreAt(s, choreId).status == DonePending
              && CreditedChild(s, choreId).Some? && r.Err?
            ==> r.error.Uncaught?
    ensures r.Ok? <==>
      && IsManager(actor.role) && HasChore(s, choreId)
      && ChoreAt(s, choreId).status == DonePending
      && CreditedChild(s, choreId).Some?
      && (ChoreAt(s, choreId).recurrence == NoRecurrence || NextDueDate(ChoreAt(s, choreId).dueDate, ChoreAt(s, choreId).recurrence).Ok?)
    ensures r.Ok? ==>
      var c := ChoreAt(s, choreId);
      var s' := r.value.0;
      var child := CreditedChild(s, choreId).value;
      var approval := ChoreEvent(choreId, Some(DonePending), Approved, actor.id, OrDefault(note, "Approved"));
      && r.value.1 == c.(status := Approved)
      && s'.users == s.users && s'.rewards == s.rewards && s'.redemptions == s.redemptions
      && s'.ledger == s.ledger + [LedgerEntry(child, c.points, "Chore approved: " + c.title, ChoreRef, Some(choreId))]
      && Balance(s'.ledger, child) == Balance(s.ledger, child) + c.points
      && (forall u :: u != child ==> Balance(s'.ledger, u) == Balance(s.ledger, u))
      && |s'.chores| == |s.chores| + (if c.recurrence == NoRecurrence then 0 else 1)
      && s'.chores[..|s.chores|] == s.chores[choreId - 1 := c.(status := Approved)]
      && (c.recurrence == NoRecurrence ==> s'.events == s.events + [approval])
      && (c.recurrence != NoRecurrence ==>
            && s'.chores[|s.chores|] == c.(dueDate := NextDueDate(c.dueDate, c.recurrence).value, status := Assigned)
            && s'.events == s.events + [approval, ChoreEvent(|s.chores| + 1, None, Assigned, c.createdBy, "Auto-created recurrence")])
  {
    if !IsManager(actor.role) then Fail("Not allowed", 403)
    else if !HasChore(s, choreId) then Fail("Chore not found", 404)
    else
      var c := ChoreAt(s, choreId);
      if c.status != DonePending then Fail("Chore is not pending", 400)
      else
        var child := CreditedChild(s, choreId);
        if child.None? then Fail("No assignee found", 400)
        else
          var approved := c.(status := Approved);
          var approval := ChoreEvent(choreId, Some(DonePending), Approved, actor.id, OrDefault(note, "Approved"));
          var s1 := s.(chores := s.chores[choreId - 1 := approved], events := s.events + [approval]);
          var s2 := AddLedgerEntry(s1, child.value, c.points, "Chore approved: " + c.title, ChoreRef, Some(choreId)).0;
          var s3 :- CreateNextRecurrence(s2, c);
          assert s3.chores[..|s.chores|] == s1.chores;
          Ok((s3, approved))
  }

  /** reject_chore: the guards of approve_chore; moves DONE_PENDING to
      REJECTED with one event whose note defaults to "Rejected", and posts
      nothing to the ledger. */
  function RejectChore(s: Store, actor: Actor, choreId: int, note: Option<string>): (r: Result<(Store, Chore)>)
    ensures !IsManager(actor.role) ==> FailsWith(r, 403)
    ensures IsManager(actor.role) && !HasChore(s, choreId) ==> FailsWith(r, 404)
    ensures IsManager(actor.role) && HasChore(s, choreId) && ChoreAt(s, choreId).status != DonePending ==> FailsWith(r, 400)
    ensures r.Ok? <==> IsManager(actor.role) && HasChore(s, choreId) && ChoreAt(s, choreId).status == DonePending
    ensures r.Ok? ==>
      var c := ChoreAt(s, choreId);
      var s' := r.value.0;
      && r.value.1 == c.(status := Rejected)
      && s' == s.(chores := s.chores[choreId - 1 := c.(status := Rejected)], events := s'.events)
      && s'.events == s.events + [ChoreEvent(choreId, Some(DonePending), Rejected, actor.id, OrDefault(note, "Rejected"))]
  {
    if !IsManager(actor.role) then Fail("Not allowed", 403)
    else if !HasChore(s, choreId) then Fail("Chore not found", 404)
    else
      var c := ChoreAt(s, choreId);
      if c.status != DonePending then Fail("Chore is not pending", 400)
      else
        var rejected := c.(status := Rejected);
        Ok((s.(chores := s.chores[choreId - 1 := rejected],
               events := s.events + [ChoreEvent(choreId, Some(DonePending), Rejected, actor.id, OrDefault(note, "Rejected"))]), rejected))
  }

  /** The rows list_chores returns: the status filter (empty means none)
      matches, and the chore has an assignment row, which for a CHILD must
      be the actor's own. */
  predicate Listed(s: Store, actor: Actor, filter: string, id: int)
    requires HasChore(s, id)
  {
    var c := ChoreAt(s, id);
    && (filter == [] || StatusName(c.status) == filter)
    && (if actor.role == Child then actor.id in c.assignees else c.assignees != {})
  }

  function ListedUpTo(s: Store, actor: Actor, filter: string, n: nat): (r: seq<int>)
    requires n <= |s.chores|
    ensures forall id :: id in r <==> 1 <= id <= n && Listed(s, actor, filter, id)
    ensures forall k, m :: 0 <= k < m < |r| ==> r[k] > r[m]
  {
    if n == 0 then []
    else
      var rest := ListedUpTo(s, actor, filter, n - 1);
      assert forall k :: 0 <= k < |rest| ==> rest[k] < n by {
        forall k | 0 <= k < |rest|
          ensures rest[k] < n
        {
          assert rest[k] in rest;
        }
      }
      if Listed(s, actor, filter, n) then [n] + rest else rest
  }

  /** list_chores: the ids of the listed chores, newest first. */
  function ListChores(s: Store, actor: Actor, filter: string): (r: seq<int>)
    ensures forall id :: id in r <==> HasChore(s, id) && Listed(s, actor, filter, id)
    ensures forall k, m :: 0 <= k < m < |r| ==> r[k] > r[m]
  {
    ListedUpTo(s, actor, filter, |s.chores|)
  }

  function PendingUpTo(s: Store, n: nat): (r: seq<int>)
    requires n <= |s.chores|
    ensures forall id :: id in r <==> 1 <= id <= n && ChoreAt(s, id).status == DonePending
    ensures forall k, m :: 0 <= k < m < |r| ==> r[k] < r[m]
  {
    if n == 0 then []
    else
      var rest := PendingUpTo(s, n - 1);
      assert forall k :: 0 <= k < |rest| ==> rest[k] < n by {
        forall k | 0 <= k < |rest|
          ensures rest[k] < n
        {
          assert rest[k] in rest;
        }
      }
      if ChoreAt(s, n).status == DonePending then rest + [n] else rest
  }

  /** approvals_queue: every DONE_PENDING chore, oldest first. */
  function ApprovalsQueue(s: Store): (r: seq<int>)
    ensures forall id :: id in r <==> HasChore(s, id) && ChoreAt(s, id).status == DonePending
    ensures forall k, m :: 0 <= k < m < |r| ==> r[k] < r[m]
  {
    PendingUpTo(s, |s.chores|)
  }
}
