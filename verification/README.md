# HRForKids chores and rewards, modelled in Dafny

HRForKids is a small family web application. Parents (and admins) assign
chores worth points to children. A child marks a chore done, and a parent
approves or rejects it. Approval credits the chore's points to the child on
an append-only points ledger and, for a DAILY or WEEKLY chore, creates the
next occurrence. Children spend points by requesting rewards, and a parent
approves or denies each request. Approval debits the reward's cost.

This project models the service layer `app/services/core.py` as pure
functions over an immutable `Store`. The store holds the users, chores,
chore events, rewards, redemptions and ledger entries as sequences, and
the row id of an element is its index plus one. The service never deletes
a row, so ids behave like SQLite's AUTOINCREMENT.

Every operation returns `Result`:
- `AppError(message, status)` is the service's own error, with the same
  messages and status codes.
- `Uncaught(message)` stands for the Python exceptions the service lets
  escape. These are the `ValueError` of `strptime` and the `OverflowError`
  of date arithmetic.

Either kind of error leaves the store unchanged. The request's connection is
closed without a commit, which rolls the transaction back.

Layout:
- `errors.dfy`: the `Error`, `Option` and `Result` types.
- `text.dfy`: Python's `str.strip()`.
- `calendar.dfy`: proleptic Gregorian dates. It covers `strptime("%Y-%m-%d")`, `isoformat()` and adding days with `date`'s range check.
- `store.dfy`: the tables, roles, statuses and the lifecycle edges.
- `ledger.dfy`: balances, `list_ledger`, `get_points_total` and `add_ledger_entry`.
- `users.dfy`: `create_user` and `patch_user`.
- `chores.dfy`: the chore lifecycle, recurrence, listing and the approvals queue.
- `rewards.dfy`: rewards, redemption requests, the weekly limit, approval, denial and listing.
- `invariants.dfy`: `Valid`, the invariant every reachable store satisfies.
- `preservation.dfy`: each operation keeps `Valid`.
- `requests.dfy`: the session, request dispatch and runs of requests with rollback.
- `history.dfy`: what a request may change. Chores move only along the lifecycle, settled outcomes stay final, and the history only grows.
- `scenarios.dfy`: consequences the application relies on, plus concrete recurrence dates.

`Valid` says:
- usernames are unique;
- every chore has non-negative points and at least one existing assignee;
- every event follows the lifecycle;
- a DONE_PENDING chore has a DONE_PENDING event by one of its assignees;
- every redemption names an existing reward and user, and has a handler exactly when settled;
- every ledger entry refers to an existing chore or redemption, with that row's points or negated cost;
- a chore is credited exactly once if APPROVED and never otherwise, and a redemption is debited exactly once if APPROVED and never otherwise;
- no balance is negative.

The redemption status the source stores as `APPROVED` is called `Granted` in
the model. This keeps it apart from the chore status `Approved`.

## Model

| member | source | states |
|---|---|---|
| Text.Strip | app/services/core.py:69 | the result is a slice of the input, and only whitespace was removed on either side; it is empty or neither starts nor ends with whitespace |
| Text.StripEmptyIff | app/services/core.py:188 | stripping leaves nothing exactly when the text is all whitespace, so a title of blanks passes the emptiness check and is stored empty |
| Text.StripIdempotent | app/services/core.py:415 | stripping a stored (already stripped) name again changes nothing |
| Calendar.ParseDate | app/services/core.py:305 | a successful parse is a valid date between years 1 and 9999; a failure is an uncaught exception, not an AppError |
| Calendar.AddDays | app/services/core.py:306-309 | adding n days succeeds exactly when the result does not pass 9999-12-31; the result's day number is the input's plus n, and the failure is the overflow exception |
| Calendar.ParseFormat | app/services/core.py:302-310 | formatting a valid date as YYYY-MM-DD and parsing it back gives the same date |
| Calendar.NextDay | app/services/core.py:307 | the next day of a valid date other than the last is valid and has the next day number |
| Store.ParseRole | app/services/core.py:58 | a role is accepted exactly when it is ADMIN, PARENT or CHILD, and names the role it parsed |
| Store.ParseRecurrence | app/services/core.py:169 | a recurrence is accepted exactly when it is NONE, DAILY or WEEKLY, and names what it parsed |
| Users.CreateUser | app/services/core.py:50-74 | 400 for an unknown role or an empty username, password or display name; 409 when the stripped username is taken; otherwise appends one active user with stripped names, the default avatar for an empty one, and the next id |
| Users.CreateUserKeepsUsernamesUnique | app/services/core.py:63-74 | after a successful create_user the usernames are still pairwise distinct |
| Users.PatchUser | app/services/core.py:77-94 | 404 for an unknown user, 400 for an unknown role; the sent fields replace the stored ones and nothing else changes; an empty patch leaves the store as it was; usernames stay unique |
| Ledger.ListLedger | app/services/core.py:145-150 | exactly the user's entries, each with its id, newest first |
| Ledger.GetPointsTotal | app/services/core.py:125-127 | the total is the sum of the deltas list_ledger shows, and 0 for a user without entries |
| Ledger.RowsSumToBalance | app/services/core.py:125-127 | the rows of a user among the first n entries sum to the user's balance over those entries |
| Ledger.AddLedgerEntry | app/services/core.py:130-142 | appends exactly one entry with the next id; the user's balance moves by delta and every other balance is unchanged |
| Ledger.BalanceAppend | app/services/core.py:125-127 | appending an entry adds its delta to its own user's balance only |
| Chores.CheckAssignees | app/services/core.py:175-181 | the assignee check passes exactly when every listed id is an active CHILD |
| Chores.CreateChore | app/services/core.py:153-198 | 403 for a CHILD; 400 for an empty title, negative points, an unknown recurrence, no assignees or an assignee who is not an active CHILD; otherwise appends one ASSIGNED chore with the stripped title and description, the distinct assignees and one creation event |
| Chores.MarkChoreDone | app/services/core.py:270-286 | only an assigned CHILD may mark an ASSIGNED or REJECTED chore done (403, 404, 403, 400 otherwise); the chore becomes DONE_PENDING with one event by that child |
| Chores.PendingActor | app/services/core.py:289-299 | None exactly when the chore has no DONE_PENDING event; otherwise the actor of the last such event |
| Chores.PendingActorAppend | app/services/core.py:289-299 | a new DONE_PENDING event of the chore becomes its pending actor; any other event leaves the pending actor as it was |
| Chores.CreditedChild | app/services/core.py:347-353 | the pending actor when it is a non-zero id; otherwise the least assignee id, which is the first assignment row; None only when there is no assignee or the least is 0, since an id of 0 counts as missing |
| Chores.NextDueDate | app/services/core.py:302-310 | a missing or empty date stays missing; otherwise the date must parse, and DAILY moves it one day and WEEKLY seven days on the day count, failing past 9999-12-31, and the result is the zero-padded YYYY-MM-DD form of the new date; NONE returns it unchanged |
| Chores.CreateNextRecurrence | app/services/core.py:313-338 | for DAILY and WEEKLY, appends one ASSIGNED copy with the next due date and one creation event by the original creator; for NONE, does nothing |
| Chores.ApproveChore | app/services/core.py:341-363 | 403, 404, 400 (not pending), 400 (no assignee); otherwise the chore becomes APPROVED with one event, the credited child's balance rises by the points and no other balance changes, and a recurring chore gets its successor; an unparsable or overflowing due date on a recurring chore aborts the whole approval with an uncaught exception, not an AppError |
| Chores.RejectChore | app/services/core.py:366-379 | the guards of approve_chore; DONE_PENDING becomes REJECTED with one event and nothing is posted to the ledger |
| Chores.ListChores | app/services/core.py:236-267 | exactly the chores that have an assignee and match the status filter (an empty filter matches all), limited to the actor's own chores for a CHILD, newest first |
| Chores.ApprovalsQueue | app/services/core.py:382-396 | exactly the DONE_PENDING chores, oldest first |
| Rewards.CreateReward | app/services/core.py:399-418 | 403 for a CHILD, 400 for an empty name or a negative cost; otherwise appends one reward with the stripped name and the next id |
| Rewards.ApprovedSinceAppend | app/services/core.py:450-461 | a new redemption adds to the weekly count only if it is APPROVED, of that user and reward, and created in the week |
| Rewards.RequestRedemption | app/services/core.py:439-470 | 403 unless CHILD, 404 for an unknown reward; 400 when it is inactive, unaffordable now, or its weekly limit of approved redemptions is used up; otherwise appends one REQUESTED redemption and reserves no points |
| Rewards.ApproveRedemption | app/services/core.py:510-534 | 403, 404 (including a dangling reward or user), 400 (not pending), 400 (balance below cost); otherwise the redemption is settled with the handler, and one entry debits the cost from that child only, whose balance stays non-negative |
| Rewards.DenyRedemption | app/services/core.py:537-549 | the guards of approve_redemption without the balance check; the redemption is settled as denied with the handler and the ledger is untouched |
| Rewards.ListRedemptions | app/services/core.py:489-507 | exactly the redemptions whose reward and user exist, limited to the actor's own for a CHILD, newest first |
| Invariants.CreditedChildIsDoer | app/services/core.py:347-353 | in a valid store the credited child of a DONE_PENDING chore is the child who marked it done, and an assignee; the fallback to the first assignee never fires |
| Preservation.CreateUserPreservesValid | app/services/core.py:50-74 | create_user keeps the store valid |
| Preservation.PatchUserPreservesValid | app/services/core.py:77-94 | patch_user keeps the store valid |
| Preservation.CreateChorePreservesValid | app/services/core.py:153-198 | create_chore keeps the store valid; the new chore has no credit |
| Preservation.MarkChoreDonePreservesValid | app/services/core.py:270-286 | mark_chore_done keeps the store valid |
| Preservation.ApproveChorePreservesValid | app/services/core.py:341-363 | approve_chore keeps the store valid: the chore is credited exactly once, to one of its assignees, and its successor has no credit |
| Preservation.RejectChorePreservesValid | app/services/core.py:366-379 | reject_chore keeps the store valid |
| Preservation.CreateRewardPreservesValid | app/services/core.py:399-418 | create_reward keeps the store valid |
| Preservation.CreditPreservesValid | app/services/core.py:355-361 | moving a DONE_PENDING chore to APPROVED with one event and one credit of its points to one of its assignees keeps every invariant: that chore's credit count goes from 0 to 1 and every other count is unchanged |
| Preservation.DebitPreservesValid | app/services/core.py:521-532 | settling a REQUESTED redemption as APPROVED with one debit of its cost from its child, who has at least the cost, keeps every invariant: that redemption's debit count goes from 0 to 1 and no balance goes negative |
| Preservation.RequestRedemptionPreservesValid | app/services/core.py:439-470 | request_redemption keeps the store valid; the new redemption has no debit |
| Preservation.ApproveRedemptionPreservesValid | app/services/core.py:510-534 | approve_redemption keeps the store valid: the redemption is debited exactly once and no balance goes negative |
| Preservation.DenyRedemptionPreservesValid | app/services/core.py:537-549 | deny_redemption keeps the store valid |
| Requests.SessionActor | app/main.py:68-81 | a request has an actor exactly when its session names a stored, active user, and that actor has the stored role |
| Requests.Apply | app/main.py:117-121 | 401 without a session user, 403 when anyone but an ADMIN creates or patches users; a success comes from an active stored user |
| Requests.ApplyPreservesValid | app/main.py:56-66 | every successful request keeps the store valid |
| Requests.RunPreservesValid | app/main.py:56-66 | after any sequence of requests, each failed one rolled back, a valid store is still valid |
| Requests.InitialStoreValid | app/db.py:123-133 | the store of a fresh installation, holding only the default administrator, satisfies every invariant, and that administrator can act with the ADMIN role |
| Requests.ReachableStoresAreSound | app/services/core.py:341-363 | in every store reachable from a fresh installation, no balance is negative, every chore is credited once if APPROVED and never otherwise, and every redemption is debited once if APPROVED and never otherwise |
| History.ApplyAdvances | app/services/core.py:270-379 | a successful request moves existing chores only along ASSIGNED/REJECTED to DONE_PENDING and DONE_PENDING to APPROVED/REJECTED, changing nothing else about them; new chores and redemptions start ASSIGNED and REQUESTED; a redemption is settled at most once; usernames never change; events, rewards and the ledger only grow at the end |
| History.RunSettles | app/services/core.py:341-379 | over any run, an APPROVED chore and a settled redemption never change again, and every event, reward and ledger entry stays where it is |
| Scenarios.ApprovalIsFinal | app/services/core.py:344-346 | an approved chore can be neither approved again, rejected nor marked done; a manager's second approval fails with 400 |
| Scenarios.RejectedChoreCanBeRedone | app/services/core.py:277 | after a rejection, every assigned CHILD can mark the chore done again |
| Scenarios.GrantIsFinal | app/services/core.py:513-515 | an approved redemption can be neither approved nor denied again |
| Scenarios.DenialIsFinal | app/services/core.py:540-542 | a denied redemption can be neither approved nor denied again, and denial posts nothing to the ledger |
| Scenarios.QueuedRequestsDoNotCount | app/services/core.py:450-461 | a request that succeeded can be repeated at once with the same week start, because only APPROVED redemptions count toward the weekly limit |
| Scenarios.ChildSeesLessThanManager | app/services/core.py:247-249 | every chore a CHILD is shown is also shown to a PARENT or ADMIN with the same filter |
| Scenarios.DailyRecurrence | app/services/core.py:306-307 | a DAILY chore due 2024-01-10 recurs on 2024-01-11 |
| Scenarios.WeeklyRecurrence | app/services/core.py:308-309 | a WEEKLY chore due 2024-01-10 recurs on 2024-01-17 |
| Scenarios.LeapDayRecurrence | app/services/core.py:302-310 | a DAILY chore due 2024-02-28 recurs on 2024-02-29 |
| Scenarios.LastDateHasNoSuccessor | app/services/core.py:302-310 | a DAILY chore due 9999-12-31 has no successor date, so its approval fails |
| Calendar.LeapYearExamples | app/services/core.py:306-307 | the day after 28 February is the 29th in 2024 and 2000 but 1 March in 1900, and 31 December 2023 is followed by 1 January 2024 |

## Left out

- `authenticate`, `reset_password`, `change_password` and password hashing (core.py:41-47, 97-122) are left out. They involve bcrypt, a foreign library. `CreateUser` takes the password only to check it is non-empty.
- The read-only lookups `list_users`, `get_user`, `get_user_by_username`, `get_chore`, `get_reward` and `list_rewards` are left out. Their only model counterparts are the `Has*`/`*At` accessors and the 404 conditions of the operations. The display joins they add (assignee names, `reward_name`, `user_name`) are not modelled.
- Timestamps (`now_iso()`) on users, chores, events and ledger entries are not modelled. Redemptions carry `createdAt`/`updatedAt` as integers supplied by the caller. The service compares ISO strings; the model compares integers.
- `_start_of_week_utc` reads the clock, so the Monday 00:00 UTC week start is a parameter.
- Concurrency between requests is not modelled: each request is assumed to run alone. The source does not guarantee this. The server is one uvicorn process. Its `async def` endpoints, which include both redemption approvals, run one at a time on the event loop, and each commits before returning. The plain `def` endpoints run in a thread pool, though. Python's `sqlite3` opens the transaction only at the first write, so their guard queries run before any write lock is held. Two threaded `mark_chore_done` calls for the same chore can therefore both see it ASSIGNED (core.py:276-280), and both record a DONE_PENDING event from ASSIGNED. Run one after the other, the second call fails with 400, because the chore is already DONE_PENDING (`Chores.MarkChoreDone`). The balance races between two redemption approvals would need several server processes.
- Schema creation in `app/db.py` is not part of this model. The schema's CHECK and foreign-key constraints appear as the invariant `Valid`. Of the seeding, only the default administrator row is modelled (`Requests.InitialStore`); its password is not.
- `strptime` also accepts non-ASCII Unicode digits. The model accepts ASCII digits only.
- `Text.Strip` follows the whitespace set of Python's `str.isspace()`. Unicode categories are written out as code-point ranges.
- `Users.PatchUser` takes typed optional fields. The service writes whatever JSON value it receives for `display_name`, `avatar`, `is_active` and `must_change_password` without checking its type.
- Points, costs and weekly limits are unbounded integers. SQLite's 64-bit overflow on very large sums is not modelled.
- Only `approve_chore` and `approve_redemption` call `add_ledger_entry`, so `ADMIN_ADJUST` entries never arise. `Invariants.Valid` therefore rejects them.
- Routing, form and JSON parsing, templates and redirects in `app/main.py` are left out. Only three parts of it are modelled in `Requests`: the session lookup, the ADMIN guard on user administration, and the rollback of failed requests.
- `Requests.Apply` covers the service operations that change state. The read-only listings are modelled as functions of the store.
- The source's blank-title behaviour is modelled as written. `create_chore` and `create_reward` test emptiness before stripping, so a title or name made only of spaces is accepted and stored empty (`Text.StripEmptyIff`). `create_user` behaves the same way for usernames.
- A DAILY or WEEKLY chore whose due date does not parse as YYYY-MM-DD is modelled as written: `create_chore` stores the date unchecked, and every later approval of that chore fails with the uncaught parse error (`Chores.ApproveChore`).
- The fallback credited child is modelled as the least assignee id. The service takes the first row of a SELECT without ORDER BY, and SQLite returns the rows of the (chore_id, user_id) primary-key index in ascending order.
