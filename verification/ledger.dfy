/** The points ledger: append-only signed entries; a balance is derived, never stored. */
module Ledger {
  import opened Errors
  import opened Store

  /** What one entry adds to user u's balance. */
  function Contribution(e: LedgerEntry, u: int): int {
    if e.userId == u then e.delta else 0
  }

  /** The sum of the deltas of u's entries (SUM(delta) with COALESCE to 0). */
  function Balance(ledger: seq<LedgerEntry>, u: int): int {
    if ledger == [] then 0 else Contribution(ledger[0], u) + Balance(ledger[1..], u)
  }

  lemma {:induction false} BalanceAppend(ledger: seq<LedgerEntry>, e: LedgerEntry, u: int)
    ensures Balance(ledger + [e], u) == Balance(ledger, u) + Contribution(e, u)
  {
    if ledger != [] {
      assert (ledger + [e])[1..] == ledger[1..] + [e];
      BalanceAppend(ledger[1..], e, u);
    }
  }

  /** A user without entries has balance 0. */
  lemma {:induction false} BalanceWithoutEntries(ledger: seq<LedgerEntry>, u: int)
    ensures (forall k :: 0 <= k < |ledger| ==> ledger[k].userId != u) ==> Balance(ledger, u) == 0
  {
    if ledger != [] {
      BalanceWithoutEntries(ledger[1..], u);
      if forall k :: 0 <= k < |ledger| ==> ledger[k].userId != u {
        assert forall k :: 0 <= k < |ledger[1..]| ==> ledger[1..][k] == ledger[k + 1];
      }
    }
  }

  /** A ledger row as list_ledger returns it: the entry id and the entry. */
  type Row = (int, LedgerEntry)

  function SumDeltas(rows: seq<Row>): int {
    if rows == [] then 0 else rows[0].1.delta + SumDeltas(rows[1..])
  }

  /** u's entries among the first n, newest (highest id) first. */
  function RowsUpTo(ledger: seq<LedgerEntry>, u: int, n: nat): (r: seq<Row>)
    requires n <= |ledger|
    ensures forall k :: 0 <= k < |r| ==> 1 <= r[k].0 <= n && ledger[r[k].0 - 1] == r[k].1 && r[k].1.userId == u
    ensures forall i :: 0 <= i < n && ledger[i].userId == u ==> (i + 1, ledger[i]) in r
    ensures forall k, m :: 0 <= k < m < |r| ==> r[k].0 > r[m].0
  {
    if n == 0 then []
    else
      var rest := RowsUpTo(ledger, u, n - 1);
      if ledger[n - 1].userId == u then [(n, ledger[n - 1])] + rest else rest
  }

  /** list_ledger: exactly u's entries, each with its id, newest first. */
  function ListLedger(s: Store, u: int): (r: seq<Row>)
    ensures forall k :: 0 <= k < |r| ==> HasEntry(s, r[k].0) && s.ledger[r[k].0 - 1] == r[k].1 && r[k].1.userId == u
    ensures forall i :: 0 <= i < |s.ledger| && s.ledger[i].userId == u ==> (i + 1, s.ledger[i]) in r
    ensures forall k, m :: 0 <= k < m < |r| ==> r[k].0 > r[m].0
  {
    RowsUpTo(s.ledger, u, |s.ledger|)
  }

  predicate HasEntry(s: Store, id: int) {
    1 <= id <= |s.ledger|
  }

  lemma {:induction false} RowsSumToBalance(ledger: seq<LedgerEntry>, u: int, n: nat)
    requires n <= |ledger|
    ensures SumDeltas(RowsUpTo(ledger, u, n)) == Balance(ledger[..n], u)
  {
    if n > 0 {
      RowsSumToBalance(ledger, u, n - 1);
      assert ledger[..n] == ledger[..n - 1] + [ledger[n - 1]];
      BalanceAppend(ledger[..n - 1], ledger[n - 1], u);
      var rest := RowsUpTo(ledger, u, n - 1);
      if ledger[n - 1].userId == u {
        assert ([(n, ledger[n - 1])] + rest)[1..] == rest;
      }
    }
  }

  /** get_points_total: the balance is the sum of the deltas list_ledger shows, 0 without entries. */
  function GetPointsTotal(s: Store, u: int): (total: int)
    ensures total == SumDeltas(ListLedger(s, u))
    ensures (forall k :: 0 <= k < |s.ledger| ==> s.ledger[k].userId != u) ==> total == 0
  {
    RowsSumToBalance(s.ledger, u, |s.ledger|);
    assert s.ledger[..|s.ledger|] == s.ledger;
    BalanceWithoutEntries(s.ledger, u);
    Balance(s.ledger, u)
  }

  /** add_ledger_entry: appends one entry, with no check of sign or size, and
      returns its id; only the entry's user sees the balance move, by delta. */
  function AddLedgerEntry(s: Store, u: int, delta: int, reason: string, refType: RefType, refId: Option<int>): (r: (Store, int))
    ensures r.0 == s.(ledger := s.ledger + [LedgerEntry(u, delta, reason, refType, refId)])
    ensures r.1 == |r.0.ledger| && HasEntry(r.0, r.1)
    ensures Balance(r.0.ledger, u) == Balance(s.ledger, u) + delta
    ensures forall v :: v != u ==> Balance(r.0.ledger, v) == Balance(s.ledger, v)
  {
    var e := LedgerEntry(u, delta, reason, refType, refId);
    forall v
      ensures Balance(s.ledger + [e], v) == Balance(s.ledger, v) + Contribution(e, v)
    {
      BalanceAppend(s.ledger, e, v);
    }
    (s.(ledger := s.ledger + [e]), |s.ledger| + 1)
  }

  /** The entry refers to the row id of the given kind. */
  predicate RefersTo(e: LedgerEntry, t: RefType, id: int) {
    e.refType == t && e.refId == Some(id)
  }

  /** The number of entries that refer to the given chore or redemption. */
  function CountRefs(ledger: seq<LedgerEntry>, t: RefType, id: int): nat {
    if ledger == [] then 0
    else (if RefersTo(ledger[0], t, id) then 1 else 0) + CountRefs(ledger[1..], t, id)
  }

  lemma {:induction false} CountRefsAppend(ledger: seq<LedgerEntry>, e: LedgerEntry, t: RefType, id: int)
    ensures CountRefs(ledger + [e], t, id) == CountRefs(ledger, t, id) + (if RefersTo(e, t, id) then 1 else 0)
  {
    if ledger != [] {
      assert (ledger + [e])[1..] == ledger[1..] + [e];
      CountRefsAppend(ledger[1..], e, t, id);
    }
  }

  lemma {:induction false} CountRefsNone(ledger: seq<LedgerEntry>, t: RefType, id: int)
    requires forall k :: 0 <= k < |ledger| ==> !RefersTo(ledger[k], t, id)
    ensures CountRefs(ledger, t, id) == 0
  {
    if ledger != [] {
      CountRefsNone(ledger[1..], t, id);
    }
  }
}
