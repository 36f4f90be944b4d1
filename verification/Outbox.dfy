/** The outbox: rows come in with a committed batch, are claimed once and deleted afterwards. */
module Outbox {
  import opened Orders
  import opened Database

  // ---------------------------------------------------------------- posting a batch

  /** The status of the last result about a uuid among the first `n`. */
  function LastStatus(results: seq<OrderResult>, n: nat, uuid: string): Option<OrderStatus>
    requires n <= |results|
  {
    if n == 0 then None
    else if results[n - 1].uuid == uuid then Some(results[n - 1].status)
    else LastStatus(results, n - 1, uuid)
  }

  function Posted(row: OrderRow, status: Option<OrderStatus>): OrderRow {
    if status.Some? then row.(status := status.value) else row
  }

  /** After a commit every stored order has the status of the last result about it, and
      orders the batch does not mention are untouched; nothing else in a row changes. */
  lemma {:induction false} PostStatusesByOrder(orders: map<int, OrderRow>, results: seq<OrderResult>, n: nat)
    requires n <= |results|
    ensures PostStatuses(orders, results, n).Keys == orders.Keys
    ensures forall id <- orders ::
              PostStatuses(orders, results, n)[id] == Posted(orders[id], LastStatus(results, n, orders[id].uuid))
  {
    if n > 0 {
      PostStatusesByOrder(orders, results, n - 1);
    }
  }

  /** Posting the same batch again, after a lost confirmation, changes no status. */
  lemma PostingTwiceIsPostingOnce(orders: map<int, OrderRow>, results: seq<OrderResult>)
    ensures var once := PostStatuses(orders, results, |results|);
            PostStatuses(once, results, |results|) == once
  {
    hide PostStatuses, LastStatus;
    var once := PostStatuses(orders, results, |results|);
    var twice := PostStatuses(once, results, |results|);
    PostStatusesByOrder(orders, results, |results|);
    PostStatusesByOrder(once, results, |results|);
    forall id | id in once ensures twice[id] == once[id] {
      assert once[id].uuid == orders[id].uuid;
    }
  }

  lemma {:induction false} PostingKeepsUuids(orders: map<int, OrderRow>, results: seq<OrderResult>, n: nat)
    requires n <= |results|
    ensures PostStatuses(orders, results, n).Keys == orders.Keys
    ensures forall id <- orders :: PostStatuses(orders, results, n)[id].uuid == orders[id].uuid
    ensures forall id <- orders :: PostStatuses(orders, results, n)[id].details == orders[id].details
    ensures forall u :: UuidTaken(PostStatuses(orders, results, n), u) <==> UuidTaken(orders, u)
  {
    PostStatusesByOrder(orders, results, n);
    var posted := PostStatuses(orders, results, n);
    forall u ensures UuidTaken(posted, u) <==> UuidTaken(orders, u) {
      if id :| id in orders && orders[id].uuid == u {
        assert posted[id].uuid == u;
      }
    }
  }

  /** No result names a stored order with a status that the schema refuses. */
  predicate NoneUnlisted(orders: map<int, OrderRow>, results: seq<OrderResult>) {
    forall id <- orders, r <- results :: orders[id].uuid == r.uuid ==> !r.status.Unlisted?
  }

  lemma PostableMeans(orders: map<int, OrderRow>, results: seq<OrderResult>)
    ensures Postable(orders, results) <==> NoneUnlisted(orders, results)
  {
  }

  lemma NothingIsPostable(orders: map<int, OrderRow>)
    ensures Postable(orders, [])
  {
  }

  lemma PostableNext(orders: map<int, OrderRow>, results: seq<OrderResult>, k: nat)
    requires k < |results|
    ensures Postable(orders, results[..k + 1])
       <==> Postable(orders, results[..k]) && (UuidTaken(orders, results[k].uuid) ==> !results[k].status.Unlisted?)
    ensures !Postable(orders, results[..k + 1]) ==> !Postable(orders, results)
  {
    hide UuidTaken;
    assert results[..k + 1] == results[..k] + [results[k]];
    assert forall r <- results[..k + 1] :: r in results;
  }

  lemma NoNewRows(firstId: int, now: int)
    ensures NewOutboxRows([], firstId, now) == []
  {
  }

  lemma NewRowsNext(results: seq<OrderResult>, k: nat, firstId: int, now: int)
    requires k < |results|
    ensures NewOutboxRows(results[..k + 1], firstId, now)
         == NewOutboxRows(results[..k], firstId, now) + [OutboxRow(firstId + k, results[k], false, now)]
  {
  }

  /** One unsent row per result was added, in order, numbered from `firstId`. */
  predicate Appends(before: seq<OutboxRow>, after: seq<OutboxRow>, results: seq<OrderResult>, firstId: int, now: int) {
    && before <= after && |after| == |before| + |results|
    && forall k :: 0 <= k < |results| ==> after[|before| + k] == OutboxRow(firstId + k, results[k], false, now)
  }

  lemma NewRowsAppend(before: seq<OutboxRow>, results: seq<OrderResult>, firstId: int, now: int)
    ensures Appends(before, before + NewOutboxRows(results, firstId, now), results, firstId, now)
  {
  }

  lemma NewRowsKeepIds(before: seq<OutboxRow>, results: seq<OrderResult>, firstId: int, now: int)
    requires DistinctIds(before) && forall k :: 0 <= k < |before| ==> before[k].id < firstId
    ensures var after := before + NewOutboxRows(results, firstId, now);
            DistinctIds(after) && forall k :: 0 <= k < |after| ==> after[k].id < firstId + |results|
  {
  }

  function Payloads(outbox: seq<OutboxRow>): seq<OrderResult> {
    seq(|outbox|, i requires 0 <= i < |outbox| => outbox[i].payload)
  }

  function Copies(results: seq<OrderResult>, times: nat): seq<OrderResult> {
    if times == 0 then [] else results + Copies(results, times - 1)
  }

  // ---------------------------------------------------------------- runs of the outbox

  /** A batch of results commits with its statement time, a poller claims the `k`-th row,
      or a publisher deletes a row (which the database may fail to do). */
  datatype Event =
    | Commit(results: seq<OrderResult>, now: int)
    | Claim(k: int)
    | Delete(id: int, databaseFails: bool)

  /** The table with its id sequence, and what has gone in and been claimed so far. */
  datatype History = History(rows: seq<OutboxRow>, nextId: int, inserted: seq<OutboxRow>, claimed: seq<OutboxRow>)

  const START := History([], 1, [], [])

  /** A claim takes a row the query allows, or finds nothing; rows are deleted by whoever
      claimed them. */
  predicate Allowed(h: History, e: Event) {
    match e
    case Commit(_, _) => true
    case Claim(k) => Claimable(h.rows, k) || forall row <- h.rows :: row.sent
    case Delete(id, _) => exists row <- h.claimed :: row.id == id
  }

  function Happen(h: History, e: Event): History {
    match e
    case Commit(results, now) =>
      var rows := NewOutboxRows(results, h.nextId, now);
      History(h.rows + rows, h.nextId + |results|, h.inserted + rows, h.claimed)
    case Claim(k) =>
      if Claimable(h.rows, k)
      then h.(rows := MarkSent(h.rows, k), claimed := h.claimed + [MarkSent(h.rows, k)[k]])
      else h
    case Delete(id, databaseFails) =>
      if databaseFails then h else h.(rows := RemoveRow(h.rows, id))
  }

  predicate IsRun(h: History, events: seq<Event>)
    decreases |events|
  {
    events == [] || (Allowed(h, events[0]) && IsRun(Happen(h, events[0]), events[1..]))
  }

  function After(h: History, events: seq<Event>): History
    decreases |events|
  {
    if events == [] then h else After(Happen(h, events[0]), events[1..])
  }

  function Unsent(rows: seq<OutboxRow>): nat {
    if rows == [] then 0 else Unsent(rows[..|rows| - 1]) + if rows[|rows| - 1].sent then 0 else 1
  }

  /** Every row of the table went in, and only a claim has marked it. */
  predicate RowsAccounted(h: History) {
    && DistinctIds(h.rows)
    && (forall i :: 0 <= i < |h.rows| ==> h.rows[i].id < h.nextId && h.rows[i].(sent := false) in h.inserted)
    && (forall i :: 0 <= i < |h.rows| ==> (h.rows[i].sent <==> h.rows[i].(sent := true) in h.claimed))
  }

  /** No row is claimed twice, and what is claimed went in. */
  predicate ClaimsAccounted(h: History) {
    && DistinctIds(h.claimed)
    && (forall i :: 0 <= i < |h.claimed| ==>
          h.claimed[i].sent && h.claimed[i].id < h.nextId && h.claimed[i].(sent := false) in h.inserted)
    && (forall i, j :: 0 <= i < |h.claimed| && 0 <= j < |h.rows| && h.claimed[i].id == h.rows[j].id ==>
          h.claimed[i] == h.rows[j].(sent := true))
  }

  lemma {:induction false} UnsentAppend(rows: seq<OutboxRow>, more: seq<OutboxRow>)
    ensures Unsent(rows + more) == Unsent(rows) + Unsent(more)
  {
    if more == [] {
      assert rows + more == rows;
    } else {
      UnsentAppend(rows, more[..|more| - 1]);
      assert (rows + more)[..|rows + more| - 1] == rows + more[..|more| - 1];
    }
  }

  lemma {:induction false} AllUnsent(rows: seq<OutboxRow>)
    requires forall i :: 0 <= i < |rows| ==> !rows[i].sent
    ensures Unsent(rows) == |rows|
  {
    if rows != [] {
      AllUnsent(rows[..|rows| - 1]);
    }
  }

  lemma UnsentMarked(rows: seq<OutboxRow>, k: nat)
    requires k < |rows| && !rows[k].sent
    ensures Unsent(MarkSent(rows, k)) + 1 == Unsent(rows)
  {
    var front, row, back := rows[..k], rows[k], rows[k + 1..];
    assert rows == front + [row] + back;
    assert MarkSent(rows, k) == front + [row.(sent := true)] + back;
    UnsentAppend(front + [row], back);
    UnsentAppend(front, [row]);
    UnsentAppend(front + [row.(sent := true)], back);
    UnsentAppend(front, [row.(sent := true)]);
    assert Unsent([row]) == 1 && Unsent([row.(sent := true)]) == 0;
  }

  lemma {:induction false} UnsentKeptByDelete(rows: seq<OutboxRow>, id: int)
    requires forall i :: 0 <= i < |rows| && rows[i].id == id ==> rows[i].sent
    ensures Unsent(RemoveRow(rows, id)) == Unsent(rows)
  {
    if rows != [] {
      var front, last := rows[..|rows| - 1], rows[|rows| - 1];
      UnsentKeptByDelete(front, id);
      UnsentAppend(RemoveRow(front, id), [last]);
      assert Unsent([last]) == if last.sent then 0 else 1;
    }
  }

  predicate Accounted(h: History) {
    && RowsAccounted(h) && ClaimsAccounted(h)
    && |h.inserted| == Unsent(h.rows) + |h.claimed|
  }

  lemma CommitAccounts(h: History, results: seq<OrderResult>, now: int)
    requires Accounted(h)
    ensures Accounted(Happen(h, Commit(results, now)))
  {
    hide Unsent;
    var rows := NewOutboxRows(results, h.nextId, now);
    UnsentAppend(h.rows, rows);
    AllUnsent(rows);
    var r := Happen(h, Commit(results, now));
    forall i | 0 <= i < |r.rows| ensures r.rows[i].(sent := false) in r.inserted {
      if i >= |h.rows| {
        assert r.rows[i] == rows[i - |h.rows|] && rows[i - |h.rows|] in rows;
      }
    }
  }

  lemma ClaimAccounts(h: History, k: nat)
    requires Accounted(h) && Claimable(h.rows, k)
    ensures Accounted(Happen(h, Claim(k)))
  {
    hide Unsent, Claimable;
    assert k < |h.rows| && !h.rows[k].sent by {
      ClaimableMeans(h.rows, k);
    }
    UnsentMarked(h.rows, k);
    var r, row := Happen(h, Claim(k)), h.rows[k].(sent := true);
    assert row !in h.claimed;
    forall i | 0 <= i < |h.claimed| ensures h.claimed[i].id != row.id {
      assert h.claimed[i] in h.claimed;
    }
    assert r.claimed == h.claimed + [row];
    forall i | 0 <= i < |r.rows| ensures r.rows[i].sent <==> r.rows[i].(sent := true) in r.claimed {
      if i != k {
        assert h.rows[i].id != h.rows[k].id;
      }
    }
  }

  lemma ClaimableMeans(rows: seq<OutboxRow>, k: int)
    requires Claimable(rows, k)
    ensures 0 <= k < |rows| && !rows[k].sent
  {
  }

  lemma DeleteAccounts(h: History, id: int)
    requires Accounted(h) && exists row <- h.claimed :: row.id == id
    ensures Accounted(Happen(h, Delete(id, false)))
  {
    hide Unsent, RemoveRow;
    var claim :| claim in h.claimed && claim.id == id;
    forall i | 0 <= i < |h.rows| && h.rows[i].id == id ensures h.rows[i].sent {
      assert h.rows[i].(sent := true) == claim;
    }
    UnsentKeptByDelete(h.rows, id);
    RemoveRowSelects(h.rows, id);
    var rows := RemoveRow(h.rows, id);
    forall i | 0 <= i < |rows| ensures rows[i] in h.rows {
      assert rows[i] in rows;
    }
  }

  /** Over any run of commits, claims and deletes: no message is claimed twice, each claim
      is a message that was inserted, and what was inserted is what is still unsent plus
      what was claimed, whether since deleted or not. */
  lemma {:induction false} OutboxAccounts(h: History, events: seq<Event>)
    requires IsRun(h, events) && Accounted(h)
    ensures Accounted(After(h, events))
    decreases |events|
  {
    hide Accounted, Claimable;
    if events != [] {
      match events[0] {
        case Commit(results, now) => CommitAccounts(h, results, now);
        case Claim(k) =>
          if Claimable(h.rows, k) {
            ClaimableMeans(h.rows, k);
            ClaimAccounts(h, k);
          }
        case Delete(id, databaseFails) =>
          if !databaseFails {
            DeleteAccounts(h, id);
          }
      }
      OutboxAccounts(Happen(h, events[0]), events[1..]);
    }
  }

  lemma OutboxProtocol(events: seq<Event>)
    requires IsRun(START, events)
    ensures Accounted(After(START, events))
  {
    hide IsRun, After;
    OutboxAccounts(START, events);
  }

  // ---------------------------------------------------------------- first in, first out

  predicate CommitTimesAscend(events: seq<Event>, now: int)
    decreases |events|
  {
    events == []
    || (match events[0]
        case Commit(_, t) => now <= t && CommitTimesAscend(events[1..], t)
        case _ => CommitTimesAscend(events[1..], now))
  }

  predicate InOrderOfAge(rows: seq<OutboxRow>) {
    forall i, j :: 0 <= i < j < |rows| ==> rows[i].createdAt <= rows[j].createdAt
  }

  /** Claimed rows are in order of age, and none that is left is older than the last of them. */
  predicate OldestFirst(h: History, now: int) {
    && InOrderOfAge(h.claimed)
    && (forall i :: 0 <= i < |h.rows| ==> h.rows[i].createdAt <= now)
    && (forall i :: 0 <= i < |h.claimed| ==> h.claimed[i].createdAt <= now)
    && (forall i, j :: 0 <= i < |h.claimed| && 0 <= j < |h.rows| && !h.rows[j].sent ==>
          h.claimed[i].createdAt <= h.rows[j].createdAt)
  }

  lemma {:induction false} RemoveRowWithin(rows: seq<OutboxRow>, id: int)
    ensures forall j :: 0 <= j < |RemoveRow(rows, id)| ==> RemoveRow(rows, id)[j] in rows
  {
    if rows != [] {
      RemoveRowWithin(rows[..|rows| - 1], id);
      assert forall row :: row in rows[..|rows| - 1] ==> row in rows;
    }
  }

  lemma HappenOldestFirst(h: History, e: Event, before: int, now: int)
    requires OldestFirst(h, before) && before <= now
    requires e.Commit? ==> e.now == now
    ensures OldestFirst(Happen(h, e), now)
  {
    hide RemoveRow;
    if e.Delete? && !e.databaseFails {
      RemoveRowWithin(h.rows, e.id);
    }
  }

  /** As long as batches commit in the order of their timestamps, messages are claimed in
      the order in which they were created. */
  lemma {:induction false} ClaimedInOrder(h: History, events: seq<Event>, now: int)
    requires IsRun(h, events) && CommitTimesAscend(events, now) && OldestFirst(h, now)
    ensures InOrderOfAge(After(h, events).claimed)
    decreases |events|
  {
    hide Happen, Allowed;
    if events == [] {
      assert InOrderOfAge(h.claimed);
    } else {
      var later := if events[0].Commit? then events[0].now else now;
      HappenOldestFirst(h, events[0], now, later);
      ClaimedInOrder(Happen(h, events[0]), events[1..], later);
    }
  }
}
