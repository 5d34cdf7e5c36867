/** The subscriber delivery table: claiming, marking with backoff, the retention
    purge, and one sweep of the dispatch worker. */
module Deliveries {
  import opened Common

  datatype Status = Pending | Claimed | Sent | Failed | DeadLetter

  // Times count seconds.
  datatype Delivery = Delivery(
    id: nat,
    status: Status,
    attempts: nat,
    lastError: Option<string>,
    createdAt: int,
    sentAt: Option<int>,
    nextAttemptAt: Option<int>)

  const MAX_ATTEMPTS: nat := 6
  const BATCH_LIMIT: nat := 200

  function Pow2(n: nat): nat { if n == 0 then 1 else 2 * Pow2(n - 1) }

  // Seconds to wait after a row's attempts reach the given count.
  function Backoff(attempts: nat): nat {
    var secs := 30 * Pow2(if attempts < 7 then attempts else 7);
    if secs < 3600 then secs else 3600
  }

  lemma BackoffTable()
    ensures Backoff(1) == 60 && Backoff(2) == 120 && Backoff(3) == 240 && Backoff(4) == 480
    ensures Backoff(5) == 960 && Backoff(6) == 1920 && Backoff(7) == 3600
  {
    assert Pow2(1) == 2 && Pow2(2) == 4 && Pow2(3) == 8 && Pow2(4) == 16;
    assert Pow2(5) == 32 && Pow2(6) == 64 && Pow2(7) == 128;
  }

  lemma {:induction false} Pow2Monotone(a: nat, b: nat)
    requires a <= b
    ensures Pow2(a) <= Pow2(b)
  {
    if a < b {
      Pow2Monotone(a, b - 1);
    }
  }

  /** Backoff never shrinks and stays between a minute and an hour. */
  lemma BackoffLaws(a: nat, b: nat)
    requires 1 <= a <= b
    ensures 60 <= Backoff(a) <= Backoff(b) <= 3600
  {
    Pow2Monotone(if a < 7 then a else 7, if b < 7 then b else 7);
    Pow2Monotone(1, if a < 7 then a else 7);
    assert Pow2(1) == 2;
  }

  predicate Claimable(d: Delivery, now: int) {
    d.status == Pending || (d.status == Failed && d.nextAttemptAt.Some? && d.nextAttemptAt.value <= now)
  }

  predicate Terminal(d: Delivery) { d.status == Sent || d.status == DeadLetter }

  function MarkInMemory(d: Delivery, status: Status, error: Option<string>, now: int): Delivery {
    var marked := d.(status := status, attempts := d.attempts + 1, lastError := error);
    match status
    case Sent => marked.(sentAt := Some(now), nextAttemptAt := None)
    case DeadLetter => marked.(nextAttemptAt := None)
    case Failed => marked.(nextAttemptAt := Some(now + Backoff(marked.attempts)))
    case _ => marked
  }

  function MarkInDuckDb(d: Delivery, status: Status, error: Option<string>, now: int): Delivery {
    var attempts := d.attempts + 1;
    var times: (Option<int>, Option<int>) :=
      match status
      case Sent => (Some(now), None)
      case DeadLetter => (None, None)
      case Failed => (None, Some(now + Backoff(attempts)))
      case _ => (None, None);
    d.(status := status, attempts := attempts, lastError := error, sentAt := times.0, nextAttemptAt := times.1)
  }

  /** The backends write the same row if and only if the row was never sent before,
      or is sent now; for a status the dispatcher never writes, also only if no
      retry is scheduled. */
  lemma MarksAgreeIff(d: Delivery, status: Status, error: Option<string>, now: int)
    ensures MarkInMemory(d, status, error, now) == MarkInDuckDb(d, status, error, now)
       <==> (status == Sent || (d.sentAt.None? && (status == Failed || status == DeadLetter || d.nextAttemptAt.None?)))
  {
    var m, k := MarkInMemory(d, status, error, now), MarkInDuckDb(d, status, error, now);
    assert m == k <==> m.sentAt == k.sentAt && m.nextAttemptAt == k.nextAttemptAt;
  }

  // What the dispatcher writes after a dispatch of the row it claimed.
  function Result(claimed: Delivery, error: Option<string>): Status {
    if error.None? then Sent else if claimed.attempts >= MAX_ATTEMPTS then DeadLetter else Failed
  }

  // First row with an identifier, or the length of the table.
  function Find(rows: seq<Delivery>, id: nat): (k: nat)
    ensures k <= |rows|
    ensures k < |rows| ==> rows[k].id == id
    ensures forall i :: 0 <= i < k ==> rows[i].id != id
  {
    if rows == [] || rows[0].id == id then 0 else 1 + Find(rows[1..], id)
  }

  function ClaimRow(rows: seq<Delivery>, id: nat, now: int): seq<Delivery> {
    var k := Find(rows, id);
    if k < |rows| && Claimable(rows[k], now) then rows[k := rows[k].(status := Claimed)] else rows
  }

  predicate CanClaim(rows: seq<Delivery>, id: nat, now: int) {
    var k := Find(rows, id);
    k < |rows| && Claimable(rows[k], now)
  }

  function MarkRow(rows: seq<Delivery>, id: nat, status: Status, error: Option<string>, now: int, duckDb: bool)
    : seq<Delivery>
  {
    var k := Find(rows, id);
    if k < |rows| then
      rows[k := if duckDb then MarkInDuckDb(rows[k], status, error, now) else MarkInMemory(rows[k], status, error, now)]
    else rows
  }

  predicate Expired(d: Delivery, cutoff: int) {
    Terminal(d) && (if d.sentAt.Some? then d.sentAt.value else d.createdAt) < cutoff
  }

  function Purged(rows: seq<Delivery>, cutoff: int): seq<Delivery> {
    if rows == [] then []
    else var rest, d := Purged(rows[..|rows| - 1], cutoff), rows[|rows| - 1];
         if Expired(d, cutoff) then rest else rest + [d]
  }

  // ---- the batch a sweep works on ----

  function InsertByAge(sorted: seq<Delivery>, d: Delivery): (r: seq<Delivery>)
    ensures |r| == |sorted| + 1
    ensures forall x :: x in r <==> x == d || x in sorted
  {
    if sorted == [] || d.createdAt < sorted[0].createdAt then [d] + sorted
    else
      assert sorted == [sorted[0]] + sorted[1..];
      [sorted[0]] + InsertByAge(sorted[1..], d)
  }

  function Due(rows: seq<Delivery>, now: int): (r: seq<Delivery>)
    ensures forall x :: x in r <==> x in rows && Claimable(x, now)
  {
    if rows == [] then []
    else
      assert rows == rows[..|rows| - 1] + [rows[|rows| - 1]];
      var rest, d := Due(rows[..|rows| - 1], now), rows[|rows| - 1];
      if Claimable(d, now) then InsertByAge(rest, d) else rest
  }

  function ListPending(rows: seq<Delivery>, now: int, limit: nat): (r: seq<Delivery>)
    ensures |r| <= limit
    ensures forall x :: x in r ==> x in rows && Claimable(x, now)
  {
    var due := Due(rows, now);
    if limit < |due| then due[..limit] else due
  }

  ghost predicate OldestFirst(rows: seq<Delivery>) {
    forall i, j :: 0 <= i <= j < |rows| ==> rows[i].createdAt <= rows[j].createdAt
  }

  lemma {:induction false} InsertKeepsOrder(sorted: seq<Delivery>, d: Delivery)
    requires OldestFirst(sorted)
    ensures OldestFirst(InsertByAge(sorted, d))
  {
    if !(sorted == [] || d.createdAt < sorted[0].createdAt) {
      InsertKeepsOrder(sorted[1..], d);
      assert sorted == [sorted[0]] + sorted[1..];
      var rest := InsertByAge(sorted[1..], d);
      forall j | 0 <= j < |rest| ensures sorted[0].createdAt <= rest[j].createdAt {
        assert rest[j] in rest;
      }
    }
  }

  lemma {:induction false} DueIsOrdered(rows: seq<Delivery>, now: int)
    ensures OldestFirst(Due(rows, now))
  {
    if rows != [] {
      DueIsOrdered(rows[..|rows| - 1], now);
      if Claimable(rows[|rows| - 1], now) {
        InsertKeepsOrder(Due(rows[..|rows| - 1], now), rows[|rows| - 1]);
      }
    }
  }

  /** A batch is served oldest first: a claimable row is left out only of a full
      batch, all of whose rows are at least as old. */
  lemma PendingIsFair(rows: seq<Delivery>, now: int, limit: nat, x: Delivery)
    requires x in rows && Claimable(x, now)
    ensures var batch := ListPending(rows, now, limit);
            && OldestFirst(batch)
            && (x !in batch ==> |batch| == limit && forall y :: y in batch ==> y.createdAt <= x.createdAt)
  {
    DueIsOrdered(rows, now);
    var due := Due(rows, now);
    assert x in due;
    var i :| 0 <= i < |due| && due[i] == x;
  }

  // What happens around one row of a sweep: when it is claimed and marked, and
  // the dispatch error if there is one.
  datatype Turn = Turn(claimAt: int, markAt: int, error: Option<string>)

  function WorkOne(rows: seq<Delivery>, id: nat, turn: Turn): seq<Delivery> {
    if CanClaim(rows, id, turn.claimAt) then
      var claimed := rows[Find(rows, id)];
      MarkRow(ClaimRow(rows, id, turn.claimAt), id, Result(claimed, turn.error), turn.error, turn.markAt, false)
    else rows
  }

  function WorkAll(rows: seq<Delivery>, ids: seq<nat>, turns: seq<Turn>): seq<Delivery>
    requires |ids| == |turns|
  {
    if ids == [] then rows
    else WorkOne(WorkAll(rows, ids[..|ids| - 1], turns[..|ids| - 1]), ids[|ids| - 1], turns[|ids| - 1])
  }

  function Ids(batch: seq<Delivery>): (ids: seq<nat>)
    ensures |ids| == |batch| && forall i :: 0 <= i < |ids| ==> ids[i] == batch[i].id
  {
    seq(|batch|, i requires 0 <= i < |batch| => batch[i].id)
  }

  /** The table and the worker's operations on it. */
  class Queue {
    var rows: seq<Delivery>
    var nextId: nat

    constructor ()
      ensures rows == [] && nextId == 0
    {
      rows, nextId := [], 0;
    }

    method Enqueue(now: int)
      modifies this
      ensures rows == old(rows) + [Delivery(old(nextId), Pending, 0, None, now, None, Some(now))]
      ensures nextId == old(nextId) + 1
    {
      rows := rows + [Delivery(nextId, Pending, 0, None, now, None, Some(now))];
      nextId := nextId + 1;
    }

    method Claim(id: nat, now: int) returns (claimed: Option<Delivery>)
      modifies this`rows
      ensures rows == ClaimRow(old(rows), id, now)
      ensures claimed.Some? <==> CanClaim(old(rows), id, now)
      ensures claimed.Some? ==> claimed.value == old(rows)[Find(old(rows), id)].(status := Claimed)
    {
      var i := 0;
      while i < |rows|
        invariant 0 <= i <= |rows| && rows == old(rows)
        invariant forall j :: 0 <= j < i ==> rows[j].id != id
      {
        if rows[i].id == id {
          FirstMatch(rows, id, i);
          if !Claimable(rows[i], now) {
            return None;
          }
          rows := rows[i := rows[i].(status := Claimed)];
          return Some(rows[i]);
        }
        i := i + 1;
      }
      claimed := None;
    }

    method Mark(id: nat, status: Status, error: Option<string>, now: int) returns (found: bool)
      modifies this`rows
      ensures rows == MarkRow(old(rows), id, status, error, now, false)
      ensures found <==> exists d :: d in old(rows) && d.id == id
    {
      var i := 0;
      while i < |rows|
        invariant 0 <= i <= |rows| && rows == old(rows)
        invariant forall j :: 0 <= j < i ==> rows[j].id != id
      {
        if rows[i].id == id {
          FirstMatch(rows, id, i);
          assert rows[i] in rows;
          rows := rows[i := MarkInMemory(rows[i], status, error, now)];
          return true;
        }
        i := i + 1;
      }
      found := false;
    }

    method DeleteOld(cutoff: int) returns (deleted: nat)
      modifies this`rows
      ensures rows == Purged(old(rows), cutoff) && deleted == |old(rows)| - |rows|
    {
      var kept, before := [], |rows|;
      for k := 0 to |rows|
        invariant kept == Purged(rows[..k], cutoff) && |kept| <= k
      {
        assert rows[..k + 1][..k] == rows[..k];
        if !Expired(rows[k], cutoff) {
          kept := kept + [rows[k]];
        }
      }
      assert rows[..|rows|] == rows;
      rows := kept;
      deleted := before - |kept|;
    }

    // One sweep of one worker: list, then claim, dispatch and mark row by row.
    method Sweep(now: int, turns: seq<Turn>)
      requires |turns| == |ListPending(rows, now, 200)|
      modifies this`rows
      ensures rows == WorkAll(old(rows), Ids(ListPending(old(rows), now, 200)), turns)
    {
      hide WorkOne, ListPending;
      var batch := ListPending(rows, now, BATCH_LIMIT);
      var ids := Ids(batch);
      for k := 0 to |batch|
        invariant rows == WorkAll(old(rows), ids[..k], turns[..k])
      {
        assert ids[..k + 1][..k] == ids[..k] && turns[..k + 1][..k] == turns[..k];
        TakeTurn(ids[k], turns[k]);
      }
      assert ids[..|batch|] == ids && turns[..|batch|] == turns;
    }

    method TakeTurn(id: nat, turn: Turn)
      modifies this`rows
      ensures rows == WorkOne(old(rows), id, turn)
    {
      var claimed := Claim(id, turn.claimAt);
      if claimed.Some? {
        var _ := Mark(id, Result(claimed.value, turn.error), turn.error, turn.markAt);
      }
    }
  }

  lemma FirstMatch(rows: seq<Delivery>, id: nat, i: nat)
    requires i < |rows| && rows[i].id == id && forall j :: 0 <= j < i ==> rows[j].id != id
    ensures Find(rows, id) == i
  {
  }
}
