/** The outbox a dispatcher claims from, and every run of several dispatchers over it. */
module Outboxes {
  import opened Wrappers
  import opened Arithmetic
  import opened Sequences
  import opened Model

  /** `nextAttemptAt` is missing once the entry is abandoned. */
  datatype Row = Row(attempts: nat, nextAttemptAt: Option<Timestamp>, leaseUntil: Option<Timestamp>)

  type Rows = map<int, Row>

  predicate Due(row: Row, now: Timestamp) {
    && row.nextAttemptAt.Some? && row.nextAttemptAt.value <= now
    && (row.leaseUntil.None? || row.leaseUntil.value <= now)
  }

  /** The lease in whole seconds from now; now itself when that instant does not exist. */
  function LeaseEnd(now: Timestamp, lease: nat): Timestamp {
    var end := Shift(now, AsI64(lease / NANOS_PER_SECOND) * NANOS_PER_SECOND);
    if end.Some? then end.value else now
  }

  /** `ids` are the first `limit` due entries, by id. */
  ghost predicate Claims(rows: Rows, now: Timestamp, limit: nat, ids: seq<int>) {
    && |ids| <= limit
    && (forall i, j :: 0 <= i < j < |ids| ==> ids[i] < ids[j])
    && (forall i :: 0 <= i < |ids| ==> ids[i] in rows && Due(rows[ids[i]], now))
    && (forall id, i :: id in rows && Due(rows[id], now) && id !in ids && 0 <= i < |ids| ==> ids[i] < id)
    && ((exists id :: id in rows && Due(rows[id], now) && id !in ids) ==> |ids| == limit)
  }

  function Leased(rows: Rows, ids: seq<int>, until: Timestamp): Rows {
    map id | id in rows :: if id in ids then rows[id].(leaseUntil := Some(until)) else rows[id]
  }

  /** A failed attempt: one more, no lease, and another try later or never. */
  function Retried(row: Row, retryAt: Option<Timestamp>): Row {
    Row(row.attempts + 1, retryAt, None)
  }

  function Revived(rows: Rows, now: Timestamp): Rows {
    map id | id in rows :: if rows[id].nextAttemptAt.None? then Row(0, Some(now), None) else rows[id]
  }

  /** Not abandoned, its time has come, and no lease runs beyond now. */
  predicate IsOpen(row: Row, now: Timestamp) {
    match row.nextAttemptAt
    case None => false
    case Some(at) => at <= now && (row.leaseUntil.Some? ==> row.leaseUntil.value <= now)
  }

  /** What a claim takes: only open entries, never passing over one for a later one, and all when there is room. */
  lemma ClaimsOpenOnly(rows: Rows, now: Timestamp, limit: nat, ids: seq<int>)
    requires Claims(rows, now, limit, ids)
    ensures |ids| <= limit && forall id :: id in ids ==> id in rows && IsOpen(rows[id], now)
    ensures |ids| < limit ==> forall id :: id in rows && IsOpen(rows[id], now) ==> id in ids
    ensures forall id, claimed :: id in rows && IsOpen(rows[id], now) && id !in ids && claimed in ids ==> claimed < id
  {
    forall id | id in ids ensures id in rows && IsOpen(rows[id], now) {
      var i :| 0 <= i < |ids| && ids[i] == id;
    }
    forall id, claimed | id in rows && IsOpen(rows[id], now) && id !in ids && claimed in ids ensures claimed < id {
      var i :| 0 <= i < |ids| && ids[i] == claimed;
      assert Due(rows[id], now);
    }
  }

  /** The lease is recorded in whole seconds; past the end of time it ends at once. */
  lemma LeaseEndsAt(now: Timestamp, lease: nat, seconds: nat)
    requires seconds * 1_000_000_000 <= lease < seconds * 1_000_000_000 + 1_000_000_000 && seconds <= I64_MAX
    ensures LeaseEnd(now, lease) ==
      if now + seconds * 1_000_000_000 <= MAX_TIME then now + seconds * 1_000_000_000 else now
  {
    DivUnique(lease, NANOS_PER_SECOND, seconds);
  }

  ghost predicate IsDue(rows: Rows, id: int, now: Timestamp) {
    id in rows && Due(rows[id], now)
  }

  /** The due ids among the first `i` keys, in order. */
  ghost predicate Scanned(rows: Rows, now: Timestamp, keys: seq<int>, i: nat, due: seq<int>)
    requires i <= |keys|
  {
    && (forall j, k :: 0 <= j < k < |due| ==> due[j] < due[k])
    && (forall id :: id in due <==> id in keys[..i] && IsDue(rows, id, now))
  }

  ghost predicate AreKeys(rows: Rows, keys: seq<int>) {
    (forall j, k :: 0 <= j < k < |keys| ==> keys[j] < keys[k]) && forall id :: id in keys <==> id in rows
  }

  lemma ScanNext(rows: Rows, now: Timestamp, keys: seq<int>, i: nat, due: seq<int>)
    requires AreKeys(rows, keys) && i < |keys| && Scanned(rows, now, keys, i, due)
    ensures keys[i] in rows
    ensures Scanned(rows, now, keys, i + 1, if Due(rows[keys[i]], now) then due + [keys[i]] else due)
  {
    assert keys[..i + 1] == keys[..i] + [keys[i]];
    assert keys[i] in keys;
    forall j | 0 <= j < |due| ensures due[j] < keys[i] {
      assert due[j] in due;
      var k :| 0 <= k < i && keys[k] == due[j];
    }
  }

  lemma ScannedClaims(rows: Rows, now: Timestamp, keys: seq<int>, i: nat, due: seq<int>, limit: nat)
    requires AreKeys(rows, keys) && i <= |keys| && Scanned(rows, now, keys, i, due)
    requires |due| <= limit && (i == |keys| || |due| == limit)
    ensures Claims(rows, now, limit, due)
  {
    assert keys[..|keys|] == keys;
    forall j | 0 <= j < |due| ensures IsDue(rows, due[j], now) {
      assert due[j] in due;
    }
    forall id, j | IsDue(rows, id, now) && id !in due && 0 <= j < |due| ensures due[j] < id {
      assert due[j] in due;
      var k :| 0 <= k < i && keys[k] == due[j];
      var l :| 0 <= l < |keys| && keys[l] == id;
    }
  }

  class MemoryOutbox {
    var rows: Rows
    var last: int

    ghost predicate Valid()
      reads this
    {
      forall id :: id in rows ==> id <= last
    }

    constructor ()
      ensures Valid() && rows == map[] && last == 0
    {
      rows, last := map[], 0;
    }

    method Push(now: Timestamp)
      requires Valid()
      modifies this
      ensures Valid() && last !in old(rows)
      ensures last == old(last) + 1 && rows == old(rows)[last := Row(0, Some(now), None)]
    {
      last := last + 1;
      rows := rows[last := Row(0, Some(now), None)];
    }

    /** The ids to claim, in order. */
    method FirstDue(now: Timestamp, limit: nat) returns (due: seq<int>)
      ensures Claims(rows, now, limit, due)
    {
      var keys := AscendingKeys(rows.Keys);
      due := [];
      var i := 0;
      while i < |keys| && |due| < limit
        invariant i <= |keys| && Scanned(rows, now, keys, i, due) && |due| <= limit
      {
        ScanNext(rows, now, keys, i, due);
        if Due(rows[keys[i]], now) {
          due := due + [keys[i]];
        }
        i := i + 1;
      }
      ScannedClaims(rows, now, keys, i, due, limit);
    }

    method LeaseAll(ids: seq<int>, until: Timestamp)
      requires forall id :: id in ids ==> id in rows
      modifies this`rows
      ensures rows == Leased(old(rows), ids, until)
    {
      for j := 0 to |ids|
        invariant rows == Leased(old(rows), ids[..j], until)
        invariant forall id :: id in ids ==> id in rows
      {
        assert ids[j] in ids;
        assert ids[..j + 1] == ids[..j] + [ids[j]];
        rows := rows[ids[j] := rows[ids[j]].(leaseUntil := Some(until))];
      }
      assert ids[..|ids|] == ids;
    }

    method ClaimDue(now: Timestamp, limit: nat, lease: nat) returns (claimed: seq<int>)
      requires Valid()
      modifies this`rows
      ensures Valid()
      ensures Claims(old(rows), now, limit, claimed)
      ensures rows == Leased(old(rows), claimed, LeaseEnd(now, lease))
    {
      claimed := FirstDue(now, limit);
      forall id | id in claimed ensures id in rows {
        var i :| 0 <= i < |claimed| && claimed[i] == id;
      }
      LeaseAll(claimed, LeaseEnd(now, lease));
    }

    method Complete(id: int)
      requires Valid()
      modifies this`rows
      ensures Valid() && rows == old(rows) - {id}
    {
      rows := rows - {id};
    }

    /** `retryAt` is when the retry policy allows another attempt, if the failure was retriable. */
    method RecordFailure(id: int, retryAt: Option<Timestamp>) returns (abandoned: bool)
      requires Valid()
      modifies this`rows
      ensures Valid()
      ensures rows == if id in old(rows) then old(rows)[id := Retried(old(rows)[id], retryAt)] else old(rows)
      ensures abandoned <==> id in old(rows) && retryAt.None?
    {
      if id !in rows {
        return false;
      }
      rows := rows[id := rows[id].(attempts := rows[id].attempts + 1, leaseUntil := None, nextAttemptAt := retryAt)];
      abandoned := retryAt.None?;
    }

    method ReviveDead(now: Timestamp)
      requires Valid()
      modifies this`rows
      ensures Valid() && rows == Revived(old(rows), now)
    {
      var keys := rows.Keys;
      ghost var was, revived := rows, Revived(rows, now);
      while keys != {}
        invariant keys <= rows.Keys == was.Keys
        invariant forall id :: id in keys ==> rows[id] == was[id]
        invariant forall id :: id in rows && id !in keys ==> rows[id] == revived[id]
      {
        LeastIntExists(keys);
        var id :| id in keys;
        if rows[id].nextAttemptAt.None? {
          rows := rows[id := Row(0, Some(now), None)];
        }
        keys := keys - {id};
      }
      assert rows.Keys == revived.Keys;
      assert forall id :: id in rows ==> rows[id] == revived[id];
    }
  }
}
