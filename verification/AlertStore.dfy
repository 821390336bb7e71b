/** The alerts table as a class whose methods are the statements the agent runs on it
    (internal/agent/store_queries.go). Statements are assumed to succeed. */
module AlertStore {
  import opened Options
  import opened AlertModel
  import opened Sets

  /** The id of the alerts chosen for deletion or adoption is up to the database, so the
      methods pick it arbitrarily within what the statement allows. */
  class Store {
    var rows: map<int, Row>
    var nextId: int

    ghost function T(): Table
      reads this
    {
      Table(rows, nextId)
    }

    constructor ()
      ensures T() == Table(map[], 1)
    {
      rows, nextId := map[], 1;
    }

    method InsertAlert(ruleName: string, key: string, firedAt: int) returns (id: int)
      modifies this
      ensures id == old(nextId) && nextId == id + 1
      ensures rows == old(rows)[id := Row(ruleName, key, firedAt / 1_000_000_000, None, false)]
      ensures T() == InsertRow(old(T()), Row(ruleName, key, Unix(firedAt), None, false))
    {
      id := nextId;
      rows := rows[id := Row(ruleName, key, Unix(firedAt), None, false)];
      nextId := nextId + 1;
    }

    method ResolveAlert(id: int, resolvedAt: int)
      modifies this
      ensures T() == ResolveRow(old(T()), id, Unix(resolvedAt))
      ensures id in old(rows) ==>
        rows == old(rows)[id := old(rows)[id].(resolvedAt := Some(resolvedAt / 1_000_000_000))]
      ensures id !in old(rows) ==> rows == old(rows)
    {
      if id in rows {
        rows := rows[id := rows[id].(resolvedAt := Some(Unix(resolvedAt)))];
      }
    }

    method ResolveOrphanedAlerts(resolvedAt: int)
      modifies this
      ensures T() == ResolveRows(old(T()), Unresolved(old(T())), Unix(resolvedAt))
      ensures rows.Keys == old(rows).Keys && forall id :: id in rows ==>
        rows[id] == if old(rows)[id].resolvedAt.Some? then old(rows)[id]
                    else old(rows)[id].(resolvedAt := Some(resolvedAt / 1_000_000_000))
    {
      rows := map id | id in rows ::
        if rows[id].resolvedAt.None? then rows[id].(resolvedAt := Some(Unix(resolvedAt))) else rows[id];
    }

    /** SELECT ... WHERE resolved_at IS NULL ORDER BY fired_at DESC LIMIT 1000. */
    method QueryFiringAlerts() returns (found: seq<int>)
      ensures IsFiringQuery(T(), found)
    {
      found := [];
      ghost var all := Unresolved(T());
      var left := set id | id in rows && rows[id].resolvedAt.None?;
      while left != {} && |found| < FIRING_LIMIT
        invariant left <= all
        invariant forall id :: id in all <==> id in found || id in left
        invariant forall i :: 0 <= i < |found| ==> found[i] in all && found[i] !in left
        invariant forall i, j :: 0 <= i < j < |found| ==> found[i] != found[j]
        invariant forall i, j :: 0 <= i < j < |found| ==> rows[found[i]].firedAt >= rows[found[j]].firedAt
        invariant forall i, id :: 0 <= i < |found| && id in left ==> rows[id].firedAt <= rows[found[i]].firedAt
        invariant |all| == |found| + |left| && |found| <= FIRING_LIMIT
        decreases left
      {
        var id := Newest(left);
        found := found + [id];
        left := left - {id};
      }
    }

    method Newest(ids: set<int>) returns (id: int)
      requires ids != {} && ids <= rows.Keys
      ensures id in ids
      ensures forall other :: other in ids ==> rows[other].firedAt <= rows[id].firedAt
    {
      Nonempty(ids);
      id :| id in ids;
      var left := ids - {id};
      while left != {}
        invariant left <= ids && id in ids
        invariant forall other :: other in ids - left ==> rows[other].firedAt <= rows[id].firedAt
        decreases left
      {
        Nonempty(left);
        var other :| other in left;
        left := left - {other};
        if rows[other].firedAt > rows[id].firedAt {
          id := other;
        }
      }
    }

    method AckAlert(id: int) returns (found: bool)
      modifies this
      ensures T() == AckRow(old(T()), id)
      ensures found <==> id in old(rows)
      ensures found ==> rows == old(rows)[id := old(rows)[id].(acked := true)]
      ensures !found ==> rows == old(rows)
    {
      found := id in rows;
      if found {
        rows := rows[id := rows[id].(acked := true)];
      }
    }

    /** Deletes expired rows a batch at a time. patience is the number of batches after which
        the context is cancelled, which leaves the rest of the expired rows in place. */
    method PruneAlerts(cutoff: int, batchSize: nat, patience: nat) returns (done: bool)
      requires batchSize > 0
      modifies this
      ensures exists victims :: Pruned(old(T()), T(), victims, cutoff)
                             && (done ==> victims == Expired(old(T()), cutoff))
                             && (!done ==> HasBatches(victims, patience + 1, batchSize))
      ensures OnlyOldAreGone(old(rows), rows, cutoff)
      ensures done ==> forall id :: id in rows ==> rows[id].firedAt >= cutoff
    {
      ghost var before := T();
      ghost var victims: set<int> := {};
      var batches := 0;
      assert before.rows - {} == before.rows;
      while true
        invariant Pruned(before, T(), victims, cutoff) && HasBatches(victims, batches, batchSize)
        invariant batches <= patience
        decreases rows.Keys
      {
        var batch := PickExpired(cutoff, batchSize);
        PruneMore(before, T(), victims, batch, cutoff);
        rows := rows - batch;
        if |batch| < batchSize {
          victims := victims + batch;
          assert Pruned(before, T(), victims, cutoff);
          return true;
        }
        BatchesOneMore(victims, batch, batches, batchSize);
        victims := victims + batch;
        batches := batches + 1;
        if batches > patience {
          assert Pruned(before, T(), victims, cutoff);
          return false;
        }
        Nonempty(batch);
      }
    }

    /** SELECT rowid ... WHERE fired_at < cutoff LIMIT limit: any choice of that many. */
    method PickExpired(cutoff: int, limit: nat) returns (batch: set<int>)
      ensures batch <= Expired(T(), cutoff)
      ensures |batch| <= limit
      ensures |batch| < limit ==> batch == Expired(T(), cutoff)
    {
      batch := {};
      var left := set id | id in rows && rows[id].firedAt < cutoff;
      while left != {} && |batch| < limit
        invariant left + batch == Expired(T(), cutoff) && left !! batch && |batch| <= limit
        decreases left
      {
        Nonempty(left);
        var id :| id in left;
        batch := batch + {id};
        left := left - {id};
      }
    }
  }

  /** The rows left are as they were, and only rows fired before the cutoff are gone. */
  predicate OnlyOldAreGone(was: map<int, Row>, now: map<int, Row>, cutoff: int) {
    && (forall id :: id in now ==> id in was && now[id] == was[id])
    && (forall id :: id in was && id !in now ==> was[id].firedAt < cutoff)
  }

  /** The table now is the one before without these rows, all of them fired before the cutoff. */
  ghost predicate Pruned(before: Table, now: Table, victims: set<int>, cutoff: int) {
    victims <= Expired(before, cutoff) && now == DeleteRows(before, victims)
    && OnlyOldAreGone(before.rows, now.rows, cutoff)
  }

  predicate HasBatches(victims: set<int>, batches: nat, size: nat) { |victims| == batches * size }

  lemma BatchesOneMore(victims: set<int>, batch: set<int>, batches: nat, size: nat)
    requires HasBatches(victims, batches, size) && victims !! batch && |batch| == size
    ensures HasBatches(victims + batch, batches + 1, size)
  {}

  /** Deleting another batch of expired rows; after the last batch all are deleted. */
  lemma PruneMore(before: Table, t: Table, victims: set<int>, batch: set<int>, cutoff: int)
    requires Pruned(before, t, victims, cutoff) && batch <= Expired(t, cutoff)
    ensures Pruned(before, DeleteRows(t, batch), victims + batch, cutoff) && victims !! batch
    ensures batch == Expired(t, cutoff) ==> victims + batch == Expired(before, cutoff)
    ensures batch == Expired(t, cutoff) ==>
      forall id :: id in DeleteRows(t, batch).rows ==> t.rows[id].firedAt >= cutoff
  {
    assert before.rows - (victims + batch) == (before.rows - victims) - batch;
  }
}
