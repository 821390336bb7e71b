/** The migration that fills in the level and display message of old log rows, a batch at a
    time (internal/agent/store.go). Which rows a batch picks is up to the database. */
module Backfill {
  import opened LogFields
  import opened Sets

  datatype Row = Row(message: string, level: string, displayMsg: string)

  const BATCH_SIZE := 1000

  predicate IsBlank(r: Row) { r.level == "" && r.displayMsg == "" }

  /** The rows that the batch query matches. */
  function BlankRows(rows: map<int, Row>): set<int> {
    set id | id in rows && IsBlank(rows[id])
  }

  /** The blank rows that parsing cannot fill, because their message is empty. */
  function EmptyRows(rows: map<int, Row>): set<int> {
    set id | id in rows && IsBlank(rows[id]) && rows[id].message == ""
  }

  /** The blank rows that parsing fills. */
  function FillableRows(rows: map<int, Row>): set<int> {
    set id | id in rows && IsBlank(rows[id]) && rows[id].message != ""
  }

  function Filled(r: Row, decode: Decoder): Row {
    r.(level := Parsed(r.message, decode).0, displayMsg := Parsed(r.message, decode).1)
  }

  function FillBatch(rows: map<int, Row>, batch: set<int>, decode: Decoder): map<int, Row> {
    map id | id in rows :: if id in batch then Filled(rows[id], decode) else rows[id]
  }

  /** SELECT ... WHERE level = '' AND display_msg = '' LIMIT 1000: any such rows, 1000 of them
      or all there are. */
  ghost predicate IsBatch(rows: map<int, Row>, batch: set<int>) {
    && batch <= BlankRows(rows)
    && |batch| == if |BlankRows(rows)| < BATCH_SIZE then |BlankRows(rows)| else BATCH_SIZE
  }

  // ---------------------------------------------------------------- progress

  lemma SubsetSize(a: set<int>, b: set<int>)
    requires a <= b
    ensures |a| <= |b| && (|a| == |b| ==> a == b)
  {
    assert b == a + (b - a);
  }

  /** A batch leaves exactly the fillable rows outside it, and all the empty ones. */
  lemma BatchShrinks(rows: map<int, Row>, batch: set<int>, decode: Decoder)
    requires batch <= BlankRows(rows)
    ensures FillableRows(FillBatch(rows, batch, decode)) == FillableRows(rows) - batch
    ensures EmptyRows(FillBatch(rows, batch, decode)) == EmptyRows(rows)
  {
    var after := FillBatch(rows, batch, decode);
    forall id | id in rows
      ensures id in FillableRows(after) <==> id in FillableRows(rows) && id !in batch
      ensures id in EmptyRows(after) <==> id in EmptyRows(rows)
    {
      if id in batch {
        DisplayMessageEmptyIff(rows[id].message, decode);
        if rows[id].message == "" {
          EmptyLineParsesToNothing(decode);
        }
      }
    }
  }

  lemma EmptyLineParsesToNothing(decode: Decoder)
    ensures Parsed("", decode) == ("", "")
  {}

  /** Some full batch changes nothing, so that the loop can repeat it forever, exactly when
      there are at least 1000 blank rows with an empty message. */
  lemma CanRepeatForeverIff(rows: map<int, Row>, decode: Decoder)
    ensures (exists batch :: IsBatch(rows, batch) && |batch| == BATCH_SIZE && FillBatch(rows, batch, decode) == rows)
      <==> |EmptyRows(rows)| >= BATCH_SIZE
  {
    if |EmptyRows(rows)| >= BATCH_SIZE {
      var batch := SomeOf(EmptyRows(rows), BATCH_SIZE);
      SubsetSize(EmptyRows(rows), BlankRows(rows));
      EmptyLineParsesToNothing(decode);
      forall id | id in batch ensures Filled(rows[id], decode) == rows[id] {
        assert id in EmptyRows(rows) && rows[id].message == "";
      }
      assert FillBatch(rows, batch, decode) == rows;
      assert IsBatch(rows, batch);
    }
    if exists batch :: IsBatch(rows, batch) && |batch| == BATCH_SIZE && FillBatch(rows, batch, decode) == rows {
      var batch :| IsBatch(rows, batch) && |batch| == BATCH_SIZE && FillBatch(rows, batch, decode) == rows;
      BatchShrinks(rows, batch, decode);
      forall id | id in batch ensures id in EmptyRows(rows) {
        assert id in BlankRows(rows) && id !in FillableRows(rows) - batch;
      }
      SubsetSize(batch, EmptyRows(rows));
    }
  }

  // ---------------------------------------------------------------- when the loop ends

  /** Iterations that each find a full batch, so that the loop goes on after them. */
  ghost predicate IsLoop(rows: map<int, Row>, batches: seq<set<int>>, decode: Decoder)
    decreases |batches|
  {
    batches == [] || (IsBatch(rows, batches[0]) && |batches[0]| == BATCH_SIZE
                      && IsLoop(FillBatch(rows, batches[0], decode), batches[1..], decode))
  }

  function FillBatches(rows: map<int, Row>, batches: seq<set<int>>, decode: Decoder): map<int, Row>
    decreases |batches|
  {
    if batches == [] then rows else FillBatches(FillBatch(rows, batches[0], decode), batches[1..], decode)
  }

  /** With fewer than 1000 empty rows the loop goes on at most as often as there are rows to
      fill, whichever rows each batch picks. */
  lemma {:induction false} LoopIsBounded(rows: map<int, Row>, batches: seq<set<int>>, decode: Decoder)
    requires |EmptyRows(rows)| < BATCH_SIZE && IsLoop(rows, batches, decode)
    ensures |batches| <= |FillableRows(rows)|
    decreases |batches|
  {
    if batches != [] {
      BatchShrinks(rows, batches[0], decode);
      FullBatchFills(rows, batches[0]);
      LoopIsBounded(FillBatch(rows, batches[0], decode), batches[1..], decode);
    }
  }

  /** With at least that many the loop never ends: whichever rows the batches pick, the next one
      is full again. */
  lemma {:induction false} NextBatchIsFull(rows: map<int, Row>, batches: seq<set<int>>, next: set<int>, decode: Decoder)
    requires |EmptyRows(rows)| >= BATCH_SIZE && IsLoop(rows, batches, decode)
    requires IsBatch(FillBatches(rows, batches, decode), next)
    ensures |next| == 1000
    decreases |batches|
  {
    if batches == [] {
      SubsetSize(EmptyRows(rows), BlankRows(rows));
    } else {
      BatchShrinks(rows, batches[0], decode);
      NextBatchIsFull(FillBatch(rows, batches[0], decode), batches[1..], next, decode);
    }
  }

  lemma {:induction false} LoopOfAnyLength(rows: map<int, Row>, n: nat, decode: Decoder)
    returns (batches: seq<set<int>>)
    requires |EmptyRows(rows)| >= BATCH_SIZE
    ensures IsLoop(rows, batches, decode) && |batches| == n
    decreases n
  {
    batches := [];
    if n > 0 {
      SubsetSize(EmptyRows(rows), BlankRows(rows));
      var batch := SomeOf(BlankRows(rows), BATCH_SIZE);
      BatchShrinks(rows, batch, decode);
      var more := LoopOfAnyLength(FillBatch(rows, batch, decode), n - 1, decode);
      batches := [batch] + more;
    }
  }

  ghost predicate EndsWithin(rows: map<int, Row>, bound: nat, decode: Decoder) {
    forall batches :: IsLoop(rows, batches, decode) ==> |batches| <= bound
  }

  /** The loop is sure to end exactly when fewer than 1000 blank rows have an empty message. */
  lemma LoopEndsIff(rows: map<int, Row>, decode: Decoder)
    ensures (exists bound: nat :: EndsWithin(rows, bound, decode)) <==> |EmptyRows(rows)| < 1000
  {
    if |EmptyRows(rows)| < BATCH_SIZE {
      forall batches | IsLoop(rows, batches, decode) ensures |batches| <= |FillableRows(rows)| {
        LoopIsBounded(rows, batches, decode);
      }
      assert EndsWithin(rows, |FillableRows(rows)|, decode);
    } else {
      forall bound: nat ensures !EndsWithin(rows, bound, decode) {
        var batches := LoopOfAnyLength(rows, bound + 1, decode);
      }
    }
  }

  lemma {:induction false} SomeOf(s: set<int>, n: nat) returns (t: set<int>)
    requires n <= |s|
    ensures t <= s && |t| == n
    decreases |s| - n
  {
    if n == |s| {
      t := s;
    } else {
      var u := SomeOf(s, n + 1);
      assert u != {};
      Nonempty(u);
      var x :| x in u;
      t := u - {x};
    }
  }

  // ---------------------------------------------------------------- the loop

  class LogStore {
    var rows: map<int, Row>

    constructor (rows: map<int, Row>)
      ensures this.rows == rows
    {
      this.rows := rows;
    }

    method SelectBatch() returns (batch: set<int>)
      ensures IsBatch(rows, batch)
    {
      batch := {};
      var left := set id | id in rows && IsBlank(rows[id]);
      while left != {} && |batch| < BATCH_SIZE
        invariant left + batch == BlankRows(rows) && left !! batch && |batch| <= BATCH_SIZE
        decreases left
      {
        Nonempty(left);
        var id :| id in left;
        batch := batch + {id};
        left := left - {id};
      }
      assert |BlankRows(rows)| == |left| + |batch| by { assert BlankRows(rows) == left + batch; }
    }

    /** One transaction: parses and updates the rows of a batch, in any order. */
    method UpdateBatch(batch: set<int>, decode: Decoder)
      requires batch <= rows.Keys
      modifies this
      ensures rows == FillBatch(old(rows), batch, decode)
    {
      var todo := batch;
      ghost var done: set<int> := {};
      assert rows == FillBatch(rows, {}, decode);
      while todo != {}
        invariant todo <= batch && done == batch - todo
        invariant rows == FillBatch(old(rows), done, decode)
        decreases todo
      {
        Nonempty(todo);
        var id :| id in todo;
        todo := todo - {id};
        var level, displayMsg := ParseLogFields(rows[id].message, decode);
        rows := rows[id := rows[id].(level := level, displayMsg := displayMsg)];
        done := done + {id};
      }
      assert done == batch;
    }

    /** Ends whenever fewer than 1000 blank rows have an empty message, and then every row that
        was blank holds what its message parses to; the other rows are untouched. */
    method BackfillLogFields(decode: Decoder)
      requires |EmptyRows(rows)| < BATCH_SIZE
      modifies this
      ensures rows == FillBatch(old(rows), BlankRows(old(rows)), decode)
    {
      ghost var done: set<int> := {};
      assert rows == FillBatch(rows, {}, decode);
      while true
        invariant done <= BlankRows(old(rows)) && rows == FillBatch(old(rows), done, decode)
        invariant EmptyRows(rows) == EmptyRows(old(rows))
        decreases |FillableRows(rows)|
      {
        var batch := SelectBatch();
        BatchShrinks(old(rows), done, decode);
        BatchShrinks(rows, batch, decode);
        if |batch| == 0 {
          AllDone(old(rows), done, {}, decode);
          return;
        }
        ghost var before := rows;
        UpdateBatch(batch, decode);
        FillTwice(old(rows), done, batch, decode);
        if |batch| < BATCH_SIZE {
          SubsetSize(batch, BlankRows(before));
          AllDone(old(rows), done, batch, decode);
          return;
        }
        FullBatchFills(before, batch);
        done := done + batch;
      }
    }
  }

  lemma FillTwice(rows: map<int, Row>, done: set<int>, batch: set<int>, decode: Decoder)
    requires done <= BlankRows(rows) && batch <= BlankRows(FillBatch(rows, done, decode))
    ensures FillBatch(FillBatch(rows, done, decode), batch, decode) == FillBatch(rows, done + batch, decode)
    ensures done + batch <= BlankRows(rows)
  {
    forall id | id in rows && id in done && id in batch
      ensures Filled(Filled(rows[id], decode), decode) == Filled(rows[id], decode)
    {
    }
  }

  /** When the last batch held every row still blank, every row that was ever blank is done. */
  lemma AllDone(rows: map<int, Row>, done: set<int>, batch: set<int>, decode: Decoder)
    requires done <= BlankRows(rows) && batch == BlankRows(FillBatch(rows, done, decode))
    ensures FillBatch(rows, done + batch, decode) == FillBatch(rows, BlankRows(rows), decode)
  {
    forall id | id in BlankRows(rows) ensures id in done + batch {
      if id !in done {
        assert FillBatch(rows, done, decode)[id] == rows[id];
      }
    }
    assert done + batch == BlankRows(rows) by {
      forall id | id in batch ensures id in BlankRows(rows) {
        assert id in done || FillBatch(rows, done, decode)[id] == rows[id];
      }
    }
  }

  /** A full batch fills some row, because fewer rows than that are empty. */
  lemma FullBatchFills(rows: map<int, Row>, batch: set<int>)
    requires IsBatch(rows, batch) && |batch| >= BATCH_SIZE && |EmptyRows(rows)| < BATCH_SIZE
    ensures |FillableRows(rows) - batch| < |FillableRows(rows)|
  {
    assert batch - EmptyRows(rows) != {} by {
      if batch - EmptyRows(rows) == {} {
        assert forall id :: id in batch ==> id in EmptyRows(rows) || id in batch - EmptyRows(rows);
        SubsetSize(batch, EmptyRows(rows));
      }
    }
    Nonempty(batch - EmptyRows(rows));
    var id :| id in batch - EmptyRows(rows);
    assert id in FillableRows(rows);
    SubsetSize(FillableRows(rows) - batch, FillableRows(rows));
  }
}
