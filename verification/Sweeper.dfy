/** The timer-driven sweep of the review queue, and how long a candidate can wait for it. */
module Sweeper {
  import opened Sequences
  import opened Text
  import Sorting

  const SWEEP_BATCH_SIZE := 100

  // ------------------------------------------------------------------ the queue query

  /** `ORDER BY (id <= cursor) ASC, id ASC`, or by id alone before the first pass. */
  predicate InOrder(cursor: Option<int>, a: int, b: int) {
    match cursor
    case None => a <= b
    case Some(c) => if (a <= c) == (b <= c) then a <= b else b <= c
  }

  /** `pending_candidate_ids` with a gallery required: the first rows after the cursor, wrapping to the
      oldest. `pending` holds the ids of the rows that qualify, in storage order. */
  function Batch(pending: seq<int>, cursor: Option<int>): seq<int> {
    var rows := Sorting.Sort(pending, (a, b) => InOrder(cursor, a, b));
    if |rows| <= SWEEP_BATCH_SIZE then rows else rows[..SWEEP_BATCH_SIZE]
  }

  function CursorAfter(pending: seq<int>, cursor: Option<int>): Option<int> {
    var batch := Batch(pending, cursor);
    if batch == [] then None else Some(batch[|batch| - 1])
  }

  /** What applying the rules to one candidate comes to. */
  datatype Reply = Approve | Reject | NoRule | Raised

  function Decided(decide: int -> Reply, ids: seq<int>): seq<int> {
    if ids == [] then []
    else Decided(decide, ids[..|ids| - 1])
         + if decide(ids[|ids| - 1]) in {Approve, Reject} then [ids[|ids| - 1]] else []
  }

  class AutoApprovalSweeper {
    var sweepCursor: Option<int>

    constructor ()
      ensures sweepCursor == None
    {
      sweepCursor := None;
    }

    /** `_sweep_once`. Every candidate of the batch is put to `decide` in turn, whatever the earlier
        ones raised; `notified` are the ones that were decided. */
    method SweepOnce(pending: seq<int>, decide: int -> Reply)
      returns (result: nat, examined: seq<int>, notified: seq<int>)
      modifies this
      ensures examined == Batch(pending, old(sweepCursor))
      ensures sweepCursor == CursorAfter(pending, old(sweepCursor))
      ensures notified == Decided(decide, examined) && result == |notified|
    {
      examined, notified := [], [];
      var candidateIds := Batch(pending, sweepCursor);
      if candidateIds == [] {
        sweepCursor := None;
        return 0, [], [];
      }
      sweepCursor := Some(candidateIds[|candidateIds| - 1]);
      var approved, rejected := 0, 0;
      for i := 0 to |candidateIds|
        invariant examined == candidateIds[..i]
        invariant notified == Decided(decide, examined) && |notified| == approved + rejected
        invariant approved >= 0 && rejected >= 0
      {
        examined := examined + [candidateIds[i]];
        assert examined[..i] == candidateIds[..i];
        var decision := decide(candidateIds[i]);
        if decision == Approve {
          approved := approved + 1;
        } else if decision == Reject {
          rejected := rejected + 1;
        }
        if decision == Approve || decision == Reject {
          notified := notified + [candidateIds[i]];
        }
      }
      result := approved + rejected;
    }
  }

  // -------------------------------------------------------------------- fairness

  function Elements(s: seq<int>): set<int> {
    set x | x in s
  }

  /** The pending candidates the sweep reaches before `x`. */
  function Ahead(pending: seq<int>, cursor: Option<int>, x: int): set<int> {
    set y | y in pending && y != x && InOrder(cursor, y, x)
  }

  lemma DistinctSize(s: seq<int>)
    requires Distinct(s)
    ensures |Elements(s)| == |s|
  {
    CountDistinct(s);
  }

  lemma OrderIsTotal(cursor: Option<int>)
    ensures Sorting.TotalPreorder((a, b) => InOrder(cursor, a, b))
  {}

  lemma {:induction false} CountAtMostOnce(s: seq<int>, x: int)
    ensures Distinct(s) ==> multiset(s)[x] <= 1
    ensures (forall y :: multiset(s)[y] <= 1) ==> Distinct(s)
  {
    if s != [] {
      var front, last := s[..|s| - 1], s[|s| - 1];
      assert s == front + [last];
      CountAtMostOnce(front, x);
      if Distinct(s) {
        assert last !in front;
      }
      if forall y :: multiset(s)[y] <= 1 {
        assert forall y :: multiset(front)[y] <= multiset(s)[y];
        assert multiset(s)[last] == multiset(front)[last] + 1;
        assert last !in front;
      }
    }
  }

  /** The rows of the query: distinct, sorted, the same candidates. */
  lemma RowsAreSorted(pending: seq<int>, cursor: Option<int>) returns (rows: seq<int>)
    requires Distinct(pending)
    ensures rows == Sorting.Sort(pending, (a, b) => InOrder(cursor, a, b))
    ensures Distinct(rows) && Elements(rows) == Elements(pending) && |rows| == |pending|
    ensures forall i, j | 0 <= i < j < |rows| :: InOrder(cursor, rows[i], rows[j])
  {
    var leq := (a, b) => InOrder(cursor, a, b);
    rows := Sorting.Sort(pending, leq);
    OrderIsTotal(cursor);
    Sorting.SortSorts(pending, leq);
    Sorting.SortKeepsElements(pending, leq);
    forall y
      ensures multiset(rows)[y] <= 1
    {
      CountAtMostOnce(pending, y);
    }
    CountAtMostOnce(rows, 0);
  }

  /** A row's position is the number of candidates ahead of it. */
  lemma PositionIsAhead(rows: seq<int>, cursor: Option<int>, i: nat)
    requires Distinct(rows) && i < |rows|
    requires forall j, k | 0 <= j < k < |rows| :: InOrder(cursor, rows[j], rows[k])
    ensures Ahead(rows, cursor, rows[i]) == Elements(rows[..i]) && |Ahead(rows, cursor, rows[i])| == i
  {
    forall y
      ensures y in Ahead(rows, cursor, rows[i]) <==> y in Elements(rows[..i])
    {
      if y in Ahead(rows, cursor, rows[i]) {
        var j :| 0 <= j < |rows| && rows[j] == y;
        assert j < i;
        assert rows[..i][j] == y;
      }
    }
    DistinctSize(rows[..i]);
  }

  /** One pass examines the first hundred; for everyone else, exactly a hundred fewer are ahead. */
  lemma PassAdvances(pending: seq<int>, cursor: Option<int>, x: int)
    requires Distinct(pending) && x in pending
    ensures x in Batch(pending, cursor) <==> |Ahead(pending, cursor, x)| < SWEEP_BATCH_SIZE
    ensures x !in Batch(pending, cursor) ==>
              |Ahead(pending, CursorAfter(pending, cursor), x)| == |Ahead(pending, cursor, x)| - SWEEP_BATCH_SIZE
  {
    var rows := RowsAreSorted(pending, cursor);
    assert forall y :: y in rows <==> y in Elements(rows);
    assert forall y :: y in pending <==> y in Elements(pending);
    var i :| 0 <= i < |rows| && rows[i] == x;
    PositionIsAhead(rows, cursor, i);
    assert Ahead(rows, cursor, x) == Ahead(pending, cursor, x);
    if i < SWEEP_BATCH_SIZE {
      assert Batch(pending, cursor)[i] == x;
    } else {
      assert x !in rows[..SWEEP_BATCH_SIZE];
      var last := SWEEP_BATCH_SIZE - 1;
      NextPassSkipsBatch(rows, cursor, i);
      assert Ahead(rows, Some(rows[last]), x) == Ahead(pending, Some(rows[last]), x);
    }
  }

  lemma NextPassSkipsBatch(rows: seq<int>, cursor: Option<int>, i: nat)
    requires Distinct(rows) && SWEEP_BATCH_SIZE <= i < |rows|
    requires forall j, k | 0 <= j < k < |rows| :: InOrder(cursor, rows[j], rows[k])
    ensures |Ahead(rows, Some(rows[SWEEP_BATCH_SIZE - 1]), rows[i])| == i - SWEEP_BATCH_SIZE
  {
    var after := Some(rows[SWEEP_BATCH_SIZE - 1]);
    var between := rows[SWEEP_BATCH_SIZE..i];
    forall j | 0 <= j < |rows|
      ensures j != i && InOrder(after, rows[j], rows[i]) <==> SWEEP_BATCH_SIZE <= j < i
    {
      assert j < SWEEP_BATCH_SIZE - 1 ==> InOrder(cursor, rows[j], rows[SWEEP_BATCH_SIZE - 1]);
      assert j > SWEEP_BATCH_SIZE - 1 ==> InOrder(cursor, rows[SWEEP_BATCH_SIZE - 1], rows[j]);
      assert InOrder(cursor, rows[SWEEP_BATCH_SIZE - 1], rows[i]);
      assert j < i ==> InOrder(cursor, rows[j], rows[i]);
      assert i < j ==> InOrder(cursor, rows[i], rows[j]);
    }
    forall y
      ensures y in Ahead(rows, after, rows[i]) <==> y in Elements(between)
    {
      if y in Ahead(rows, after, rows[i]) {
        var j :| 0 <= j < |rows| && rows[j] == y;
        assert between[j - SWEEP_BATCH_SIZE] == y;
      }
      if y in Elements(between) {
        var j :| 0 <= j < |between| && between[j] == y;
        assert rows[j + SWEEP_BATCH_SIZE] == y;
      }
    }
    assert Ahead(rows, after, rows[i]) == Elements(between);
    DistinctSize(between);
  }

  /** Between passes candidates may leave freely; each one that arrives is at most one more ahead. */
  lemma ArrivalsDelay(before: seq<int>, now: seq<int>, cursor: Option<int>, x: int)
    ensures |Ahead(now, cursor, x)| <= |Ahead(before, cursor, x)| + |Elements(now) - Elements(before)|
  {
    var arrived := Elements(now) - Elements(before);
    assert Ahead(now, cursor, x) <= Ahead(before, cursor, x) + arrived;
    Subset(Ahead(now, cursor, x), Ahead(before, cursor, x) + arrived);
  }

  lemma Subset(a: set<int>, b: set<int>)
    requires a <= b
    ensures |a| <= |b|
  {
    assert a + (b - a) == b;
  }

  /** The queue at each pass, told by how the cursor walks over it. */
  function Examined(tables: seq<seq<int>>, cursor: Option<int>): seq<seq<int>> {
    if tables == [] then []
    else [Batch(tables[0], cursor)] + Examined(tables[1..], CursorAfter(tables[0], cursor))
  }

  /** How many candidates arrive between the first and the last of these passes. */
  function Arrivals(tables: seq<seq<int>>): nat {
    if |tables| < 2 then 0 else |Elements(tables[1]) - Elements(tables[0])| + Arrivals(tables[1..])
  }

  /** A candidate that stays pending is examined within `k` passes as soon as those ahead of it at the
      start and those that arrive meanwhile are fewer than `100 * k`; decisions that raise, rules that
      do not match and candidates that leave change nothing about that. */
  lemma {:induction false} StaysPendingIsExamined(tables: seq<seq<int>>, cursor: Option<int>, x: int)
    requires tables != [] && forall i | 0 <= i < |tables| :: Distinct(tables[i]) && x in tables[i]
    requires |Ahead(tables[0], cursor, x)| + Arrivals(tables) < SWEEP_BATCH_SIZE * |tables|
    ensures |Examined(tables, cursor)| == |tables|
    ensures exists i | 0 <= i < |tables| :: x in Examined(tables, cursor)[i]
    decreases |tables|
  {
    ExaminedLength(tables, cursor);
    var table, next := tables[0], CursorAfter(tables[0], cursor);
    PassAdvances(table, cursor, x);
    if x in Batch(table, cursor) {
      assert x in Examined(tables, cursor)[0];
    } else {
      if |tables| > 1 {
        ArrivalsDelay(table, tables[1], next, x);
      }
      assert tables[1..] != [];
      StaysPendingIsExamined(tables[1..], next, x);
      var i :| 0 <= i < |tables| - 1 && x in Examined(tables[1..], next)[i];
      assert Examined(tables, cursor)[i + 1] == Examined(tables[1..], next)[i];
    }
  }

  lemma {:induction false} ExaminedLength(tables: seq<seq<int>>, cursor: Option<int>)
    ensures |Examined(tables, cursor)| == |tables|
  {
    if tables != [] {
      ExaminedLength(tables[1..], CursorAfter(tables[0], cursor));
    }
  }

  /** With no arrivals, `n` pending candidates are all examined within n / 100 passes, rounded up. */
  lemma QueueIsCoveredInOneRound(tables: seq<seq<int>>, cursor: Option<int>, x: int)
    requires tables != [] && forall i | 0 <= i < |tables| :: Distinct(tables[i]) && x in tables[i]
    requires forall i | 0 < i < |tables| :: Elements(tables[i]) <= Elements(tables[i - 1])
    requires |tables[0]| <= SWEEP_BATCH_SIZE * |tables|
    ensures |Examined(tables, cursor)| == |tables|
    ensures exists i | 0 <= i < |tables| :: x in Examined(tables, cursor)[i]
  {
    NoArrivals(tables);
    assert Ahead(tables[0], cursor, x) <= Elements(tables[0]) - {x};
    Subset(Ahead(tables[0], cursor, x), Elements(tables[0]) - {x});
    DistinctSize(tables[0]);
    StaysPendingIsExamined(tables, cursor, x);
  }

  lemma {:induction false} NoArrivals(tables: seq<seq<int>>)
    requires forall i | 0 < i < |tables| :: Elements(tables[i]) <= Elements(tables[i - 1])
    ensures Arrivals(tables) == 0
  {
    if |tables| >= 2 {
      assert Elements(tables[1]) - Elements(tables[0]) == {};
      NoArrivals(tables[1..]);
    }
  }

  /** A pass tells of exactly the candidates that were approved or rejected, each as often as it was
      examined. */
  lemma {:induction false} DecidedExactly(decide: int -> Reply, ids: seq<int>, x: int)
    ensures multiset(Decided(decide, ids))[x]
            == if decide(x) == Approve || decide(x) == Reject then multiset(ids)[x] else 0
  {
    if ids != [] {
      var front, last := ids[..|ids| - 1], ids[|ids| - 1];
      DecidedExactly(decide, front, x);
      assert ids == front + [last];
    }
  }

  /** It tells of them in the order they were examined. */
  lemma {:induction false} DecidedInOrder(decide: int -> Reply, front: seq<int>, back: seq<int>)
    ensures Decided(decide, front + back) == Decided(decide, front) + Decided(decide, back)
    decreases |back|
  {
    if back == [] {
      assert front + back == front;
    } else {
      DecidedInOrder(decide, front, back[..|back| - 1]);
      assert (front + back)[..|front + back| - 1] == front + back[..|back| - 1];
    }
  }
}
