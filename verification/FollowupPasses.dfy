/** Which follow-ups a pass takes up, and when the others have their turn. */
module FollowupPasses {
  import opened Sequences
  import opened Text
  import opened Followups
  import Sorting

  /** `a` stands before `b`: no retry time before any, an earlier one before a later, and then by id. */
  predicate Earlier(a: Entry, b: Entry) {
    match a.retryAt
    case None => b.retryAt.Some? || a.id < b.id
    case Some(s) => b.retryAt.Some? && (s < b.retryAt.value || (s == b.retryAt.value && a.id < b.id))
  }

  /** The linked entries with an unacknowledged publication whose wait is over and whose candidate is not
      changing. */
  ghost function Waiting(table: seq<Entry>, now: int, changing: set<int>): set<Entry> {
    set e | && e in table && e.linked && e.done < e.revision && e.candidate !in changing
            && (e.retryAt.None? || e.retryAt.value <= now)
  }

  /** Those of them that stand before this one. */
  ghost function Ahead(table: seq<Entry>, now: int, changing: set<int>, e: Entry): set<Entry> {
    set x | x in Waiting(table, now, changing) && Earlier(x, e)
  }

  ghost predicate InTable(table: seq<Entry>, rows: seq<Entry>) {
    forall e | e in rows :: e in table
  }

  function Ranked(table: seq<Entry>, now: int, changing: set<int>): seq<Entry> {
    Sorting.Sort(DueRows(table, now, changing), DueBefore)
  }

  lemma DueBeforeIsTotal()
    ensures Sorting.TotalPreorder(DueBefore)
  {}

  lemma RankedExactly(table: seq<Entry>, now: int, changing: set<int>)
    requires UniqueIds(table)
    ensures var rows := Ranked(table, now, changing);
            && Distinct(rows)
            && (forall e :: e in rows <==> e in Waiting(table, now, changing))
            && (forall i, j | 0 <= i < j < |rows| :: Earlier(rows[i], rows[j]))
  {
    var rows := Ranked(table, now, changing);
    Sorting.SortKeepsElements(DueRows(table, now, changing), DueBefore);
    DueBeforeIsTotal();
    Sorting.SortSorts(DueRows(table, now, changing), DueBefore);
    forall e
      ensures e in rows <==> e in Waiting(table, now, changing)
    {
      DueRowsExactly(table, now, changing, e);
    }
    forall i: nat, j: nat | i < j < |rows|
      ensures rows[i] != rows[j] && Earlier(rows[i], rows[j])
    {
      if rows[i] == rows[j] {
        RepeatCounts(rows, i, j);
        DueOnce(table, now, changing, rows[i]);
      }
      assert rows[i] in rows && rows[j] in rows;
      assert rows[i].id != rows[j].id;
    }
  }

  lemma RankedIsWaiting(table: seq<Entry>, now: int, changing: set<int>)
    requires UniqueIds(table)
    ensures (set e | e in Ranked(table, now, changing)) == Waiting(table, now, changing)
    ensures |Ranked(table, now, changing)| == |Waiting(table, now, changing)|
  {
    RankedExactly(table, now, changing);
    CountDistinct(Ranked(table, now, changing));
  }

  lemma PlaceInRanking(table: seq<Entry>, now: int, changing: set<int>, i: nat)
    requires UniqueIds(table) && i < |Ranked(table, now, changing)|
    ensures var rows := Ranked(table, now, changing);
            Ahead(table, now, changing, rows[i]) == (set x | x in rows[..i])
            && |Ahead(table, now, changing, rows[i])| == i
  {
    var rows := Ranked(table, now, changing);
    RankedExactly(table, now, changing);
    forall x | x in Ahead(table, now, changing, rows[i])
      ensures x in rows[..i]
    {
      var k :| 0 <= k < |rows| && rows[k] == x;
      assert k < i;
    }
    forall x | x in rows[..i]
      ensures x in Ahead(table, now, changing, rows[i])
    {
      var k :| 0 <= k < i && rows[k] == x;
      assert rows[k] in rows;
    }
    CountDistinct(rows[..i]);
  }

  /** The row that an answer names. */
  lemma NamedRow(table: seq<Entry>, now: int, changing: set<int>, limit: nat, i: nat, e: Entry)
    requires UniqueIds(table) && e in table && i < |DueIdentities(table, now, changing, limit)|
    requires DueIdentities(table, now, changing, limit)[i].id == e.id
    ensures i < |Ranked(table, now, changing)| && Ranked(table, now, changing)[i] == e
  {
    var rows := Ranked(table, now, changing);
    RankedExactly(table, now, changing);
    assert rows[i] in rows;
    assert rows[i] in table && rows[i].id == e.id;
  }

  /** The query answers with as many of the due entries as there are, up to the limit, each with its
      generation, publication and candidate, in order of retry time with none first, and then of id. */
  lemma DueAnswerExactly(table: seq<Entry>, now: int, changing: set<int>, limit: nat)
    requires UniqueIds(table)
    ensures var (due, waiting) := (DueIdentities(table, now, changing, limit), Waiting(table, now, changing));
            && |due| == (if |waiting| < limit then |waiting| else limit)
            && (forall id | id in due ::
                  exists e :: e in waiting && id == Identity(e.id, e.generation, e.revision, e.candidate))
            && (forall a, b, i, j | a in waiting && b in waiting && 0 <= i < j < |due|
                                    && due[i].id == a.id && due[j].id == b.id :: Earlier(a, b))
  {
    var due, rows := DueIdentities(table, now, changing, limit), Ranked(table, now, changing);
    var waiting := Waiting(table, now, changing);
    RankedIsWaiting(table, now, changing);
    RankedExactly(table, now, changing);
    forall id | id in due
      ensures exists e :: e in waiting && id == Identity(e.id, e.generation, e.revision, e.candidate)
    {
      var i :| 0 <= i < |due| && due[i] == id;
      assert rows[i] in rows;
    }
    forall a, b, i: nat, j: nat | a in waiting && b in waiting && i < j < |due|
                                  && due[i].id == a.id && due[j].id == b.id
      ensures Earlier(a, b)
    {
      NamedRow(table, now, changing, limit, i, a);
      NamedRow(table, now, changing, limit, j, b);
    }
  }

  lemma RankOf(table: seq<Entry>, now: int, changing: set<int>, e: Entry) returns (i: nat)
    requires UniqueIds(table) && e in Waiting(table, now, changing)
    ensures i < |Ranked(table, now, changing)| && Ranked(table, now, changing)[i] == e
    ensures |Ahead(table, now, changing, e)| == i
  {
    var rows := Ranked(table, now, changing);
    RankedExactly(table, now, changing);
    i :| i < |rows| && rows[i] == e;
    PlaceInRanking(table, now, changing, i);
  }

  /** A pass takes up a due entry exactly if fewer due entries than its limit stand before it. */
  lemma TakenUpExactly(table: seq<Entry>, now: int, changing: set<int>, limit: nat, e: Entry)
    requires UniqueIds(table) && e in Waiting(table, now, changing)
    ensures Identity(e.id, e.generation, e.revision, e.candidate) in DueIdentities(table, now, changing, limit)
            <==> |Ahead(table, now, changing, e)| < limit
  {
    var due := DueIdentities(table, now, changing, limit);
    var i := RankOf(table, now, changing, e);
    if i < limit {
      assert due[i] == IdentityOf(e);
    }
    if IdentityOf(e) in due {
      var k :| 0 <= k < |due| && due[k] == IdentityOf(e);
      NamedRow(table, now, changing, limit, k, e);
      RankedExactly(table, now, changing);
    }
  }

  // ------------------------------------------------------------- a pass and the next one

  /** The table after a pass with nobody in between. */
  function AfterPass(table: seq<Entry>, now: int, changing: set<int>, visits: Identity -> Visit): seq<Entry> {
    FinishAll(table, DueIdentities(table, now, changing, BATCH), visits, now)
  }

  /** The entries a pass takes up. */
  ghost function Taken(table: seq<Entry>, now: int, changing: set<int>): set<Entry> {
    set e | e in Waiting(table, now, changing) && IdentityOf(e) in DueIdentities(table, now, changing, BATCH)
  }

  lemma PassKeepsIds(table: seq<Entry>, now: int, changing: set<int>, visits: Identity -> Visit)
    requires UniqueIds(table)
    ensures UniqueIds(AfterPass(table, now, changing, visits)) && |AfterPass(table, now, changing, visits)| == |table|
    ensures forall k | 0 <= k < |table| :: AfterPass(table, now, changing, visits)[k].id == table[k].id
  {
    var due := DueIdentities(table, now, changing, BATCH);
    DueIdentitiesDiffer(table, now, changing, BATCH);
    FinishAllKeepsIds(table, due, visits, now);
  }

  lemma FinishAllKeepsIds(table: seq<Entry>, due: seq<Identity>, visits: Identity -> Visit, now: int)
    requires Distinct(due)
    ensures var after := FinishAll(table, due, visits, now);
            |after| == |table| && forall k | 0 <= k < |table| :: after[k].id == table[k].id
  {
    if table == [] {
      FinishNothing(due, visits, now);
    }
    forall k: nat | k < |table|
      ensures |FinishAll(table, due, visits, now)| == |table| && FinishAll(table, due, visits, now)[k].id == table[k].id
    {
      FinishAllExactly(table, due, visits, now, k);
    }
  }

  lemma {:induction false} FinishNothing(due: seq<Identity>, visits: Identity -> Visit, now: int)
    ensures FinishAll([], due, visits, now) == []
  {
    if due != [] {
      FinishNothing(due[..|due| - 1], visits, now);
    }
  }

  /** How the pass leaves the entry at `k`. */
  lemma PassLeaves(table: seq<Entry>, now: int, changing: set<int>, visits: Identity -> Visit, k: nat)
    requires UniqueIds(table) && k < |table|
    ensures var (e, after) := (table[k], AfterPass(table, now, changing, visits));
            && |after| == |table|
            && (e !in Taken(table, now, changing) ==> after[k] == e)
            && (e in Taken(table, now, changing) ==>
                  after[k].done == after[k].revision || (after[k].retryAt.Some? && after[k].retryAt.value > now))
  {
    var due := DueIdentities(table, now, changing, BATCH);
    PassKeepsIntents(table, now, changing, BATCH, visits, k);
    if IdentityOf(table[k]) in due {
      DueEntry(table, now, changing, BATCH, k);
      assert table[k] in Taken(table, now, changing);
    }
  }

  /** A pass acknowledges a follow-up it took up if its work was ready and was decided or matches no rule any
      more; it puts any other back, one attempt more and thirty seconds, two minutes or ten minutes on; and
      it leaves alone what it did not take up. */
  lemma PassSettlesExactly(table: seq<Entry>, now: int, changing: set<int>, visits: Identity -> Visit, k: nat)
    requires UniqueIds(table) && k < |table|
    ensures var (e, after) := (table[k], AfterPass(table, now, changing, visits));
            |after| == |table|
            && after[k] ==
               if e !in Taken(table, now, changing) then e
               else
                 match visits(Identity(e.id, e.generation, e.revision, e.candidate))
                 case Visited(decided, true, stillMatches) =>
                   if decided || !stillMatches then e.(done := e.revision, attempts := 0, retryAt := None)
                   else PutBack(e, now)
                 case _ => PutBack(e, now)
  {
    var due := DueIdentities(table, now, changing, BATCH);
    DueIdentitiesDiffer(table, now, changing, BATCH);
    FinishAllExactly(table, due, visits, now, k);
    if IdentityOf(table[k]) in due {
      DueEntry(table, now, changing, BATCH, k);
      assert table[k] in Taken(table, now, changing);
    }
  }

  function PutBack(e: Entry, now: int): Entry {
    e.(attempts := e.attempts + 1,
       retryAt := Some(now + match e.attempts case 0 => 30 case 1 => 120 case _ => 600))
  }

  function Deciders(due: seq<Identity>, visits: Identity -> Visit): set<nat> {
    set i: nat | i < |due| && visits(due[i]).Visited? && visits(due[i]).decided
  }

  /** The decisions a pass reports are those its visits made. */
  lemma {:induction false} DecisionsCounted(due: seq<Identity>, visits: Identity -> Visit)
    ensures DecidedBy(due, visits) == |Deciders(due, visits)|
  {
    if due != [] {
      var n := |due| - 1;
      DecisionsCounted(due[..n], visits);
      assert Deciders(due, visits)
             == Deciders(due[..n], visits) + if visits(due[n]).Visited? && visits(due[n]).decided then {n} else {};
    }
  }

  lemma TakenAreFirst(table: seq<Entry>, now: int, changing: set<int>)
    requires UniqueIds(table) && |Ranked(table, now, changing)| >= BATCH
    ensures Taken(table, now, changing) == (set x | x in Ranked(table, now, changing)[..BATCH])
    ensures |Taken(table, now, changing)| == BATCH
  {
    var rows, due := Ranked(table, now, changing), DueIdentities(table, now, changing, BATCH);
    RankedExactly(table, now, changing);
    forall x | x in Taken(table, now, changing)
      ensures x in rows[..BATCH]
    {
      var j := RankOf(table, now, changing, x);
      TakenUpExactly(table, now, changing, BATCH, x);
      assert rows[..BATCH][j] == x;
    }
    forall x | x in rows[..BATCH]
      ensures x in Taken(table, now, changing)
    {
      var j :| 0 <= j < BATCH && rows[j] == x;
      assert due[j] == IdentityOf(x);
    }
    CountDistinct(rows[..BATCH]);
  }

  lemma TakenAreAhead(table: seq<Entry>, now: int, changing: set<int>, e: Entry)
    requires UniqueIds(table) && e in Waiting(table, now, changing) && e !in Taken(table, now, changing)
    ensures Taken(table, now, changing) <= Ahead(table, now, changing, e) && |Taken(table, now, changing)| == BATCH
  {
    var rows := Ranked(table, now, changing);
    var i := RankOf(table, now, changing, e);
    TakenUpExactly(table, now, changing, BATCH, e);
    TakenAreFirst(table, now, changing);
    RankedExactly(table, now, changing);
    forall x | x in Taken(table, now, changing)
      ensures Earlier(x, e)
    {
      var j :| 0 <= j < BATCH && rows[j] == x;
    }
  }

  /** An entry that a pass leaves waiting has, whenever the next pass comes, exactly the entries before it
      that were not taken up: a hundred fewer. */
  lemma PassAdvances(table: seq<Entry>, now: int, later: int, changing: set<int>, visits: Identity -> Visit, e: Entry)
    requires UniqueIds(table) && now <= later
    requires e in Waiting(table, now, changing) && e !in Taken(table, now, changing)
    ensures var after := AfterPass(table, now, changing, visits);
            && e in Waiting(after, later, changing)
            && Ahead(after, later, changing, e) == Ahead(table, now, changing, e) - Taken(table, now, changing)
            && |Ahead(after, later, changing, e)| == |Ahead(table, now, changing, e)| - BATCH
  {
    var after := AfterPass(table, now, changing, visits);
    forall k: nat | k < |table|
      ensures |after| == |table| && (table[k] !in Taken(table, now, changing) ==> after[k] == table[k])
      ensures table[k] in Taken(table, now, changing) ==> after[k] !in Ahead(after, later, changing, e)
    {
      PassLeaves(table, now, changing, visits, k);
    }
    forall x | x in Ahead(after, later, changing, e)
      ensures x in Ahead(table, now, changing, e) && x !in Taken(table, now, changing)
    {
      var k :| 0 <= k < |after| && after[k] == x;
      assert table[k] !in Taken(table, now, changing);
    }
    forall x | x in Ahead(table, now, changing, e) && x !in Taken(table, now, changing)
      ensures x in Ahead(after, later, changing, e)
    {
      var k :| 0 <= k < |table| && table[k] == x;
      assert after[k] == x;
    }
    TakenAreAhead(table, now, changing, e);
  }

  /** The table when the `n`-th of a series of passes begins, with nobody in between. */
  function AfterPasses(table: seq<Entry>, times: seq<int>, changing: set<int>, visits: (nat, Identity) -> Visit,
                       n: nat): seq<Entry>
    requires n <= |times|
  {
    if n == 0 then table
    else
      AfterPass(AfterPasses(table, times, changing, visits, n - 1), times[n - 1], changing, VisitsAt(visits, n - 1))
  }

  function VisitsAt(visits: (nat, Identity) -> Visit, n: nat): Identity -> Visit {
    id => visits(n, id)
  }

  predicate Ascending(times: seq<int>) {
    forall i, j | 0 <= i < j < |times| :: times[i] <= times[j]
  }

  /** An entry is taken up by the pass at `n`. */
  ghost predicate TakenUpAt(table: seq<Entry>, times: seq<int>, changing: set<int>, visits: (nat, Identity) -> Visit,
                            e: Entry, n: nat)
    requires n < |times|
  {
    e in Taken(AfterPasses(table, times, changing, visits, n), times[n], changing)
  }

  lemma {:induction false} StillWaiting(table: seq<Entry>, times: seq<int>, changing: set<int>,
                                        visits: (nat, Identity) -> Visit, e: Entry, n: nat)
    requires UniqueIds(table) && Ascending(times) && n < |times| && e in Waiting(table, times[0], changing)
    requires forall k: nat | k < n :: !TakenUpAt(table, times, changing, visits, e, k)
    ensures var now := AfterPasses(table, times, changing, visits, n);
            && UniqueIds(now) && e in Waiting(now, times[n], changing)
            && |Ahead(now, times[n], changing, e)| == |Ahead(table, times[0], changing, e)| - BATCH * n
  {
    if n > 0 {
      var before := AfterPasses(table, times, changing, visits, n - 1);
      StillWaiting(table, times, changing, visits, e, n - 1);
      assert !TakenUpAt(table, times, changing, visits, e, n - 1);
      OnePass(before, times[n - 1], times[n], changing, VisitsAt(visits, n - 1), e);
    }
  }

  lemma OnePass(table: seq<Entry>, now: int, later: int, changing: set<int>, visits: Identity -> Visit, e: Entry)
    requires UniqueIds(table) && now <= later
    requires e in Waiting(table, now, changing) && e !in Taken(table, now, changing)
    ensures var after := AfterPass(table, now, changing, visits);
            && UniqueIds(after) && e in Waiting(after, later, changing)
            && |Ahead(after, later, changing, e)| == |Ahead(table, now, changing, e)| - BATCH
  {
    PassKeepsIds(table, now, changing, visits);
    PassAdvances(table, now, later, changing, visits, e);
  }

  /** However the visits go, a due entry with fewer than a hundred `n` due entries before it is taken up
      within `n` passes with nobody in between. */
  lemma DueEntryIsTakenUp(table: seq<Entry>, times: seq<int>, changing: set<int>,
                          visits: (nat, Identity) -> Visit, e: Entry)
    requires UniqueIds(table) && Ascending(times) && times != [] && e in Waiting(table, times[0], changing)
    requires |Ahead(table, times[0], changing, e)| < BATCH * |times|
    ensures exists n: nat :: n < |times| && TakenUpAt(table, times, changing, visits, e, n)
  {
    var last := |times| - 1;
    if forall n: nat | n < last :: !TakenUpAt(table, times, changing, visits, e, n) {
      StillWaiting(table, times, changing, visits, e, last);
      TakenUpExactly(AfterPasses(table, times, changing, visits, last), times[last], changing, BATCH, e);
      assert TakenUpAt(table, times, changing, visits, e, last);
    }
  }
}
