/** Durable follow-ups of a publication: versioned acknowledgement and capped backoff. */
module Followups {
  import opened Sequences
  import opened Text
  import Sorting

  /** The follow-up columns of an ingest entry. */
  datatype Entry = Entry(
    id: int,
    linked: bool,
    candidate: int,
    generation: int,
    revision: nat,       // followup_revision: publications so far
    done: nat,           // followup_done_revision: the last one acknowledged
    attempts: nat,
    retryAt: Option<int>)

  /** What a worker was told is due. */
  datatype Identity = Identity(id: int, generation: int, revision: nat, candidate: int)

  predicate UniqueIds(table: seq<Entry>) {
    forall i, j | 0 <= i < j < |table| :: table[i].id != table[j].id
  }

  predicate Due(e: Entry, now: int, changing: set<int>) {
    e.linked && e.revision > e.done && (e.retryAt.Some? ==> e.retryAt.value <= now) && e.candidate !in changing
  }

  /** `ORDER BY followup_retry_at, id`, where NULL comes first. */
  predicate DueBefore(a: Entry, b: Entry) {
    match (a.retryAt, b.retryAt)
    case (None, Some(_)) => true
    case (Some(_), None) => false
    case (None, None) => a.id <= b.id
    case (Some(s), Some(t)) => s < t || (s == t && a.id <= b.id)
  }

  function IdentityOf(e: Entry): Identity {
    Identity(e.id, e.generation, e.revision, e.candidate)
  }

  function DueRows(table: seq<Entry>, now: int, changing: set<int>): seq<Entry> {
    if table == [] then []
    else (if Due(table[0], now, changing) then [table[0]] else []) + DueRows(table[1..], now, changing)
  }

  function Delay(attempts: nat): nat {
    if attempts == 0 then 30 else if attempts == 1 then 120 else 600
  }

  predicate Current(e: Entry, identity: Identity) {
    e.linked && IdentityOf(e) == identity
  }

  function Finished(e: Entry, identity: Identity, completed: bool, now: int): Entry {
    if !Current(e, identity) then e
    else if completed then e.(done := identity.revision, attempts := 0, retryAt := None)
    else e.(attempts := e.attempts + 1, retryAt := Some(now + Delay(e.attempts)))
  }

  function Finish(table: seq<Entry>, identity: Identity, completed: bool, now: int): seq<Entry> {
    seq(|table|, i requires 0 <= i < |table| => Finished(table[i], identity, completed, now))
  }

  const BATCH := 100

  /** The identities one pass takes up. */
  function DueIdentities(table: seq<Entry>, now: int, changing: set<int>, limit: nat): seq<Identity> {
    var rows := Sorting.Sort(DueRows(table, now, changing), DueBefore);
    Identities(if |rows| < limit then rows else rows[..limit])
  }

  function Identities(rows: seq<Entry>): (ids: seq<Identity>)
    ensures |ids| == |rows| && forall i | 0 <= i < |rows| :: ids[i] == IdentityOf(rows[i])
  {
    seq(|rows|, i requires 0 <= i < |rows| => IdentityOf(rows[i]))
  }

  /** What happened when a follow-up was taken up: something raised, or a decision was made or declined,
      the candidate was found ready or not, and a rule still matches it or not. */
  datatype Visit = Broke | Visited(decided: bool, ready: bool, stillMatches: bool)

  /** A declined decision counts as done only if no rule matches any more. */
  predicate Completes(v: Visit) {
    v.Visited? && v.ready && (v.decided || !v.stillMatches)
  }

  function FinishAll(table: seq<Entry>, ids: seq<Identity>, visits: Identity -> Visit, now: int): seq<Entry> {
    if ids == [] then table
    else
      var last := ids[|ids| - 1];
      Finish(FinishAll(table, ids[..|ids| - 1], visits, now), last, Completes(visits(last)), now)
  }

  class FollowupQueue {
    var table: seq<Entry>

    constructor (table: seq<Entry>)
      ensures this.table == table
    {
      this.table := table;
    }

    method DueFollowups(now: int, changing: set<int>, limit: nat) returns (due: seq<Identity>)
      ensures due == DueIdentities(table, now, changing, limit)
    {
      var rows := Sorting.Sort(DueRows(table, now, changing), DueBefore);
      due := [];
      while |due| < limit && |due| < |rows|
        invariant |due| <= limit && |due| <= |rows|
        invariant forall i | 0 <= i < |due| :: due[i] == IdentityOf(rows[i])
      {
        due := due + [IdentityOf(rows[|due|])];
      }
    }

    method FinishFollowup(identity: Identity, completed: bool, now: int)
      requires UniqueIds(table)
      modifies this
      ensures table == Finish(old(table), identity, completed, now)
    {
      var i := 0;
      while i < |table| && !Current(table[i], identity)
        invariant 0 <= i <= |table|
        invariant forall j | 0 <= j < i :: !Current(table[j], identity)
      {
        i := i + 1;
      }
      if i == |table| {
        return;
      }
      if completed {
        table := table[i := table[i].(done := identity.revision, attempts := 0, retryAt := None)];
      } else {
        var delay := [30, 120, 600][if table[i].attempts < 2 then table[i].attempts else 2];
        table := table[i := table[i].(attempts := table[i].attempts + 1, retryAt := Some(now + delay))];
      }
    }

    /** `process_ingest_followups` with nobody in between: every follow-up taken up is reported back,
        whatever the others raised. */
    method ProcessIngestFollowups(now: int, changing: set<int>, visits: Identity -> Visit)
      returns (decided: nat, due: seq<Identity>)
      requires UniqueIds(table)
      modifies this
      ensures due == DueIdentities(old(table), now, changing, BATCH)
      ensures table == FinishAll(old(table), due, visits, now)
      ensures decided == DecidedBy(due, visits)
    {
      due := DueFollowups(now, changing, BATCH);
      decided := 0;
      for i := 0 to |due|
        invariant UniqueIds(table) && table == FinishAll(old(table), due[..i], visits, now)
        invariant decided == DecidedBy(due[..i], visits)
      {
        assert due[..i + 1][..i] == due[..i];
        var visit := visits(due[i]);
        var completed := false;
        if visit.Visited? {
          completed := visit.ready;
          if completed && !visit.decided {
            completed := !visit.stillMatches;
          }
        }
        FinishFollowup(due[i], completed, now);
        if visit.Visited? && visit.decided {
          decided := decided + 1;
        }
      }
      assert due[..|due|] == due;
    }
  }

  function DecidedBy(ids: seq<Identity>, visits: Identity -> Visit): nat {
    if ids == [] then 0
    else
      DecidedBy(ids[..|ids| - 1], visits)
      + if visits(ids[|ids| - 1]).Visited? && visits(ids[|ids| - 1]).decided then 1 else 0
  }

  /** The due query returns exactly the linked entries with an unacknowledged publication whose wait is
      over and whose candidate is not being changed. */
  lemma {:induction false} DueRowsExactly(table: seq<Entry>, now: int, changing: set<int>, e: Entry)
    ensures e in DueRows(table, now, changing) <==> e in table && Due(e, now, changing)
  {
    if table != [] {
      DueRowsExactly(table[1..], now, changing, e);
      assert table == [table[0]] + table[1..];
    }
  }

  lemma {:induction false} FinishAllExactly(table: seq<Entry>, ids: seq<Identity>, visits: Identity -> Visit,
                                            now: int, k: nat)
    requires Distinct(ids) && k < |table|
    ensures |FinishAll(table, ids, visits, now)| == |table|
    ensures var e := table[k];
            FinishAll(table, ids, visits, now)[k]
            == if IdentityOf(e) in ids then Finished(e, IdentityOf(e), Completes(visits(IdentityOf(e))), now) else e
  {
    if ids != [] {
      var front, last := ids[..|ids| - 1], ids[|ids| - 1];
      FinishAllExactly(table, front, visits, now, k);
      assert ids == front + [last] && last !in front;
    }
  }

  lemma {:induction false} DueOnce(table: seq<Entry>, now: int, changing: set<int>, e: Entry)
    requires UniqueIds(table)
    ensures multiset(DueRows(table, now, changing))[e] <= 1
  {
    if table != [] {
      var rest := table[1..];
      DueOnce(rest, now, changing, e);
      DueRowsExactly(rest, now, changing, table[0]);
      assert table[0] !in rest;
    }
  }

  lemma RepeatCounts(rows: seq<Entry>, i: nat, j: nat)
    requires i < j < |rows| && rows[i] == rows[j]
    ensures multiset(rows)[rows[i]] >= 2
  {
    assert rows == rows[..j] + rows[j..];
    assert rows[..j][i] == rows[i] && rows[j..][0] == rows[i];
    assert rows[i] in multiset(rows[..j]) && rows[i] in multiset(rows[j..]);
  }

  ghost predicate NamesDue(table: seq<Entry>, now: int, changing: set<int>, id: Identity) {
    exists e :: e in table && Due(e, now, changing) && IdentityOf(e) == id
  }

  /** The identities of a pass are of different due entries. */
  lemma DueIdentitiesDiffer(table: seq<Entry>, now: int, changing: set<int>, limit: nat)
    requires UniqueIds(table)
    ensures Distinct(DueIdentities(table, now, changing, limit))
    ensures forall id | id in DueIdentities(table, now, changing, limit) :: NamesDue(table, now, changing, id)
  {
    var rows := Sorting.Sort(DueRows(table, now, changing), DueBefore);
    Sorting.SortKeepsElements(DueRows(table, now, changing), DueBefore);
    forall i | 0 <= i < |rows|
      ensures rows[i] in table && Due(rows[i], now, changing)
    {
      assert rows[i] in rows;
      DueRowsExactly(table, now, changing, rows[i]);
    }
    forall i: nat, j: nat | i < j < |rows|
      ensures IdentityOf(rows[i]) != IdentityOf(rows[j])
    {
      if rows[i] == rows[j] {
        RepeatCounts(rows, i, j);
        DueOnce(table, now, changing, rows[i]);
      }
    }
  }

  lemma DueEntry(table: seq<Entry>, now: int, changing: set<int>, limit: nat, k: nat)
    requires UniqueIds(table) && k < |table| && IdentityOf(table[k]) in DueIdentities(table, now, changing, limit)
    ensures Due(table[k], now, changing)
  {
    DueIdentitiesDiffer(table, now, changing, limit);
    NamedEntry(table, now, changing, k);
  }

  lemma NamedEntry(table: seq<Entry>, now: int, changing: set<int>, k: nat)
    requires UniqueIds(table) && k < |table| && NamesDue(table, now, changing, IdentityOf(table[k]))
    ensures Due(table[k], now, changing)
  {
    var e :| e in table && Due(e, now, changing) && IdentityOf(e) == IdentityOf(table[k]);
    assert e.id == table[k].id;
  }

  /** How a pass leaves an entry it took up: acknowledged, or unacknowledged with its next wait set. */
  predicate Settled(before: Entry, after: Entry, completed: bool, now: int) {
    if completed then after.done == after.revision == before.revision
    else after.done < after.revision && after.retryAt == Some(now + Delay(before.attempts))
  }

  /** After a pass every entry it took up is acknowledged, or still unacknowledged with its next wait
      set; no other entry is touched. */
  lemma PassKeepsIntents(table: seq<Entry>, now: int, changing: set<int>, limit: nat, visits: Identity -> Visit, k: nat)
    requires UniqueIds(table) && k < |table|
    ensures var (due, id) := (DueIdentities(table, now, changing, limit), IdentityOf(table[k]));
            var after := FinishAll(table, due, visits, now);
            && |after| == |table|
            && if id in due then Settled(table[k], after[k], Completes(visits(id)), now) else after[k] == table[k]
  {
    var due := DueIdentities(table, now, changing, limit);
    assert Distinct(due) by {
      DueIdentitiesDiffer(table, now, changing, limit);
    }
    FinishAllExactly(table, due, visits, now, k);
    if IdentityOf(table[k]) in due {
      DueEntry(table, now, changing, limit, k);
    }
  }

  // ---------------------------------------------------------------------- runs

  /** What happens to the table: a worker reports back, a publication fires the link trigger, or the
      entry is unlinked, moved or given a new generation without one. */
  datatype Step =
    | Report(identity: Identity, completed: bool, now: int)
    | Publish(id: int, to: int)
    | Relink(id: int, linked: bool, to: int, generation: int)

  function NextEntry(e: Entry, step: Step): Entry {
    match step
    case Report(identity, completed, now) => Finished(e, identity, completed, now)
    case Publish(id, to) =>
      if e.id != id then e
      else e.(linked := true, candidate := to, revision := e.revision + 1, attempts := 0, retryAt := None)
    case Relink(id, linked, to, generation) =>
      if e.id != id then e else e.(linked := linked, candidate := to, generation := generation)
  }

  function RunEntry(e: Entry, steps: seq<Step>): Entry
    decreases |steps|
  {
    if steps == [] then e else RunEntry(NextEntry(e, steps[0]), steps[1..])
  }

  /** The report that acknowledges the publication the entry is at. */
  predicate Acknowledges(e: Entry, step: Step) {
    step.Report? && step.completed && Current(e, step.identity)
  }

  /** What else happens to an entry: a publication that names it links it to its candidate and starts its
      attempts afresh, and a change of its link leaves the publications alone. */
  lemma ChangesRead(e: Entry, id: int, linked: bool, to: int, generation: int)
    ensures NextEntry(e, Publish(id, to)) == if e.id != id then e else
              Entry(e.id, true, to, e.generation, e.revision + 1, e.done, 0, None)
    ensures NextEntry(e, Relink(id, linked, to, generation)) == if e.id != id then e else
              Entry(e.id, linked, to, generation, e.revision, e.done, e.attempts, e.retryAt)
  {}

  /** No acknowledgement runs ahead of the publications, and neither number ever goes back. */
  lemma {:induction false} DoneNeverPassesPublished(e: Entry, steps: seq<Step>)
    requires e.done <= e.revision
    ensures var end := RunEntry(e, steps);
            end.done <= end.revision && e.done <= end.done && e.revision <= end.revision
    decreases |steps|
  {
    if steps != [] {
      DoneNeverPassesPublished(NextEntry(e, steps[0]), steps[1..]);
    }
  }

  /** A report about an older publication, an older generation, another candidate or an unlinked entry
      changes nothing; a current one changes no other entry. */
  lemma StaleReportsChangeNothing(table: seq<Entry>, identity: Identity, completed: bool, now: int)
    requires UniqueIds(table)
    ensures (forall i | 0 <= i < |table| :: !Current(table[i], identity))
            ==> Finish(table, identity, completed, now) == table
    ensures forall i | 0 <= i < |table| && table[i].id != identity.id ::
              Finish(table, identity, completed, now)[i] == table[i]
  {}

  /** Nothing but its link, its wait and its candidate keeps the entry from being due. */
  ghost predicate StaysDue(e: Entry) {
    forall now, changing :: Due(e, now, changing) <==>
      e.linked && (e.retryAt.Some? ==> e.retryAt.value <= now) && e.candidate !in changing
  }

  /** A publication (any up to the current one that is not acknowledged yet) keeps its entry due, whenever
      that is linked, its wait is over and its candidate is not changing, until a completed report that
      names the publication current at that time, which is that one or a later; in a run without such a
      report, to its end. */
  lemma {:induction false} PublicationIsNotLost(e: Entry, steps: seq<Step>, published: nat) returns (k: nat)
    requires e.done < published <= e.revision
    ensures k <= |steps|
    ensures k == |steps| <==> RunEntry(e, steps).done < published
    ensures k < |steps| ==>
              var at := RunEntry(e, steps[..k]);
              && steps[k].Report? && steps[k].completed && at.linked && at.revision >= published
              && steps[k].identity == Identity(at.id, at.generation, at.revision, at.candidate)
    ensures forall j | 0 <= j <= k :: StaysDue(RunEntry(e, steps[..j]))
    decreases |steps|
  {
    if steps == [] {
      return 0;
    }
    var next := NextEntry(e, steps[0]);
    if next.done >= published {
      k := 0;
      DoneNeverPassesPublished(next, steps[1..]);
    } else {
      var rest := steps[1..];
      var last := PublicationIsNotLost(next, rest, published);
      k := last + 1;
      forall j | 1 <= j <= k
        ensures RunEntry(e, steps[..j]) == RunEntry(next, rest[..j - 1])
      {
        assert steps[..j][0] == steps[0] && steps[..j][1..] == rest[..j - 1];
      }
    }
  }

  /** A wait a run imposes on an entry, by the failed attempts it counts; `reset` tells whether these were
      set back to zero, by a publication or an acknowledgement, since the wait before or the start. */
  datatype Wait = Wait(seconds: nat, attempts: nat, reset: bool)

  /** A publication or an acknowledgement: what sets the attempts of an entry back to zero. */
  predicate Resets(e: Entry, step: Step) {
    Acknowledges(e, step) || (step.Publish? && step.id == e.id)
  }

  predicate Fails(e: Entry, step: Step) {
    step.Report? && !step.completed && Current(e, step.identity)
  }

  /** The waits of a run, in order. */
  function Waits(e: Entry, steps: seq<Step>, reset: bool): seq<Wait>
    decreases |steps|
  {
    if steps == [] then []
    else if Fails(e, steps[0]) then
      [Wait(Delay(e.attempts), e.attempts, reset)] + Waits(NextEntry(e, steps[0]), steps[1..], false)
    else Waits(NextEntry(e, steps[0]), steps[1..], reset || Resets(e, steps[0]))
  }

  lemma AttemptsAfter(e: Entry, step: Step)
    ensures NextEntry(e, step).attempts
            == if Fails(e, step) then e.attempts + 1 else if Resets(e, step) then 0 else e.attempts
  {}

  /** Each wait is that of its attempts, which go on by one or start again. */
  predicate Counted(waits: seq<Wait>) {
    && (forall i | 0 <= i < |waits| :: waits[i].seconds == Delay(waits[i].attempts))
    && (forall i | 0 < i < |waits| :: waits[i].attempts == if waits[i].reset then 0 else waits[i - 1].attempts + 1)
  }

  lemma CountedCons(first: Wait, rest: seq<Wait>)
    requires Counted(rest) && first.seconds == Delay(first.attempts)
    requires rest != [] ==> rest[0].attempts == if rest[0].reset then 0 else first.attempts + 1
    ensures Counted([first] + rest)
  {
    var waits := [first] + rest;
    forall i | 0 < i < |waits|
      ensures waits[i].attempts == if waits[i].reset then 0 else waits[i - 1].attempts + 1
    {
      assert waits[i] == rest[i - 1];
      if i > 1 {
        assert waits[i - 1] == rest[i - 2];
      }
    }
  }

  /** Whatever happens in between, waits count 30, 120, 600, 600, ... from the attempts made, and from
      the start again where these were reset. */
  lemma {:induction false} WaitsCount(e: Entry, steps: seq<Step>, reset: bool)
    requires reset ==> e.attempts == 0
    ensures var waits := Waits(e, steps, reset);
            && Counted(waits)
            && (waits != [] ==> waits[0].attempts == if waits[0].reset then 0 else e.attempts)
            && (waits != [] && reset ==> waits[0].reset)
    decreases |steps|
  {
    if steps != [] {
      var next := NextEntry(e, steps[0]);
      AttemptsAfter(e, steps[0]);
      if Fails(e, steps[0]) {
        WaitsCount(next, steps[1..], false);
        var rest := Waits(next, steps[1..], false);
        assert Waits(e, steps, reset) == [Wait(Delay(e.attempts), e.attempts, reset)] + rest;
        CountedCons(Wait(Delay(e.attempts), e.attempts, reset), rest);
      } else {
        WaitsCount(next, steps[1..], reset || Resets(e, steps[0]));
        assert Waits(e, steps, reset) == Waits(next, steps[1..], reset || Resets(e, steps[0]));
      }
    }
  }

  /** In every run a wait is at most ten minutes, and it is shorter than the wait before it exactly if the
      attempts were reset in between and that one was above thirty seconds. */
  lemma WaitsShrinkExactlyOnReset(e: Entry, steps: seq<Step>)
    ensures var waits := Waits(e, steps, false);
            && (forall i | 0 <= i < |waits| :: 30 <= waits[i].seconds <= 600)
            && (forall i | 0 < i < |waits| ::
                  waits[i].seconds < waits[i - 1].seconds <==> waits[i].reset && waits[i - 1].seconds > 30)
  {
    WaitsCount(e, steps, false);
  }

  /** The input that fails: without any acknowledgement, a publication between two failed reports takes
      the wait from 120 seconds back to 30. */
  lemma PublicationShortensTheWait(e: Entry, later: int, now: int)
    requires e.linked && e.attempts == 1
    ensures var first := Report(IdentityOf(e), false, now);
            var published := NextEntry(NextEntry(e, first), Publish(e.id, e.candidate));
            var run := [first, Publish(e.id, e.candidate), Report(IdentityOf(published), false, later)];
            Waits(e, run, false) == [Wait(120, 1, false), Wait(30, 0, true)]
  {
    var first := Report(IdentityOf(e), false, now);
    var e1 := NextEntry(e, first);
    var publish := Publish(e.id, e.candidate);
    var e2 := NextEntry(e1, publish);
    var second := Report(IdentityOf(e2), false, later);
    var run := [first, publish, second];
    assert run[1..] == [publish, second] && [publish, second][1..] == [second] && [second][1..] == [];
    assert Waits(e2, [second], true) == [Wait(30, 0, true)] + Waits(NextEntry(e2, second), [], false);
    assert Waits(e1, [publish, second], false) == Waits(e2, [second], true);
  }
}
