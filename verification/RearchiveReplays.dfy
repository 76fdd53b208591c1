/** An admitted batch that is executed again with nobody in between: exactly when it completes. */
module RearchiveReplays {
  import opened Text
  import opened Rearchive
  import opened RearchiveBatch
  import opened RearchiveSafety
  import opened RearchiveItems

  // -------------------------------------------------------------------- one item, to its end

  /** The item's key is used by something else. */
  predicate KeyConflict(db: Db, item: Item, policy: int) {
    if item.key in db.receipts || item.key in db.refusals then !HasOutcome(db, item, policy)
    else item.key in db.batches
  }

  /** An error that is not made the item's outcome: one without a code, or one that asks for recovery. */
  predicate Grave(obstacle: Option<Obstacle>) {
    obstacle.Some? && match obstacle.value
                      case Uncoded => true
                      case Coded(error) => error.code == RECOVERY
  }

  /** A move is stuck on a journal row of its work, a grave obstacle in either half, or another work's pin. */
  predicate MoveStuck(db: Db, item: Item, attempt: Attempt) {
    || CandidateOf(item.task) in db.journal
    || Grave(attempt.first)
    || (attempt.first.None? && Grave(attempt.second))
    || (attempt.first.None? && attempt.second.None? && PinTaken(db.pins, CandidateOf(item.task), attempt.path))
  }

  /** A work to be queued or parked is stuck on a journal row, or, where nothing of its own keeps it from
      that, on a grave obstacle or another work's pin. */
  predicate QueueStuck(db: Db, item: Item, attempt: Attempt) {
    || CandidateOf(item.task) in db.journal
    || (&& CandidateOf(item.task) !in db.inFlight && (item.task.Act? ==> item.artifact.Some?)
        && (Grave(attempt.first) || (item.task.Act? && PinClash(db, item.task.task))))
  }

  predicate Stuck(db: Db, item: Item, policy: int, attempt: Attempt) {
    || KeyConflict(db, item, policy)
    || (Fresh(db, item, policy) && if Moves(item) then MoveStuck(db, item, attempt) else QueueStuck(db, item, attempt))
  }

  /** What an error leaves alone: outcomes, effects, pins and versions. */
  predicate Unharmed(db: Db, after: Db) {
    && after.receipts == db.receipts && after.refusals == db.refusals && after.effects == db.effects
    && after.pins == db.pins && after.versions == db.versions && after.inFlight == db.inFlight
  }

  lemma ReceiptExactly(db: Db, item: Item, policy: int)
    ensures var found := Receipt(db, item.key, OfItem(item, policy));
            && (found.Returned? <==> HasOutcome(db, item, policy))
            && (found.Raised? <==> KeyConflict(db, item, policy))
            && (found.Raised? ==> found.error.code == "IDEMPOTENCY_CONFLICT")
            && found != Broken
  {}

  lemma RefuseEnds(db: Db, item: Item, policy: int, error: Error)
    ensures var (after, answer) := Refuse(db, item, policy, error);
            && after.batches == db.batches
            && (if KeyConflict(db, item, policy)
                then after == db && answer.Raised? && answer.error.code == "IDEMPOTENCY_CONFLICT"
                else answer.Returned? && Receipt(after, item.key, OfItem(item, policy)) == answer)
  {
    ReceiptExactly(db, item, policy);
  }

  /** An error that escapes or asks for recovery. */
  predicate Escapes(answer: RearchiveBatch.Answered) {
    answer == Broken || (answer.Raised? && answer.error.code == RECOVERY)
  }

  lemma CommitEnds(db: Db, item: Item, policy: int, attempt: Attempt)
    requires Moves(item) && Fresh(db, item, policy)
    ensures var (after, answer) := CommitMove(db, item, policy, attempt);
            && after.batches == db.batches && !KeyConflict(after, item, policy) && answer != GoOn
            && (Escapes(answer) <==>
                  || Grave(attempt.second)
                  || (attempt.second.None? && PinTaken(db.pins, CandidateOf(item.task), attempt.path)))
            && (answer.Returned? ==> Receipt(after, item.key, OfItem(item, policy)) == answer)
            && (!answer.Returned? ==> Unharmed(db, after))
  {
    FreshGoesOn(db, item, policy);
    MovesExactly(db, item, policy, attempt);
  }

  lemma MoveEnds(db: Db, item: Item, policy: int, attempt: Attempt)
    requires Moves(item) && Fresh(db, item, policy)
    ensures var (after, answer) := Perform(db, item, policy, attempt);
            && after.batches == db.batches && !KeyConflict(after, item, policy) && answer != GoOn
            && (Escapes(answer) <==> MoveStuck(db, item, attempt))
            && (answer.Returned? ==> Receipt(after, item.key, OfItem(item, policy)) == answer)
            && (!answer.Returned? ==> Unharmed(db, after))
  {
    FreshGoesOn(db, item, policy);
    var (prepared, answer) := Prepare(db, item, policy, attempt);
    if answer == GoOn {
      PreparesOnly(db, item, policy, attempt);
      assert Fresh(prepared, item, policy);
      CommitEnds(prepared, item, policy, attempt);
    }
  }

  lemma QueueEnds(db: Db, item: Item, policy: int, attempt: Attempt)
    requires !Moves(item) && Fresh(db, item, policy)
    ensures var (after, answer) := Perform(db, item, policy, attempt);
            && after.batches == db.batches && !KeyConflict(after, item, policy) && answer != GoOn
            && (Escapes(answer) <==> QueueStuck(db, item, attempt))
            && (answer.Returned? ==> Receipt(after, item.key, OfItem(item, policy)) == answer)
            && (!answer.Returned? ==> after == db)
  {
    FreshGoesOn(db, item, policy);
    EnqueuesExactly(db, item, policy, attempt);
    if item.task.Act? {
      PinnedExactly(db, item.task.task);
    }
  }

  /** Executing an item ends with an outcome exactly if it is not stuck. The outcome is stored, so that
      executing it again gives the same and changes nothing. Otherwise the error asks for recovery, is a
      conflict of keys or has no code, and no outcome, effect, pin or version is touched. */
  lemma ExecuteEndsExactly(db: Db, item: Item, policy: int, attempt: Attempt, later: Attempt)
    ensures var (after, answer) := Execute(db, item, policy, attempt);
            && after.batches == db.batches
            && (answer.Returned? <==> !Stuck(db, item, policy, attempt))
            && (answer.Returned? ==> Execute(after, item, policy, later) == (after, answer))
            && (!answer.Returned? ==>
                  && Unharmed(db, after)
                  && (answer == Broken || (answer.Raised? && answer.error.code in {RECOVERY, "IDEMPOTENCY_CONFLICT"})))
  {
    FreshGoesOn(db, item, policy);
    ReceiptExactly(db, item, policy);
    var found := Inspect(db, item, policy);
    if found == GoOn {
      if Moves(item) {
        MoveEnds(db, item, policy, attempt);
      } else {
        QueueEnds(db, item, policy, attempt);
      }
      var (performed, answer) := Perform(db, item, policy, attempt);
      if answer.Raised? && answer.error.code != RECOVERY {
        RefuseEnds(performed, item, policy, answer.error);
      }
    } else if found.Raised? {
      RefuseEnds(db, item, policy, found.error);
    }
  }

  // --------------------------------------------------------------------------- a batch

  /** The items get to `i`, and it is stuck then. */
  predicate StuckAt(db: Db, items: seq<Item>, policy: int, attempts: nat -> Attempt, i: nat)
    requires i < |items|
  {
    var (before, done) := Replay(db, Executions(items, policy, attempts), i);
    done.AllDone? && Stuck(before, items[i], policy, attempts(i))
  }

  /** The acts get to the `i`-th, and it ends without an outcome. */
  predicate FailsAt(db: Db, act: (Db, nat) -> (Db, RearchiveBatch.Answered), i: nat) {
    Replay(db, act, i).1.AllDone? && !act(Replay(db, act, i).0, i).1.Returned?
  }

  lemma {:induction false} ActsEnd(db: Db, act: (Db, nat) -> (Db, RearchiveBatch.Answered), n: nat)
    requires forall d, i :: act(d, i).0.batches == d.batches
    ensures var (after, done) := Replay(db, act, n);
            && after.batches == db.batches
            && (done.AllDone? ==> |done.children| == n)
            && (done.AllDone? <==> forall i: nat | i < n :: !FailsAt(db, act, i))
  {
    if n > 0 {
      ActsEnd(db, act, n - 1);
      assert Replay(db, act, n).1.AllDone? <==> Replay(db, act, n - 1).1.AllDone? && !FailsAt(db, act, n - 1);
    }
  }

  lemma ReplayEnds(db: Db, items: seq<Item>, policy: int, attempts: nat -> Attempt)
    ensures var (after, done) := Replay(db, Executions(items, policy, attempts), |items|);
            && after.batches == db.batches
            && (done.AllDone? ==> |done.children| == |items|)
            && (done.AllDone? <==> forall i: nat | i < |items| :: !StuckAt(db, items, policy, attempts, i))
  {
    var act := Executions(items, policy, attempts);
    forall d: Db, i: nat
      ensures act(d, i).0.batches == d.batches
      ensures i < |items| ==> (act(d, i).1.Returned? <==> !Stuck(d, items[i], policy, attempts(i)))
    {
      ExecutionEnds(d, items, policy, attempts, i);
    }
    ActsEnd(db, act, |items|);
    assert forall i: nat | i < |items| :: FailsAt(db, act, i) <==> StuckAt(db, items, policy, attempts, i);
  }

  lemma ExecutionEnds(db: Db, items: seq<Item>, policy: int, attempts: nat -> Attempt, i: nat)
    ensures var (after, answer) := Executions(items, policy, attempts)(db, i);
            && after.batches == db.batches
            && (i < |items| ==> (answer.Returned? <==> !Stuck(db, items[i], policy, attempts(i))))
  {
    if i < |items| {
      ExecuteEndsExactly(db, items[i], policy, attempts(i), attempts(i));
    }
  }

  lemma ReplayStep(db: Db, items: seq<Item>, policy: int, attempts: nat -> Attempt, i: nat)
    requires i < |items| && Replay(db, Executions(items, policy, attempts), i).1.AllDone?
    ensures var act := Executions(items, policy, attempts);
            var (before, done) := Replay(db, act, i);
            var (after, answer) := Execute(before, items[i], policy, attempts(i));
            Replay(db, act, i + 1)
            == (after, if answer.Returned? then AllDone(done.children + [answer.child]) else Stopped(i, answer))
  {}

  /** An undisturbed call on an admitted batch completes it exactly if none of its items is stuck when its
      turn comes; the batch then has the report of all its outcomes, and has none otherwise. */
  lemma ReplayCompletesExactly(db: Db, key: Key, attempts: nat -> Attempt)
    requires key in db.batches && db.batches[key].response.None? && !db.batches[key].request.dryRun
    ensures var request := db.batches[key].request;
            var (after, report) := Replays(db, key, attempts);
            && (report.Some? <==>
                  forall i: nat | i < |request.items| :: !StuckAt(db, request.items, request.policy, attempts, i))
            && key in after.batches && after.batches[key].response == report
            && (report.Some? ==> exists children: seq<Child> ::
                                   |children| == |request.items| && report == Some(Assembled(request, children)))
  {
    var request := db.batches[key].request;
    ReplayEnds(db, request.items, request.policy, attempts);
  }

  // --------------------------------------------------- a test on the tables before the call

  /** No two items are of one work or share a key. */
  predicate ItemsApart(items: seq<Item>) {
    forall i, j | 0 <= i < j < |items| ::
      CandidateOf(items[i].task) != CandidateOf(items[j].task) && items[i].key != items[j].key
  }

  lemma {:induction false} ItemCounts(items: seq<Item>, i: nat)
    requires i < |items|
    ensures ItemsWith(items, CandidateOf(items[i].task)) >= 1
  {
    if i < |items| - 1 {
      ItemCounts(items[..|items| - 1], i);
    }
  }

  lemma {:induction false} ItemsCountTwice(items: seq<Item>, i: nat, j: nat)
    requires i < j < |items| && CandidateOf(items[i].task) == CandidateOf(items[j].task)
    ensures ItemsWith(items, CandidateOf(items[i].task)) >= 2
  {
    if j < |items| - 1 {
      ItemsCountTwice(items[..|items| - 1], i, j);
    } else {
      ItemCounts(items[..|items| - 1], i);
    }
  }

  /** The items of a batch in any reachable state are of different works, under different keys. */
  lemma AdmittedItemsAreApart(s: System, key: Key)
    requires Inv(s) && key in s.db.batches && s.db.batches[key].digest.OfBatch?
    ensures ItemsApart(s.db.batches[key].request.items)
  {
    var request := s.db.batches[key].request;
    assert RowOk(s.db, key);
    forall i, j | 0 <= i < j < |request.items|
      ensures CandidateOf(request.items[i].task) != CandidateOf(request.items[j].task)
    {
      if CandidateOf(request.items[i].task) == CandidateOf(request.items[j].task) {
        ItemsCountTwice(request.items, i, j);
        assert false;
      }
    }
  }

  /** The path an item may pin its work to. */
  function PathOf(item: Item, attempt: Attempt): Option<string> {
    if item.task.Park? then None else if Moves(item) then Some(attempt.path) else item.task.task.target
  }

  /** Nothing stands in the way of the items as the tables are: no key is used otherwise, and of the works
      that are still as admitted none has a journal row or a grave obstacle, and no two are to be pinned at
      one path or at the path of another work. */
  predicate Unhindered(db: Db, items: seq<Item>, policy: int, attempts: nat -> Attempt) {
    && (forall i: nat | i < |items| :: !KeyConflict(db, items[i], policy))
    && (forall i: nat | i < |items| && Fresh(db, items[i], policy) :: Clear(db, items[i], attempts(i)))
    && (forall i: nat, j: nat | i < j < |items| && Fresh(db, items[i], policy) && Fresh(db, items[j], policy)
                                && PathOf(items[i], attempts(i)).Some? ::
          PathOf(items[i], attempts(i)) != PathOf(items[j], attempts(j)))
  }

  predicate Clear(db: Db, item: Item, attempt: Attempt) {
    && CandidateOf(item.task) !in db.journal && !Grave(attempt.first) && !Grave(attempt.second)
    && (PathOf(item, attempt).Some? ==> !PinTaken(db.pins, CandidateOf(item.task), PathOf(item, attempt).value))
  }

  /** Nothing about the item has changed. */
  predicate Alike(db: Db, now: Db, item: Item) {
    var (key, candidate) := (item.key, CandidateOf(item.task));
    && (key in now.receipts <==> key in db.receipts) && (key in db.receipts ==> now.receipts[key] == db.receipts[key])
    && (key in now.refusals <==> key in db.refusals) && (key in db.refusals ==> now.refusals[key] == db.refusals[key])
    && now.batches == db.batches && now.policy == db.policy && now.answers == db.answers
    && (candidate in now.versions <==> candidate in db.versions)
    && (candidate in db.versions ==> now.versions[candidate] == db.versions[candidate])
    && (candidate in now.journal <==> candidate in db.journal)
    && (candidate in now.inFlight <==> candidate in db.inFlight)
  }

  /** A pin is as it was, or was written by the item. */
  predicate OldOrWritten(db: Db, now: Db, item: Item, policy: int, attempt: Attempt, c: int) {
    c in now.pins ==>
      || (c in db.pins && now.pins[c].path == db.pins[c].path)
      || (c == CandidateOf(item.task) && Fresh(db, item, policy) && PathOf(item, attempt) == Some(now.pins[c].path))
  }

  lemma AlikeThroughout(db: Db, middle: Db, after: Db, other: Item)
    requires Alike(db, middle, other) && Alike(middle, after, other)
    ensures Alike(db, after, other)
  {}

  predicate Others(item: Item, other: Item) {
    other.key != item.key && CandidateOf(other.task) != CandidateOf(item.task)
  }

  lemma EffectIsLocal(db: Db, after: Db, item: Item, policy: int, attempt: Attempt, child: Child, other: Item)
    requires Others(item, other) && TookEffect(db, after, item, policy, attempt, child)
    requires after.journal == db.journal || after.journal == db.journal - {CandidateOf(item.task)}
    requires after.inFlight == db.inFlight || after.inFlight == db.inFlight + {CandidateOf(item.task)}
    ensures Alike(db, after, other)
  {}

  lemma MoveIsLocal(db: Db, item: Item, policy: int, attempt: Attempt, other: Item)
    requires item.task.Act? && Others(item, other)
    ensures Alike(db, CommitMove(db, item, policy, attempt).0, other)
  {
    MovesExactly(db, item, policy, attempt);
    var (after, answer) := CommitMove(db, item, policy, attempt);
    if Fresh(db, item, policy) && !Hindered(db, item, attempt) {
      EffectIsLocal(db, after, item, policy, attempt, answer.child, other);
    } else {
      ClosingIsLocal(db, after, item, other);
    }
  }

  lemma ClosingIsLocal(db: Db, after: Db, item: Item, other: Item)
    requires Others(item, other)
    requires after == db || after == db.(journal := db.journal)
             || after == db.(journal := db.journal - {CandidateOf(item.task)})
    ensures Alike(db, after, other)
  {}

  lemma EnqueueIsLocal(db: Db, item: Item, policy: int, attempt: Attempt, other: Item)
    requires Others(item, other)
    ensures Alike(db, Enqueue(db, item, policy, attempt).0, other)
  {
    EnqueuesExactly(db, item, policy, attempt);
    var (after, answer) := Enqueue(db, item, policy, attempt);
    if after != db {
      EffectIsLocal(db, after, item, policy, attempt, answer.child, other);
    }
  }

  lemma PreparesOnly(db: Db, item: Item, policy: int, attempt: Attempt)
    ensures var after := Prepare(db, item, policy, attempt).0;
            after == db || after == db.(journal := db.journal + {CandidateOf(item.task)})
  {}

  lemma PrepareIsLocal(db: Db, item: Item, policy: int, attempt: Attempt, other: Item)
    requires Others(item, other)
    ensures Alike(db, Prepare(db, item, policy, attempt).0, other)
  {
    PreparesOnly(db, item, policy, attempt);
  }

  lemma PerformIsLocal(db: Db, item: Item, policy: int, attempt: Attempt, other: Item)
    requires Others(item, other)
    ensures Alike(db, Perform(db, item, policy, attempt).0, other)
  {
    if Moves(item) {
      var prepared := Prepare(db, item, policy, attempt).0;
      PrepareIsLocal(db, item, policy, attempt, other);
      MoveIsLocal(prepared, item, policy, attempt, other);
      AlikeThroughout(db, prepared, CommitMove(prepared, item, policy, attempt).0, other);
    } else {
      EnqueueIsLocal(db, item, policy, attempt, other);
    }
  }

  lemma RefusesOnly(db: Db, item: Item, policy: int, error: Error)
    ensures var after := Refuse(db, item, policy, error).0;
            after == db || (after == db.(refusals := after.refusals) && item.key in after.refusals
                            && after.refusals == db.refusals[item.key := after.refusals[item.key]])
  {}

  lemma RefuseIsLocal(db: Db, item: Item, policy: int, error: Error, other: Item)
    requires Others(item, other)
    ensures Alike(db, Refuse(db, item, policy, error).0, other)
  {
    RefusesOnly(db, item, policy, error);
  }

  /** Executing an item is nobody else's business, but for the pin it may write. */
  lemma ExecuteIsLocal(db: Db, item: Item, policy: int, attempt: Attempt, other: Item)
    requires Others(item, other)
    ensures Alike(db, Execute(db, item, policy, attempt).0, other)
  {
    var found := Inspect(db, item, policy);
    var (after, answer) := if found == GoOn then Perform(db, item, policy, attempt) else (db, found);
    PerformIsLocal(db, item, policy, attempt, other);
    if answer.Raised? {
      RefuseIsLocal(after, item, policy, answer.error, other);
      AlikeThroughout(db, after, Refuse(after, item, policy, answer.error).0, other);
    }
  }

  lemma PerformPins(db: Db, item: Item, policy: int, attempt: Attempt, c: int)
    requires Fresh(db, item, policy)
    ensures OldOrWritten(db, Perform(db, item, policy, attempt).0, item, policy, attempt, c)
  {
    if Moves(item) {
      var prepared := Prepare(db, item, policy, attempt).0;
      assert prepared.pins == db.pins;
      MovesExactly(prepared, item, policy, attempt);
    } else {
      EnqueuesExactly(db, item, policy, attempt);
      if item.task.Act? && Pinned(db.pins, item.task.task).Some? {
        PinnedIsOldOrTarget(db.pins, item.task.task, c);
      }
    }
  }

  lemma PinnedIsOldOrTarget(pins: map<int, Pin>, task: Task, c: int)
    requires Pinned(pins, task).Some?
    ensures var after := Pinned(pins, task).value;
            c in after ==>
              || (c in pins && after[c].path == pins[c].path)
              || (c == task.candidate && task.target == Some(after[c].path))
  {}

  lemma ExecutePins(db: Db, item: Item, policy: int, attempt: Attempt, c: int)
    ensures OldOrWritten(db, Execute(db, item, policy, attempt).0, item, policy, attempt, c)
  {
    var found := Inspect(db, item, policy);
    FreshGoesOn(db, item, policy);
    var (after, answer) := if found == GoOn then Perform(db, item, policy, attempt) else (db, found);
    if Fresh(db, item, policy) {
      PerformPins(db, item, policy, attempt, c);
    }
    if answer.Raised? {
      RefusesOnly(after, item, policy, answer.error);
    }
  }

  /** After the first `n` items the others are as they were, and each pin is as it was or was written by
      one of those that were fresh. */
  ghost predicate OnTrack(db: Db, now: Db, items: seq<Item>, policy: int, attempts: nat -> Attempt, n: nat)
    requires n <= |items|
  {
    && (forall k: nat | n <= k < |items| :: Alike(db, now, items[k]))
    && (forall c | c in now.pins ::
          || (c in db.pins && now.pins[c].path == db.pins[c].path)
          || (exists i: nat :: i < n && c == CandidateOf(items[i].task) && Fresh(db, items[i], policy)
                               && PathOf(items[i], attempts(i)) == Some(now.pins[c].path)))
  }

  lemma AlikeMeans(db: Db, now: Db, item: Item, policy: int)
    requires Alike(db, now, item)
    ensures KeyConflict(now, item, policy) <==> KeyConflict(db, item, policy)
    ensures Fresh(now, item, policy) <==> Fresh(db, item, policy)
  {}

  lemma PinStaysFree(db: Db, now: Db, items: seq<Item>, policy: int, attempts: nat -> Attempt, n: nat)
    requires n < |items| && ItemsApart(items) && Unhindered(db, items, policy, attempts)
    requires OnTrack(db, now, items, policy, attempts, n)
    requires Fresh(db, items[n], policy) && PathOf(items[n], attempts(n)).Some?
    ensures !PinTaken(now.pins, CandidateOf(items[n].task), PathOf(items[n], attempts(n)).value)
  {
    var candidate, path := CandidateOf(items[n].task), PathOf(items[n], attempts(n)).value;
    assert Clear(db, items[n], attempts(n));
    forall c | c in now.pins && c != candidate
      ensures now.pins[c].path != path
    {
      if i: nat :| i < n && c == CandidateOf(items[i].task) && Fresh(db, items[i], policy)
                   && PathOf(items[i], attempts(i)) == Some(now.pins[c].path) {
        assert PathOf(items[i], attempts(i)) != PathOf(items[n], attempts(n));
      }
    }
  }

  lemma ClearIsNotStuck(now: Db, item: Item, policy: int, attempt: Attempt)
    requires !KeyConflict(now, item, policy) && (Fresh(now, item, policy) ==> Clear(now, item, attempt))
    ensures !Stuck(now, item, policy, attempt)
  {}

  lemma StepStaysOnTrack(db: Db, now: Db, items: seq<Item>, policy: int, attempts: nat -> Attempt, n: nat)
    requires n < |items| && ItemsApart(items) && OnTrack(db, now, items, policy, attempts, n)
    ensures OnTrack(db, Execute(now, items[n], policy, attempts(n)).0, items, policy, attempts, n + 1)
  {
    var after := Execute(now, items[n], policy, attempts(n)).0;
    forall k: nat | n < k < |items|
      ensures Alike(db, after, items[k])
    {
      ExecuteIsLocal(now, items[n], policy, attempts(n), items[k]);
    }
    AlikeMeans(db, now, items[n], policy);
    forall c | c in after.pins
      ensures || (c in db.pins && after.pins[c].path == db.pins[c].path)
              || (exists i: nat :: i < n + 1 && c == CandidateOf(items[i].task) && Fresh(db, items[i], policy)
                                   && PathOf(items[i], attempts(i)) == Some(after.pins[c].path))
    {
      ExecutePins(now, items[n], policy, attempts(n), c);
    }
  }

  lemma UnhinderedTurn(db: Db, now: Db, items: seq<Item>, policy: int, attempts: nat -> Attempt, n: nat)
    requires n < |items| && ItemsApart(items) && Unhindered(db, items, policy, attempts)
    requires OnTrack(db, now, items, policy, attempts, n)
    ensures Execute(now, items[n], policy, attempts(n)).1.Returned?
    ensures OnTrack(db, Execute(now, items[n], policy, attempts(n)).0, items, policy, attempts, n + 1)
  {
    var item, attempt := items[n], attempts(n);
    AlikeMeans(db, now, item, policy);
    if Fresh(db, item, policy) && PathOf(item, attempt).Some? {
      PinStaysFree(db, now, items, policy, attempts, n);
    }
    ClearIsNotStuck(now, item, policy, attempt);
    ExecuteEndsExactly(now, item, policy, attempt, attempt);
    StepStaysOnTrack(db, now, items, policy, attempts, n);
  }

  /** Acts that each end with an outcome and keep a property all get done. */
  lemma {:induction false} ActsGetDone(db: Db, act: (Db, nat) -> (Db, RearchiveBatch.Answered),
                                       kept: (Db, nat) --> bool, n: nat)
    requires forall d: Db, i: nat | i <= n :: kept.requires(d, i)
    requires kept(db, 0)
    requires forall d: Db, i: nat | i < n && kept(d, i) :: act(d, i).1.Returned? && kept(act(d, i).0, i + 1)
    ensures Replay(db, act, n).1.AllDone? && kept(Replay(db, act, n).0, n)
  {
    if n > 0 {
      ActsGetDone(db, act, kept, n - 1);
      assert act(Replay(db, act, n - 1).0, n - 1).1.Returned?;
    }
  }

  lemma UnhinderedIsDone(db: Db, items: seq<Item>, policy: int, attempts: nat -> Attempt)
    requires ItemsApart(items) && Unhindered(db, items, policy, attempts)
    ensures Replay(db, Executions(items, policy, attempts), |items|).1.AllDone?
  {
    var act := Executions(items, policy, attempts);
    ghost var kept := (now: Db, i: nat) requires i <= |items| => OnTrack(db, now, items, policy, attempts, i);
    forall now: Db, i: nat | i < |items| && kept(now, i)
      ensures act(now, i).1.Returned? && kept(act(now, i).0, i + 1)
    {
      UnhinderedTurn(db, now, items, policy, attempts, i);
    }
    ActsGetDone(db, act, kept, |items|);
  }

  /** In any reachable state an undisturbed call completes an unhindered batch. */
  lemma UnhinderedReplayCompletes(s: System, key: Key, attempts: nat -> Attempt)
    requires Inv(s) && key in s.db.batches && s.db.batches[key].digest.OfBatch?
    requires s.db.batches[key].response.None? && !s.db.batches[key].request.dryRun
    requires Unhindered(s.db, s.db.batches[key].request.items, s.db.batches[key].request.policy, attempts)
    ensures var (after, report) := Replays(s.db, key, attempts);
            report.Some? && key in after.batches && after.batches[key].response == report
  {
    var request := s.db.batches[key].request;
    AdmittedItemsAreApart(s, key);
    UnhinderedIsDone(s.db, request.items, request.policy, attempts);
    ReplayEnds(s.db, request.items, request.policy, attempts);
    ReplayCompletesExactly(s.db, key, attempts);
  }

  // ------------------------------------------------------------------ the input that fails

  /** An item that queues its work under the path, and is ready for it. */
  predicate QueuesAt(db: Db, item: Item, policy: int, path: string) {
    && item.task.Act? && item.task.task.mode == Queue && item.task.task.target == Some(path)
    && Ready(db, item, policy)
    && !(item.task.task.candidate in db.pins && db.pins[item.task.task.candidate].manual)
  }

  lemma QueueTakesPath(db: Db, item: Item, policy: int, path: string, attempt: Attempt)
    requires QueuesAt(db, item, policy, path) && attempt.first.None?
    requires !PinTaken(db.pins, CandidateOf(item.task), path)
    ensures var (after, answer) := Execute(db, item, policy, attempt);
            && answer.Returned? && CandidateOf(item.task) in after.pins
            && after.pins[CandidateOf(item.task)].path == path
            && after.inFlight == db.inFlight + {CandidateOf(item.task)}
            && after.pins - {CandidateOf(item.task)} == db.pins - {CandidateOf(item.task)}
  {
    FreshGoesOn(db, item, policy);
    EnqueuesExactly(db, item, policy, attempt);
    PinnedExactly(db, item.task.task);
  }

  lemma QueueBreaksOnPin(db: Db, item: Item, policy: int, path: string, attempt: Attempt)
    requires QueuesAt(db, item, policy, path) && PinTaken(db.pins, CandidateOf(item.task), path)
    ensures Execute(db, item, policy, attempt) == (db, Broken)
  {
    FreshGoesOn(db, item, policy);
    EnqueuesExactly(db, item, policy, attempt);
  }

  /** A batch of two unpacked works with one path: the first takes the path, the second breaks on it, and so
      it does in every later call; the batch has no report after any number of them. */
  lemma TwoItemsOneName(db: Db, key: Key, path: string, attempts: nat -> Attempt, later: nat -> Attempt)
    requires key in db.batches && db.batches[key].response.None? && !db.batches[key].request.dryRun
    requires var request := db.batches[key].request;
             && |request.items| == 2 && ItemsApart(request.items)
             && QueuesAt(db, request.items[0], request.policy, path)
             && QueuesAt(db, request.items[1], request.policy, path)
    requires attempts(0).first.None? && forall c | c in db.pins :: db.pins[c].path != path
    ensures var (after, report) := Replays(db, key, attempts);
            report.None? && key in after.batches && Replays(after, key, later) == (after, None)
  {
    var items, policy := db.batches[key].request.items, db.batches[key].request.policy;
    var (first, second) := (items[0], items[1]);
    var (middle, answer) := Execute(db, first, policy, attempts(0));
    QueueTakesPath(db, first, policy, path, attempts(0));
    ExecuteEndsExactly(db, first, policy, attempts(0), later(0));
    ExecuteIsLocal(db, first, policy, attempts(0), second);
    AlikeMeans(db, middle, second, policy);
    assert QueuesAt(middle, second, policy, path);
    QueueBreaksOnPin(middle, second, policy, path, attempts(1));
    QueueBreaksOnPin(middle, second, policy, path, later(1));
    StopsAtSecond(db, items, policy, attempts, middle);
    StopsAtSecond(middle, items, policy, later, middle);
  }

  lemma StopsAtSecond(db: Db, items: seq<Item>, policy: int, attempts: nat -> Attempt, middle: Db)
    requires |items| == 2
    requires Execute(db, items[0], policy, attempts(0)).0 == middle
             && Execute(db, items[0], policy, attempts(0)).1.Returned?
    requires Execute(middle, items[1], policy, attempts(1)) == (middle, Broken)
    ensures Replay(db, Executions(items, policy, attempts), 2) == (middle, Stopped(1, Broken))
  {
    ReplayStep(db, items, policy, attempts, 0);
    ReplayStep(db, items, policy, attempts, 1);
  }
}
