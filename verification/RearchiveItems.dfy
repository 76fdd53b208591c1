/** One item of a re-archive batch: exactly when it takes effect, and when its journal row is left behind. */
module RearchiveItems {
  import opened Text
  import opened Rearchive
  import opened RearchiveBatch
  import opened RearchiveSafety

  /** The item has no outcome yet and the work, the path settings and the AI answer are as admitted. */
  predicate Fresh(db: Db, item: Item, policy: int) {
    var candidate := CandidateOf(item.task);
    && item.key !in db.receipts && item.key !in db.refusals && item.key !in db.batches
    && candidate in db.versions && db.versions[candidate] == (item.workId, item.revision)
    && db.policy == policy
    && Lookup(db.answers, candidate) == item.answer
  }

  /** The effect of an item is on the work it was admitted for, as it was admitted: it is recorded with
      its receipt, and the work is at a later version, raised by the triggers or else by one. */
  predicate TookEffect(db: Db, after: Db, item: Item, policy: int, attempt: Attempt, child: Child) {
    && after.effects == db.effects + [(item.key, child)]
    && after.receipts == db.receipts[item.key := (OfItem(item, policy), child)]
    && after.versions == db.versions[CandidateOf(item.task) :=
                           (item.workId, item.revision + if attempt.bumps > 0 then attempt.bumps else 1)]
    && after == db.(effects := after.effects, receipts := after.receipts, versions := after.versions,
                    pins := after.pins, journal := after.journal, inFlight := after.inFlight)
  }

  lemma FreshGoesOn(db: Db, item: Item, policy: int)
    ensures Inspect(db, item, policy) == GoOn <==> Fresh(db, item, policy)
  {}

  lemma SaveTakesEffect(db: Db, at: Db, item: Item, policy: int, attempt: Attempt, child: Child)
    requires Fresh(db, item, policy)
    requires at.batches == db.batches && at.receipts == db.receipts && at.refusals == db.refusals
    requires at.effects == db.effects && at.versions == db.versions
    requires at == db.(pins := at.pins, journal := at.journal, inFlight := at.inFlight)
    ensures var saved := Save(Bumped(at, CandidateOf(item.task), attempt.bumps), item, policy, child);
            && TookEffect(db, saved, item, policy, attempt, child)
            && saved.pins == at.pins && saved.journal == at.journal && saved.inFlight == at.inFlight
  {}

  // ------------------------------------------------------------------------- queueing

  /** The task is to pin its work at the path of another one. A pin chosen by hand is left as it is. */
  predicate PinClash(db: Db, task: Task) {
    && task.target.Some?
    && (task.clearPin || !(task.candidate in db.pins && db.pins[task.candidate].manual))
    && PinTaken(db.pins, task.candidate, task.target.value)
  }

  lemma PinnedExactly(db: Db, task: Task)
    ensures Pinned(db.pins, task).None? <==> PinClash(db, task)
    ensures Pinned(db.pins, task).Some? ==>
              var pins := Pinned(db.pins, task).value;
              && pins - {task.candidate} == db.pins - {task.candidate}
              && (task.candidate in pins && pins[task.candidate].manual ==>
                    task.candidate in db.pins && pins[task.candidate] == db.pins[task.candidate] && !task.clearPin)
              && (task.target.Some? && !(task.candidate in pins && pins[task.candidate].manual) ==>
                    task.candidate in pins && pins[task.candidate].path == task.target.value)
  {
    var kept := if task.clearPin then db.pins - {task.candidate} else db.pins;
    assert kept - {task.candidate} == db.pins - {task.candidate};
    if task.target.Some? {
      var path := task.target.value;
      assert PinTaken(kept, task.candidate, path) <==> PinTaken(db.pins, task.candidate, path) by {
        if c :| c in db.pins && c != task.candidate && db.pins[c].path == path {
          assert c in kept && kept[c].path == path;
        }
      }
      assert kept[task.candidate := Pin(path, false)] - {task.candidate} == db.pins - {task.candidate};
    }
  }

  /** Nothing of its own keeps an item from being queued or parked. */
  predicate Ready(db: Db, item: Item, policy: int) {
    && Fresh(db, item, policy)
    && CandidateOf(item.task) !in db.journal && CandidateOf(item.task) !in db.inFlight
    && (item.task.Act? ==> item.artifact.Some?)
  }

  /** An enqueueing or parking takes effect exactly if the item is fresh, no move or job of the work is
      under way, what is to be packed exists, its pin clashes with nobody's and nothing else is in the way.
      Otherwise it leaves everything as it was; and it ends in an error that nobody handles exactly if the
      pins clash or an obstacle without a code comes up. */
  lemma EnqueuesExactly(db: Db, item: Item, policy: int, attempt: Attempt)
    ensures var (after, answer) := Enqueue(db, item, policy, attempt);
            var clash := item.task.Act? && PinClash(db, item.task.task);
            && (if Ready(db, item, policy) && !clash && attempt.first.None?
                then
                  && answer.Returned? && TookEffect(db, after, item, policy, attempt, answer.child)
                  && after.journal == db.journal
                  && after.inFlight == (if item.task.Park? then db.inFlight else db.inFlight + {CandidateOf(item.task)})
                  && Some(after.pins) == (if item.task.Park? then Some(db.pins) else Pinned(db.pins, item.task.task))
                else after == db)
            && (answer == Broken <==> Ready(db, item, policy) && (clash || attempt.first == Some(Uncoded)))
  {
    FreshGoesOn(db, item, policy);
    if item.task.Act? {
      PinnedExactly(db, item.task.task);
    }
    if Ready(db, item, policy) && attempt.first.None? && !(item.task.Act? && PinClash(db, item.task.task)) {
      EnqueueSaves(db, item, policy, attempt);
      var at := if item.task.Park? then db
                else db.(pins := Pinned(db.pins, item.task.task).value,
                         inFlight := db.inFlight + {CandidateOf(item.task)});
      SaveTakesEffect(db, at, item, policy, attempt, Enqueue(db, item, policy, attempt).1.child);
    }
  }

  // ---------------------------------------------------------------------------- moving

  /** An outcome of this very item is stored: a receipt, or else a refusal, under its digest. */
  predicate HasOutcome(db: Db, item: Item, policy: int) {
    if item.key in db.receipts then db.receipts[item.key].0 == OfItem(item, policy)
    else item.key in db.refusals && db.refusals[item.key].0 == OfItem(item, policy)
  }

  /** Something is in the way of the second half of a move. */
  predicate Hindered(db: Db, item: Item, attempt: Attempt) {
    attempt.second.Some? || PinTaken(db.pins, CandidateOf(item.task), attempt.path)
  }

  /** The second half of a move takes effect exactly if the item is still fresh and nothing is in the way,
      another work's pin included. It changes nothing if an outcome is stored by then or its file cannot be
      put back, and otherwise gives up only its journal row. */
  lemma MovesExactly(db: Db, item: Item, policy: int, attempt: Attempt)
    requires item.task.Act?
    ensures var (after, answer) := CommitMove(db, item, policy, attempt);
            var candidate := CandidateOf(item.task);
            var closed := if attempt.renames then db.journal - {candidate} else db.journal;
            if Fresh(db, item, policy) && !Hindered(db, item, attempt) then
              && answer.Returned? && TookEffect(db, after, item, policy, attempt, answer.child)
              && after.journal == closed && after.inFlight == db.inFlight
              && after.pins == db.pins[candidate := Pin(attempt.path, false)]
            else
              after == if HasOutcome(db, item, policy) || (Fresh(db, item, policy) && !attempt.restored) then db
                       else db.(journal := closed)
  {
    FreshGoesOn(db, item, policy);
    if Fresh(db, item, policy) && !Hindered(db, item, attempt) {
      var candidate := CandidateOf(item.task);
      var at := Closed(db, candidate, attempt).(pins := db.pins[candidate := Pin(attempt.path, false)]);
      SaveTakesEffect(db, at, item, policy, attempt, CommitMove(db, item, policy, attempt).1.child);
    }
  }

  /** The journal row of a rename outlives its second half exactly if an outcome of the item is stored
      when that begins, or something is in the way and the file cannot be put back. */
  lemma JournalRowStaysExactly(db: Db, item: Item, policy: int, attempt: Attempt)
    requires item.task.Act? && attempt.renames && CandidateOf(item.task) in db.journal
    ensures CandidateOf(item.task) in CommitMove(db, item, policy, attempt).0.journal
            <==> || HasOutcome(db, item, policy)
                 || (Fresh(db, item, policy) && Hindered(db, item, attempt) && !attempt.restored)
  {
    MovesExactly(db, item, policy, attempt);
  }

  /** The state a caller's rename is in between its two halves: prepared in `s`, with any steps of anybody
      in between, and nobody has resolved its journal row. */
  ghost predicate Underway(s: System, between: seq<Step>, caller: nat, item: Item, attempt: Attempt) {
    && Current(s, caller) == Some(item) && Moves(item) && attempt.renames
    && Prepare(s.db, item, s.callers[caller].request.policy, attempt).1 == GoOn
    && var now := Run(Next(s, DoPrepare(caller, attempt)), between);
       && Current(now, caller) == Some(item)
       && now.callers[caller].request == s.callers[caller].request
       && CandidateOf(item.task) in now.db.journal
  }

  /** In any run the journal row of a caller that was not interrupted stays behind exactly if somebody
      stored an outcome of the item between its two halves, or the file is stuck at its new place. With
      nobody in between, only the latter can be. */
  lemma PreparedRowStaysExactly(s: System, between: seq<Step>, caller: nat, item: Item, attempt: Attempt)
    requires Underway(s, between, caller, item, attempt)
    ensures var policy := s.callers[caller].request.policy;
            var now := Run(Next(s, DoPrepare(caller, attempt)), between);
            var after := Next(now, DoCommit(caller, attempt));
            var lost := Fresh(now.db, item, policy) && Hindered(now.db, item, attempt) && !attempt.restored;
            && !HasOutcome(s.db, item, policy)
            && (CandidateOf(item.task) in after.db.journal <==> HasOutcome(now.db, item, policy) || lost)
            && (between == [] ==> (CandidateOf(item.task) in after.db.journal <==> lost))
  {
    var policy := s.callers[caller].request.policy;
    var now := Run(Next(s, DoPrepare(caller, attempt)), between);
    JournalRowStaysExactly(now.db, item, policy, attempt);
    FreshGoesOn(s.db, item, policy);
    assert Fresh(s.db, item, policy);
    if between == [] {
      assert now.db.receipts == s.db.receipts && now.db.refusals == s.db.refusals;
    }
  }

  /** The input that fails: a rename is prepared, a concurrent copy of its item is refused, and the rename
      gives up with that refusal. Its row locks the work for every later move. */
  lemma RefusedMoveLeavesItsJournal(db: Db, item: Item, policy: int, error: Error, attempt: Attempt)
    requires item.task.Act? && Inspect(db, item, policy) == GoOn && CandidateOf(item.task) !in db.journal
    requires attempt.renames && attempt.first.None?
    ensures var prepared := Prepare(db, item, policy, attempt).0;
            var refused := Refuse(prepared, item, policy, error).0;
            var (after, answer) := CommitMove(refused, item, policy, attempt);
            && answer.Returned? && after == refused
            && CandidateOf(item.task) in after.journal
            && (forall other: Item, later: Attempt ::
                  other.task == item.task && Inspect(after, other, policy) == GoOn ==>
                    Prepare(after, other, policy, later).1 == Raised(Error(RECOVERY, "file move unfinished")))
  {
    var refused := Refuse(Prepare(db, item, policy, attempt).0, item, policy, error).0;
    RefusedMeanwhile(db, item, policy, error, attempt);
    OutcomeEndsMove(refused, item, policy, attempt);
    forall other: Item, later: Attempt | other.task == item.task && Inspect(refused, other, policy) == GoOn
      ensures Prepare(refused, other, policy, later).1 == Raised(Error(RECOVERY, "file move unfinished"))
    {
      JournalLocks(refused, other, policy, later);
    }
  }

  lemma RefusedMeanwhile(db: Db, item: Item, policy: int, error: Error, attempt: Attempt)
    requires Inspect(db, item, policy) == GoOn && CandidateOf(item.task) !in db.journal
    requires attempt.renames && attempt.first.None?
    ensures var refused := Refuse(Prepare(db, item, policy, attempt).0, item, policy, error).0;
            HasOutcome(refused, item, policy) && CandidateOf(item.task) in refused.journal
  {
    var prepared := db.(journal := db.journal + {CandidateOf(item.task)});
    assert Prepare(db, item, policy, attempt) == (prepared, GoOn);
  }

  lemma OutcomeEndsMove(db: Db, item: Item, policy: int, attempt: Attempt)
    requires item.task.Act? && HasOutcome(db, item, policy)
    ensures CommitMove(db, item, policy, attempt).1.Returned? && CommitMove(db, item, policy, attempt).0 == db
  {}

  lemma JournalLocks(db: Db, item: Item, policy: int, attempt: Attempt)
    requires Inspect(db, item, policy) == GoOn && CandidateOf(item.task) in db.journal
    ensures Prepare(db, item, policy, attempt).1 == Raised(Error(RECOVERY, "file move unfinished"))
  {}

  // ---------------------------------------------------------------------- pins stay apart

  lemma OnePinKeepsApart(pins: map<int, Pin>, candidate: int, path: string)
    requires PinsApart(pins) && !PinTaken(pins, candidate, path)
    ensures PinsApart(pins[candidate := Pin(path, false)])
  {
    var after := pins[candidate := Pin(path, false)];
    forall c, d | c in after && d in after && c != d
      ensures after[c].path != after[d].path
    {
      assert d != candidate && c != candidate ==> !PinTaken(pins, c, pins[c].path);
    }
  }

  lemma PinnedKeepsApart(pins: map<int, Pin>, task: Task)
    requires PinsApart(pins) && Pinned(pins, task).Some?
    ensures PinsApart(Pinned(pins, task).value)
  {
    var kept := if task.clearPin then pins - {task.candidate} else pins;
    assert PinsApart(kept) by {
      forall c | c in kept
        ensures !PinTaken(kept, c, kept[c].path)
      {
        assert !PinTaken(pins, c, pins[c].path);
      }
    }
    if task.target.Some? && !PinTaken(kept, task.candidate, task.target.value) {
      OnePinKeepsApart(kept, task.candidate, task.target.value);
    }
  }

  lemma StepKeepsPinsApart(s: System, step: Step)
    requires PinsApart(s.db.pins)
    ensures PinsApart(Next(s, step).db.pins)
  {
    match step
    case DoEnqueue(caller, attempt) =>
      if Current(s, caller).Some? {
        EnqueueKeepsPinsApart(s.db, Current(s, caller).value, s.callers[caller].request.policy, attempt);
      }
    case DoCommit(caller, attempt) =>
      if Current(s, caller).Some? && Moves(Current(s, caller).value) {
        MoveKeepsPinsApart(s.db, Current(s, caller).value, s.callers[caller].request.policy, attempt);
      }
    case _ =>
  }

  lemma EnqueueKeepsPinsApart(db: Db, item: Item, policy: int, attempt: Attempt)
    requires PinsApart(db.pins)
    ensures PinsApart(Enqueue(db, item, policy, attempt).0.pins)
  {
    if item.task.Act? && Pinned(db.pins, item.task.task).Some? {
      PinnedKeepsApart(db.pins, item.task.task);
    }
  }

  lemma MoveKeepsPinsApart(db: Db, item: Item, policy: int, attempt: Attempt)
    requires PinsApart(db.pins) && item.task.Act?
    ensures PinsApart(CommitMove(db, item, policy, attempt).0.pins)
  {
    if !PinTaken(db.pins, CandidateOf(item.task), attempt.path) {
      OnePinKeepsApart(db.pins, CandidateOf(item.task), attempt.path);
    }
  }

  /** In no run are two works pinned at one path. */
  lemma {:induction false} PinsStayApart(s: System, steps: seq<Step>)
    requires PinsApart(s.db.pins)
    ensures PinsApart(Run(s, steps).db.pins)
    decreases |steps|
  {
    if steps != [] {
      StepKeepsPinsApart(s, steps[0]);
      PinsStayApart(Next(s, steps[0]), steps[1..]);
    }
  }
}
