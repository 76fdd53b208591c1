/** The items a batch is admitted with, and what becomes of each when the batch is executed. */
module RearchiveAdmission {
  import opened Text
  import opened Rearchive
  import opened RearchiveBatch
  import opened RearchiveSafety
  import opened RearchiveItems
  import opened RearchiveReplays

  // ------------------------------------------------------------------------ admission

  /** An item is its work's as the tables are: id and revision, AI answer, and the archive for a work to be
      packed, or the CBZ for any other. */
  predicate ItemAsIs(db: Db, key: Key, item: Item) {
    var c := CandidateOf(item.task);
    && item.key == ForItem(key, c)
    && c in db.versions && db.versions[c] == (item.workId, item.revision)
    && item.answer == (if c in db.answers then Some(db.answers[c]) else None)
    && item.artifact ==
       if item.task.Act? && item.task.task.mode == Queue
       then if c in db.archives then Some(db.archives[c]) else None
       else if c in db.cbzs then Some(db.cbzs[c]) else None
  }

  lemma {:induction false} ItemsAsTheyAre(db: Db, key: Key, tasks: seq<ItemTask>)
    ensures ItemsFor(db, key, tasks).Some? <==> forall t | t in tasks :: CandidateOf(t) in db.versions
    ensures ItemsFor(db, key, tasks).Some? ==>
              var items := ItemsFor(db, key, tasks).value;
              && |items| == |tasks|
              && forall i | 0 <= i < |items| :: items[i].task == tasks[i] && ItemAsIs(db, key, items[i])
  {
    if tasks != [] {
      var front, last := tasks[..|tasks| - 1], tasks[|tasks| - 1];
      ItemsAsTheyAre(db, key, front);
      assert tasks == front + [last];
      if ItemsFor(db, key, tasks).Some? {
        assert ItemAsIs(db, key, ItemFor(db, key, last));
      }
    }
  }

  lemma {:induction false} ParksAre(skips: seq<Skip>, t: ItemTask)
    ensures t in Parks(skips) <==> t.Park? && t.skip in skips && t.skip.park
  {
    if skips != [] {
      var front, last := skips[..|skips| - 1], skips[|skips| - 1];
      ParksAre(front, t);
      assert skips == front + [last];
    }
  }

  /** The tasks of a plan come first, in their order, and then the works to be parked. */
  lemma ItemTasksAre(plan: Plan)
    ensures var tasks := ItemTasks(plan);
            && |tasks| >= |plan.tasks|
            && (forall i | 0 <= i < |plan.tasks| :: tasks[i] == Act(plan.tasks[i]))
            && (forall i | |plan.tasks| <= i < |tasks| ::
                  tasks[i].Park? && tasks[i].skip in plan.skipped && tasks[i].skip.park)
            && (forall skip | skip in plan.skipped && skip.park :: Park(skip) in tasks)
  {
    var tasks, n := ItemTasks(plan), |plan.tasks|;
    forall i | n <= i < |tasks|
      ensures tasks[i].Park? && tasks[i].skip in plan.skipped && tasks[i].skip.park
    {
      assert tasks[i] == Parks(plan.skipped)[i - n];
      ParksAre(plan.skipped, tasks[i]);
    }
    forall skip | skip in plan.skipped && skip.park
      ensures Park(skip) in tasks
    {
      ParksAre(plan.skipped, Park(skip));
    }
  }

  /** Every work that the plan acts on or parks is there. */
  predicate AllThere(db: Db, plan: Plan) {
    && (forall t | t in plan.tasks :: t.candidate in db.versions)
    && (forall skip | skip in plan.skipped && skip.park :: skip.candidate in db.versions)
  }

  lemma AllThereIs(db: Db, plan: Plan)
    ensures AllThere(db, plan) <==> forall t | t in ItemTasks(plan) :: CandidateOf(t) in db.versions
  {
    ItemTasksAre(plan);
    var tasks := ItemTasks(plan);
    forall t | t in plan.tasks
      ensures Act(t) in tasks
    {
      var i :| 0 <= i < |plan.tasks| && plan.tasks[i] == t;
      assert tasks[i] == Act(t);
    }
    forall t | t in tasks && AllThere(db, plan)
      ensures CandidateOf(t) in db.versions
    {
      var i :| 0 <= i < |tasks| && tasks[i] == t;
      assert i < |plan.tasks| ==> plan.tasks[i] in plan.tasks;
    }
    forall t | t in plan.tasks && forall t | t in tasks :: CandidateOf(t) in db.versions
      ensures t.candidate in db.versions
    {
      assert CandidateOf(Act(t)) in db.versions;
    }
    forall skip | skip in plan.skipped && skip.park && forall t | t in tasks :: CandidateOf(t) in db.versions
      ensures skip.candidate in db.versions
    {
      assert CandidateOf(Park(skip)) in db.versions;
    }
  }

  /** A new key is admitted exactly if the settings are those the client saw, the key is not used and every
      planned work is still there. The batch then has an item for each task of the plan, in order, and for
      each work to be parked, every one of them as the tables are; and nothing else changes. */
  lemma AdmitsExactly(db: Db, key: Key, digest: Digest, plan: Plan)
    requires digest.OfBatch? && key !in db.batches
    ensures var (after, row) := Begin(db, key, digest, plan);
            && (row.Some? <==> && db.settings == digest.revision && key !in db.receipts && key !in db.refusals
                               && AllThere(db, plan))
            && (row.None? ==> after == db)
            && (row.Some? ==>
                  var request := row.value.request;
                  && after == db.(batches := db.batches[key := row.value])
                  && row.value.digest == digest && row.value.response.None?
                  && request.policy == db.policy && request.dryRun == digest.dryRun
                  && request.report == Filed(Blank(plan, true), plan.tasks, PreviewReply)
                  && |request.items| == |ItemTasks(plan)|
                  && (forall i | 0 <= i < |request.items| ::
                        request.items[i].task == ItemTasks(plan)[i] && ItemAsIs(db, key, request.items[i])))
  {
    ItemsAsTheyAre(db, key, ItemTasks(plan));
    AllThereIs(db, plan);
  }

  // ---------------------------------------------------------------- what one item comes to

  function TitleOf(item: Item): Option<string> {
    match item.task
    case Act(t) => t.title
    case Park(s) => s.title
  }

  function RefusedAs(item: Item, code: string, message: string): Child {
    Child(Skipped, Row(CandidateOf(item.task), TitleOf(item), None, None, None, code, message))
  }

  function IfCoded(item: Item, obstacle: Option<Obstacle>, otherwise: Child): Child {
    if obstacle.Some? && obstacle.value.Coded?
    then RefusedAs(item, obstacle.value.error.code, obstacle.value.error.message) else otherwise
  }

  /** The outcome of a fresh item that gets one: a move, a parking, a queueing or a filing again that is made,
      or the refusal that comes first. */
  function OutcomeFor(db: Db, item: Item, attempt: Attempt): Child {
    var c := CandidateOf(item.task);
    match item.task
    case Act(t) =>
      if t.mode == Move then
        IfCoded(item, attempt.first,
                IfCoded(item, attempt.second,
                        Child(if attempt.renames then Moved else Unchanged,
                              Row(c, t.title, t.current, Some(attempt.path), None, "", ""))))
      else if c in db.inFlight then RefusedAs(item, "PACK_IN_FLIGHT", "already queued")
      else if item.artifact.None? then RefusedAs(item, "ARTIFACT_REQUIRED", "no artifact")
      else
        IfCoded(item, attempt.first,
                Child(if t.mode == Refile then Refiling else Queued,
                      Row(c, t.title, t.current, t.target, Some(attempt.job), "", "")))
    case Park(skip) =>
      if c in db.inFlight then RefusedAs(item, "PACK_IN_FLIGHT", "already queued")
      else
        IfCoded(item, attempt.first,
                Child(Skipped, Row(c, skip.title, None, None, None, skip.code, skip.message)))
  }

  lemma RefusalIs(db: Db, item: Item, policy: int, error: Error)
    requires Receipt(db, item.key, OfItem(item, policy)) == GoOn
    ensures Refuse(db, item, policy, error).1 == Returned(RefusedAs(item, error.code, error.message))
  {}

  lemma CommitOutcome(db: Db, item: Item, policy: int, attempt: Attempt)
    requires Moves(item) && Fresh(db, item, policy) && attempt.first.None?
    requires !Grave(attempt.second)
    requires attempt.second.None? ==> !PinTaken(db.pins, CandidateOf(item.task), attempt.path)
    ensures var (after, answer) := CommitMove(db, item, policy, attempt);
            && (answer.Returned? ==> answer.child == OutcomeFor(db, item, attempt))
            && (!answer.Returned? ==>
                  && answer.Raised? && answer.error.code != RECOVERY
                  && Refuse(after, item, policy, answer.error).1 == Returned(OutcomeFor(db, item, attempt)))
  {
    FreshGoesOn(db, item, policy);
    MovesExactly(db, item, policy, attempt);
    if attempt.second.Some? {
      RefusalIs(CommitMove(db, item, policy, attempt).0, item, policy, attempt.second.value.error);
    }
  }

  lemma MoveOutcome(db: Db, item: Item, policy: int, attempt: Attempt)
    requires Moves(item) && Fresh(db, item, policy) && !MoveStuck(db, item, attempt)
    ensures Execute(db, item, policy, attempt).1 == Returned(OutcomeFor(db, item, attempt))
  {
    FreshGoesOn(db, item, policy);
    var (prepared, answer) := Prepare(db, item, policy, attempt);
    if answer == GoOn {
      PreparesOnly(db, item, policy, attempt);
      assert Fresh(prepared, item, policy);
      CommitOutcome(prepared, item, policy, attempt);
    } else {
      RefusalIs(prepared, item, policy, answer.error);
    }
  }

  lemma QueueOutcome(db: Db, item: Item, policy: int, attempt: Attempt)
    requires !Moves(item) && Fresh(db, item, policy) && !QueueStuck(db, item, attempt)
    ensures Execute(db, item, policy, attempt).1 == Returned(OutcomeFor(db, item, attempt))
  {
    FreshGoesOn(db, item, policy);
    EnqueuesExactly(db, item, policy, attempt);
    if item.task.Act? {
      PinnedExactly(db, item.task.task);
    }
    var (after, answer) := Enqueue(db, item, policy, attempt);
    if answer.Raised? {
      RefusalIs(db, item, policy, answer.error);
    }
  }

  /** A fresh item that gets an outcome gets the one its task, its artifact and the obstacles call for. */
  lemma OutcomeExactly(db: Db, item: Item, policy: int, attempt: Attempt)
    requires Fresh(db, item, policy) && Execute(db, item, policy, attempt).1.Returned?
    ensures Execute(db, item, policy, attempt).1.child == OutcomeFor(db, item, attempt)
  {
    ExecuteEndsExactly(db, item, policy, attempt, attempt);
    if Moves(item) {
      MoveOutcome(db, item, policy, attempt);
    } else {
      QueueOutcome(db, item, policy, attempt);
    }
  }

  /** An item whose work, settings or answer have changed since, and that has no outcome yet, is refused
      for that. */
  lemma StaleItemIsRefused(db: Db, item: Item, policy: int, attempt: Attempt)
    requires !Fresh(db, item, policy) && !HasOutcome(db, item, policy) && !KeyConflict(db, item, policy)
    ensures var answer := Execute(db, item, policy, attempt).1;
            && answer.Returned? && answer.child.category == Skipped
            && answer.child.row.candidate == CandidateOf(item.task)
            && answer.child.row.code
               == if CandidateOf(item.task) !in db.versions then "CANDIDATE_NOT_FOUND" else "REVISION_CONFLICT"
  {
    FreshGoesOn(db, item, policy);
    ReceiptExactly(db, item, policy);
    RefusalIs(db, item, policy, Inspect(db, item, policy).error);
  }

  // ---------------------------------------------------------------------- the item keys

  /** Outcomes under the key of an item are those of an admitted batch, and no batch has such a key. */
  ghost predicate Parented(db: Db) {
    && (forall key: Key | key.ForItem? && (key in db.receipts || key in db.refusals) ::
          key.batch in db.batches && db.batches[key.batch].digest.OfBatch?)
    && (forall key: Key | key.ForItem? :: key !in db.batches)
  }

  lemma ItemStepKeepsParents(s: System, caller: nat, after: Db, change: Change)
    requires Inv(s) && Current(s, caller).Some? && Parented(s.db)
    requires Changed(s.db, after, Current(s, caller).value, s.callers[caller].request.policy, change)
    ensures Parented(after)
  {
    var item, batch := Current(s, caller).value, s.callers[caller].key;
    assert CallerOk(s, caller) && RowOk(s.db, batch);
    assert item.key == ForItem(batch, CandidateOf(item.task));
  }

  lemma StepKeepsParents(s: System, step: Step)
    requires Inv(s) && Parented(s.db)
    ensures Parented(Next(s, step).db)
  {
    match step
    case DoEnqueue(caller, attempt) =>
      if Current(s, caller).Some? {
        var item, policy := Current(s, caller).value, s.callers[caller].request.policy;
        var change := EnqueueChanges(s.db, item, policy, attempt);
        ItemStepKeepsParents(s, caller, Enqueue(s.db, item, policy, attempt).0, change);
      }
    case DoPrepare(caller, attempt) =>
      if Current(s, caller).Some? {
        var item, policy := Current(s, caller).value, s.callers[caller].request.policy;
        var change := PrepareChanges(s.db, item, policy, attempt);
        ItemStepKeepsParents(s, caller, Prepare(s.db, item, policy, attempt).0, change);
      }
    case DoCommit(caller, attempt) =>
      if Current(s, caller).Some? && Moves(Current(s, caller).value) {
        var item, policy := Current(s, caller).value, s.callers[caller].request.policy;
        var change := CommitChanges(s.db, item, policy, attempt);
        ItemStepKeepsParents(s, caller, CommitMove(s.db, item, policy, attempt).0, change);
      }
    case DoRefuse(caller, error) =>
      if Current(s, caller).Some? {
        var item, policy := Current(s, caller).value, s.callers[caller].request.policy;
        var change := RefuseChanges(s.db, item, policy, error);
        ItemStepKeepsParents(s, caller, Refuse(s.db, item, policy, error).0, change);
      }
    case _ =>
  }

  /** In every run only admitted batches have outcomes of items. */
  lemma {:induction false} RunKeepsParents(s: System, steps: seq<Step>)
    requires Inv(s) && Parented(s.db)
    ensures Parented(Run(s, steps).db)
    decreases |steps|
  {
    if steps != [] {
      StepKeeps(s, steps[0]);
      StepKeepsParents(s, steps[0]);
      RunKeepsParents(Next(s, steps[0]), steps[1..]);
    }
  }

  // --------------------------------------------------------------- executed right after

  /** What the tables are when the turn of the `n`-th item comes, with nobody in between. */
  function AtTurn(db: Db, request: Request, attempts: nat -> Attempt, n: nat): Db {
    Replay(db, Executions(request.items, request.policy, attempts), n).0
  }

  /** Acts that keep a property keep it as long as they all end with an outcome. */
  lemma {:induction false} ActsKeep(db: Db, act: (Db, nat) -> (Db, RearchiveBatch.Answered),
                                    kept: (Db, nat) --> bool, n: nat)
    requires forall d: Db, i: nat | i <= n :: kept.requires(d, i)
    requires kept(db, 0) && Replay(db, act, n).1.AllDone?
    requires forall d: Db, i: nat | i < n && kept(d, i) :: kept(act(d, i).0, i + 1)
    ensures kept(Replay(db, act, n).0, n)
  {
    if n > 0 {
      ActsKeep(db, act, kept, n - 1);
      assert kept(act(Replay(db, act, n - 1).0, n - 1).0, n);
    }
  }

  lemma OnTrackSoFar(db: Db, items: seq<Item>, policy: int, attempts: nat -> Attempt, n: nat)
    requires n <= |items| && ItemsApart(items) && Replay(db, Executions(items, policy, attempts), n).1.AllDone?
    ensures OnTrack(db, Replay(db, Executions(items, policy, attempts), n).0, items, policy, attempts, n)
  {
    var act := Executions(items, policy, attempts);
    ghost var kept := (now: Db, i: nat) requires i <= |items| => OnTrack(db, now, items, policy, attempts, i);
    forall now: Db, i: nat | i < n && kept(now, i)
      ensures kept(act(now, i).0, i + 1)
    {
      StepStaysOnTrack(db, now, items, policy, attempts, i);
    }
    ActsKeep(db, act, kept, n);
  }

  lemma {:induction false} DoneBefore(db: Db, act: (Db, nat) -> (Db, RearchiveBatch.Answered), i: nat, n: nat)
    requires i <= n && Replay(db, act, n).1.AllDone?
    ensures Replay(db, act, i).1.AllDone?
    ensures i < n ==> |Replay(db, act, n).1.children| == n && act(Replay(db, act, i).0, i).1.Returned?
    ensures i < n ==> Replay(db, act, n).1.children[i] == act(Replay(db, act, i).0, i).1.child
  {
    if i < n {
      DoneBefore(db, act, i, n - 1);
      DoneCount(db, act, n);
      DoneCount(db, act, n - 1);
    }
  }

  lemma {:induction false} DoneCount(db: Db, act: (Db, nat) -> (Db, RearchiveBatch.Answered), n: nat)
    requires Replay(db, act, n).1.AllDone?
    ensures |Replay(db, act, n).1.children| == n
  {
    if n > 0 {
      DoneCount(db, act, n - 1);
    }
  }

  /** An admitted batch that is executed at once: the items are fresh when their turns come. */
  lemma AdmittedIsFresh(db: Db, key: Key, digest: Digest, plan: Plan, attempts: nat -> Attempt, i: nat)
    requires digest.OfBatch? && key !in db.batches && key.Given? && Parented(db) && RearchiveSafety.Planned(plan)
    requires Begin(db, key, digest, plan).1.Some?
    requires var (admitted, row) := Begin(db, key, digest, plan);
             i < |row.value.request.items|
             && Replay(admitted, Executions(row.value.request.items, row.value.request.policy, attempts), i).1.AllDone?
    ensures var (admitted, row) := Begin(db, key, digest, plan);
            var (item, now) := (row.value.request.items[i], AtTurn(admitted, row.value.request, attempts, i));
            && Fresh(now, item, row.value.request.policy)
            && (CandidateOf(item.task) in now.journal <==> CandidateOf(item.task) in db.journal)
            && (CandidateOf(item.task) in now.inFlight <==> CandidateOf(item.task) in db.inFlight)
  {
    var (admitted, row) := Begin(db, key, digest, plan);
    var request := row.value.request;
    AdmitsExactly(db, key, digest, plan);
    RequestIsApart(db, key, digest, plan);
    OnTrackSoFar(admitted, request.items, request.policy, attempts, i);
    AlikeMeans(admitted, AtTurn(admitted, request, attempts, i), request.items[i], request.policy);
    assert ItemAsIs(db, key, request.items[i]);
    assert Fresh(admitted, request.items[i], request.policy);
  }

  lemma RequestIsApart(db: Db, key: Key, digest: Digest, plan: Plan)
    requires digest.OfBatch? && key !in db.batches && RearchiveSafety.Planned(plan)
    requires Begin(db, key, digest, plan).1.Some?
    ensures ItemsApart(Begin(db, key, digest, plan).1.value.request.items)
  {
    var request := Begin(db, key, digest, plan).1.value.request;
    RequestIsBalanced(db, key, plan, digest.dryRun);
    forall i, j | 0 <= i < j < |request.items|
      ensures CandidateOf(request.items[i].task) != CandidateOf(request.items[j].task)
    {
      if CandidateOf(request.items[i].task) == CandidateOf(request.items[j].task) {
        ItemsCountTwice(request.items, i, j);
        assert false;
      }
    }
  }

  function RowsUnder(report: Report, category: Category): seq<Row> {
    match category
    case Queued => report.queued
    case Refiling => report.refiling
    case Moved => report.moved
    case Unchanged => report.inPlace
    case Skipped => report.skipped
  }

  /** The rows under every heading but the skips are those of the outcomes. */
  lemma {:induction false} AssembledTells(request: Request, children: seq<Child>, category: Category, r: Row)
    requires category != Skipped
    ensures r in RowsUnder(Assembled(request, children), category) <==> Child(category, r) in children
  {
    if children != [] {
      var front, last := children[..|children| - 1], children[|children| - 1];
      AssembledTells(request, front, category, r);
      FiledRows(Assembled(request, front), last.category, last.row, r);
      assert children == front + [last];
    }
  }

  /** The report is not one of a preview; its skips are those of the plan that no item stands for, and the
      outcomes that are refusals. */
  lemma {:induction false} AssembledSkips(request: Request, children: seq<Child>, r: Row)
    ensures var report := Assembled(request, children);
            && report.force == request.report.force && report.scanned == request.report.scanned && !report.dryRun
            && (r in report.skipped <==>
                  || Child(Skipped, r) in children
                  || (&& r in request.report.skipped
                      && !exists item | item in request.items ::
                            item.task.Park? && CandidateOf(item.task) == r.candidate))
  {
    if children == [] {
      KeptExactly(request.report.skipped, request.items, r);
    } else {
      var front, last := children[..|children| - 1], children[|children| - 1];
      AssembledSkips(request, front, r);
      FiledRows(Assembled(request, front), last.category, last.row, r);
      assert children == front + [last];
    }
  }

  lemma {:induction false} KeptExactly(rows: seq<Row>, items: seq<Item>, r: Row)
    ensures r in Kept(rows, items) <==>
            && r in rows
            && !exists item | item in items :: item.task.Park? && CandidateOf(item.task) == r.candidate
  {
    if rows != [] {
      var front, last := rows[..|rows| - 1], rows[|rows| - 1];
      KeptExactly(front, items, r);
      assert rows == front + [last];
      if i :| 0 <= i < |items| && items[i].task.Park? && CandidateOf(items[i].task) == last.candidate {
        assert items[i] in items;
      }
    }
  }

  lemma OutcomeNames(db: Db, item: Item, attempt: Attempt)
    ensures OutcomeFor(db, item, attempt).row.candidate == CandidateOf(item.task)
  {}

  /** The outcome of the `i`-th item of a batch that is executed right after its admission. */
  lemma AdmittedOutcome(db: Db, key: Key, digest: Digest, plan: Plan, attempts: nat -> Attempt, i: nat)
    requires digest.OfBatch? && key !in db.batches && key.Given? && Parented(db) && RearchiveSafety.Planned(plan)
    requires Begin(db, key, digest, plan).1.Some? && i < |Begin(db, key, digest, plan).1.value.request.items|
    requires var (admitted, row) := Begin(db, key, digest, plan);
             var items := row.value.request.items;
             Replay(admitted, Executions(items, row.value.request.policy, attempts), |items|).1.AllDone?
    ensures var (admitted, row) := Begin(db, key, digest, plan);
            var (request, items) := (row.value.request, row.value.request.items);
            var done := Replay(admitted, Executions(items, request.policy, attempts), |items|).1;
            && |done.children| == |items|
            && done.children[i] == OutcomeFor(AtTurn(admitted, request, attempts, i), items[i], attempts(i))
            && !Stuck(AtTurn(admitted, request, attempts, i), items[i], request.policy, attempts(i))
  {
    var (admitted, row) := Begin(db, key, digest, plan);
    var (request, items) := (row.value.request, row.value.request.items);
    DoneBefore(admitted, Executions(items, request.policy, attempts), i, |items|);
    AdmittedIsFresh(db, key, digest, plan, attempts, i);
    var now := AtTurn(admitted, request, attempts, i);
    OutcomeExactly(now, items[i], request.policy, attempts(i));
    ExecuteEndsExactly(now, items[i], request.policy, attempts(i), attempts(i));
  }

  /** A row of a work stands under a heading of the report exactly if it is the outcome of the work's item. */
  lemma OutcomeIsReported(request: Request, children: seq<Child>, category: Category, r: Row, i: nat)
    requires category != Skipped && i < |children| == |request.items| && ItemsApart(request.items)
    requires forall k | 0 <= k < |children| :: children[k].row.candidate == CandidateOf(request.items[k].task)
    requires r.candidate == CandidateOf(request.items[i].task)
    ensures r in RowsUnder(Assembled(request, children), category) <==> Child(category, r) == children[i]
  {
    AssembledTells(request, children, category, r);
    if Child(category, r) in children {
      var k :| 0 <= k < |children| && children[k] == Child(category, r);
      assert k == i;
    }
  }

  /** What the report tells of the work of an item, of a batch that is executed right after its admission. */
  lemma AdmittedIsReported(db: Db, key: Key, digest: Digest, plan: Plan, attempts: nat -> Attempt, i: nat,
                           category: Category, r: Row)
    requires digest.OfBatch? && !digest.dryRun && key !in db.batches && key.Given? && Parented(db)
    requires RearchiveSafety.Planned(plan) && Begin(db, key, digest, plan).1.Some?
    requires i < |Begin(db, key, digest, plan).1.value.request.items| && category != Skipped
    requires r.candidate == CandidateOf(Begin(db, key, digest, plan).1.value.request.items[i].task)
    ensures var (admitted, row) := Begin(db, key, digest, plan);
            var (item, now) := (row.value.request.items[i], AtTurn(admitted, row.value.request, attempts, i));
            var report := Replays(admitted, key, attempts).1;
            report.Some? ==>
              && !Stuck(now, item, row.value.request.policy, attempts(i))
              && (r in RowsUnder(report.value, category) <==> Child(category, r) == OutcomeFor(now, item, attempts(i)))
  {
    var (admitted, row) := Begin(db, key, digest, plan);
    var (request, items) := (row.value.request, row.value.request.items);
    AdmitsExactly(db, key, digest, plan);
    ReportIsAssembled(admitted, key, attempts);
    if Replays(admitted, key, attempts).1.Some? {
      var children := Replay(admitted, Executions(items, request.policy, attempts), |items|).1.children;
      RequestIsApart(db, key, digest, plan);
      OutcomesAreNamed(db, key, digest, plan, attempts);
      AdmittedOutcome(db, key, digest, plan, attempts, i);
      OutcomeIsReported(request, children, category, r, i);
    }
  }

  lemma ReportIsAssembled(db: Db, key: Key, attempts: nat -> Attempt)
    requires key in db.batches && db.batches[key].response.None? && !db.batches[key].request.dryRun
    ensures var request := db.batches[key].request;
            var done := Replay(db, Executions(request.items, request.policy, attempts), |request.items|).1;
            && (Replays(db, key, attempts).1.Some? <==> done.AllDone?)
            && (done.AllDone? ==> Replays(db, key, attempts).1 == Some(Assembled(request, done.children)))
  {
    var request := db.batches[key].request;
    ReplayEnds(db, request.items, request.policy, attempts);
  }

  lemma OutcomesAreNamed(db: Db, key: Key, digest: Digest, plan: Plan, attempts: nat -> Attempt)
    requires digest.OfBatch? && key !in db.batches && key.Given? && Parented(db) && RearchiveSafety.Planned(plan)
    requires Begin(db, key, digest, plan).1.Some?
    requires var (admitted, row) := Begin(db, key, digest, plan);
             var items := row.value.request.items;
             Replay(admitted, Executions(items, row.value.request.policy, attempts), |items|).1.AllDone?
    ensures var (admitted, row) := Begin(db, key, digest, plan);
            var (request, items) := (row.value.request, row.value.request.items);
            var children := Replay(admitted, Executions(items, request.policy, attempts), |items|).1.children;
            |children| == |items|
            && forall k | 0 <= k < |children| :: children[k].row.candidate == CandidateOf(items[k].task)
  {
    var (admitted, row) := Begin(db, key, digest, plan);
    var (request, items) := (row.value.request, row.value.request.items);
    DoneCount(admitted, Executions(items, request.policy, attempts), |items|);
    var children := Replay(admitted, Executions(items, request.policy, attempts), |items|).1.children;
    forall k: nat | k < |items|
      ensures children[k].row.candidate == CandidateOf(items[k].task)
    {
      AdmittedOutcome(db, key, digest, plan, attempts, k);
      OutcomeNames(AtTurn(admitted, request, attempts, k), items[k], attempts(k));
    }
  }

  /** Nothing is in the way of queueing the work or filing it again when its turn comes. */
  predicate WayIsFree(db: Db, now: Db, t: Task, attempt: Attempt) {
    t.candidate !in db.journal && t.candidate !in db.inFlight && !PinClash(now, t) && attempt.first.None?
  }

  /** A batch that is executed right after its admission and completes reports a task to queue under the
      queued works, and a task to file again under those, exactly if the work's archive, or its CBZ, is there
      and no journal row, job, pin or obstacle is in the way; and a task to move under the moved files, or
      those in their place, exactly if no obstacle is in the way of either half. */
  lemma AdmittedBatchReports(db: Db, key: Key, digest: Digest, plan: Plan, attempts: nat -> Attempt, i: nat, r: Row)
    requires digest.OfBatch? && !digest.dryRun && key !in db.batches && key.Given? && Parented(db)
    requires RearchiveSafety.Planned(plan) && Begin(db, key, digest, plan).1.Some?
    requires i < |plan.tasks| && r.candidate == plan.tasks[i].candidate
    ensures var (admitted, row) := Begin(db, key, digest, plan);
            var (t, report) := (plan.tasks[i], Replays(admitted, key, attempts).1);
            var free := WayIsFree(db, AtTurn(admitted, row.value.request, attempts, i), t, attempts(i));
            report.Some? ==>
              && (r in report.value.queued <==>
                    && t.mode == Queue && t.candidate in db.archives && free
                    && r == Row(t.candidate, t.title, t.current, t.target, Some(attempts(i).job), "", ""))
              && (r in report.value.refiling <==>
                    && t.mode == Refile && t.candidate in db.cbzs && free
                    && r == Row(t.candidate, t.title, t.current, t.target, Some(attempts(i).job), "", ""))
              && (r in report.value.moved <==>
                    && t.mode == Move && attempts(i).renames && attempts(i).first.None? && attempts(i).second.None?
                    && r == Row(t.candidate, t.title, t.current, Some(attempts(i).path), None, "", ""))
              && (r in report.value.inPlace <==>
                    && t.mode == Move && !attempts(i).renames && attempts(i).first.None? && attempts(i).second.None?
                    && r == Row(t.candidate, t.title, t.current, Some(attempts(i).path), None, "", ""))
  {
    var (admitted, row) := Begin(db, key, digest, plan);
    var request := row.value.request;
    AdmitsExactly(db, key, digest, plan);
    ItemTasksAre(plan);
    var (item, now) := (request.items[i], AtTurn(admitted, request, attempts, i));
    assert item.task == Act(plan.tasks[i]) && ItemAsIs(db, key, item);
    if Replays(admitted, key, attempts).1.Some? {
      AdmittedIsReported(db, key, digest, plan, attempts, i, Queued, r);
      AdmittedIsReported(db, key, digest, plan, attempts, i, Refiling, r);
      AdmittedIsReported(db, key, digest, plan, attempts, i, Moved, r);
      AdmittedIsReported(db, key, digest, plan, attempts, i, Unchanged, r);
      ReachedTurn(admitted, request, attempts, i);
      AdmittedIsFresh(db, key, digest, plan, attempts, i);
      ActOutcome(db, now, item, request.policy, attempts(i), r);
    }
  }

  lemma ReachedTurn(db: Db, request: Request, attempts: nat -> Attempt, i: nat)
    requires i <= |request.items|
    requires Replay(db, Executions(request.items, request.policy, attempts), |request.items|).1.AllDone?
    ensures Replay(db, Executions(request.items, request.policy, attempts), i).1.AllDone?
  {
    DoneBefore(db, Executions(request.items, request.policy, attempts), i, |request.items|);
  }

  /** The outcome of a task that is not stuck, by heading. */
  lemma ActOutcome(db: Db, now: Db, item: Item, policy: int, attempt: Attempt, r: Row)
    requires item.task.Act? && Fresh(now, item, policy) && !Stuck(now, item, policy, attempt)
    requires CandidateOf(item.task) in now.journal <==> CandidateOf(item.task) in db.journal
    requires CandidateOf(item.task) in now.inFlight <==> CandidateOf(item.task) in db.inFlight
    ensures var (t, outcome) := (item.task.task, OutcomeFor(now, item, attempt));
            var made := item.artifact.Some? && WayIsFree(db, now, t, attempt);
            && (Child(Queued, r) == outcome <==>
                  && t.mode == Queue && made
                  && r == Row(t.candidate, t.title, t.current, t.target, Some(attempt.job), "", ""))
            && (Child(Refiling, r) == outcome <==>
                  && t.mode == Refile && made
                  && r == Row(t.candidate, t.title, t.current, t.target, Some(attempt.job), "", ""))
            && (Child(Moved, r) == outcome <==>
                  && t.mode == Move && attempt.renames && attempt.first.None? && attempt.second.None?
                  && r == Row(t.candidate, t.title, t.current, Some(attempt.path), None, "", ""))
            && (Child(Unchanged, r) == outcome <==>
                  && t.mode == Move && !attempt.renames && attempt.first.None? && attempt.second.None?
                  && r == Row(t.candidate, t.title, t.current, Some(attempt.path), None, "", ""))
  {}
}
