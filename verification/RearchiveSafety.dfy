/** What every run of the re-archive protocol keeps: any number of callers with one key, crashes
    between any two transactions, replays, and other writers in between. */
module RearchiveSafety {
  import opened Text
  import opened Rearchive
  import opened RearchiveBatch

  /** One `execute` call in progress: the request it took up and the outcomes it holds so far. */
  datatype Caller = Caller(key: Key, request: Request, children: seq<Child>)

  datatype System = System(db: Db, callers: map<nat, Caller>)

  /** Each step is one transaction of one caller, a crash of one caller, or a change by somebody else.
      The steps on an item apply to the first item the caller holds no outcome for. */
  datatype Step =
    | Start(caller: nat, key: Key, digest: Digest, plan: Plan)
    | DoEnqueue(caller: nat, attempt: Attempt)
    | DoPrepare(caller: nat, attempt: Attempt)
    | DoCommit(caller: nat, attempt: Attempt)
    | DoRefuse(caller: nat, error: Error)
    | Finish(caller: nat)
    | Crash(caller: nat)
    | Outside(db: Db)

  function NamedInPlan(plan: Plan, id: int): nat {
    TasksFor(plan.tasks, id) + SkipsFor(plan.skipped, id)
  }

  /** The library lists each work once, and then so does its plan (`Rearchive.PlanNamesWorksOnce`). */
  ghost predicate Planned(plan: Plan) {
    forall id :: NamedInPlan(plan, id) <= 1
  }

  /** The index of the pins: no two works are pinned at one path. */
  predicate PinsApart(pins: map<int, Pin>) {
    forall c | c in pins :: !PinTaken(pins, c, pins[c].path)
  }

  /** What other writers may do: anything the index of the pins lets pass, but touch re-archive batches,
      stored outcomes and the keys of items. */
  ghost predicate LeavesBatchesAlone(db: Db, after: Db) {
    && after.effects == db.effects
    && (PinsApart(db.pins) ==> PinsApart(after.pins))
    && (forall key :: key in db.batches && db.batches[key].digest.OfBatch? ==>
          key in after.batches && after.batches[key] == db.batches[key])
    && (forall key :: key in after.batches && after.batches[key].digest.OfBatch? ==>
          key in db.batches && after.batches[key] == db.batches[key])
    && (forall key :: key in db.receipts ==> key in after.receipts && after.receipts[key] == db.receipts[key])
    && (forall key :: key in db.refusals ==> key in after.refusals && after.refusals[key] == db.refusals[key])
    && (forall key: Key :: key.ForItem? && key in after.receipts ==> key in db.receipts)
    && (forall key: Key :: key.ForItem? && key in after.refusals ==> key in db.refusals)
    && (forall key: Key :: key.ForItem? && key in after.batches ==> key in db.batches)
  }

  function Current(s: System, caller: nat): Option<Item> {
    if caller in s.callers && !s.callers[caller].request.dryRun
       && |s.callers[caller].children| < |s.callers[caller].request.items|
    then Some(s.callers[caller].request.items[|s.callers[caller].children|])
    else None
  }

  /** The caller takes note of an outcome; an error or a step without one leaves it where it was. */
  function Noted(s: System, caller: nat, db: Db, answer: Answered): System
    requires caller in s.callers
  {
    var c := s.callers[caller];
    System(db, if answer.Returned? then s.callers[caller := c.(children := c.children + [answer.child])] else s.callers)
  }

  function ReportOf(c: Caller): Report {
    if c.request.dryRun then c.request.report else Assembled(c.request, c.children)
  }

  ghost function Next(s: System, step: Step): System {
    match step
    case Start(caller, key, digest, plan) =>
      if !key.Given? || !digest.OfBatch? || !Planned(plan) then s
      else
        var (db, row) := Begin(s.db, key, digest, plan);
        System(db, if row.Some? && row.value.response.None?
                   then s.callers[caller := Caller(key, row.value.request, [])]
                   else s.callers - {caller})
    case DoEnqueue(caller, attempt) =>
      (match Current(s, caller)
       case None => s
       case Some(item) =>
         if Moves(item) then s
         else
           var (db, answer) := Enqueue(s.db, item, s.callers[caller].request.policy, attempt);
           Noted(s, caller, db, answer))
    case DoPrepare(caller, attempt) =>
      (match Current(s, caller)
       case None => s
       case Some(item) =>
         var (db, answer) := Prepare(s.db, item, s.callers[caller].request.policy, attempt);
         Noted(s, caller, db, answer))
    case DoCommit(caller, attempt) =>
      (match Current(s, caller)
       case None => s
       case Some(item) =>
         if !Moves(item) then s
         else
           var (db, answer) := CommitMove(s.db, item, s.callers[caller].request.policy, attempt);
           Noted(s, caller, db, answer))
    case DoRefuse(caller, error) =>
      (match Current(s, caller)
       case None => s
       case Some(item) =>
         if error.code == RECOVERY then s
         else
           var (db, answer) := Refuse(s.db, item, s.callers[caller].request.policy, error);
           Noted(s, caller, db, answer))
    case Finish(caller) =>
      if caller !in s.callers || s.callers[caller].key !in s.db.batches
         || (Current(s, caller).Some?) then s
      else
        var (db, _) := Complete(s.db, s.callers[caller].key, ReportOf(s.callers[caller]));
        System(db, s.callers - {caller})
    case Crash(caller) => s.(callers := s.callers - {caller})
    case Outside(db) => if LeavesBatchesAlone(s.db, db) then s.(db := db) else s
  }

  ghost function Run(s: System, steps: seq<Step>): System
    decreases |steps|
  {
    if steps == [] then s else Run(Next(s, steps[0]), steps[1..])
  }

  // ------------------------------------------------------------------- invariants

  function OutcomeOf(db: Db, key: Key): Option<Child> {
    if key in db.receipts then Some(db.receipts[key].1)
    else if key in db.refusals then Some(db.refusals[key].1)
    else None
  }

  function EffectsOf(effects: seq<(Key, Child)>, key: Key): nat {
    if effects == [] then 0
    else EffectsOf(effects[..|effects| - 1], key) + if effects[|effects| - 1].0 == key then 1 else 0
  }

  /** A receipt and the effect it tells of go together, and exclude a refusal. */
  ghost predicate ExactlyOnce(db: Db, key: Key)
    requires key.ForItem?
  {
    && EffectsOf(db.effects, key) == (if key in db.receipts then 1 else 0)
    && !(key in db.receipts && key in db.refusals)
    && (OutcomeOf(db, key).Some? ==> OutcomeOf(db, key).value.row.candidate == key.candidate)
  }

  ghost predicate ItemsAreKeyed(request: Request, key: Key) {
    forall i | 0 <= i < |request.items| ::
      request.items[i].key == ForItem(key, CandidateOf(request.items[i].task))
  }

  function ItemsWith(items: seq<Item>, id: int): nat {
    if items == [] then 0
    else ItemsWith(items[..|items| - 1], id) + if CandidateOf(items[|items| - 1].task) == id then 1 else 0
  }

  /** The items and the skips that are kept stand for exactly the works the preview named, each once. */
  ghost predicate Balanced(request: Request) {
    forall id :: ItemsWith(request.items, id) + RowsOf(Kept(request.report.skipped, request.items), id)
                 == Named(request.report, id) <= 1
  }

  ghost predicate Answered(db: Db, request: Request, children: seq<Child>) {
    && |children| <= |request.items|
    && forall i | 0 <= i < |children| :: OutcomeOf(db, request.items[i].key) == Some(children[i])
  }

  ghost predicate CompletedRightly(db: Db, row: Batch, children: seq<Child>) {
    && Answered(db, row.request, children)
    && (!row.request.dryRun ==> |children| == |row.request.items|)
    && row.response == Some(if row.request.dryRun then row.request.report else Assembled(row.request, children))
  }

  ghost predicate RowOk(db: Db, key: Key) {
    key in db.batches && db.batches[key].digest.OfBatch? ==>
      && ItemsAreKeyed(db.batches[key].request, key)
      && Balanced(db.batches[key].request)
      && (db.batches[key].response.Some? ==> exists children :: CompletedRightly(db, db.batches[key], children))
  }

  ghost predicate CallerOk(s: System, caller: nat) {
    caller in s.callers ==>
      var c := s.callers[caller];
      && c.key in s.db.batches && s.db.batches[c.key].digest.OfBatch?
      && c.request == s.db.batches[c.key].request
      && Answered(s.db, c.request, c.children)
  }

  ghost predicate Inv(s: System) {
    && (forall key: Key :: key.ForItem? ==> ExactlyOnce(s.db, key))
    && (forall key :: RowOk(s.db, key))
    && (forall caller :: CallerOk(s, caller))
  }

  /** What one step leaves alone for good. */
  ghost predicate Stable(db: Db, after: Db) {
    && (forall key :: key in db.batches && db.batches[key].digest.OfBatch? ==>
          && key in after.batches
          && after.batches[key].digest == db.batches[key].digest
          && after.batches[key].request == db.batches[key].request
          && (db.batches[key].response.Some? ==> after.batches[key].response == db.batches[key].response))
    && (forall key :: key in db.receipts ==> key in after.receipts && after.receipts[key] == db.receipts[key])
    && (forall key :: key in db.refusals ==> key in after.refusals && after.refusals[key] == db.refusals[key])
    && |db.effects| <= |after.effects| && after.effects[..|db.effects|] == db.effects
  }

  // -------------------------------------------------------------- one item's transaction

  /** The only ways an item's transaction changes anything. */
  datatype Change = Nothing | Effect(child: Child) | Refusal(child: Child)

  ghost predicate Changed(db: Db, after: Db, item: Item, policy: int, change: Change) {
    && after.batches == db.batches
    && match change
       case Nothing => after.receipts == db.receipts && after.refusals == db.refusals && after.effects == db.effects
       case Effect(child) =>
         && OutcomeOf(db, item.key) == None
         && after.receipts == db.receipts[item.key := (OfItem(item, policy), child)]
         && after.refusals == db.refusals
         && after.effects == db.effects + [(item.key, child)]
         && child.row.candidate == CandidateOf(item.task)
       case Refusal(child) =>
         && OutcomeOf(db, item.key) == None
         && after.refusals == db.refusals[item.key := (OfItem(item, policy), child)]
         && after.receipts == db.receipts && after.effects == db.effects
         && child.row.candidate == CandidateOf(item.task)
  }

  lemma ReceiptIsOutcome(db: Db, item: Item, policy: int)
    ensures var found := Receipt(db, item.key, OfItem(item, policy));
            && (found.Returned? ==> OutcomeOf(db, item.key) == Some(found.child))
            && (found == GoOn ==> OutcomeOf(db, item.key) == None)
  {}

  lemma SaveChanges(db: Db, at: Db, item: Item, policy: int, child: Child)
    requires at.batches == db.batches && at.receipts == db.receipts && at.refusals == db.refusals
    requires at.effects == db.effects && OutcomeOf(db, item.key) == None
    requires child.row.candidate == CandidateOf(item.task)
    ensures Changed(db, Save(at, item, policy, child), item, policy, Effect(child))
    ensures OutcomeOf(Save(at, item, policy, child), item.key) == Some(child)
  {}

  lemma EnqueueChanges(db: Db, item: Item, policy: int, attempt: Attempt) returns (change: Change)
    ensures var (after, answer) := Enqueue(db, item, policy, attempt);
            && Changed(db, after, item, policy, change)
            && (answer.Returned? ==> OutcomeOf(after, item.key) == Some(answer.child))
  {
    ReceiptIsOutcome(db, item, policy);
    change := Nothing;
    if Inspect(db, item, policy) == GoOn && Enqueue(db, item, policy, attempt).1.Returned? {
      var child := Enqueue(db, item, policy, attempt).1.child;
      EnqueueSaves(db, item, policy, attempt);
      change := Effect(child);
      SaveChanges(db, WithJob(db, item, attempt), item, policy, child);
    } else {
      EnqueueOrNothing(db, item, policy, attempt);
    }
  }

  lemma EnqueueOrNothing(db: Db, item: Item, policy: int, attempt: Attempt)
    requires Inspect(db, item, policy) != GoOn || !Enqueue(db, item, policy, attempt).1.Returned?
    ensures Enqueue(db, item, policy, attempt).0 == db
    ensures Inspect(db, item, policy) != GoOn ==> Enqueue(db, item, policy, attempt).1 == Inspect(db, item, policy)
  {}

  lemma EnqueueSaves(db: Db, item: Item, policy: int, attempt: Attempt)
    requires Inspect(db, item, policy) == GoOn && Enqueue(db, item, policy, attempt).1.Returned?
    ensures item.task.Act? ==> Pinned(db.pins, item.task.task).Some?
    ensures var child := Enqueue(db, item, policy, attempt).1.child;
            && Enqueue(db, item, policy, attempt).0 == Save(WithJob(db, item, attempt), item, policy, child)
            && child.row.candidate == CandidateOf(item.task)
  {}

  lemma PrepareChanges(db: Db, item: Item, policy: int, attempt: Attempt) returns (change: Change)
    ensures var (after, answer) := Prepare(db, item, policy, attempt);
            && Changed(db, after, item, policy, change)
            && (answer.Returned? ==> OutcomeOf(after, item.key) == Some(answer.child))
  {
    change := Nothing;
  }

  lemma CommitChanges(db: Db, item: Item, policy: int, attempt: Attempt)
    returns (change: Change)
    requires item.task.Act?
    ensures var (after, answer) := CommitMove(db, item, policy, attempt);
            && Changed(db, after, item, policy, change)
            && (answer.Returned? ==> OutcomeOf(after, item.key) == Some(answer.child))
  {
    ReceiptIsOutcome(db, item, policy);
    change := Nothing;
    if Inspect(db, item, policy) == GoOn {
      var answer := CommitMove(db, item, policy, attempt).1;
      if answer.Returned? {
        change := Effect(answer.child);
        SaveChanges(db, WithMove(db, item, attempt), item, policy, answer.child);
      }
    }
  }

  lemma RefuseChanges(db: Db, item: Item, policy: int, error: Error) returns (change: Change)
    ensures var (after, answer) := Refuse(db, item, policy, error);
            && Changed(db, after, item, policy, change)
            && (answer.Returned? ==> OutcomeOf(after, item.key) == Some(answer.child))
  {
    var (after, answer) := Refuse(db, item, policy, error);
    change := if Receipt(db, item.key, OfItem(item, policy)) == GoOn then Refusal(answer.child) else Nothing;
  }

  lemma EffectsSnoc(effects: seq<(Key, Child)>, last: (Key, Child), key: Key)
    ensures EffectsOf(effects + [last], key) == EffectsOf(effects, key) + if last.0 == key then 1 else 0
  {
    assert (effects + [last])[..|effects|] == effects;
  }

  lemma ChangeKeepsExactlyOnce(db: Db, after: Db, item: Item, policy: int, change: Change, key: Key)
    requires Changed(db, after, item, policy, change) && key.ForItem? && ExactlyOnce(db, key)
    requires item.key.ForItem? && item.key.candidate == CandidateOf(item.task)
    ensures ExactlyOnce(after, key)
  {
    if change.Effect? {
      EffectsSnoc(db.effects, (item.key, change.child), key);
    }
  }

  /** An item's transaction keeps the invariant, and an outcome it returns is the stored one. */
  lemma ItemStepKeeps(s: System, caller: nat, after: Db, answer: RearchiveBatch.Answered, change: Change)
    requires Inv(s) && Current(s, caller).Some?
    requires var item := Current(s, caller).value;
             && Changed(s.db, after, item, s.callers[caller].request.policy, change)
             && (answer.Returned? ==> OutcomeOf(after, item.key) == Some(answer.child))
    ensures Inv(Noted(s, caller, after, answer)) && Stable(s.db, after)
  {
    var next := Noted(s, caller, after, answer);
    var item := Current(s, caller).value;
    assert CallerOk(s, caller) && RowOk(s.db, s.callers[caller].key);
    assert item.key.ForItem? && item.key.candidate == CandidateOf(item.task);
    OutcomesStay(s.db, after, item, s.callers[caller].request.policy, change);
    forall key: Key | key.ForItem?
      ensures ExactlyOnce(after, key)
    {
      ChangeKeepsExactlyOnce(s.db, after, item, s.callers[caller].request.policy, change, key);
    }
    forall key
      ensures RowOk(after, key)
    {
      assert RowOk(s.db, key);
      RowStays(s.db, after, key);
    }
    forall c
      ensures CallerOk(next, c)
    {
      assert CallerOk(s, c);
      if c in s.callers {
        AnsweredStays(s.db, after, s.callers[c].request, s.callers[c].children);
      }
    }
  }

  /** Outcomes that stay keep what a caller holds. */
  lemma AnsweredStays(db: Db, after: Db, request: Request, children: seq<Child>)
    requires Answered(db, request, children)
    requires forall key :: OutcomeOf(db, key).Some? ==> OutcomeOf(after, key) == OutcomeOf(db, key)
    ensures Answered(after, request, children)
  {}

  lemma OutcomesStay(db: Db, after: Db, item: Item, policy: int, change: Change)
    requires Changed(db, after, item, policy, change)
    ensures Stable(db, after)
    ensures forall key :: OutcomeOf(db, key).Some? ==> OutcomeOf(after, key) == OutcomeOf(db, key)
  {}

  lemma RowStays(db: Db, after: Db, key: Key)
    requires RowOk(db, key)
    requires key in after.batches && after.batches[key].digest.OfBatch? ==>
               key in db.batches && after.batches[key] == db.batches[key]
    requires forall k :: OutcomeOf(db, k).Some? ==> OutcomeOf(after, k) == OutcomeOf(db, k)
    ensures RowOk(after, key)
  {
    if key in after.batches && after.batches[key].digest.OfBatch? && after.batches[key].response.Some? {
      var children :| CompletedRightly(db, db.batches[key], children);
      assert CompletedRightly(after, after.batches[key], children);
    }
  }

  // ------------------------------------------------------------------ admitting a batch

  function TasksWith(tasks: seq<ItemTask>, id: int): nat {
    if tasks == [] then 0
    else TasksWith(tasks[..|tasks| - 1], id) + if CandidateOf(tasks[|tasks| - 1]) == id then 1 else 0
  }

  function ParksFor(skips: seq<Skip>, id: int): nat {
    if skips == [] then 0
    else ParksFor(skips[..|skips| - 1], id)
         + if skips[|skips| - 1].park && skips[|skips| - 1].candidate == id then 1 else 0
  }

  lemma {:induction false} TasksWithConcat(a: seq<ItemTask>, b: seq<ItemTask>, id: int)
    ensures TasksWith(a + b, id) == TasksWith(a, id) + TasksWith(b, id)
  {
    if b == [] {
      assert a + b == a;
    } else {
      assert (a + b)[..|a + b| - 1] == a + b[..|b| - 1];
      TasksWithConcat(a, b[..|b| - 1], id);
    }
  }

  lemma {:induction false} ActsCount(tasks: seq<Task>, id: int)
    ensures TasksWith(Acts(tasks), id) == TasksFor(tasks, id)
  {
    if tasks != [] {
      var front := tasks[..|tasks| - 1];
      ActsCount(front, id);
      assert Acts(tasks)[..|tasks| - 1] == Acts(front);
    }
  }

  lemma {:induction false} ParksCount(skips: seq<Skip>, id: int)
    ensures TasksWith(Parks(skips), id) == ParksFor(skips, id) <= SkipsFor(skips, id)
    ensures ParksFor(skips, id) > 0 <==> exists i | 0 <= i < |Parks(skips)| :: CandidateOf(Parks(skips)[i]) == id
    ensures forall i | 0 <= i < |Parks(skips)| :: Parks(skips)[i].Park?
  {
    if skips != [] {
      var front, last := skips[..|skips| - 1], skips[|skips| - 1];
      ParksCount(front, id);
      if last.park {
        assert Parks(skips)[..|Parks(front)|] == Parks(front) && Parks(skips)[|Parks(front)|] == Park(last);
        assert forall i | 0 <= i < |Parks(front)| :: Parks(skips)[i] == Parks(front)[i];
      } else {
        assert Parks(skips) == Parks(front);
      }
    }
  }

  lemma {:induction false} ItemsFollowTasks(db: Db, key: Key, tasks: seq<ItemTask>, id: int)
    requires ItemsFor(db, key, tasks).Some?
    ensures var items := ItemsFor(db, key, tasks).value;
            && |items| == |tasks|
            && (forall i | 0 <= i < |items| ::
                  items[i].task == tasks[i] && items[i].key == ForItem(key, CandidateOf(tasks[i])))
            && ItemsWith(items, id) == TasksWith(tasks, id)
  {
    if tasks != [] {
      var items := ItemsFor(db, key, tasks).value;
      ItemsFollowTasks(db, key, tasks[..|tasks| - 1], id);
      assert items[..|items| - 1] == ItemsFor(db, key, tasks[..|tasks| - 1]).value;
    }
  }

  ghost predicate ParkedItem(items: seq<Item>, id: int) {
    exists i | 0 <= i < |items| :: items[i].task.Park? && CandidateOf(items[i].task) == id
  }

  lemma {:induction false} KeptCounts(rows: seq<Row>, items: seq<Item>, id: int)
    ensures RowsOf(Kept(rows, items), id) == if ParkedItem(items, id) then 0 else RowsOf(rows, id)
  {
    if rows != [] {
      var front, last := rows[..|rows| - 1], rows[|rows| - 1];
      KeptCounts(front, items, id);
      if ParkedItem(items, last.candidate) {
        assert Kept(rows, items) == Kept(front, items);
      } else {
        RowsSnoc(Kept(front, items), last, id);
      }
    }
  }

  lemma {:induction false} PreviewSkips(plan: Plan, tasks: seq<Task>)
    ensures Filed(Blank(plan, true), tasks, PreviewReply).skipped == SkipRows(plan.skipped)
  {
    if tasks != [] {
      PreviewSkips(plan, tasks[..|tasks| - 1]);
    }
  }

  /** An admitted request stands for the works of its plan, each once. */
  lemma RequestIsBalanced(db: Db, key: Key, plan: Plan, dryRun: bool)
    requires Planned(plan) && RequestFor(db, key, plan, dryRun).Some?
    ensures var request := RequestFor(db, key, plan, dryRun).value;
            && ItemsAreKeyed(request, key) && Balanced(request)
            && forall id :: Named(request.report, id) == NamedInPlan(plan, id)
  {
    var request := RequestFor(db, key, plan, dryRun).value;
    ItemsFollowTasks(db, key, ItemTasks(plan), 0);
    forall id
      ensures ItemsWith(request.items, id) + RowsOf(Kept(request.report.skipped, request.items), id)
              == Named(request.report, id) == NamedInPlan(plan, id)
    {
      WorkIsBalanced(db, key, plan, request.items, id);
      PreviewSkips(plan, plan.tasks);
      ReportIsConservative(plan, PreviewReply, true, id);
    }
    assert forall id :: NamedInPlan(plan, id) <= 1;
  }

  lemma WorkIsBalanced(db: Db, key: Key, plan: Plan, items: seq<Item>, id: int)
    requires Planned(plan) && ItemsFor(db, key, ItemTasks(plan)) == Some(items)
    ensures ItemsWith(items, id) + RowsOf(Kept(SkipRows(plan.skipped), items), id) == NamedInPlan(plan, id)
  {
    ItemsFollowTasks(db, key, ItemTasks(plan), id);
    TasksWithConcat(Acts(plan.tasks), Parks(plan.skipped), id);
    ActsCount(plan.tasks, id);
    ParksCount(plan.skipped, id);
    KeptCounts(SkipRows(plan.skipped), items, id);
    SkipRowsKeepIds(plan.skipped, id);
    ParkedItemsAreParks(plan, items, id);
    assert NamedInPlan(plan, id) <= 1;
  }

  lemma ParkedItemsAreParks(plan: Plan, items: seq<Item>, id: int)
    requires |items| == |ItemTasks(plan)| && forall i | 0 <= i < |items| :: items[i].task == ItemTasks(plan)[i]
    ensures ParkedItem(items, id) <==> ParksFor(plan.skipped, id) > 0
  {
    ParksCount(plan.skipped, id);
    var n, parks := |plan.tasks|, Parks(plan.skipped);
    assert forall i | 0 <= i < n :: ItemTasks(plan)[i].Act?;
    assert forall i | 0 <= i < |parks| :: ItemTasks(plan)[n + i] == parks[i];
    if ParkedItem(items, id) {
      var i :| 0 <= i < |items| && items[i].task.Park? && CandidateOf(items[i].task) == id;
      assert CandidateOf(parks[i - n]) == id;
    }
    if i :| 0 <= i < |parks| && CandidateOf(parks[i]) == id {
      assert items[n + i].task == parks[i];
    }
  }

  // ------------------------------------------------------------------- the other steps

  lemma StartKeeps(s: System, caller: nat, key: Key, digest: Digest, plan: Plan)
    requires Inv(s) && digest.OfBatch? && Planned(plan)
    ensures var (db, row) := Begin(s.db, key, digest, plan);
            Inv(Next(s, Start(caller, key, digest, plan))) && Stable(s.db, db)
  {
    var (db, row) := Begin(s.db, key, digest, plan);
    var next := Next(s, Start(caller, key, digest, plan));
    if db != s.db {
      RequestIsBalanced(s.db, key, plan, digest.dryRun);
    }
    forall k
      ensures RowOk(db, k)
    {
      assert RowOk(s.db, k);
      if k in s.db.batches {
        RowStays(s.db, db, k);
      }
    }
    forall k: Key | k.ForItem?
      ensures ExactlyOnce(db, k)
    {
      assert ExactlyOnce(s.db, k);
    }
    forall c
      ensures CallerOk(next, c)
    {
      assert CallerOk(s, c);
    }
  }

  lemma FinishKeeps(s: System, caller: nat)
    requires Inv(s) && caller in s.callers && Current(s, caller).None?
    ensures Inv(Next(s, Finish(caller))) && Stable(s.db, Next(s, Finish(caller)).db)
  {
    var next := Next(s, Finish(caller));
    var c := s.callers[caller];
    assert CallerOk(s, caller);
    forall k
      ensures RowOk(next.db, k)
    {
      assert RowOk(s.db, k);
      if k == c.key && s.db.batches[k].response.None? {
        assert CompletedRightly(next.db, next.db.batches[k], c.children);
      } else {
        RowStays(s.db, next.db, k);
      }
    }
    forall k: Key | k.ForItem?
      ensures ExactlyOnce(next.db, k)
    {
      assert ExactlyOnce(s.db, k);
    }
    forall d
      ensures CallerOk(next, d)
    {
      assert CallerOk(s, d);
    }
  }

  lemma OutsideKeeps(s: System, db: Db)
    requires Inv(s) && LeavesBatchesAlone(s.db, db)
    ensures Inv(s.(db := db)) && Stable(s.db, db)
  {
    OutcomesOutside(s.db, db);
    forall k
      ensures RowOk(db, k)
    {
      assert RowOk(s.db, k);
      if k in db.batches && db.batches[k].digest.OfBatch? && db.batches[k].response.Some? {
        var children :| CompletedRightly(s.db, s.db.batches[k], children);
        assert CompletedRightly(db, db.batches[k], children);
      }
    }
    forall k: Key | k.ForItem?
      ensures ExactlyOnce(db, k)
    {
      assert ExactlyOnce(s.db, k);
    }
    forall c
      ensures CallerOk(s.(db := db), c)
    {
      assert CallerOk(s, c);
      if c in s.callers {
        assert RowOk(s.db, s.callers[c].key);
      }
    }
  }

  lemma OutcomesOutside(db: Db, after: Db)
    requires LeavesBatchesAlone(db, after) && forall key: Key :: key.ForItem? ==> ExactlyOnce(db, key)
    ensures forall key: Key :: key.ForItem? ==> OutcomeOf(after, key) == OutcomeOf(db, key)
  {}

  lemma EnqueueKeeps(s: System, caller: nat, attempt: Attempt)
    requires Inv(s) && Current(s, caller).Some?
    ensures var next := Next(s, DoEnqueue(caller, attempt));
            Inv(next) && Stable(s.db, next.db)
  {
    var item, policy := Current(s, caller).value, s.callers[caller].request.policy;
    var change := EnqueueChanges(s.db, item, policy, attempt);
    var (db, answer) := Enqueue(s.db, item, policy, attempt);
    ItemStepKeeps(s, caller, db, answer, change);
  }

  lemma PrepareKeeps(s: System, caller: nat, attempt: Attempt)
    requires Inv(s) && Current(s, caller).Some?
    ensures var next := Next(s, DoPrepare(caller, attempt));
            Inv(next) && Stable(s.db, next.db)
  {
    var item, policy := Current(s, caller).value, s.callers[caller].request.policy;
    var change := PrepareChanges(s.db, item, policy, attempt);
    var (db, answer) := Prepare(s.db, item, policy, attempt);
    ItemStepKeeps(s, caller, db, answer, change);
  }

  lemma CommitKeeps(s: System, caller: nat, attempt: Attempt)
    requires Inv(s) && Current(s, caller).Some? && Current(s, caller).value.task.Act?
    ensures var next := Next(s, DoCommit(caller, attempt));
            Inv(next) && Stable(s.db, next.db)
  {
    var item, policy := Current(s, caller).value, s.callers[caller].request.policy;
    var change := CommitChanges(s.db, item, policy, attempt);
    var (db, answer) := CommitMove(s.db, item, policy, attempt);
    ItemStepKeeps(s, caller, db, answer, change);
  }

  lemma RefuseKeeps(s: System, caller: nat, error: Error)
    requires Inv(s) && Current(s, caller).Some?
    ensures var next := Next(s, DoRefuse(caller, error));
            Inv(next) && Stable(s.db, next.db)
  {
    var item, policy := Current(s, caller).value, s.callers[caller].request.policy;
    var change := RefuseChanges(s.db, item, policy, error);
    var (db, answer) := Refuse(s.db, item, policy, error);
    ItemStepKeeps(s, caller, db, answer, change);
  }

  /** Every step of every caller, and every change by others, keeps the invariant. */
  lemma StepKeeps(s: System, step: Step)
    requires Inv(s)
    ensures Inv(Next(s, step)) && Stable(s.db, Next(s, step).db)
  {
    match step
    case Start(caller, key, digest, plan) =>
      if digest.OfBatch? && Planned(plan) {
        StartKeeps(s, caller, key, digest, plan);
      }
    case DoEnqueue(caller, attempt) =>
      if Current(s, caller).Some? {
        EnqueueKeeps(s, caller, attempt);
      }
    case DoPrepare(caller, attempt) =>
      if Current(s, caller).Some? {
        PrepareKeeps(s, caller, attempt);
      }
    case DoCommit(caller, attempt) =>
      if Current(s, caller).Some? && Current(s, caller).value.task.Act? {
        CommitKeeps(s, caller, attempt);
      }
    case DoRefuse(caller, error) =>
      if Current(s, caller).Some? {
        RefuseKeeps(s, caller, error);
      }
    case Finish(caller) =>
      if caller in s.callers && s.callers[caller].key in s.db.batches && Current(s, caller).None? {
        FinishKeeps(s, caller);
      }
    case Crash(caller) =>
      forall c
        ensures CallerOk(Next(s, step), c)
      {
        assert CallerOk(s, c);
      }
    case Outside(db) =>
      if LeavesBatchesAlone(s.db, db) {
        OutsideKeeps(s, db);
      }
  }

  // --------------------------------------------------------------------- main results

  lemma EmptyHolds(db: Db)
    requires db.effects == [] && db.batches == map[]
    requires forall key: Key :: key.ForItem? ==> key !in db.receipts && key !in db.refusals
    ensures Inv(System(db, map[]))
  {}

  lemma {:induction false} RunKeeps(s: System, steps: seq<Step>)
    requires Inv(s)
    ensures Inv(Run(s, steps)) && Stable(s.db, Run(s, steps).db)
    decreases |steps|
  {
    if steps != [] {
      StepKeeps(s, steps[0]);
      RunKeeps(Next(s, steps[0]), steps[1..]);
    }
  }

  /** Over any run: an admitted batch never changes its items; an item takes effect at most once, and
      exactly once where it has a receipt; an item with a stored refusal never takes effect; an outcome
      once stored never changes. */
  lemma ExactlyOnceOverRuns(s: System, steps: seq<Step>, batch: Key, item: Key)
    requires Inv(s) && item.ForItem?
    ensures var end := Run(s, steps).db;
            && EffectsOf(end.effects, item) <= 1
            && (EffectsOf(end.effects, item) == 1 <==> item in end.receipts)
            && (item in s.db.refusals ==> EffectsOf(end.effects, item) == 0)
            && (OutcomeOf(s.db, item).Some? ==> OutcomeOf(end, item) == OutcomeOf(s.db, item))
            && (batch in s.db.batches && s.db.batches[batch].digest.OfBatch? ==>
                  batch in end.batches && end.batches[batch].request == s.db.batches[batch].request)
  {
    RunKeeps(s, steps);
    var end := Run(s, steps).db;
    assert ExactlyOnce(end, item) && ExactlyOnce(s.db, item);
  }

  /** A completed batch keeps its report over any run, and every caller that takes it up again with the
      same digest is given that report and nothing to do. */
  lemma CompletedBatchIsFinal(s: System, steps: seq<Step>, key: Key, plan: Plan)
    requires Inv(s) && key in s.db.batches && s.db.batches[key].digest.OfBatch?
    requires s.db.batches[key].response.Some?
    ensures var end := Run(s, steps).db;
            && key in end.batches && end.batches[key].response == s.db.batches[key].response
            && Begin(end, key, s.db.batches[key].digest, plan) == (end, Some(end.batches[key]))
  {
    RunKeeps(s, steps);
  }

  lemma {:induction false} AssembledNames(request: Request, children: seq<Child>, id: int)
    requires |children| <= |request.items|
    requires forall i | 0 <= i < |children| :: children[i].row.candidate == CandidateOf(request.items[i].task)
    ensures Named(Assembled(request, children), id)
            == RowsOf(Kept(request.report.skipped, request.items), id) + ItemsWith(request.items[..|children|], id)
  {
    if children != [] {
      var front, last := children[..|children| - 1], children[|children| - 1];
      AssembledNames(request, front, id);
      FileNamesOne(Assembled(request, front), last.category, last.row, id);
      assert request.items[..|children|][..|children| - 1] == request.items[..|front|];
    }
  }

  /** The report of a completed batch names each work exactly as often as the preview it was admitted
      with: once for every planned task, parked work and planned skip, in one category. */
  lemma CompletedReportIsConservative(s: System, key: Key, id: int)
    requires Inv(s) && key in s.db.batches && s.db.batches[key].digest.OfBatch?
    requires s.db.batches[key].response.Some?
    ensures Named(s.db.batches[key].response.value, id) == Named(s.db.batches[key].request.report, id) <= 1
  {
    assert RowOk(s.db, key);
    var row := s.db.batches[key];
    var children: seq<Child> :| CompletedRightly(s.db, row, children);
    if !row.request.dryRun {
      forall i | 0 <= i < |children|
        ensures children[i].row.candidate == CandidateOf(row.request.items[i].task)
      {
        var k := row.request.items[i].key;
        assert k == ForItem(key, CandidateOf(row.request.items[i].task));
        assert ExactlyOnce(s.db, k);
      }
      AssembledNames(row.request, children, id);
      assert row.request.items[..|children|] == row.request.items;
    }
  }
}
