/** A resumable whole-library re-archive: a fixed set of items and one receipt per item. */
module RearchiveBatch {
  import opened Text
  import opened Rearchive

  /** An idempotency key. The key of an item is a digest of its batch key and its candidate; digests
      are taken not to collide with each other or with a key a client makes up. */
  datatype Key = Given(text: string) | ForItem(batch: Key, candidate: int)

  datatype ItemTask = Act(task: Task) | Park(skip: Skip)

  function CandidateOf(task: ItemTask): int {
    match task
    case Act(t) => t.candidate
    case Park(s) => s.candidate
  }

  datatype Item = Item(
    task: ItemTask,
    workId: int,
    revision: int,
    artifact: Option<int>,
    answer: Option<int>,   // the AI path answer the plan was made on
    key: Key)

  datatype Request = Request(items: seq<Item>, policy: int, dryRun: bool, report: Report)

  datatype Digest =
    | OfBatch(revision: int, force: bool, dryRun: bool)
    | OfItem(item: Item, policy: int)
    | Foreign(n: int)

  /** What became of one item. */
  datatype Child = Child(category: Category, row: Row)

  /** Where a work must be filed; a row of `work_archive_paths`, which is unique by path. */
  datatype Pin = Pin(path: string, manual: bool)

  datatype Batch = Batch(digest: Digest, request: Request, response: Option<Report>)

  datatype Db = Db(
    batches: map<Key, Batch>,
    receipts: map<Key, (Digest, Child)>,
    refusals: map<Key, (Digest, Child)>,
    versions: map<int, (int, int)>,   // candidate -> work id and revision
    policy: int,
    settings: int,
    answers: map<int, int>,
    archives: map<int, int>,
    cbzs: map<int, int>,
    pins: map<int, Pin>,
    journal: set<int>,                // candidates with an unfinished file move
    inFlight: set<int>,               // candidates with a packing task
    effects: seq<(Key, Child)>)       // what was really done, in order

  datatype Error = Error(code: string, message: string)

  const RECOVERY := "PUBLICATION_RECOVERY_REQUIRED"

  /** `Broken` is an error without a code, which nobody handles. */
  datatype Answered = Returned(child: Child) | Raised(error: Error) | Broken | GoOn

  /** Whatever else is in the way of an effect. */
  datatype Obstacle = Coded(error: Error) | Uncoded

  function Blocked(obstacle: Obstacle): Answered {
    match obstacle
    case Coded(error) => Raised(error)
    case Uncoded => Broken
  }

  /** What the world answers when an item is executed: the job it queues; an obstacle in its transaction
      and, of a move, in the second one; whether the file is to be renamed, to which path, and can be put
      back if need be; and by how much the triggers raise the work's version with the effect. */
  datatype Attempt = Attempt(
    job: int,
    first: Option<Obstacle>,
    second: Option<Obstacle>,
    renames: bool,
    path: string,
    restored: bool,
    bumps: nat)

  // ------------------------------------------------------------ one item's transactions

  /** `WorkCommands._receipt`: receipts and refusals share one key space with batches. */
  function Receipt(db: Db, key: Key, digest: Digest): Answered {
    if key in db.receipts || key in db.refusals then
      var (stored, child) := if key in db.receipts then db.receipts[key] else db.refusals[key];
      if stored == digest then Returned(child) else Raised(Error("IDEMPOTENCY_CONFLICT", "key in use"))
    else if key in db.batches then Raised(Error("IDEMPOTENCY_CONFLICT", "key in use"))
    else GoOn
  }

  function Lookup(m: map<int, int>, candidate: int): Option<int> {
    if candidate in m then Some(m[candidate]) else None
  }

  /** `RearchiveItem.inspect`: a stored outcome, a reason to stop, or nothing in the way. */
  function Inspect(db: Db, item: Item, policy: int): Answered {
    var candidate := CandidateOf(item.task);
    var receipt := Receipt(db, item.key, OfItem(item, policy));
    if receipt != GoOn then receipt
    else if candidate !in db.versions then Raised(Error("CANDIDATE_NOT_FOUND", "no such work"))
    else if db.versions[candidate] != (item.workId, item.revision) then
      Raised(Error("REVISION_CONFLICT", "work changed"))
    else if db.policy != policy then Raised(Error("REVISION_CONFLICT", "path settings changed"))
    else if Lookup(db.answers, candidate) != item.answer then Raised(Error("REVISION_CONFLICT", "answer changed"))
    else GoOn
  }

  /** `_save`: the effect, the version bump and the receipt, in the transaction that has the effect. */
  function Save(db: Db, item: Item, policy: int, child: Child): Db {
    var candidate := CandidateOf(item.task);
    db.(versions := if candidate in db.versions && db.versions[candidate].1 == item.revision
                    then db.versions[candidate := (db.versions[candidate].0, item.revision + 1)]
                    else db.versions,
        receipts := db.receipts[item.key := (OfItem(item, policy), child)],
        effects := db.effects + [(item.key, child)])
  }

  /** The triggers on jobs, artifacts and pins raise the version of the work they touch. */
  function Bumped(db: Db, candidate: int, n: nat): Db {
    if candidate in db.versions
    then db.(versions := db.versions[candidate := (db.versions[candidate].0, db.versions[candidate].1 + n)])
    else db
  }

  /** Another work is pinned at the path. */
  predicate PinTaken(pins: map<int, Pin>, candidate: int, path: string) {
    exists c | c in pins :: c != candidate && pins[c].path == path
  }

  /** The pins once a task's own is dropped or written; None where the index refuses it. */
  function Pinned(pins: map<int, Pin>, task: Task): Option<map<int, Pin>> {
    var kept := if task.clearPin then pins - {task.candidate} else pins;
    if task.target.None? || (task.candidate in kept && kept[task.candidate].manual) then Some(kept)
    else if PinTaken(kept, task.candidate, task.target.value) then None
    else Some(kept[task.candidate := Pin(task.target.value, false)])
  }

  function QueuedChild(item: Item, job: int): Child
    requires item.task.Act?
  {
    var task := item.task.task;
    Child(if task.mode == Refile then Refiling else Queued,
          Row(task.candidate, task.title, task.current, task.target, Some(job), "", ""))
  }

  function MovedChild(item: Item, moved: bool, path: string): Child
    requires item.task.Act?
  {
    var task := item.task.task;
    Child(if moved then Moved else Unchanged,
          Row(task.candidate, task.title, task.current, Some(path), None, "", ""))
  }

  /** The tables with a parked work, or with a pinned and queued one, and not yet its receipt. */
  function WithJob(db: Db, item: Item, attempt: Attempt): Db
    requires item.task.Act? ==> Pinned(db.pins, item.task.task).Some?
  {
    var candidate := CandidateOf(item.task);
    match item.task
    case Park(_) => Bumped(db, candidate, attempt.bumps)
    case Act(task) =>
      Bumped(db.(pins := Pinned(db.pins, task).value, inFlight := db.inFlight + {candidate}), candidate, attempt.bumps)
  }

  /** The tables without the journal row of a move that renames. */
  function Closed(db: Db, candidate: int, attempt: Attempt): Db {
    if attempt.renames then db.(journal := db.journal - {candidate}) else db
  }

  /** The tables with a moved file, and not yet its receipt. */
  function WithMove(db: Db, item: Item, attempt: Attempt): Db {
    var candidate := CandidateOf(item.task);
    Bumped(Closed(db, candidate, attempt).(pins := db.pins[candidate := Pin(attempt.path, false)]), candidate,
           attempt.bumps)
  }

  /** `_enqueue`: park the work, or pin it and queue its packing or path-only job, all or nothing. */
  function Enqueue(db: Db, item: Item, policy: int, attempt: Attempt): (Db, Answered) {
    var candidate := CandidateOf(item.task);
    var found := Inspect(db, item, policy);
    if found != GoOn then (db, found)
    else if candidate in db.journal then (db, Raised(Error(RECOVERY, "file move unfinished")))
    else if candidate in db.inFlight then (db, Raised(Error("PACK_IN_FLIGHT", "already queued")))
    else
      match item.task
      case Park(skip) =>
        if attempt.first.Some? then (db, Blocked(attempt.first.value))
        else
          var child := Child(Skipped, SkipRow(skip));
          (Save(WithJob(db, item, attempt), item, policy, child), Returned(child))
      case Act(task) =>
        if item.artifact.None? then (db, Raised(Error("ARTIFACT_REQUIRED", "no artifact")))
        else if Pinned(db.pins, task).None? then (db, Broken)
        else if attempt.first.Some? then (db, Blocked(attempt.first.value))
        else
          var child := QueuedChild(item, attempt.job);
          (Save(WithJob(db, item, attempt), item, policy, child), Returned(child))
  }

  /** The first transaction of a file move: journal it if the file is to be renamed. */
  function Prepare(db: Db, item: Item, policy: int, attempt: Attempt): (Db, Answered) {
    var candidate := CandidateOf(item.task);
    var found := Inspect(db, item, policy);
    if found != GoOn then (db, found)
    else if candidate in db.journal then (db, Raised(Error(RECOVERY, "file move unfinished")))
    else if attempt.first.Some? then (db, Blocked(attempt.first.value))
    else if attempt.renames then (db.(journal := db.journal + {candidate}), GoOn)
    else (db, GoOn)
  }

  /** The second one: rename the file, unless it is in its place, and commit its record and pin with the
      receipt, or put it back. The journal row of a file that cannot be put back is kept for recovery,
      and so is the row of a move that finds a receipt stored meanwhile and returns it. */
  function CommitMove(db: Db, item: Item, policy: int, attempt: Attempt): (Db, Answered)
    requires item.task.Act?
  {
    var candidate := CandidateOf(item.task);
    var undone := if attempt.restored then Closed(db, candidate, attempt) else db;
    var found := Inspect(db, item, policy);
    if found.Returned? then (db, found)
    else if found.Raised? then (Closed(db, candidate, attempt), found)
    else if attempt.second.Some? then (undone, Blocked(attempt.second.value))
    else if PinTaken(db.pins, candidate, attempt.path) then (undone, Broken)
    else
      var child := MovedChild(item, attempt.renames, attempt.path);
      (Save(WithMove(db, item, attempt), item, policy, child), Returned(child))
  }

  /** `_refuse`: a coded error becomes the item's outcome, unless it has one by now. */
  function Refuse(db: Db, item: Item, policy: int, error: Error): (Db, Answered) {
    var digest := OfItem(item, policy);
    var receipt := Receipt(db, item.key, digest);
    if receipt != GoOn then (db, receipt)
    else
      var title := match item.task case Act(t) => t.title case Park(s) => s.title;
      var child := Child(Skipped, Row(CandidateOf(item.task), title, None, None, None, error.code, error.message));
      (db.(refusals := db.refusals[item.key := (digest, child)]), Returned(child))
  }

  // --------------------------------------------------------------- one item with nobody in between

  predicate Moves(item: Item) {
    item.task.Act? && item.task.task.mode == Move
  }

  /** The effect of an admitted item: a move in two transactions, anything else in one. */
  function Perform(db: Db, item: Item, policy: int, attempt: Attempt): (Db, Answered) {
    if Moves(item) then
      var (prepared, answer) := Prepare(db, item, policy, attempt);
      if answer == GoOn then CommitMove(prepared, item, policy, attempt) else (prepared, answer)
    else Enqueue(db, item, policy, attempt)
  }

  /** `RearchiveItem.execute`: a coded error becomes the outcome, except one that a concurrent copy may
      still resolve; any other error escapes. */
  function Execute(db: Db, item: Item, policy: int, attempt: Attempt): (Db, Answered) {
    var found := Inspect(db, item, policy);
    if found.Returned? then (db, found)
    else
      var (after, answer) := if found == GoOn then Perform(db, item, policy, attempt) else (db, found);
      if answer.Raised? && answer.error.code != RECOVERY then Refuse(after, item, policy, answer.error)
      else (after, answer)
  }

  /** The outcomes of the items so far, or the item whose error ended the call. */
  datatype Replayed = AllDone(children: seq<Child>) | Stopped(at: nat, why: Answered)

  /** The items of a batch, each with what the world answers it. */
  function Executions(items: seq<Item>, policy: int, attempts: nat -> Attempt): (Db, nat) -> (Db, Answered) {
    (db: Db, i: nat) => if i < |items| then Execute(db, items[i], policy, attempts(i)) else (db, GoOn)
  }

  /** The first `n` of some acts, one after the other, until one ends without an outcome. */
  function Replay(db: Db, act: (Db, nat) -> (Db, Answered), n: nat): (Db, Replayed) {
    if n == 0 then (db, AllDone([]))
    else
      var (before, done) := Replay(db, act, n - 1);
      if done.Stopped? then (before, done)
      else
        var (after, answer) := act(before, n - 1);
        (after, if answer.Returned? then AllDone(done.children + [answer.child]) else Stopped(n - 1, answer))
  }

  // -------------------------------------------------------------- the batch's transactions

  /** The tasks of a plan, and the works it parks. */
  function ItemTasks(plan: Plan): seq<ItemTask> {
    Acts(plan.tasks) + Parks(plan.skipped)
  }

  function Acts(tasks: seq<Task>): seq<ItemTask> {
    seq(|tasks|, i requires 0 <= i < |tasks| => Act(tasks[i]))
  }

  function Parks(skips: seq<Skip>): seq<ItemTask> {
    if skips == [] then []
    else Parks(skips[..|skips| - 1]) + if skips[|skips| - 1].park then [Park(skips[|skips| - 1])] else []
  }

  function ItemFor(db: Db, key: Key, task: ItemTask): Item
    requires CandidateOf(task) in db.versions
  {
    var candidate := CandidateOf(task);
    Item(task, db.versions[candidate].0, db.versions[candidate].1,
         Lookup(if task.Act? && task.task.mode == Queue then db.archives else db.cbzs, candidate),
         Lookup(db.answers, candidate), ForItem(key, candidate))
  }

  /** None where a planned work has been deleted meanwhile. */
  function ItemsFor(db: Db, key: Key, tasks: seq<ItemTask>): Option<seq<Item>> {
    if tasks == [] then Some([])
    else
      var front := ItemsFor(db, key, tasks[..|tasks| - 1]);
      if front.None? || CandidateOf(tasks[|tasks| - 1]) !in db.versions then None
      else Some(front.value + [ItemFor(db, key, tasks[|tasks| - 1])])
  }

  function RequestFor(db: Db, key: Key, plan: Plan, dryRun: bool): Option<Request> {
    var items := ItemsFor(db, key, ItemTasks(plan));
    if items.None? then None
    else Some(Request(items.value, db.policy, dryRun, Filed(Blank(plan, true), plan.tasks, PreviewReply)))
  }

  /** `_begin`: admit the batch, or take up the admitted one. */
  function Begin(db: Db, key: Key, digest: Digest, plan: Plan): (Db, Option<Batch>)
    requires digest.OfBatch?
  {
    if key in db.batches then
      (db, if db.batches[key].digest == digest then Some(db.batches[key]) else None)
    else if db.settings != digest.revision || key in db.receipts || key in db.refusals then (db, None)
    else
      var request := RequestFor(db, key, plan, digest.dryRun);
      if request.None? then (db, None)
      else
        var row := Batch(digest, request.value, None);
        (db.(batches := db.batches[key := row]), Some(row))
  }

  /** `_complete`: the first report wins. */
  function Complete(db: Db, key: Key, report: Report): (Db, Report)
    requires key in db.batches
  {
    match db.batches[key].response
    case Some(stored) => (db, stored)
    case None => (db.(batches := db.batches[key := db.batches[key].(response := Some(report))]), report)
  }

  /** `execute` of an admitted batch: the stored report, or the items and then the report; None where an
      item's error ends the call. */
  function Replays(db: Db, key: Key, attempts: nat -> Attempt): (Db, Option<Report>)
    requires key in db.batches
  {
    var row := db.batches[key];
    if row.response.Some? then (db, row.response)
    else if row.request.dryRun then
      var (after, report) := Complete(db, key, row.request.report);
      (after, Some(report))
    else
      var (after, done) := Replay(db, Executions(row.request.items, row.request.policy, attempts), |row.request.items|);
      if done.Stopped? || key !in after.batches then (after, None)
      else
        var (end, report) := Complete(after, key, Assembled(row.request, done.children));
        (end, Some(report))
  }

  // ------------------------------------------------------------------ assembling a report

  /** The planned skips that no item stands for. */
  function Kept(rows: seq<Row>, items: seq<Item>): seq<Row> {
    if rows == [] then []
    else
      Kept(rows[..|rows| - 1], items)
      + if exists i | 0 <= i < |items| ::
             items[i].task.Park? && CandidateOf(items[i].task) == rows[|rows| - 1].candidate
        then [] else [rows[|rows| - 1]]
  }

  function Opening(request: Request): Report {
    Report(request.report.force, false, request.report.scanned, [], [], [], [],
           Kept(request.report.skipped, request.items))
  }

  function Assembled(request: Request, children: seq<Child>): Report {
    if children == [] then Opening(request)
    else
      var last := children[|children| - 1];
      Assembled(request, children[..|children| - 1]).File(last.category, last.row)
  }

  // ------------------------------------------------------------------- the live code

  /** The tables behind the transactions above, updated in place. */
  class RearchiveStore {
    var batches: map<Key, Batch>
    var receipts: map<Key, (Digest, Child)>
    var refusals: map<Key, (Digest, Child)>
    var versions: map<int, (int, int)>
    var policy: int
    var settings: int
    var answers: map<int, int>
    var archives: map<int, int>
    var cbzs: map<int, int>
    var pins: map<int, Pin>
    var journal: set<int>
    var inFlight: set<int>
    ghost var effects: seq<(Key, Child)>

    ghost function Tables(): Db
      reads this
    {
      Db(batches, receipts, refusals, versions, policy, settings, answers, archives, cbzs, pins, journal, inFlight,
         effects)
    }

    method ReadReceipt(key: Key, digest: Digest) returns (found: Answered)
      ensures found == Receipt(Tables(), key, digest)
    {
      if key in receipts {
        found := if receipts[key].0 == digest then Returned(receipts[key].1)
                 else Raised(Error("IDEMPOTENCY_CONFLICT", "key in use"));
      } else if key in refusals {
        found := if refusals[key].0 == digest then Returned(refusals[key].1)
                 else Raised(Error("IDEMPOTENCY_CONFLICT", "key in use"));
      } else if key in batches {
        found := Raised(Error("IDEMPOTENCY_CONFLICT", "key in use"));
      } else {
        found := GoOn;
      }
    }

    method InspectItem(item: Item, expected: int) returns (found: Answered)
      ensures found == Inspect(Tables(), item, expected)
    {
      found := ReadReceipt(item.key, OfItem(item, expected));
      if found != GoOn {
        return;
      }
      var candidate := CandidateOf(item.task);
      if candidate !in versions {
        return Raised(Error("CANDIDATE_NOT_FOUND", "no such work"));
      }
      if versions[candidate] != (item.workId, item.revision) {
        return Raised(Error("REVISION_CONFLICT", "work changed"));
      }
      if policy != expected {
        return Raised(Error("REVISION_CONFLICT", "path settings changed"));
      }
      if Lookup(answers, candidate) != item.answer {
        return Raised(Error("REVISION_CONFLICT", "answer changed"));
      }
    }

    method SaveItem(item: Item, expected: int, child: Child)
      modifies this`versions, this`receipts, this`effects
      ensures Tables() == Save(old(Tables()), item, expected, child)
    {
      var candidate := CandidateOf(item.task);
      if candidate in versions && versions[candidate].1 == item.revision {
        versions := versions[candidate := (versions[candidate].0, versions[candidate].1 + 1)];
      }
      receipts := receipts[item.key := (OfItem(item, expected), child)];
      effects := effects + [(item.key, child)];
    }

    /** What the triggers do to the version of a work while its effect is written. */
    method RaiseVersion(candidate: int, n: nat)
      modifies this`versions
      ensures Tables() == Bumped(old(Tables()), candidate, n)
    {
      if candidate in versions {
        versions := versions[candidate := (versions[candidate].0, versions[candidate].1 + n)];
      }
    }

    /** The pin of a work to be queued is dropped or written; false where the index refuses it. */
    method PinWork(task: Task) returns (ok: bool)
      modifies this`pins
      ensures ok <==> Pinned(old(pins), task).Some?
      ensures ok ==> pins == Pinned(old(pins), task).value
    {
      if task.clearPin {
        pins := pins - {task.candidate};
      }
      if task.target.None? || (task.candidate in pins && pins[task.candidate].manual) {
        return true;
      }
      ok := !PinTaken(pins, task.candidate, task.target.value);
      if ok {
        pins := pins[task.candidate := Pin(task.target.value, false)];
      }
    }

    method EnqueueItem(item: Item, expected: int, attempt: Attempt) returns (answer: Answered)
      modifies this
      ensures (Tables(), answer) == Enqueue(old(Tables()), item, expected, attempt)
    {
      answer := InspectItem(item, expected);
      if answer != GoOn {
        return;
      }
      var candidate := CandidateOf(item.task);
      if candidate in journal {
        return Raised(Error(RECOVERY, "file move unfinished"));
      }
      if candidate in inFlight {
        return Raised(Error("PACK_IN_FLIGHT", "already queued"));
      }
      if item.task.Park? {
        if attempt.first.Some? {
          return Blocked(attempt.first.value);
        }
        var child := Child(Skipped, SkipRow(item.task.skip));
        RaiseVersion(candidate, attempt.bumps);
        SaveItem(item, expected, child);
        return Returned(child);
      }
      if item.artifact.None? {
        return Raised(Error("ARTIFACT_REQUIRED", "no artifact"));
      }
      var before := pins;
      var ok := PinWork(item.task.task);
      if !ok || attempt.first.Some? {
        pins := before;
        return if ok then Blocked(attempt.first.value) else Broken;
      }
      inFlight := inFlight + {candidate};
      var queued := QueuedChild(item, attempt.job);
      RaiseVersion(candidate, attempt.bumps);
      SaveItem(item, expected, queued);
      answer := Returned(queued);
    }

    method PrepareMove(item: Item, expected: int, attempt: Attempt) returns (answer: Answered)
      modifies this`journal
      ensures (Tables(), answer) == Prepare(old(Tables()), item, expected, attempt)
    {
      answer := InspectItem(item, expected);
      if answer != GoOn {
        return;
      }
      if CandidateOf(item.task) in journal {
        return Raised(Error(RECOVERY, "file move unfinished"));
      }
      if attempt.first.Some? {
        return Blocked(attempt.first.value);
      }
      if attempt.renames {
        journal := journal + {CandidateOf(item.task)};
      }
    }

    method FinishMove(item: Item, expected: int, attempt: Attempt) returns (answer: Answered)
      requires item.task.Act?
      modifies this
      ensures (Tables(), answer) == CommitMove(old(Tables()), item, expected, attempt)
    {
      answer := InspectItem(item, expected);
      if answer.Returned? {
        return;
      }
      var candidate := CandidateOf(item.task);
      var untouched := answer.Raised?;
      if answer == GoOn && attempt.second.Some? {
        answer := Blocked(attempt.second.value);
      } else if answer == GoOn && PinTaken(pins, candidate, attempt.path) {
        answer := Broken;
      }
      if attempt.renames && (untouched || answer == GoOn || attempt.restored) {
        journal := journal - {candidate};
      }
      if answer == GoOn {
        var child := MovedChild(item, attempt.renames, attempt.path);
        pins := pins[candidate := Pin(attempt.path, false)];
        RaiseVersion(candidate, attempt.bumps);
        SaveItem(item, expected, child);
        answer := Returned(child);
      }
    }

    method RefuseItem(item: Item, expected: int, error: Error) returns (answer: Answered)
      modifies this`refusals
      ensures (Tables(), answer) == Refuse(old(Tables()), item, expected, error)
    {
      answer := ReadReceipt(item.key, OfItem(item, expected));
      if answer != GoOn {
        return;
      }
      var title := match item.task case Act(t) => t.title case Park(s) => s.title;
      var child := Child(Skipped, Row(CandidateOf(item.task), title, None, None, None, error.code, error.message));
      refusals := refusals[item.key := (OfItem(item, expected), child)];
      answer := Returned(child);
    }

    /** A move in its two transactions, anything else in one. */
    method PerformItem(item: Item, expected: int, attempt: Attempt) returns (answer: Answered)
      modifies this
      ensures (Tables(), answer) == Perform(old(Tables()), item, expected, attempt)
    {
      if Moves(item) {
        answer := PrepareMove(item, expected, attempt);
        if answer == GoOn {
          answer := FinishMove(item, expected, attempt);
        }
      } else {
        answer := EnqueueItem(item, expected, attempt);
      }
    }

    /** `RearchiveItem.execute` when nobody interferes. */
    method ExecuteItem(item: Item, expected: int, attempt: Attempt) returns (answer: Answered)
      modifies this
      ensures (Tables(), answer) == Execute(old(Tables()), item, expected, attempt)
    {
      answer := InspectItem(item, expected);
      if answer.Returned? {
        return;
      }
      if answer == GoOn {
        answer := PerformItem(item, expected, attempt);
      }
      if answer.Raised? && answer.error.code != RECOVERY {
        answer := RefuseItem(item, expected, answer.error);
      }
    }

    /** The loop over the items; an error ends it. */
    method ReplayItems(items: seq<Item>, expected: int, attempts: nat -> Attempt) returns (done: Replayed)
      modifies this
      ensures (Tables(), done) == Replay(old(Tables()), Executions(items, expected, attempts), |items|)
    {
      ghost var act := Executions(items, expected, attempts);
      var children: seq<Child> := [];
      for i := 0 to |items|
        invariant (Tables(), AllDone(children)) == Replay(old(Tables()), act, i)
      {
        ghost var before := Tables();
        var answer := ExecuteItem(items[i], expected, attempts(i));
        assert act(before, i) == (Tables(), answer);
        if !answer.Returned? {
          StoppedStays(old(Tables()), act, i + 1, |items|);
          return Stopped(i, answer);
        }
        children := children + [answer.child];
      }
      done := AllDone(children);
    }

    /** `execute` of an admitted batch. */
    method ExecuteBatch(key: Key, attempts: nat -> Attempt) returns (report: Option<Report>)
      requires key in batches
      modifies this
      ensures (Tables(), report) == Replays(old(Tables()), key, attempts)
    {
      var row := batches[key];
      if row.response.Some? {
        return row.response;
      }
      if row.request.dryRun {
        var answer := CompleteBatch(key, row.request.report);
        return Some(answer);
      }
      var done := ReplayItems(row.request.items, row.request.policy, attempts);
      if done.Stopped? || key !in batches {
        return None;
      }
      var assembled := AssembleReport(row.request, done.children);
      var answer := CompleteBatch(key, assembled);
      report := Some(answer);
    }

    method BeginBatch(key: Key, digest: Digest, plan: Plan) returns (row: Option<Batch>)
      requires digest.OfBatch?
      modifies this`batches
      ensures (Tables(), row) == Begin(old(Tables()), key, digest, plan)
    {
      if key in batches {
        return if batches[key].digest == digest then Some(batches[key]) else None;
      }
      if settings != digest.revision || key in receipts || key in refusals {
        return None;
      }
      var tasks := ItemTasks(plan);
      var items: seq<Item> := [];
      for i := 0 to |tasks|
        invariant ItemsFor(Tables(), key, tasks[..i]) == Some(items)
      {
        assert tasks[..i + 1][..i] == tasks[..i];
        if CandidateOf(tasks[i]) !in versions {
          NoItems(Tables(), key, tasks, i);
          return None;
        }
        var candidate := CandidateOf(tasks[i]);
        var artifact := Lookup(if tasks[i].Act? && tasks[i].task.mode == Queue then archives else cbzs, candidate);
        items := items + [Item(tasks[i], versions[candidate].0, versions[candidate].1, artifact,
                               Lookup(answers, candidate), ForItem(key, candidate))];
      }
      assert tasks[..|tasks|] == tasks;
      var preview := PreviewReport(plan);
      var admitted := Batch(digest, Request(items, policy, digest.dryRun, preview), None);
      batches := batches[key := admitted];
      row := Some(admitted);
    }

    method CompleteBatch(key: Key, report: Report) returns (answer: Report)
      requires key in batches
      modifies this`batches
      ensures (Tables(), answer) == Complete(old(Tables()), key, report)
    {
      if batches[key].response.Some? {
        return batches[key].response.value;
      }
      batches := batches[key := batches[key].(response := Some(report))];
      answer := report;
    }
  }

  lemma {:induction false} StoppedStays(db: Db, act: (Db, nat) -> (Db, Answered), i: nat, n: nat)
    requires i <= n && Replay(db, act, i).1.Stopped?
    ensures Replay(db, act, n) == Replay(db, act, i)
  {
    if i < n {
      StoppedStays(db, act, i, n - 1);
    }
  }

  lemma {:induction false} NoItems(db: Db, key: Key, tasks: seq<ItemTask>, i: nat)
    requires i < |tasks| && CandidateOf(tasks[i]) !in db.versions
    ensures ItemsFor(db, key, tasks) == None
  {
    if i < |tasks| - 1 {
      NoItems(db, key, tasks[..|tasks| - 1], i);
    }
  }

  /** The report loop of `execute`: every item's outcome is appended to its category. */
  method AssembleReport(request: Request, children: seq<Child>) returns (report: Report)
    ensures report == Assembled(request, children)
  {
    report := Opening(request);
    for i := 0 to |children|
      invariant report == Assembled(request, children[..i])
    {
      assert children[..i + 1][..i] == children[..i];
      report := report.File(children[i].category, children[i].row);
    }
    assert children[..|children|] == children;
  }
}
