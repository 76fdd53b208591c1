/** Edits of a source message, held back until the downloads they touch have physically stopped. */
module ObservationChanges {
  import opened Sequences
  import opened Text

  datatype Message = Message(id: int, gallery: Option<int>, ignored: bool)

  /** The ingest entry a source observation belongs to. */
  datatype Entry = Entry(generation: int, removed: bool)

  datatype Source = Source(
    entry: Option<Entry>,
    generation: int,
    revision: int,               // observation_revision
    candidate: Option<int>,      // the candidate the observation is linked to
    gallery: Option<int>)        // and that candidate's gallery

  datatype Job = Job(task: int, candidate: int, terminal: bool, telegram: bool, observations: set<int>)

  /** The download queue, as far as stopping goes. */
  datatype Queue = Queue(
    jobs: seq<Job>,
    live: set<int>,         // queue tasks that are neither finished nor removed
    remote: set<int>,       // tasks with a remote resource whose stop is not confirmed
    operations: set<int>)   // tasks with an operation still open

  datatype Status = Pending | Completed | Failed

  datatype Change = Change(
    candidate: int,
    expected: int,          // the observation revision this edit leads to
    mergeAll: bool,
    message: Message,
    tasks: set<int>,
    status: Status,
    revision: nat,
    result: Option<int>)

  datatype Db = Db(sources: map<int, Source>, changes: map<int, Change>, queue: Queue)

  /** `_task_needs_stop`. */
  predicate NeedsStop(queue: Queue, task: int) {
    task in queue.live || task in queue.remote || task in queue.operations
  }

  predicate Touched(queue: Queue, job: Job, candidate: int, sid: int, mergeAll: bool) {
    && job.candidate == candidate
    && (mergeAll || (job.telegram && sid in job.observations))
    && (!job.terminal || job.task in queue.remote || job.task in queue.operations)
  }

  /** The tasks an edit has to wait for, as the queue is when the edit is admitted. */
  function TouchedTasks(queue: Queue, candidate: int, sid: int, mergeAll: bool): set<int> {
    set job | job in queue.jobs && Touched(queue, job, candidate, sid, mergeAll) :: job.task
  }

  function PendingChange(db: Db, sid: int): Option<Change> {
    if sid in db.changes && db.changes[sid].status == Pending then Some(db.changes[sid]) else None
  }

  function MergesAll(source: Source, message: Message, pending: Option<Change>): bool {
    || (source.gallery.None? && message.gallery.Some? && !message.ignored)
    || (pending.Some? && pending.value.mergeAll)
  }

  /** `defer_observation_change`. `differs` is what comparing the edit with the stored observation says,
      `after` is the queue once the stop intents are written. */
  function Defer(db: Db, sid: int, message: Message, differs: bool, after: Queue): (Db, bool) {
    if sid !in db.sources || db.sources[sid].entry.None? || db.sources[sid].candidate.None? then (db, false)
    else
      var source := db.sources[sid];
      var candidate := source.candidate.value;
      var pending := PendingChange(db, sid);
      if source.entry.value.generation != source.generation || source.entry.value.removed then (db, false)
      else if pending.None? && !message.ignored && !differs then (db, false)
      else
        var mergeAll := MergesAll(source, message, pending);
        var tasks := (if pending.Some? then pending.value.tasks else {})
                     + TouchedTasks(db.queue, candidate, sid, mergeAll);
        if tasks == {} && pending.None? then (db, false)
        else
          var revision := if sid in db.changes then db.changes[sid].revision + 1 else 1;
          (Db(db.sources[sid := source.(revision := source.revision + 1)],
              db.changes[sid := Change(candidate, source.revision + 1, mergeAll, message, tasks, Pending, revision,
                                       None)],
              after),
           true)
  }

  /** The pending changes of a merged candidate follow it. */
  function Rehome(changes: map<int, Change>, from: int, to: int): map<int, Change> {
    map sid | sid in changes ::
      if changes[sid].status == Pending && changes[sid].candidate == from
      then changes[sid].(candidate := to, revision := changes[sid].revision + 1)
      else changes[sid]
  }

  /** `merge_candidates`, as far as changes go; `sources` is what it makes of the observations. */
  function Merge(db: Db, from: int, to: int, sources: map<int, Source>): Db {
    if from == to then db else Db(sources, Rehome(db.changes, from, to), db.queue)
  }

  /** What the world answers while one pending change is worked on: the queue after the stop intents,
      whether applying the edit raises, the observations afterwards, and the candidate that was merged
      into another one. */
  datatype Reply = Reply(queue: Queue, raises: bool, sources: map<int, Source>, merged: Option<(int, int)>)

  function Landed(reply: Reply, sid: int): Option<int> {
    if sid in reply.sources then reply.sources[sid].candidate else None
  }

  /** The change still is about the observation as it stands. */
  predicate Current(db: Db, sid: int)
    requires sid in db.changes
  {
    && sid in db.sources
    && db.sources[sid].revision == db.changes[sid].expected
    && db.sources[sid].candidate == Some(db.changes[sid].candidate)
  }

  predicate Waits(tasks: set<int>, queue: Queue) {
    exists task | task in tasks :: NeedsStop(queue, task)
  }

  function Apply(db: Db, sid: int, reply: Reply): Db
    requires sid in db.changes
  {
    var changes := match reply.merged
      case None => db.changes
      case Some((from, to)) => Rehome(db.changes, from, to);
    var c := changes[sid].(status := Completed, revision := changes[sid].revision + 1, result := Landed(reply, sid));
    Db(reply.sources, changes[sid := c], reply.queue)
  }

  datatype Outcome = Gone | Waiting | Done | Raising(revision: nat)

  /** One round of `process_observation_changes`. */
  function Process(db: Db, sid: int, reply: Reply): (Db, Outcome) {
    match PendingChange(db, sid)
    case None => (db, Gone)
    case Some(c) =>
      if !Current(db, sid) then (db, Raising(c.revision))
      else if Waits(c.tasks, reply.queue) then (db.(queue := reply.queue), Waiting)
      else if reply.raises then (db, Raising(c.revision))
      else (Apply(db, sid, reply), Done)
  }

  /** The failure is recorded in a transaction of its own, and only on the revision that failed. */
  function Fail(db: Db, sid: int, revision: nat): Db {
    match PendingChange(db, sid)
    case None => db
    case Some(c) =>
      if c.revision != revision then db
      else db.(changes := db.changes[sid := c.(status := Failed, revision := c.revision + 1)])
  }

  /** A change processed to the end of its turn. */
  function Settle(db: Db, sid: int, reply: Reply): Db {
    var (after, outcome) := Process(db, sid, reply);
    if outcome.Raising? then Fail(after, sid, outcome.revision) else after
  }

  function ProcessAll(db: Db, ids: seq<int>, replies: int -> Reply): Db {
    if ids == [] then db
    else Settle(ProcessAll(db, ids[..|ids| - 1], replies), ids[|ids| - 1], replies(ids[|ids| - 1]))
  }

  /** The candidates a round reports: the edited one, and the one its observation moved to. */
  function ReportedBy(db: Db, sid: int, reply: Reply): seq<int> {
    match PendingChange(db, sid)
    case None => []
    case Some(c) =>
      (match Process(db, sid, reply).1
       case Done =>
         var landed := Landed(reply, sid);
         [c.candidate] + if landed.Some? && landed.value != c.candidate then [landed.value] else []
       case Raising(_) => [c.candidate]
       case _ => [])
  }

  function ReportedByAll(db: Db, ids: seq<int>, replies: int -> Reply): seq<int> {
    if ids == [] then []
    else
      var (front, sid) := (ids[..|ids| - 1], ids[|ids| - 1]);
      ReportedByAll(db, front, replies) + ReportedBy(ProcessAll(db, front, replies), sid, replies(sid))
  }

  /** What an operator's retry waits for: every task of the work, or of the observation, running or not. */
  function RetriedTasks(queue: Queue, candidate: int, sid: int, mergeAll: bool): set<int> {
    set job | job in queue.jobs && job.candidate == candidate
              && (mergeAll || (job.telegram && sid in job.observations)) :: job.task
  }

  /** May the change be retried? `blocked` says that its candidate is gone or being removed. */
  predicate Retryable(db: Db, sid: int, expected: nat, blocked: bool) {
    && sid in db.changes && db.changes[sid].revision == expected && db.changes[sid].status == Failed
    && !blocked && Current(db, sid) && Editable(db, sid)
  }

  /** `retry_operation` on an observation change; it fails where the change cannot be retried. */
  function Retry(db: Db, sid: int, expected: nat, blocked: bool, after: Queue): (Db, bool) {
    if !Retryable(db, sid, expected, blocked) then (db, false)
    else
      var c := db.changes[sid];
      var tasks := c.tasks + RetriedTasks(db.queue, c.candidate, sid, c.mergeAll);
      (Db(db.sources, db.changes[sid := c.(status := Pending, revision := c.revision + 1, tasks := tasks)], after),
       true)
  }

  /** The observation is linked to a candidate and belongs to the live generation of its entry. */
  predicate Editable(db: Db, sid: int) {
    && sid in db.sources
    && db.sources[sid].candidate.Some?
    && db.sources[sid].entry.Some?
    && db.sources[sid].entry.value.generation == db.sources[sid].generation
    && !db.sources[sid].entry.value.removed
  }

  class ChangeProcessor {
    var sources: map<int, Source>
    var changes: map<int, Change>
    var queue: Queue

    function Tables(): Db
      reads this
    {
      Db(sources, changes, queue)
    }

    method DeferObservationChange(sid: int, message: Message, differs: bool, after: Queue) returns (admitted: bool)
      modifies this
      ensures (Tables(), admitted) == Defer(old(Tables()), sid, message, differs, after)
    {
      if sid !in sources || sources[sid].entry.None? || sources[sid].candidate.None? {
        return false;
      }
      var source := sources[sid];
      var cid := source.candidate.value;
      if source.entry.value.generation != source.generation || source.entry.value.removed {
        return false;
      }
      var pending := PendingChange(Tables(), sid);
      if pending.None? && !message.ignored && !differs {
        return false;
      }
      var mergeAll := source.gallery.None? && message.gallery.Some? && !message.ignored;
      var taskIds := if pending.Some? then pending.value.tasks else {};
      mergeAll := mergeAll || (pending.Some? && pending.value.mergeAll);
      ghost var kept := taskIds;
      for i := 0 to |queue.jobs|
        invariant taskIds == kept + set job | job in queue.jobs[..i]
                  && Touched(queue, job, cid, sid, mergeAll) :: job.task
      {
        var job := queue.jobs[i];
        assert queue.jobs[..i + 1] == queue.jobs[..i] + [job];
        if job.candidate == cid && (mergeAll || (job.telegram && sid in job.observations)) {
          if !job.terminal || job.task in queue.remote || job.task in queue.operations {
            taskIds := taskIds + {job.task};
          }
        }
      }
      assert queue.jobs[..|queue.jobs|] == queue.jobs;
      if taskIds == {} && pending.None? {
        return false;
      }
      var revision := if sid in changes then changes[sid].revision + 1 else 1;
      changes := changes[sid := Change(cid, source.revision + 1, mergeAll, message, taskIds, Pending, revision, None)];
      sources := sources[sid := source.(revision := source.revision + 1)];
      queue := after;
      admitted := true;
    }

    /** One turn of the loop over the pending changes, with the failure recorded if it raises. */
    method ProcessChange(sid: int, reply: Reply) returns (changed: seq<int>)
      modifies this
      ensures Tables() == Settle(old(Tables()), sid, reply)
      ensures changed == ReportedBy(old(Tables()), sid, reply)
    {
      changed := [];
      var pending := PendingChange(Tables(), sid);
      if pending.None? {
        return;
      }
      var c := pending.value;
      var raised := !Current(Tables(), sid);
      if !raised {
        if exists task | task in c.tasks :: NeedsStop(reply.queue, task) {
          queue := reply.queue;
        } else if reply.raises {
          raised := true;
        } else {
          if reply.merged.Some? {
            changes := Rehome(changes, reply.merged.value.0, reply.merged.value.1);
          }
          var result := Landed(reply, sid);
          var row := changes[sid];
          changes := changes[sid := row.(status := Completed, revision := row.revision + 1, result := result)];
          sources, queue := reply.sources, reply.queue;
          changed := [c.candidate];
          if result.Some? && result.value != c.candidate {
            changed := changed + [result.value];
          }
        }
      }
      if raised {
        changes := changes[sid := c.(status := Failed, revision := c.revision + 1)];
        changed := [c.candidate];
      }
    }

    /** `process_observation_changes` with nobody in between. */
    method ProcessObservationChanges(ids: seq<int>, replies: int -> Reply) returns (changed: seq<int>)
      modifies this
      ensures Tables() == ProcessAll(old(Tables()), ids, replies)
      ensures changed == ReportedByAll(old(Tables()), ids, replies)
    {
      changed := [];
      for i := 0 to |ids|
        invariant Tables() == ProcessAll(old(Tables()), ids[..i], replies)
        invariant changed == ReportedByAll(old(Tables()), ids[..i], replies)
      {
        assert ids[..i + 1][..i] == ids[..i];
        var reported := ProcessChange(ids[i], replies(ids[i]));
        changed := changed + reported;
      }
      assert ids[..|ids|] == ids;
    }

    /** `retry_operation`; false stands for the IngestError. */
    method RetryOperation(sid: int, expected: nat, blocked: bool, after: Queue) returns (ok: bool)
      modifies this
      ensures (Tables(), ok) == Retry(old(Tables()), sid, expected, blocked, after)
    {
      if sid !in changes || changes[sid].revision != expected || changes[sid].status != Failed
         || blocked || !Current(Tables(), sid) || !Editable(Tables(), sid) {
        return false;
      }
      var c := changes[sid];
      changes := changes[sid := c.(status := Pending, revision := c.revision + 1)];
      var taskIds := c.tasks;
      ghost var kept := taskIds;
      for i := 0 to |queue.jobs|
        invariant taskIds == kept + RetriedTasks(queue.(jobs := queue.jobs[..i]), c.candidate, sid, c.mergeAll)
      {
        var job := queue.jobs[i];
        assert queue.jobs[..i + 1] == queue.jobs[..i] + [job];
        if job.candidate == c.candidate && (c.mergeAll || (job.telegram && sid in job.observations)) {
          taskIds := taskIds + {job.task};
        }
      }
      assert queue.jobs[..|queue.jobs|] == queue.jobs;
      assert taskIds == c.tasks + RetriedTasks(queue, c.candidate, sid, c.mergeAll);
      changes := changes[sid := changes[sid].(tasks := taskIds)];
      assert changes == old(changes)[sid := changes[sid]];
      queue := after;
      ok := true;
    }
  }

  // ------------------------------------------------------------------------- runs

  /** One admission of an edit, or the retry of one, with the tasks it found to stop. */
  datatype Admission = Admission(message: Message, tasks: set<int>, mergeAll: bool)

  /** An edit that was applied: what had been admitted since it became pending, and the queue then. */
  datatype Applied = Applied(sid: int, message: Message, admissions: seq<Admission>, queue: Queue)

  /** A worker that holds an error and has not recorded it yet, with the change it failed on. */
  datatype Held = Held(sid: int, change: Change)

  datatype System = System(db: Db, held: map<nat, Held>, admissions: map<int, seq<Admission>>, applied: seq<Applied>)

  datatype Step =
    | Admit(sid: int, message: Message, differs: bool, after: Queue)
    | Work(worker: nat, sid: int, reply: Reply)
    | GiveUp(worker: nat)
    | Crash(worker: nat)
    | OperatorRetries(sid: int, expected: nat, blocked: bool, after: Queue)
    | Merges(from: int, to: int, sources: map<int, Source>)
    | QueueMoves(queue: Queue)
    | SourcesMove(sources: map<int, Source>)

  ghost function Since(s: System, sid: int): seq<Admission> {
    if sid in s.admissions then s.admissions[sid] else []
  }

  /** A new edit joins the pending one, or starts afresh. */
  ghost function Joined(s: System, sid: int): seq<Admission> {
    if PendingChange(s.db, sid).Some? then Since(s, sid) else []
  }

  ghost function Next(s: System, step: Step): System {
    match step
    case Admit(sid, message, differs, after) =>
      var (db, admitted) := Defer(s.db, sid, message, differs, after);
      if !admitted then s
      else
        var c := db.changes[sid];
        var own := TouchedTasks(s.db.queue, c.candidate, sid, c.mergeAll);
        s.(db := db, admissions := s.admissions[sid := Joined(s, sid) + [Admission(message, own, c.mergeAll)]])
    case Work(worker, sid, reply) =>
      var (db, outcome) := Process(s.db, sid, reply);
      (match outcome
       case Done => System(db, s.held - {worker}, s.admissions,
                           s.applied + [Applied(sid, s.db.changes[sid].message, Since(s, sid), reply.queue)])
       case Raising(_) => s.(db := db, held := s.held[worker := Held(sid, s.db.changes[sid])])
       case _ => s.(db := db, held := s.held - {worker}))
    case GiveUp(worker) =>
      if worker !in s.held then s
      else s.(db := Fail(s.db, s.held[worker].sid, s.held[worker].change.revision), held := s.held - {worker})
    case Crash(worker) => s.(held := s.held - {worker})
    case OperatorRetries(sid, expected, blocked, after) =>
      var (db, ok) := Retry(s.db, sid, expected, blocked, after);
      if !ok then s
      else
        var c := db.changes[sid];
        var own := RetriedTasks(s.db.queue, c.candidate, sid, c.mergeAll);
        s.(db := db, admissions := s.admissions[sid := Since(s, sid) + [Admission(c.message, own, c.mergeAll)]])
    case Merges(from, to, sources) => s.(db := Merge(s.db, from, to, sources))
    case QueueMoves(queue) => s.(db := s.db.(queue := queue))
    case SourcesMove(sources) => s.(db := s.db.(sources := sources))
  }

  ghost function Run(s: System, steps: seq<Step>): System
    decreases |steps|
  {
    if steps == [] then s else Run(Next(s, steps[0]), steps[1..])
  }

  ghost predicate Accumulates(c: Change, admissions: seq<Admission>) {
    && admissions != []
    && c.message == admissions[|admissions| - 1].message
    && (forall i | 0 <= i < |admissions| :: admissions[i].tasks <= c.tasks && (admissions[i].mergeAll ==> c.mergeAll))
    && (forall task | task in c.tasks :: exists i | 0 <= i < |admissions| :: task in admissions[i].tasks)
  }

  ghost predicate Stopped(a: Applied) {
    && a.admissions != []
    && a.message == a.admissions[|a.admissions| - 1].message
    && forall i, task | 0 <= i < |a.admissions| && task in a.admissions[i].tasks ::
         task !in a.queue.live && task !in a.queue.remote && task !in a.queue.operations
  }

  ghost predicate RowOk(s: System, sid: int) {
    sid in s.db.changes && s.db.changes[sid].status != Completed ==> Accumulates(s.db.changes[sid], Since(s, sid))
  }

  /** A row that still has the revision a worker failed on is the row it failed on. */
  ghost predicate HeldOk(s: System, worker: nat) {
    worker in s.held ==>
      var h := s.held[worker];
      && h.sid in s.db.changes
      && h.change.revision <= s.db.changes[h.sid].revision
      && (h.change.revision == s.db.changes[h.sid].revision ==> s.db.changes[h.sid] == h.change)
  }

  ghost predicate Inv(s: System) {
    && (forall sid :: RowOk(s, sid))
    && (forall worker :: HeldOk(s, worker))
    && (forall i | 0 <= i < |s.applied| :: Stopped(s.applied[i]))
  }

  lemma AdmitKeeps(s: System, sid: int, message: Message, differs: bool, after: Queue)
    requires Inv(s)
    ensures Inv(Next(s, Admit(sid, message, differs, after)))
  {
    if Defer(s.db, sid, message, differs, after).1 {
      assert RowOk(s, sid);
      ReadmissionAccumulates(s, sid, message, differs, after);
      Unmoved(s, Next(s, Admit(sid, message, differs, after)), sid);
    }
  }

  lemma ReadmissionAccumulates(s: System, sid: int, message: Message, differs: bool, after: Queue)
    requires RowOk(s, sid) && Defer(s.db, sid, message, differs, after).1
    ensures RowOk(Next(s, Admit(sid, message, differs, after)), sid)
  {
    var next := Next(s, Admit(sid, message, differs, after));
    var c := next.db.changes[sid];
    var own := TouchedTasks(s.db.queue, c.candidate, sid, c.mergeAll);
    if PendingChange(s.db, sid).Some? {
      Accumulate(s.db.changes[sid], Since(s, sid), Admission(message, own, c.mergeAll), c);
    }
  }

  /** One more admission on top of the others. */
  lemma Accumulate(c: Change, before: seq<Admission>, a: Admission, next: Change)
    requires Accumulates(c, before) && next.message == a.message && next.tasks == c.tasks + a.tasks
    requires next.mergeAll == a.mergeAll && (c.mergeAll ==> a.mergeAll)
    ensures Accumulates(next, before + [a])
  {
    var now, n := before + [a], |before|;
    forall task | task in next.tasks
      ensures exists i | 0 <= i < |now| :: task in now[i].tasks
    {
      if task in a.tasks {
        assert task in now[n].tasks;
      } else {
        var i :| 0 <= i < n && task in before[i].tasks;
        assert task in now[i].tasks;
      }
    }
  }

  lemma RetryKeeps(s: System, sid: int, expected: nat, blocked: bool, after: Queue)
    requires Inv(s)
    ensures Inv(Next(s, OperatorRetries(sid, expected, blocked, after)))
  {
    var next := Next(s, OperatorRetries(sid, expected, blocked, after));
    if Retryable(s.db, sid, expected, blocked) {
      var c := s.db.changes[sid];
      assert RowOk(s, sid);
      Accumulate(c, Since(s, sid),
                 Admission(c.message, RetriedTasks(s.db.queue, c.candidate, sid, c.mergeAll), c.mergeAll),
                 next.db.changes[sid]);
      Unmoved(s, next, sid);
    }
  }

  /** Rows and held errors that a step leaves alone. */
  lemma Unmoved(s: System, next: System, sid: int)
    requires Inv(s) && RowOk(next, sid) && next.held == s.held && next.applied == s.applied
    requires sid in next.db.changes
    requires sid in s.db.changes ==> s.db.changes[sid].revision < next.db.changes[sid].revision
    requires forall x | x != sid :: Since(next, x) == Since(s, x)
    requires forall x | x != sid :: x in next.db.changes <==> x in s.db.changes
    requires forall x | x != sid && x in s.db.changes :: next.db.changes[x] == s.db.changes[x]
    ensures Inv(next)
  {
    forall x
      ensures RowOk(next, x)
    {
      assert RowOk(s, x);
    }
    forall worker
      ensures HeldOk(next, worker)
    {
      assert HeldOk(s, worker);
    }
  }

  lemma WorkKeeps(s: System, worker: nat, sid: int, reply: Reply)
    requires Inv(s)
    ensures Inv(Next(s, Work(worker, sid, reply)))
  {
    var next := Next(s, Work(worker, sid, reply));
    forall x
      ensures RowOk(next, x)
    {
      WorkKeepsRow(s, worker, sid, reply, x);
    }
    forall w
      ensures HeldOk(next, w)
    {
      assert HeldOk(s, w);
    }
    WorkAppliesSafely(s, worker, sid, reply);
  }

  lemma WorkKeepsRow(s: System, worker: nat, sid: int, reply: Reply, x: int)
    requires RowOk(s, x)
    ensures RowOk(Next(s, Work(worker, sid, reply)), x)
  {}

  lemma WorkAppliesSafely(s: System, worker: nat, sid: int, reply: Reply)
    requires RowOk(s, sid)
    requires forall i | 0 <= i < |s.applied| :: Stopped(s.applied[i])
    ensures var applied := Next(s, Work(worker, sid, reply)).applied;
            forall i | 0 <= i < |applied| :: Stopped(applied[i])
  {}

  lemma StepKeeps(s: System, step: Step)
    requires Inv(s)
    ensures Inv(Next(s, step))
  {
    match step
    case Admit(sid, message, differs, after) => AdmitKeeps(s, sid, message, differs, after);
    case Work(worker, sid, reply) => WorkKeeps(s, worker, sid, reply);
    case OperatorRetries(sid, expected, blocked, after) => RetryKeeps(s, sid, expected, blocked, after);
    case _ =>
      var next := Next(s, step);
      forall x
        ensures RowOk(next, x)
      {
        assert RowOk(s, x);
      }
      forall w
        ensures HeldOk(next, w)
      {
        assert HeldOk(s, w);
      }
  }

  /** Whatever the tables hold at first; an edit that is found unfinished counts as admitted once. */
  ghost function Start(db: Db): System {
    System(db, map[], map sid | sid in db.changes :: [AsAdmitted(db.changes[sid])], [])
  }

  function AsAdmitted(c: Change): Admission {
    Admission(c.message, c.tasks, c.mergeAll)
  }

  lemma StartHolds(db: Db)
    ensures Inv(Start(db))
  {
    forall sid
      ensures RowOk(Start(db), sid)
    {
      if sid in db.changes {
        assert Since(Start(db), sid)[0].tasks == db.changes[sid].tasks;
      }
    }
  }

  /** Over any run: an edit is applied only when no task admitted with it, or with any edit it replaced
      since it became pending, still needs stopping, and what is applied is the last edit admitted. */
  lemma {:induction false} AppliedEditsAreSafe(s: System, steps: seq<Step>)
    requires Inv(s)
    ensures Inv(Run(s, steps))
    ensures forall i | 0 <= i < |Run(s, steps).applied| :: Stopped(Run(s, steps).applied[i])
    decreases |steps|
  {
    if steps != [] {
      StepKeeps(s, steps[0]);
      AppliedEditsAreSafe(Next(s, steps[0]), steps[1..]);
    }
  }

  /** Admitting again while an edit is pending keeps it pending and only adds tasks and merge intent. */
  lemma ReadmissionOnlyGrows(db: Db, sid: int, message: Message, differs: bool, after: Queue)
    requires PendingChange(db, sid).Some?
    ensures var (next, admitted) := Defer(db, sid, message, differs, after);
            && PendingChange(next, sid).Some?
            && db.changes[sid].tasks <= next.changes[sid].tasks
            && (db.changes[sid].mergeAll ==> next.changes[sid].mergeAll)
            && (admitted ==> next.changes[sid].message == message
                             && next.changes[sid].revision == db.changes[sid].revision + 1)
            && (forall other | other in db.changes && other != sid :: next.changes[other] == db.changes[other])
  {}

  /** An edit is held back exactly if its observation can be edited and either an earlier edit is still
      pending, or it changes something while a download in its reach runs. It reaches the whole work if it
      brings the gallery that the work lacks, or the pending edit already did, and else the Telegram
      downloads that fixed this observation; of those, the ones that run, have a remote resource or an
      open operation. It then waits for them and for what the pending edit waits for, and leads to the next
      revision. Otherwise nothing is stored. */
  lemma AdmittedExactly(db: Db, sid: int, message: Message, differs: bool, after: Queue)
    ensures var (next, admitted) := Defer(db, sid, message, differs, after);
            && (admitted ==> Editable(db, sid))
            && (!admitted ==> next == db)
            && (Editable(db, sid) ==>
                  var source := db.sources[sid];
                  var pending := sid in db.changes && db.changes[sid].status == Pending;
                  var mergeAll := || (source.gallery.None? && message.gallery.Some? && !message.ignored)
                                  || (pending && db.changes[sid].mergeAll);
                  var reached := set job | && job in db.queue.jobs && Some(job.candidate) == source.candidate
                                           && (mergeAll || (job.telegram && sid in job.observations))
                                           && (|| !job.terminal || job.task in db.queue.remote
                                               || job.task in db.queue.operations) :: job.task;
                  && (admitted <==> pending || ((message.ignored || differs) && reached != {}))
                  && (admitted ==>
                        && next.queue == after
                        && next.sources == db.sources[sid := source.(revision := source.revision + 1)]
                        && next.changes == db.changes[sid := Change(
                             source.candidate.value, source.revision + 1, mergeAll, message,
                             (if pending then db.changes[sid].tasks else {}) + reached, Pending,
                             if sid in db.changes then db.changes[sid].revision + 1 else 1, None)]))
  {
    if Editable(db, sid) {
      var source := db.sources[sid];
      var mergeAll := MergesAll(source, message, PendingChange(db, sid));
      ReachedTasks(db.queue, source.candidate.value, sid, mergeAll);
    }
  }

  lemma ReachedTasks(queue: Queue, candidate: int, sid: int, mergeAll: bool)
    ensures TouchedTasks(queue, candidate, sid, mergeAll)
            == set job | && job in queue.jobs && Some(job.candidate) == Some(candidate)
                         && (mergeAll || (job.telegram && sid in job.observations))
                         && (!job.terminal || job.task in queue.remote || job.task in queue.operations) :: job.task
  {}

  /** In any reachable state a late failure either finds the very row it failed on, or changes nothing:
      it cannot overwrite an edit admitted since. */
  lemma LateFailureIsHarmless(s: System, worker: nat)
    requires Inv(s) && worker in s.held
    ensures var h := s.held[worker];
            var after := Next(s, GiveUp(worker)).db;
            after == s.db
            || (&& s.db.changes[h.sid] == h.change && h.change.status == Pending
                && var failed := h.change.(status := Failed, revision := h.change.revision + 1);
                   after == s.db.(changes := s.db.changes[h.sid := failed]))
  {
    assert HeldOk(s, worker);
  }

  lemma StepRaisesRevision(s: System, step: Step, sid: int)
    requires sid in s.db.changes
    ensures var now := Next(s, step).db.changes;
            sid in now && (now[sid] == s.db.changes[sid] || now[sid].revision > s.db.changes[sid].revision)
  {}

  lemma {:induction false} RunRaisesRevision(s: System, steps: seq<Step>, sid: int)
    requires sid in s.db.changes
    ensures var now := Run(s, steps).db.changes;
            sid in now && (now[sid] == s.db.changes[sid] || now[sid].revision > s.db.changes[sid].revision)
    decreases |steps|
  {
    if steps != [] {
      StepRaisesRevision(s, steps[0], sid);
      RunRaisesRevision(Next(s, steps[0]), steps[1..], sid);
    }
  }

  /** However much happens between an operator's look at a change and the retry: the retry goes through
      only on the very change that was seen while it still is about its observation, and then the same edit
      is pending again, with every download in its reach added to its tasks. */
  lemma RetryMeetsWhatWasSeen(s: System, steps: seq<Step>, sid: int, blocked: bool, after: Queue)
    requires sid in s.db.changes
    ensures var seen, end := s.db.changes[sid], Run(s, steps).db;
            var (next, ok) := Retry(end, sid, seen.revision, blocked, after);
            && (ok <==> && sid in end.changes && end.changes[sid] == seen && seen.status == Failed && !blocked
                        && Editable(end, sid) && end.sources[sid].revision == seen.expected
                        && end.sources[sid].candidate == Some(seen.candidate))
            && (ok ==>
                  var reached := set job | && job in end.queue.jobs && job.candidate == seen.candidate
                                           && (seen.mergeAll || (job.telegram && sid in job.observations)) :: job.task;
                  && next.sources == end.sources && next.queue == after
                  && next.changes == end.changes[sid := seen.(status := Pending, revision := seen.revision + 1,
                                                              tasks := seen.tasks + reached)])
            && (!ok ==> next == end)
  {
    RunRaisesRevision(s, steps, sid);
  }

  /** A merge takes the pending changes of the candidate that goes to the one that stays, at their next
      revision, and leaves every other change and the queue alone; a candidate is not merged into itself. */
  lemma MergeMovesChanges(db: Db, from: int, to: int, sources: map<int, Source>)
    ensures var next := Merge(db, from, to, sources);
            && next.queue == db.queue && next.changes.Keys == db.changes.Keys
            && next.sources == (if from == to then db.sources else sources)
            && forall sid | sid in db.changes ::
                 var c := db.changes[sid];
                 next.changes[sid] ==
                 if from != to && c.status == Pending && c.candidate == from
                 then c.(candidate := to, revision := c.revision + 1) else c
  {}

  // ------------------------------------------------------------------------ a round

  /** What a turn leaves of another change: its edit, its tasks and its status. */
  predicate Alike(db: Db, next: Db, sid: int)
    requires sid in db.changes
  {
    && sid in next.changes
    && var a, b := db.changes[sid], next.changes[sid];
       a.status == b.status && a.tasks == b.tasks && a.message == b.message && a.expected == b.expected
  }

  lemma TurnLeavesOthers(db: Db, sid: int, reply: Reply, other: int)
    requires other != sid && other in db.changes
    ensures Alike(db, Settle(db, sid, reply), other)
  {}

  lemma {:induction false} TurnsLeaveOthers(db: Db, ids: seq<int>, replies: int -> Reply, other: int)
    requires other !in ids && other in db.changes
    ensures Alike(db, ProcessAll(db, ids, replies), other)
  {
    if ids != [] {
      TurnsLeaveOthers(db, ids[..|ids| - 1], replies, other);
      TurnLeavesOthers(ProcessAll(db, ids[..|ids| - 1], replies), ids[|ids| - 1], replies(ids[|ids| - 1]), other);
    }
  }

  lemma {:induction false} TurnsCompose(db: Db, front: seq<int>, back: seq<int>, replies: int -> Reply)
    ensures ProcessAll(db, front + back, replies) == ProcessAll(ProcessAll(db, front, replies), back, replies)
    decreases |back|
  {
    if back == [] {
      assert front + back == front;
    } else {
      TurnsCompose(db, front, back[..|back| - 1], replies);
      assert (front + back)[..|front + back| - 1] == front + back[..|back| - 1];
    }
  }

  /** The observation is at the revision the edit leads to, and linked to the edit's candidate. */
  predicate UpToDate(db: Db, sid: int) {
    && sid in db.changes && sid in db.sources
    && db.sources[sid].revision == db.changes[sid].expected
    && db.sources[sid].candidate == Some(db.changes[sid].candidate)
  }

  /** One of the tasks is alive, has a remote resource or an open operation. */
  predicate Busy(queue: Queue, tasks: set<int>) {
    exists task | task in tasks :: task in queue.live || task in queue.remote || task in queue.operations
  }

  lemma BusyWaits(queue: Queue, tasks: set<int>)
    ensures Waits(tasks, queue) <==> Busy(queue, tasks)
  {
    if task :| task in tasks && (task in queue.live || task in queue.remote || task in queue.operations) {
      assert NeedsStop(queue, task);
    }
  }

  /** What a turn makes of the tables: an edit that is not up to date or raises fails; one whose tasks are
      busy waits; any other is applied, and the pending edits of a candidate it merged away follow to the
      other. */
  lemma TurnExactly(db: Db, sid: int, reply: Reply)
    requires sid in db.changes && db.changes[sid].status == Pending
    ensures var (c, next) := (db.changes[sid], Settle(db, sid, reply));
            var fails := !UpToDate(db, sid) || (!Busy(reply.queue, c.tasks) && reply.raises);
            && (fails ==> next == db.(changes := db.changes[sid := c.(status := Failed, revision := c.revision + 1)]))
            && (!fails && Busy(reply.queue, c.tasks) ==> next == db.(queue := reply.queue))
            && (!fails && !Busy(reply.queue, c.tasks) ==>
                  && next.sources == reply.sources && next.queue == reply.queue
                  && next.changes.Keys == db.changes.Keys
                  && next.changes[sid] ==
                     (var merged := reply.merged.Some? && c.candidate == reply.merged.value.0;
                      c.(candidate := if merged then reply.merged.value.1 else c.candidate, status := Completed,
                         revision := c.revision + if merged then 2 else 1,
                         result := if sid in reply.sources then reply.sources[sid].candidate else None))
                  && (forall other | other in db.changes && other != sid ::
                        var was := db.changes[other];
                        next.changes[other] ==
                        if reply.merged.Some? && was.status == Pending && was.candidate == reply.merged.value.0
                        then was.(candidate := reply.merged.value.1, revision := was.revision + 1)
                        else was))
  {
    BusyWaits(reply.queue, db.changes[sid].tasks);
  }

  /** The `k`-th turn of a round ended a change that concerns the candidate: the one of the change, or the
      one that its observation is linked to after it was applied. */
  ghost predicate EndedFor(db: Db, ids: seq<int>, replies: int -> Reply, k: nat, x: int)
    requires k < |ids|
  {
    var (sid, before, next) := (ids[k], ProcessAll(db, ids[..k], replies), ProcessAll(db, ids[..k + 1], replies));
    && sid in before.changes && before.changes[sid].status == Pending
    && sid in next.changes && next.changes[sid].status != Pending
    && (|| x == before.changes[sid].candidate
        || (next.changes[sid].status == Completed && next.changes[sid].result == Some(x)))
  }

  lemma TurnReports(db: Db, sid: int, reply: Reply, x: int)
    ensures x in ReportedBy(db, sid, reply)
            <==> && sid in db.changes && db.changes[sid].status == Pending
                 && sid in Settle(db, sid, reply).changes && Settle(db, sid, reply).changes[sid].status != Pending
                 && (|| x == db.changes[sid].candidate
                     || (&& Settle(db, sid, reply).changes[sid].status == Completed
                         && Settle(db, sid, reply).changes[sid].result == Some(x)))
  {}

  /** What grows by what holds at each place holds by then exactly if it held at one of them. */
  lemma {:induction false} GrowsByPlaces(grown: nat -> bool, at: nat -> bool, n: nat)
    requires !grown(0) && forall k: nat | k < n :: grown(k + 1) <==> grown(k) || at(k)
    ensures grown(n) <==> exists k: nat :: k < n && at(k)
  {
    if n > 0 {
      GrowsByPlaces(grown, at, n - 1);
      assert grown(n - 1 + 1) <==> grown(n - 1) || at(n - 1);
    }
  }

  lemma ReportsNext(db: Db, ids: seq<int>, replies: int -> Reply, k: nat, x: int)
    requires k < |ids|
    ensures x in ReportedByAll(db, ids[..k + 1], replies)
            <==> x in ReportedByAll(db, ids[..k], replies) || EndedFor(db, ids, replies, k, x)
  {
    assert ids[..k + 1][..k] == ids[..k];
    TurnReports(ProcessAll(db, ids[..k], replies), ids[k], replies(ids[k]), x);
  }

  /** A round reports exactly the candidates of the changes it ended, and those their observations moved to. */
  lemma ReportedExactly(db: Db, ids: seq<int>, replies: int -> Reply, x: int)
    ensures x in ReportedByAll(db, ids, replies)
            <==> exists k: nat :: k < |ids| && EndedFor(db, ids, replies, k, x)
  {
    ghost var grown := (k: nat) => k <= |ids| && x in ReportedByAll(db, ids[..k], replies);
    ghost var at := (k: nat) => k < |ids| && EndedFor(db, ids, replies, k, x);
    forall k: nat | k < |ids|
      ensures grown(k + 1) <==> grown(k) || at(k)
    {
      ReportsNext(db, ids, replies, k, x);
    }
    GrowsByPlaces(grown, at, |ids|);
    assert ids[..|ids|] == ids;
    assert forall k: nat | k < |ids| :: at(k) <==> EndedFor(db, ids, replies, k, x);
  }

  /** Where a round leaves a pending edit: failed if the observation has moved on when its turn comes,
      pending while anything it waits for needs stopping, failed if applying it raises, and applied
      otherwise; and it is still the same edit with the same tasks. */
  lemma RoundSettlesExactly(db: Db, ids: seq<int>, replies: int -> Reply, k: nat)
    requires Distinct(ids) && k < |ids| && PendingChange(db, ids[k]).Some?
    ensures var sid, turn, end := ids[k], ProcessAll(db, ids[..k], replies), ProcessAll(db, ids, replies);
            var reply, c := replies(sid), db.changes[sid];
            && sid in turn.changes && sid in end.changes
            && end.changes[sid].tasks == c.tasks && end.changes[sid].message == c.message
            && end.changes[sid].status == (if !UpToDate(turn, sid) then Failed
                                           else if Busy(reply.queue, c.tasks) then Pending
                                           else if reply.raises then Failed
                                           else Completed)
  {
    var sid, turn := ids[k], ProcessAll(db, ids[..k], replies);
    TurnsLeaveOthers(db, ids[..k], replies, sid);
    var next := Settle(turn, sid, replies(sid));
    TurnExactly(turn, sid, replies(sid));
    assert ids[..k + 1][..k] == ids[..k];
    TurnsLeaveOthers(next, ids[k + 1..], replies, sid);
    TurnsCompose(db, ids[..k + 1], ids[k + 1..], replies);
    assert ids[..k + 1] + ids[k + 1..] == ids;
  }
}
