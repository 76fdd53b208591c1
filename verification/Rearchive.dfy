/** The whole-library re-archive: what is planned for each work, and what a run reports. */
module Rearchive {
  import opened Text

  datatype PackState = NotStarted | Pending | Running | Parked | Completed | Failed

  datatype Work = Work(
    id: int,
    title: Option<string>,
    file: Option<string>,         // where its CBZ is, if it has one
    packState: PackState,
    libraryPath: Option<string>,  // the path recorded with the CBZ
    pinnedPath: Option<string>,
    pinnedManually: bool)

  datatype Mode = Queue | Move | Refile

  datatype Task = Task(
    candidate: int,
    title: Option<string>,
    mode: Mode,
    target: Option<string>,
    current: Option<string>,
    refresh: bool,
    clearPin: bool)

  datatype Skip = Skip(candidate: int, title: Option<string>, code: string, message: string, park: bool)

  datatype Planned = DoTask(task: Task) | DoSkip(skip: Skip) | OutOfScope

  datatype Plan = Plan(force: bool, scanned: nat, tasks: seq<Task>, skipped: seq<Skip>, dryRun: bool)

  /** What the template and the routing rules answer for a work. */
  datatype Answer = Refused(code: string, message: string) | NoName | Path(path: string)

  predicate Packaged(w: Work) {
    w.file.Some?
  }

  /** `relative_path`: the pin, or else what was recorded with the CBZ. */
  function RelativePath(w: Work): Option<string> {
    if w.pinnedPath.Some? && w.pinnedPath.value != "" then w.pinnedPath else w.libraryPath
  }

  predicate InFlight(w: Work) {
    w.packState == Pending || w.packState == Running
  }

  predicate Manual(w: Work) {
    w.pinnedManually && w.pinnedPath.Some? && w.pinnedPath.value != ""
  }

  function QueueTask(w: Work, target: Option<string>, refresh: bool, clearPin: bool): Task {
    Task(w.id, w.title, Queue, target, RelativePath(w), refresh, clearPin)
  }

  const MANUAL_MESSAGE := "the archive path was chosen by hand"
  const IN_FLIGHT_MESSAGE := "the work already has a packing task"
  const NO_TITLE_MESSAGE := "no title metadata"

  // ------------------------------------------------------------------- planning

  /** `_plan_template_candidate`. */
  function PlanTemplate(w: Work, answer: Answer, force: bool): Planned {
    if Packaged(w) && Manual(w) && !force then
      DoSkip(Skip(w.id, w.title, "PATH_MANUAL", MANUAL_MESSAGE, false))
    else if !Packaged(w) && InFlight(w) then
      DoSkip(Skip(w.id, w.title, "PACK_IN_FLIGHT", IN_FLIGHT_MESSAGE, false))
    else if !Packaged(w) && Manual(w) then
      DoTask(QueueTask(w, None, false, false))
    else
      match answer
      case Refused(code, message) => DoSkip(Skip(w.id, w.title, code, message, !Packaged(w)))
      case NoName =>
        if Packaged(w) then DoSkip(Skip(w.id, w.title, "NO_TITLE", NO_TITLE_MESSAGE, false))
        else DoTask(QueueTask(w, None, false, false))
      case Path(target) =>
        if !Packaged(w) then DoTask(QueueTask(w, Some(target), false, false))
        else if !force && RelativePath(w) == Some(target) then OutOfScope
        else DoTask(Task(w.id, w.title, Move, Some(target), RelativePath(w), false, false))
  }

  /** `_plan_ai_candidate`; `cached` is the answer the cache holds for the current prompt. */
  function PlanAi(w: Work, cached: Option<string>, force: bool, includeCurrent: bool): Planned {
    if InFlight(w) then
      DoSkip(Skip(w.id, w.title, "PACK_IN_FLIGHT", IN_FLIGHT_MESSAGE, false))
    else if Packaged(w) && Manual(w) && !force then
      DoSkip(Skip(w.id, w.title, "PATH_MANUAL", MANUAL_MESSAGE, false))
    else if !Packaged(w) then
      if force then DoTask(QueueTask(w, None, true, Manual(w)))
      else DoTask(QueueTask(w, cached, false, false))
    else if force then DoTask(Task(w.id, w.title, Refile, None, RelativePath(w), true, false))
    else if cached.None? then DoTask(Task(w.id, w.title, Refile, None, RelativePath(w), false, false))
    else if cached != RelativePath(w) then DoTask(Task(w.id, w.title, Move, cached, RelativePath(w), false, false))
    else if includeCurrent then DoTask(Task(w.id, w.title, Refile, None, RelativePath(w), true, false))
    else OutOfScope
  }

  function TasksOf(planned: seq<Planned>): seq<Task> {
    if planned == [] then []
    else
      var (front, last) := (planned[..|planned| - 1], planned[|planned| - 1]);
      TasksOf(front) + if last.DoTask? then [last.task] else []
  }

  function SkipsOf(planned: seq<Planned>): seq<Skip> {
    if planned == [] then []
    else
      var (front, last) := (planned[..|planned| - 1], planned[|planned| - 1]);
      SkipsOf(front) + if last.DoSkip? then [last.skip] else []
  }

  lemma {:induction false} PlannedConcat(a: seq<Planned>, b: seq<Planned>)
    ensures TasksOf(a + b) == TasksOf(a) + TasksOf(b)
    ensures SkipsOf(a + b) == SkipsOf(a) + SkipsOf(b)
  {
    if b == [] {
      assert a + b == a;
    } else {
      assert (a + b)[..|a + b| - 1] == a + b[..|b| - 1];
      PlannedConcat(a, b[..|b| - 1]);
    }
  }

  /** The plan of the whole library in one pass: every work planned on its own, in order. */
  function AiPlans(works: seq<Work>, cache: map<int, string>, force: bool, includeCurrent: bool): seq<Planned> {
    seq(|works|, i requires 0 <= i < |works| => PlanAi(works[i], Cached(cache, works[i].id), force, includeCurrent))
  }

  function Cached(cache: map<int, string>, id: int): Option<string> {
    if id in cache then Some(cache[id]) else None
  }

  function TemplatePlans(works: seq<Work>, answers: int -> Answer, force: bool): seq<Planned> {
    seq(|works|, i requires 0 <= i < |works| => PlanTemplate(works[i], answers(works[i].id), force))
  }

  /** The ids that planning parks right away: unpacked works whose path was refused, on a real run. */
  function ParkedBy(planned: seq<Planned>, dryRun: bool): seq<int> {
    if dryRun || planned == [] then []
    else
      var (front, last) := (planned[..|planned| - 1], planned[|planned| - 1]);
      ParkedBy(front, dryRun) + if last.DoSkip? && last.skip.park then [last.skip.candidate] else []
  }

  method PlanTemplateLibrary(works: seq<Work>, answers: int -> Answer, force: bool, dryRun: bool)
    returns (tasks: seq<Task>, skipped: seq<Skip>, parked: seq<int>)
    ensures var planned := TemplatePlans(works, answers, force);
            tasks == TasksOf(planned) && skipped == SkipsOf(planned) && parked == ParkedBy(planned, dryRun)
  {
    tasks, skipped, parked := [], [], [];
    ghost var planned := TemplatePlans(works, answers, force);
    for i := 0 to |works|
      invariant tasks == TasksOf(planned[..i])
      invariant skipped == SkipsOf(planned[..i])
      invariant parked == ParkedBy(planned[..i], dryRun)
    {
      var outcome := PlanTemplate(works[i], answers(works[i].id), force);
      assert planned[..i + 1][..i] == planned[..i];
      match outcome {
        case DoSkip(skip) =>
          skipped := skipped + [skip];
          if skip.park && !dryRun {
            parked := parked + [skip.candidate];
          }
        case DoTask(task) => tasks := tasks + [task];
        case OutOfScope =>
      }
    }
    assert planned[..|works|] == planned;
  }

  lemma AiPlansSplit(works: seq<Work>, cache: map<int, string>, force: bool, current: bool, start: nat, end: nat)
    requires start <= end <= |works|
    ensures var planned := AiPlans(works, cache, force, current);
            && planned[..end] == planned[..start] + AiPlans(works[start..end], cache, force, current)
            && planned[..|works|] == planned
  {
    var planned, part := AiPlans(works, cache, force, current), AiPlans(works[start..end], cache, force, current);
    assert |planned| == |works| && |part| == end - start;
    forall i | start <= i < end
      ensures planned[i] == part[i - start]
    {
      assert works[start..end][i - start] == works[i];
    }
    assert planned[start..end] == part;
    assert planned[..end] == planned[..start] + planned[start..end];
  }

  /** `_plan_ai_library`: sets of `batch` works, each set planned and then filed in order. Whatever the
      batch size, the result is the plan of one pass. */
  method PlanAiLibrary(works: seq<Work>, cache: map<int, string>, force: bool, includeCurrent: bool, batchSize: int)
    returns (tasks: seq<Task>, skipped: seq<Skip>)
    ensures var planned := AiPlans(works, cache, force, includeCurrent && !force);
            tasks == TasksOf(planned) && skipped == SkipsOf(planned)
  {
    var batch := if batchSize < 1 then 1 else batchSize;
    var current := includeCurrent && !force;
    ghost var planned := AiPlans(works, cache, force, current);
    tasks, skipped := [], [];
    var start := 0;
    ghost var done := 0;
    while start < |works|
      invariant 0 <= start && done == if start < |works| then start else |works|
      invariant tasks == TasksOf(planned[..done]) && skipped == SkipsOf(planned[..done])
    {
      var end := if start + batch < |works| then start + batch else |works|;
      var outcomes := AiPlans(works[start..end], cache, force, current);
      AiPlansSplit(works, cache, force, current, start, end);
      PlannedConcat(planned[..start], outcomes);
      var moreTasks, moreSkips := FileOutcomes(outcomes);
      tasks, skipped := tasks + moreTasks, skipped + moreSkips;
      start := start + batch;
      done := end;
    }
    AiPlansSplit(works, cache, force, current, 0, 0);
  }

  /** The inner loop: each outcome goes to the tasks, to the skips, or nowhere. */
  method FileOutcomes(outcomes: seq<Planned>) returns (tasks: seq<Task>, skipped: seq<Skip>)
    ensures tasks == TasksOf(outcomes) && skipped == SkipsOf(outcomes)
  {
    tasks, skipped := [], [];
    for i := 0 to |outcomes|
      invariant tasks == TasksOf(outcomes[..i]) && skipped == SkipsOf(outcomes[..i])
    {
      assert outcomes[..i + 1][..i] == outcomes[..i];
      match outcomes[i] {
        case DoSkip(skip) => skipped := skipped + [skip];
        case DoTask(task) => tasks := tasks + [task];
        case OutOfScope =>
      }
    }
    assert outcomes[..|outcomes|] == outcomes;
  }

  // ------------------------------------------------------------------ decision laws

  lemma {:induction false} TasksOfExactly(planned: seq<Planned>, t: Task)
    ensures t in TasksOf(planned) <==> DoTask(t) in planned
  {
    if planned != [] {
      TasksOfExactly(planned[..|planned| - 1], t);
      assert planned == planned[..|planned| - 1] + [planned[|planned| - 1]];
    }
  }

  lemma {:induction false} SkipsOfExactly(planned: seq<Planned>, s: Skip)
    ensures s in SkipsOf(planned) <==> DoSkip(s) in planned
  {
    if planned != [] {
      SkipsOfExactly(planned[..|planned| - 1], s);
      assert planned == planned[..|planned| - 1] + [planned[|planned| - 1]];
    }
  }

  predicate ParksWork(p: Planned, id: int) {
    p.DoSkip? && p.skip.park && p.skip.candidate == id
  }

  lemma {:induction false} ParkedByExactly(planned: seq<Planned>, dryRun: bool, id: int)
    ensures id in ParkedBy(planned, dryRun)
            <==> !dryRun && exists i | 0 <= i < |planned| :: ParksWork(planned[i], id)
  {
    if planned != [] {
      var n := |planned| - 1;
      ParkedByExactly(planned[..n], dryRun, id);
      if i :| 0 <= i < n && ParksWork(planned[..n][i], id) {
        assert planned[i] == planned[..n][i];
      }
      if i :| 0 <= i < n && ParksWork(planned[i], id) {
        assert planned[..n][i] == planned[i];
      }
    }
  }

  /** What is known of a work, by its columns: it is packed once it has a file; it is in flight while its
      packing waits or runs; a pin counts unless it is empty, and comes before the path recorded with the file. */
  lemma WorkReads(id: int, title: Option<string>, file: Option<string>, state: PackState, recorded: Option<string>,
                  pin: Option<string>, byHand: bool)
    ensures var w := Work(id, title, file, state, recorded, pin, byHand);
            && (Packaged(w) <==> file != None)
            && (InFlight(w) <==> state in {Pending, Running})
            && (pin in {None, Some("")} ==> RelativePath(w) == recorded && !Manual(w))
            && (pin !in {None, Some("")} ==> RelativePath(w) == pin && (Manual(w) <==> byHand))
  {}

  // Under template mode, by what is known of the work:

  /** Not packed yet: queued, under the computed path unless one was chosen by hand or none can be made. */
  predicate TemplateQueues(w: Work, answer: Answer, t: Task) {
    && !Packaged(w) && !InFlight(w) && (Manual(w) || !answer.Refused?)
    && t == QueueTask(w, if Manual(w) || answer.NoName? then None else Some(answer.path), false, false)
  }

  /** Packed: moved to its computed path, from wherever it is recorded. By default a path chosen by hand
      stays, and so does a work that is recorded at its computed path. */
  predicate TemplateMoves(w: Work, answer: Answer, force: bool, t: Task) {
    && Packaged(w) && answer.Path?
    && (force || (!Manual(w) && RelativePath(w) != Some(answer.path)))
    && t == Task(w.id, w.title, Move, Some(answer.path), RelativePath(w), false, false)
  }

  /** To be parked: not packed, free, and refused by the template. */
  predicate TemplateParks(w: Work, answer: Answer) {
    !Packaged(w) && !InFlight(w) && !Manual(w) && answer.Refused?
  }

  predicate TemplateSkips(w: Work, answer: Answer, force: bool, s: Skip) {
    if !Packaged(w) then
      || (InFlight(w) && s == Skip(w.id, w.title, "PACK_IN_FLIGHT", IN_FLIGHT_MESSAGE, false))
      || (TemplateParks(w, answer) && s == Skip(w.id, w.title, answer.code, answer.message, true))
    else if Manual(w) && !force then s == Skip(w.id, w.title, "PATH_MANUAL", MANUAL_MESSAGE, false)
    else
      || (answer.Refused? && s == Skip(w.id, w.title, answer.code, answer.message, false))
      || (answer.NoName? && s == Skip(w.id, w.title, "NO_TITLE", NO_TITLE_MESSAGE, false))
  }

  lemma TemplateDecides(w: Work, answer: Answer, force: bool, t: Task, s: Skip)
    ensures PlanTemplate(w, answer, force) == DoTask(t)
            <==> TemplateQueues(w, answer, t) || TemplateMoves(w, answer, force, t)
    ensures PlanTemplate(w, answer, force) == DoSkip(s) <==> TemplateSkips(w, answer, force, s)
    ensures PlanTemplate(w, answer, force).DoSkip? && PlanTemplate(w, answer, force).skip.park
            <==> TemplateParks(w, answer)
    ensures PlanTemplate(w, answer, force) == OutOfScope
            <==> Packaged(w) && !force && !Manual(w) && answer.Path? && RelativePath(w) == Some(answer.path)
  {}

  /** The decision law of template mode, over the lists a plan of the library returns. */
  lemma TemplatePlanExactly(works: seq<Work>, answers: int -> Answer, force: bool, dryRun: bool, t: Task, s: Skip,
                            id: int)
    ensures var planned := TemplatePlans(works, answers, force);
            && (t in TasksOf(planned) <==>
                  exists w | w in works ::
                    TemplateQueues(w, answers(w.id), t) || TemplateMoves(w, answers(w.id), force, t))
            && (s in SkipsOf(planned) <==> exists w | w in works :: TemplateSkips(w, answers(w.id), force, s))
            && (id in ParkedBy(planned, dryRun) <==>
                  !dryRun && exists w | w in works :: w.id == id && TemplateParks(w, answers(w.id)))
  {
    var planned := TemplatePlans(works, answers, force);
    TasksOfExactly(planned, t);
    SkipsOfExactly(planned, s);
    ParkedByExactly(planned, dryRun, id);
    forall w | w in works
      ensures PlanTemplate(w, answers(w.id), force) in planned
    {
      var i :| 0 <= i < |works| && works[i] == w;
      assert planned[i] == PlanTemplate(w, answers(w.id), force);
    }
    forall w | w in works
      ensures PlanTemplate(w, answers(w.id), force) == DoTask(t)
              <==> TemplateQueues(w, answers(w.id), t) || TemplateMoves(w, answers(w.id), force, t)
      ensures PlanTemplate(w, answers(w.id), force) == DoSkip(s) <==> TemplateSkips(w, answers(w.id), force, s)
    {
      TemplateDecides(w, answers(w.id), force, t, s);
    }
    TemplateParked(works, answers, force, id);
  }

  lemma TemplateParked(works: seq<Work>, answers: int -> Answer, force: bool, id: int)
    ensures var planned := TemplatePlans(works, answers, force);
            (exists i | 0 <= i < |planned| :: ParksWork(planned[i], id))
            <==> exists w | w in works :: w.id == id && TemplateParks(w, answers(w.id))
  {
    var planned := TemplatePlans(works, answers, force);
    forall i | 0 <= i < |works|
      ensures ParksWork(planned[i], id) <==> works[i].id == id && TemplateParks(works[i], answers(works[i].id))
    {
      ParksExactly(works[i], answers(works[i].id), force, id);
    }
    if w :| w in works && w.id == id && TemplateParks(w, answers(w.id)) {
      var i :| 0 <= i < |works| && works[i] == w;
      assert ParksWork(planned[i], id);
    }
  }

  lemma ParksExactly(w: Work, answer: Answer, force: bool, id: int)
    ensures ParksWork(PlanTemplate(w, answer, force), id) <==> w.id == id && TemplateParks(w, answer)
  {}

  // And under AI mode:

  /** Not packed yet: queued under the current answer, or under force to be asked, without a path chosen
      by hand that the packer would read first. */
  predicate AiQueues(w: Work, cached: Option<string>, force: bool, t: Task) {
    && !Packaged(w) && !InFlight(w)
    && t == if force then QueueTask(w, None, true, Manual(w)) else QueueTask(w, cached, false, false)
  }

  /** Packed: moved to the current answer where that differs from the recorded path. */
  predicate AiMoves(w: Work, cached: Option<string>, force: bool, t: Task) {
    && Packaged(w) && !InFlight(w) && !force && !Manual(w) && cached.Some? && cached != RelativePath(w)
    && t == Task(w.id, w.title, Move, cached, RelativePath(w), false, false)
  }

  /** Packed: the model is asked for a path, again only under force or, where the answer is in place, on
      request. */
  predicate AiRefiles(w: Work, cached: Option<string>, force: bool, includeCurrent: bool, t: Task) {
    && Packaged(w) && !InFlight(w) && (force || !Manual(w))
    && (force || cached.None? || (includeCurrent && cached == RelativePath(w)))
    && t == Task(w.id, w.title, Refile, None, RelativePath(w), force || cached.Some?, false)
  }

  predicate AiSkips(w: Work, force: bool, s: Skip) {
    || (InFlight(w) && s == Skip(w.id, w.title, "PACK_IN_FLIGHT", IN_FLIGHT_MESSAGE, false))
    || (!InFlight(w) && Packaged(w) && Manual(w) && !force
        && s == Skip(w.id, w.title, "PATH_MANUAL", MANUAL_MESSAGE, false))
  }

  lemma AiDecides(w: Work, cached: Option<string>, force: bool, includeCurrent: bool, t: Task, s: Skip)
    ensures PlanAi(w, cached, force, includeCurrent) == DoTask(t)
            <==> AiQueues(w, cached, force, t) || AiMoves(w, cached, force, t)
                 || AiRefiles(w, cached, force, includeCurrent, t)
    ensures PlanAi(w, cached, force, includeCurrent) == DoSkip(s) <==> AiSkips(w, force, s)
    ensures PlanAi(w, cached, force, includeCurrent) == OutOfScope
            <==> Packaged(w) && !InFlight(w) && !force && !includeCurrent && !Manual(w)
                 && cached.Some? && cached == RelativePath(w)
  {}

  /** The decision law of AI mode, over the lists a plan of the library returns. */
  lemma AiPlanExactly(works: seq<Work>, cache: map<int, string>, force: bool, current: bool, t: Task, s: Skip)
    ensures var planned := AiPlans(works, cache, force, current);
            && (t in TasksOf(planned) <==>
                  exists w | w in works ::
                    || AiQueues(w, Cached(cache, w.id), force, t)
                    || AiMoves(w, Cached(cache, w.id), force, t)
                    || AiRefiles(w, Cached(cache, w.id), force, current, t))
            && (s in SkipsOf(planned) <==> exists w | w in works :: AiSkips(w, force, s))
  {
    var planned := AiPlans(works, cache, force, current);
    TasksOfExactly(planned, t);
    SkipsOfExactly(planned, s);
    forall w | w in works
      ensures PlanAi(w, Cached(cache, w.id), force, current) in planned
    {
      var i :| 0 <= i < |works| && works[i] == w;
      assert planned[i] == PlanAi(w, Cached(cache, w.id), force, current);
    }
    forall w | w in works
      ensures PlanAi(w, Cached(cache, w.id), force, current) == DoTask(t) <==>
              || AiQueues(w, Cached(cache, w.id), force, t)
              || AiMoves(w, Cached(cache, w.id), force, t)
              || AiRefiles(w, Cached(cache, w.id), force, current, t)
      ensures PlanAi(w, Cached(cache, w.id), force, current) == DoSkip(s) <==> AiSkips(w, force, s)
    {
      AiDecides(w, Cached(cache, w.id), force, current, t, s);
    }
    forall i | 0 <= i < |works|
      ensures works[i] in works && planned[i] == PlanAi(works[i], Cached(cache, works[i].id), force, current)
    {}
  }

  // -------------------------------------------------------------------- reports

  datatype Row = Row(
    candidate: int,
    title: Option<string>,
    source: Option<string>,
    target: Option<string>,
    job: Option<int>,
    code: string,
    message: string)

  datatype Category = Queued | Refiling | Moved | Unchanged | Skipped

  datatype Report = Report(
    force: bool,
    dryRun: bool,
    scanned: nat,
    queued: seq<Row>,
    refiling: seq<Row>,
    moved: seq<Row>,
    inPlace: seq<Row>,
    skipped: seq<Row>)
  {
    function File(category: Category, row: Row): Report {
      match category
      case Queued => this.(queued := queued + [row])
      case Refiling => this.(refiling := refiling + [row])
      case Moved => this.(moved := moved + [row])
      case Unchanged => this.(inPlace := inPlace + [row])
      case Skipped => this.(skipped := skipped + [row])
    }
  }

  function PlainRow(candidate: int, title: Option<string>, source: Option<string>, target: Option<string>): Row {
    Row(candidate, title, source, target, None, "", "")
  }

  function SkipRow(skip: Skip): Row {
    Row(skip.candidate, skip.title, None, None, None, skip.code, skip.message)
  }

  function SkipRows(skips: seq<Skip>): seq<Row> {
    seq(|skips|, i requires 0 <= i < |skips| => SkipRow(skips[i]))
  }

  /** What acting on one task came to: moved to a path (or found to be there already), enqueued, or
      refused with the service's reason. */
  datatype Reply = Relocated(moved: bool, path: string) | Enqueued | Denied(code: string, message: string) | Fault

  function FiledAs(task: Task, reply: Reply): (Category, Row) {
    match reply
    case Denied(code, message) => (Skipped, Row(task.candidate, task.title, None, None, None, code, message))
    case Relocated(moved, path) =>
      if moved then (Moved, PlainRow(task.candidate, task.title, task.current, Some(path)))
      else (Unchanged, PlainRow(task.candidate, task.title, None, Some(path)))
    case _ =>
      if task.mode == Refile then (Refiling, PlainRow(task.candidate, task.title, task.current, None))
      else (Queued, PlainRow(task.candidate, task.title, None, task.target))
  }

  function Blank(plan: Plan, dryRun: bool): Report {
    Report(plan.force, dryRun, plan.scanned, [], [], [], [], SkipRows(plan.skipped))
  }

  function Filed(report: Report, tasks: seq<Task>, replies: Task -> Reply): Report {
    if tasks == [] then report
    else
      var (category, row) := FiledAs(tasks[|tasks| - 1], replies(tasks[|tasks| - 1]));
      Filed(report, tasks[..|tasks| - 1], replies).File(category, row)
  }

  /** `apply_rearchive`: a refusal is one skipped work, anything else ends the run (None). */
  method ApplyRearchive(plan: Plan, replies: Task -> Reply) returns (report: Option<Report>)
    ensures (exists i | 0 <= i < |plan.tasks| :: replies(plan.tasks[i]) == Fault) <==> report.None?
    ensures report.Some? ==> report.value == Filed(Blank(plan, false), plan.tasks, replies)
  {
    var filed := Blank(plan, false);
    for i := 0 to |plan.tasks|
      invariant filed == Filed(Blank(plan, false), plan.tasks[..i], replies)
      invariant forall j | 0 <= j < i :: replies(plan.tasks[j]) != Fault
    {
      var task := plan.tasks[i];
      var reply := replies(task);
      if reply == Fault {
        return None;
      }
      assert plan.tasks[..i + 1][..i] == plan.tasks[..i];
      var (category, row) := FiledAs(task, reply);
      filed := filed.File(category, row);
    }
    assert plan.tasks[..|plan.tasks|] == plan.tasks;
    report := Some(filed);
  }

  /** What a report tells of a work: a moved file with where it was and is, one in its place with where that
      is, a queued work with its target, one filed again with where it is, a refusal with its reason. */
  predicate TellsOf(t: Task, reply: Reply, category: Category, r: Row) {
    match category
    case Moved => reply.Relocated? && reply.moved
                  && r == Row(t.candidate, t.title, t.current, Some(reply.path), None, "", "")
    case Unchanged => reply.Relocated? && !reply.moved
                      && r == Row(t.candidate, t.title, None, Some(reply.path), None, "", "")
    case Queued => reply == Enqueued && t.mode != Refile
                   && r == Row(t.candidate, t.title, None, t.target, None, "", "")
    case Refiling => reply == Enqueued && t.mode == Refile
                     && r == Row(t.candidate, t.title, t.current, None, None, "", "")
    case Skipped => reply.Denied? && r == Row(t.candidate, t.title, None, None, None, reply.code, reply.message)
  }

  predicate Tells(tasks: seq<Task>, replies: Task -> Reply, category: Category, r: Row) {
    exists t | t in tasks :: TellsOf(t, replies(t), category, r)
  }

  lemma FiledAsTells(t: Task, reply: Reply, category: Category, r: Row)
    requires reply != Fault
    ensures FiledAs(t, reply) == (category, r) <==> TellsOf(t, reply, category, r)
  {}

  lemma TellsOneMore(tasks: seq<Task>, replies: Task -> Reply, category: Category, r: Row)
    requires tasks != [] && replies(tasks[|tasks| - 1]) != Fault
    ensures Tells(tasks, replies, category, r)
            <==> || Tells(tasks[..|tasks| - 1], replies, category, r)
                 || FiledAs(tasks[|tasks| - 1], replies(tasks[|tasks| - 1])) == (category, r)
  {
    var front, last := tasks[..|tasks| - 1], tasks[|tasks| - 1];
    assert tasks == front + [last];
    FiledAsTells(last, replies(last), category, r);
    if Tells(front, replies, category, r) {
      var t :| t in front && TellsOf(t, replies(t), category, r);
      assert t in tasks;
    }
    if TellsOf(last, replies(last), category, r) {
      assert last in tasks;
    }
  }

  /** The rows of a report of a run without faults, in each of its categories; the planned skips come with
      the refusals. */
  lemma {:induction false} ReportTells(plan: Plan, tasks: seq<Task>, replies: Task -> Reply, dryRun: bool, r: Row)
    requires forall t | t in tasks :: replies(t) != Fault
    ensures var report := Filed(Blank(plan, dryRun), tasks, replies);
            && report.force == plan.force && report.dryRun == dryRun && report.scanned == plan.scanned
            && (r in report.moved <==> Tells(tasks, replies, Moved, r))
            && (r in report.inPlace <==> Tells(tasks, replies, Unchanged, r))
            && (r in report.queued <==> Tells(tasks, replies, Queued, r))
            && (r in report.refiling <==> Tells(tasks, replies, Refiling, r))
            && (r in report.skipped <==>
                  || Tells(tasks, replies, Skipped, r)
                  || exists skip | skip in plan.skipped ::
                       r == Row(skip.candidate, skip.title, None, None, None, skip.code, skip.message))
  {
    if tasks == [] {
      SkipRowsTell(plan.skipped, r);
    } else {
      var front, last := tasks[..|tasks| - 1], tasks[|tasks| - 1];
      assert last in tasks;
      ReportTells(plan, front, replies, dryRun, r);
      forall category
        ensures Tells(tasks, replies, category, r)
                <==> Tells(front, replies, category, r) || FiledAs(last, replies(last)) == (category, r)
      {
        TellsOneMore(tasks, replies, category, r);
      }
      var (category, row) := FiledAs(last, replies(last));
      FiledRows(Filed(Blank(plan, dryRun), front, replies), category, row, r);
    }
  }

  lemma SkipRowsTell(skips: seq<Skip>, r: Row)
    ensures r in SkipRows(skips)
            <==> exists skip | skip in skips ::
                   r == Row(skip.candidate, skip.title, None, None, None, skip.code, skip.message)
  {
    if skip :| skip in skips && r == Row(skip.candidate, skip.title, None, None, None, skip.code, skip.message) {
      var i :| 0 <= i < |skips| && skips[i] == skip;
      assert SkipRows(skips)[i] == r;
    }
  }

  /** Filing a row adds it to its category only. */
  lemma FiledRows(report: Report, category: Category, row: Row, r: Row)
    ensures var after := report.File(category, row);
            && after.force == report.force && after.dryRun == report.dryRun && after.scanned == report.scanned
            && (r in after.moved <==> r in report.moved || (category, row) == (Moved, r))
            && (r in after.inPlace <==> r in report.inPlace || (category, row) == (Unchanged, r))
            && (r in after.queued <==> r in report.queued || (category, row) == (Queued, r))
            && (r in after.refiling <==> r in report.refiling || (category, row) == (Refiling, r))
            && (r in after.skipped <==> r in report.skipped || (category, row) == (Skipped, r))
  {}

  /** What a preview assumes: every move is a move, everything else is enqueued. */
  function PreviewReply(task: Task): Reply {
    if task.mode == Move then Relocated(true, if task.target.Some? then task.target.value else "") else Enqueued
  }

  method PreviewReport(plan: Plan) returns (report: Report)
    ensures report == Filed(Blank(plan, true), plan.tasks, PreviewReply)
  {
    report := Blank(plan, true);
    for i := 0 to |plan.tasks|
      invariant report == Filed(Blank(plan, true), plan.tasks[..i], PreviewReply)
    {
      assert plan.tasks[..i + 1][..i] == plan.tasks[..i];
      var (category, row) := FiledAs(plan.tasks[i], PreviewReply(plan.tasks[i]));
      report := report.File(category, row);
    }
    assert plan.tasks[..|plan.tasks|] == plan.tasks;
  }

  function TargetOf(t: Task): string {
    if t.target.Some? then t.target.value else ""
  }

  /** The rows of a preview: it takes every move for one that is made and every other task for queued. */
  lemma PreviewTells(plan: Plan, r: Row)
    ensures var report := Filed(Blank(plan, true), plan.tasks, PreviewReply);
            && report.inPlace == []
            && (r in report.moved <==> exists t | t in plan.tasks ::
                  && t.mode == Move
                  && r == Row(t.candidate, t.title, t.current, Some(TargetOf(t)), None, "", ""))
            && (r in report.queued <==> exists t | t in plan.tasks ::
                  t.mode == Queue && r == Row(t.candidate, t.title, None, t.target, None, "", ""))
            && (r in report.refiling <==> exists t | t in plan.tasks ::
                  t.mode == Refile && r == Row(t.candidate, t.title, t.current, None, None, "", ""))
            && (r in report.skipped <==> exists skip | skip in plan.skipped ::
                  r == Row(skip.candidate, skip.title, None, None, None, skip.code, skip.message))
  {
    ReportTells(plan, plan.tasks, PreviewReply, true, r);
    var report := Filed(Blank(plan, true), plan.tasks, PreviewReply);
    if report.inPlace != [] {
      ReportTells(plan, plan.tasks, PreviewReply, true, report.inPlace[0]);
    }
    forall t: Task
      ensures TellsOf(t, PreviewReply(t), Moved, r) <==>
              && t.mode == Move
              && r == Row(t.candidate, t.title, t.current, Some(TargetOf(t)), None, "", "")
      ensures TellsOf(t, PreviewReply(t), Queued, r) <==>
              t.mode == Queue && r == Row(t.candidate, t.title, None, t.target, None, "", "")
      ensures TellsOf(t, PreviewReply(t), Refiling, r) <==>
              t.mode == Refile && r == Row(t.candidate, t.title, t.current, None, None, "", "")
    {}
  }

  // ------------------------------------------------------------------ conservation

  function RowsOf(rows: seq<Row>, id: int): nat {
    if rows == [] then 0 else RowsOf(rows[..|rows| - 1], id) + if rows[|rows| - 1].candidate == id then 1 else 0
  }

  function TasksFor(tasks: seq<Task>, id: int): nat {
    if tasks == [] then 0 else TasksFor(tasks[..|tasks| - 1], id) + if tasks[|tasks| - 1].candidate == id then 1 else 0
  }

  function SkipsFor(skips: seq<Skip>, id: int): nat {
    if skips == [] then 0 else SkipsFor(skips[..|skips| - 1], id) + if skips[|skips| - 1].candidate == id then 1 else 0
  }

  /** How often a report names a work, over all its categories. */
  function Named(r: Report, id: int): nat {
    RowsOf(r.queued, id) + RowsOf(r.refiling, id) + RowsOf(r.moved, id) + RowsOf(r.inPlace, id) + RowsOf(r.skipped, id)
  }

  lemma RowsSnoc(rows: seq<Row>, row: Row, id: int)
    ensures RowsOf(rows + [row], id) == RowsOf(rows, id) + if row.candidate == id then 1 else 0
  {
    assert (rows + [row])[..|rows|] == rows;
  }

  lemma FileNamesOne(r: Report, category: Category, row: Row, id: int)
    ensures Named(r.File(category, row), id) == Named(r, id) + if row.candidate == id then 1 else 0
  {
    match category
    case Queued => RowsSnoc(r.queued, row, id);
    case Refiling => RowsSnoc(r.refiling, row, id);
    case Moved => RowsSnoc(r.moved, row, id);
    case Unchanged => RowsSnoc(r.inPlace, row, id);
    case Skipped => RowsSnoc(r.skipped, row, id);
  }

  lemma {:induction false} SkipRowsKeepIds(skips: seq<Skip>, id: int)
    ensures RowsOf(SkipRows(skips), id) == SkipsFor(skips, id)
  {
    if skips != [] {
      SkipRowsKeepIds(skips[..|skips| - 1], id);
      assert SkipRows(skips)[..|skips| - 1] == SkipRows(skips[..|skips| - 1]);
    }
  }

  lemma {:induction false} FiledNamesEveryTask(report: Report, tasks: seq<Task>, replies: Task -> Reply, id: int)
    ensures Named(Filed(report, tasks, replies), id) == Named(report, id) + TasksFor(tasks, id)
  {
    if tasks != [] {
      var front, last := tasks[..|tasks| - 1], tasks[|tasks| - 1];
      FiledNamesEveryTask(report, front, replies, id);
      OneMoreFiled(Filed(report, front, replies), last, replies(last), id);
    }
  }

  lemma OneMoreFiled(report: Report, task: Task, reply: Reply, id: int)
    ensures var (category, row) := FiledAs(task, reply);
            Named(report.File(category, row), id) == Named(report, id) + if task.candidate == id then 1 else 0
  {
    var (category, row) := FiledAs(task, reply);
    FileNamesOne(report, category, row, id);
  }

  /** A report names each work exactly as often as the plan does, whatever the tasks came to. */
  lemma ReportIsConservative(plan: Plan, replies: Task -> Reply, dryRun: bool, id: int)
    ensures Named(Filed(Blank(plan, dryRun), plan.tasks, replies), id)
            == TasksFor(plan.tasks, id) + SkipsFor(plan.skipped, id)
  {
    FiledNamesEveryTask(Blank(plan, dryRun), plan.tasks, replies, id);
    SkipRowsKeepIds(plan.skipped, id);
  }

  function WorksFor(works: seq<Work>, id: int): nat {
    if works == [] then 0 else WorksFor(works[..|works| - 1], id) + if works[|works| - 1].id == id then 1 else 0
  }

  predicate IsOfWork(w: Work, planned: Planned) {
    match planned
    case DoTask(task) => task.candidate == w.id
    case DoSkip(skip) => skip.candidate == w.id
    case OutOfScope => true
  }

  /** A plan names a work at most as often as the library lists it, so once if its ids are distinct. */
  lemma {:induction false} PlanNamesWorksOnce(works: seq<Work>, planned: seq<Planned>, id: int)
    requires |planned| == |works|
    requires forall i | 0 <= i < |works| :: IsOfWork(works[i], planned[i])
    ensures TasksFor(TasksOf(planned), id) + SkipsFor(SkipsOf(planned), id) <= WorksFor(works, id)
  {
    if works != [] {
      var n := |works| - 1;
      PlanNamesWorksOnce(works[..n], planned[..n], id);
      var tasks, skips := TasksOf(planned[..n]), SkipsOf(planned[..n]);
      match planned[n]
      case DoTask(task) =>
        assert SkipsOf(planned) == skips && (tasks + [task])[..|tasks|] == tasks;
      case DoSkip(skip) =>
        assert TasksOf(planned) == tasks && (skips + [skip])[..|skips|] == skips;
      case OutOfScope =>
        assert TasksOf(planned) == tasks && SkipsOf(planned) == skips;
    }
  }

  lemma PlansAreOfTheirWork(w: Work, answer: Answer, cached: Option<string>, force: bool, current: bool)
    ensures IsOfWork(w, PlanTemplate(w, answer, force)) && IsOfWork(w, PlanAi(w, cached, force, current))
  {}

  /** Of a library with distinct ids, either planner names each work once at most. */
  lemma PlansNameWorksOnce(works: seq<Work>, answers: int -> Answer, cache: map<int, string>, force: bool,
                           current: bool, id: int)
    requires forall i, j | 0 <= i < j < |works| :: works[i].id != works[j].id
    ensures var planned := TemplatePlans(works, answers, force);
            TasksFor(TasksOf(planned), id) + SkipsFor(SkipsOf(planned), id) <= 1
    ensures var planned := AiPlans(works, cache, force, current);
            TasksFor(TasksOf(planned), id) + SkipsFor(SkipsOf(planned), id) <= 1
  {
    forall i | 0 <= i < |works|
      ensures IsOfWork(works[i], TemplatePlans(works, answers, force)[i])
      ensures IsOfWork(works[i], AiPlans(works, cache, force, current)[i])
    {
      PlansAreOfTheirWork(works[i], answers(works[i].id), Cached(cache, works[i].id), force, current);
    }
    PlanNamesWorksOnce(works, TemplatePlans(works, answers, force), id);
    PlanNamesWorksOnce(works, AiPlans(works, cache, force, current), id);
    ListedOnce(works, id);
  }

  lemma {:induction false} ListedOnce(works: seq<Work>, id: int)
    requires forall i, j | 0 <= i < j < |works| :: works[i].id != works[j].id
    ensures WorksFor(works, id) <= 1
    ensures (forall i | 0 <= i < |works| :: works[i].id != id) ==> WorksFor(works, id) == 0
  {
    if works != [] {
      var front := works[..|works| - 1];
      assert forall i | 0 <= i < |front| :: front[i] == works[i];
      ListedOnce(front, id);
    }
  }
}
