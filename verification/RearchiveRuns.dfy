/** What a re-archive run leaves behind, with the files that are in the way of its moves. */
module RearchiveRuns {
  import opened Text
  import opened Decimals
  import opened Rearchive

  // ------------------------------------------------------------------------ one move

  const CBZ := ".cbz"

  /** The name tried at a turn of `unique_library_target`: `T (2).cbz` for `T.cbz`. */
  function Suffixed(target: string, attempt: nat): string {
    if |target| >= 4 && target[|target| - 4..] == CBZ
    then target[..|target| - 4] + (" (" + Dec(attempt) + ")") + CBZ
    else target + (" (" + Dec(attempt) + ")")
  }

  /** The numbered name is the book's own or nobody's. */
  predicate FreeName(target: string, own: string, disk: set<string>, attempt: nat) {
    Suffixed(target, attempt) == own || Suffixed(target, attempt) !in disk
  }

  /** The first number from `attempt` to 999 that holds, or 1000. */
  function FirstSuch(holds: nat -> bool, attempt: nat): nat
    decreases 1000 - attempt
  {
    if attempt >= 1000 || holds(attempt) then attempt else FirstSuch(holds, attempt + 1)
  }

  function FreeNames(target: string, own: string, disk: set<string>): nat -> bool {
    (attempt: nat) => FreeName(target, own, disk, attempt)
  }

  /** `unique_library_target`: the target if it is free or the book's own file, or else the first
      suffixed name that is; None when a thousand books have that name. */
  function UniqueTarget(target: string, own: string, disk: set<string>): Option<string> {
    if target == own || target !in disk then Some(target)
    else
      var attempt := FirstSuch(FreeNames(target, own, disk), 2);
      if attempt < 1000 then Some(Suffixed(target, attempt)) else None
  }

  /** The loop of `unique_library_target`. */
  method FindTarget(target: string, own: string, disk: set<string>) returns (found: Option<string>)
    ensures found == UniqueTarget(target, own, disk)
  {
    if target == own {
      return Some(target);
    }
    if target !in disk {
      return Some(target);
    }
    var attempt := 2;
    while attempt < 1000
      invariant 2 <= attempt <= 1000
      invariant FirstSuch(FreeNames(target, own, disk), 2) == FirstSuch(FreeNames(target, own, disk), attempt)
    {
      var candidate := Suffixed(target, attempt);
      if candidate == own || candidate !in disk {
        return Some(candidate);
      }
      attempt := attempt + 1;
    }
    return None;
  }

  // ------------------------------------------------------------------------- one turn

  datatype Library = Library(works: seq<Work>, disk: set<string>)

  /** What else may come up at a work's turn: nothing, a refusal with a code, or an error without one. */
  datatype Trouble = Smooth | Refusal | Breakdown

  /** A run so far; `broken` once an error without a code has ended it. */
  datatype Progress = Progress(lib: Library, broken: bool)

  /** `path` is pinned by a work other than the one at `i`; `others` are the paths pinned by works that
      the library does not list. */
  predicate PinTaken(works: seq<Work>, others: set<string>, i: nat, path: string) {
    path in others || exists j | 0 <= j < |works| :: j != i && works[j].pinnedPath == Some(path)
  }

  /** Whether a move can be begun at all: the file is there and no packing of the work is running. */
  predicate Movable(w: Work, disk: set<string>) {
    w.file.Some? && w.file.value in disk && w.packState != Running
  }

  /** The work once its file is at `path`. */
  function Filed(w: Work, path: string): Work {
    w.(file := Some(path), libraryPath := Some(path), pinnedPath := Some(path), pinnedManually := false)
  }

  /** `refile_work`: the file goes to a free name and is recorded and pinned there, or the move is refused.
      A pin of another work at that very path breaks the table's index; the file is then put back. */
  function MoveTurn(lib: Library, i: nat, target: string, others: set<string>, trouble: Trouble): Progress
    requires i < |lib.works|
  {
    var w := lib.works[i];
    if trouble.Breakdown? then Progress(lib, true)
    else if trouble.Refusal? || !Movable(w, lib.disk) then Progress(lib, false)
    else
      match UniqueTarget(target, w.file.value, lib.disk)
      case None => Progress(lib, false)
      case Some(path) =>
        if PinTaken(lib.works, others, i, path) then Progress(lib, true)
        else
          Progress(Library(lib.works[i := Filed(w, path)], lib.disk - {w.file.value} + {path}), false)
  }

  /** The work once the pin that a forced run drops is gone. */
  function Unpinned(w: Work, task: Task): Work {
    if task.clearPin then w.(pinnedPath := None, pinnedManually := false) else w
  }

  /** `set_archive_path_pin` leaves a pin chosen by hand as it is. */
  predicate Writes(w: Work, task: Task) {
    task.target.Some? && !(w.pinnedPath.Some? && w.pinnedManually)
  }

  function Pinned(w: Work, task: Task): Work {
    if Writes(w, task) then w.(pinnedPath := task.target, pinnedManually := false) else w
  }

  /** The pin of a work to be packed is dropped or written first, each in a transaction of its own, and
      then its job is queued. */
  function QueueTurn(lib: Library, i: nat, task: Task, others: set<string>, trouble: Trouble): Progress
    requires i < |lib.works|
  {
    var w := Unpinned(lib.works[i], task);
    if Writes(w, task) && PinTaken(lib.works, others, i, task.target.value) then
      Progress(lib.(works := lib.works[i := w]), true)
    else
      var v := Pinned(w, task);
      Progress(lib.(works := lib.works[i := if trouble.Smooth? then v.(packState := Pending) else v]),
               trouble.Breakdown?)
  }

  function Turn(lib: Library, i: nat, planned: Planned, others: set<string>, trouble: Trouble): Progress
    requires i < |lib.works|
  {
    match planned
    case DoTask(task) =>
      (match task.mode
       case Move =>
         if task.target.Some? then MoveTurn(lib, i, task.target.value, others, trouble) else Progress(lib, false)
       case Queue => QueueTurn(lib, i, task, others, trouble)
       case Refile => QueueTurn(lib, i, task.(target := None, clearPin := false), others, trouble))
    case _ => Progress(lib, false)
  }

  // ----------------------------------------------------------------------------- a run

  /** `apply_rearchive` on the library, the works in order; `Run` is what the first `n` turns come to. */
  function Run(lib: Library, planned: seq<Planned>, others: set<string>, world: nat -> Trouble, n: nat): (end: Progress)
    requires n <= |planned| == |lib.works|
    ensures |end.lib.works| == |lib.works|
  {
    if n == 0 then Progress(lib, false)
    else
      var before := Run(lib, planned, others, world, n - 1);
      if before.broken then before else Turn(before.lib, n - 1, planned[n - 1], others, world(n - 1))
  }

  /** The loop over the tasks, which stops at the first error without a code. */
  method ApplyTurns(lib: Library, planned: seq<Planned>, others: set<string>, world: nat -> Trouble)
    returns (end: Progress)
    requires |planned| == |lib.works|
    ensures end == Run(lib, planned, others, world, |planned|)
  {
    end := Progress(lib, false);
    for i := 0 to |planned|
      invariant !end.broken && end == Run(lib, planned, others, world, i)
    {
      end := Turn(end.lib, i, planned[i], others, world(i));
      if end.broken {
        BrokenStays(lib, planned, others, world, i + 1, |planned|);
        return;
      }
    }
  }

  lemma {:induction false} BrokenStays(lib: Library, planned: seq<Planned>, others: set<string>,
                                       world: nat -> Trouble, i: nat, n: nat)
    requires i <= n <= |planned| == |lib.works| && Run(lib, planned, others, world, i).broken
    ensures Run(lib, planned, others, world, n) == Run(lib, planned, others, world, i)
  {
    if i < n {
      BrokenStays(lib, planned, others, world, i, n - 1);
    }
  }

  /** A turn touches its own work only. */
  lemma TurnIsLocal(lib: Library, i: nat, planned: Planned, others: set<string>, trouble: Trouble)
    requires i < |lib.works|
    ensures var after := Turn(lib, i, planned, others, trouble).lib.works;
            |after| == |lib.works| && after == lib.works[i := after[i]]
  {}

  /** A work that is not reached, because it stands behind or because the run broke before it, is as it
      was; one that is reached ends as its turn leaves it. */
  lemma {:induction false} WorkAt(lib: Library, planned: seq<Planned>, others: set<string>, world: nat -> Trouble,
                                  n: nat, i: nat)
    requires n <= |planned| == |lib.works| && i < |lib.works|
    ensures var end := Run(lib, planned, others, world, n).lib.works[i];
            if n <= i || Run(lib, planned, others, world, i).broken then end == lib.works[i]
            else end == Turn(Run(lib, planned, others, world, i).lib, i, planned[i], others, world(i)).lib.works[i]
  {
    if n > 0 {
      WorkAt(lib, planned, others, world, n - 1, i);
      var before := Run(lib, planned, others, world, n - 1);
      if !before.broken {
        TurnIsLocal(before.lib, n - 1, planned[n - 1], others, world(n - 1));
      }
    }
  }

  // -------------------------------------------------------------------- where a move lands

  lemma SuffixedDiffers(target: string, attempt: nat)
    ensures Suffixed(target, attempt) != target
  {
    assert |Suffixed(target, attempt)| != |target|;
  }

  lemma {:induction false} FirstSuchIs(holds: nat -> bool, attempt: nat)
    requires attempt <= 1000
    ensures var k := FirstSuch(holds, attempt);
            && attempt <= k <= 1000 && (k < 1000 ==> holds(k))
            && forall j: nat | attempt <= j < k :: !holds(j)
    decreases 1000 - attempt
  {
    if attempt < 1000 && !holds(attempt) {
      FirstSuchIs(holds, attempt + 1);
    }
  }

  /** The chosen name is the book's own or nobody's, and is the target exactly if that is. */
  lemma UniqueTargetIs(target: string, own: string, disk: set<string>)
    ensures var found := UniqueTarget(target, own, disk);
            && (found.Some? ==> found.value == own || found.value !in disk)
            && (found == Some(target) <==> target == own || target !in disk)
  {
    FirstSuchIs(FreeNames(target, own, disk), 2);
    SuffixedDiffers(target, FirstSuch(FreeNames(target, own, disk), 2));
  }

  /** The name with a number before the suffix. */
  lemma NumberedNames(stem: string, attempt: nat)
    ensures Suffixed(stem + ".cbz", attempt) == stem + (" (" + Dec(attempt) + ")") + ".cbz"
  {
    var target := stem + ".cbz";
    assert target[|target| - 4..] == ".cbz" && target[..|target| - 4] == stem;
  }

  /** A book is filed at its target, if that is its own or free, or else under the first of the numbers 2 to
      999 that gives a name of its own or a free one; with none of them there is no name. */
  lemma UniqueTargetExactly(target: string, own: string, disk: set<string>)
    ensures var found := UniqueTarget(target, own, disk);
            if target == own || target !in disk then found == Some(target)
            else match found
                 case None => forall k: nat | 2 <= k <= 999 :: !FreeName(target, own, disk, k)
                 case Some(name) =>
                   exists k: nat :: 2 <= k <= 999 && FreeName(target, own, disk, k) && name == Suffixed(target, k)
                                    && forall j: nat | 2 <= j < k :: !FreeName(target, own, disk, j)
  {
    var free := FreeNames(target, own, disk);
    FirstSuchIs(free, 2);
    assert forall k: nat :: free(k) <==> FreeName(target, own, disk, k);
  }

  /** A move of the work at `i` can end at its target: nothing else comes up, the file can be moved, the
      target is free or the book's own, and no other work is pinned there. */
  predicate Landable(lib: Library, i: nat, target: string, others: set<string>, trouble: Trouble)
    requires i < |lib.works|
  {
    && trouble.Smooth? && lib.works[i].packState != Running
    && lib.works[i].file.Some? && lib.works[i].file.value in lib.disk
    && (lib.works[i].file == Some(target) || target !in lib.disk)
    && !PinTaken(lib.works, others, i, target)
  }

  /** A move ends at its target exactly if it is landable; it ends the run exactly if an error without a
      code comes up, which a pin of another work at the name chosen on the disk is. */
  lemma LandsExactly(lib: Library, i: nat, target: string, others: set<string>, trouble: Trouble)
    requires i < |lib.works| && RelativePath(lib.works[i]) != Some(target) && target != ""
    ensures var (w, after) := (lib.works[i], MoveTurn(lib, i, target, others, trouble));
            && (RelativePath(after.lib.works[i]) == Some(target) <==> Landable(lib, i, target, others, trouble))
            && (after.broken <==>
                  || trouble.Breakdown?
                  || (&& trouble.Smooth? && Movable(w, lib.disk)
                      && UniqueTarget(target, w.file.value, lib.disk).Some?
                      && PinTaken(lib.works, others, i, UniqueTarget(target, w.file.value, lib.disk).value)))
            && (after.broken ==> after.lib == lib)
  {
    var w := lib.works[i];
    if Movable(w, lib.disk) {
      UniqueTargetIs(target, w.file.value, lib.disk);
    }
  }

  /** Queueing ends the run exactly if the path it is to pin is another work's, or an error without a code
      comes up; the pin that a forced run drops is then gone all the same. */
  lemma QueueBreaksExactly(lib: Library, i: nat, task: Task, others: set<string>, trouble: Trouble)
    requires i < |lib.works|
    ensures var (w, after) := (lib.works[i], QueueTurn(lib, i, task, others, trouble));
            var conflict := && task.target.Some? && (task.clearPin || w.pinnedPath.None? || !w.pinnedManually)
                            && PinTaken(lib.works, others, i, task.target.value);
            && (after.broken <==> conflict || trouble.Breakdown?)
            && after.lib.disk == lib.disk && after.lib.works[i].file == w.file
            && (after.lib.works[i].packState == (if !conflict && trouble.Smooth? then Pending else w.packState))
            && (conflict ==> after.lib.works[i].pinnedPath == if task.clearPin then None else w.pinnedPath)
  {}

  // ------------------------------------------------------------------- the run after a run

  predicate IsMove(planned: Planned) {
    planned.DoTask? && planned.task.mode == Move && planned.task.target.Some?
  }

  /** The run gets to the work, and its move is landable then. */
  predicate Lands(lib: Library, planned: seq<Planned>, others: set<string>, world: nat -> Trouble, i: nat)
    requires i < |planned| == |lib.works| && IsMove(planned[i])
  {
    var before := Run(lib, planned, others, world, i);
    !before.broken && Landable(before.lib, i, planned[i].task.target.value, others, world(i))
  }

  /** Paths that are planned are not empty. */
  ghost predicate Proper(answers: int -> Answer) {
    forall id {:trigger answers(id)} :: answers(id).Path? ==> answers(id).path != ""
  }

  ghost predicate ProperAnswers(cache: map<int, string>) {
    forall id | id in cache :: cache[id] != ""
  }

  lemma TurnKeepsWork(lib: Library, i: nat, planned: Planned, others: set<string>, trouble: Trouble)
    requires i < |lib.works|
    ensures var after := Turn(lib, i, planned, others, trouble).lib.works[i];
            after.id == lib.works[i].id && (Packaged(after) <==> Packaged(lib.works[i]))
  {}

  /** What the next default run makes of a work after its turn in this one. */
  lemma NextTemplateTurn(lib: Library, i: nat, answer: Answer, others: set<string>, trouble: Trouble)
    requires i < |lib.works| && (answer.Path? ==> answer.path != "")
    ensures var planned := PlanTemplate(lib.works[i], answer, false);
            var again := PlanTemplate(Turn(lib, i, planned, others, trouble).lib.works[i], answer, false);
            if !IsMove(planned) then !IsMove(again)
            else if Landable(lib, i, planned.task.target.value, others, trouble) then again == OutOfScope
            else IsMove(again)
  {
    var planned := PlanTemplate(lib.works[i], answer, false);
    TurnKeepsWork(lib, i, planned, others, trouble);
    if IsMove(planned) {
      LandsExactly(lib, i, answer.path, others, trouble);
    }
  }

  lemma NextAiTurn(lib: Library, i: nat, cached: Option<string>, others: set<string>, trouble: Trouble)
    requires i < |lib.works| && cached != Some("")
    ensures var planned := PlanAi(lib.works[i], cached, false, false);
            var again := PlanAi(Turn(lib, i, planned, others, trouble).lib.works[i], cached, false, false);
            if !IsMove(planned) then !IsMove(again)
            else if Landable(lib, i, planned.task.target.value, others, trouble) then again == OutOfScope
            else IsMove(again)
  {
    var planned := PlanAi(lib.works[i], cached, false, false);
    TurnKeepsWork(lib, i, planned, others, trouble);
    if IsMove(planned) {
      LandsExactly(lib, i, cached.value, others, trouble);
    }
  }

  /** Under unchanged rules the next default run moves a work again exactly if it was to be moved and did
      not land at its computed path, or was not reached; where it landed, the work is out of scope. */
  lemma NextRunMovesExactly(lib: Library, answers: int -> Answer, others: set<string>, world: nat -> Trouble, i: nat)
    requires i < |lib.works| && Proper(answers)
    ensures var planned := TemplatePlans(lib.works, answers, false);
            var again := TemplatePlans(Run(lib, planned, others, world, |planned|).lib.works, answers, false);
            && (IsMove(again[i]) <==> IsMove(planned[i]) && !Lands(lib, planned, others, world, i))
            && (IsMove(planned[i]) && Lands(lib, planned, others, world, i) ==> again[i] == OutOfScope)
  {
    var planned := TemplatePlans(lib.works, answers, false);
    var before := Run(lib, planned, others, world, i);
    WorkAt(lib, planned, others, world, |planned|, i);
    WorkAt(lib, planned, others, world, i, i);
    if !before.broken {
      TurnKeepsWork(before.lib, i, planned[i], others, world(i));
      NextTemplateTurn(before.lib, i, answers(lib.works[i].id), others, world(i));
    }
  }

  /** The same under AI mode, with unchanged answers. */
  lemma NextAiRunMovesExactly(lib: Library, cache: map<int, string>, others: set<string>, world: nat -> Trouble, i: nat)
    requires i < |lib.works| && ProperAnswers(cache)
    ensures var planned := AiPlans(lib.works, cache, false, false);
            var again := AiPlans(Run(lib, planned, others, world, |planned|).lib.works, cache, false, false);
            && (IsMove(again[i]) <==> IsMove(planned[i]) && !Lands(lib, planned, others, world, i))
            && (IsMove(planned[i]) && Lands(lib, planned, others, world, i) ==> again[i] == OutOfScope)
  {
    var planned := AiPlans(lib.works, cache, false, false);
    var before := Run(lib, planned, others, world, i);
    WorkAt(lib, planned, others, world, |planned|, i);
    WorkAt(lib, planned, others, world, i, i);
    if !before.broken {
      TurnKeepsWork(before.lib, i, planned[i], others, world(i));
      NextAiTurn(before.lib, i, Cached(cache, lib.works[i].id), others, world(i));
    }
  }

  /** Every move of the run lands. */
  predicate AllLand(lib: Library, planned: seq<Planned>, others: set<string>, world: nat -> Trouble)
    requires |planned| == |lib.works|
  {
    forall i: nat | i < |planned| && IsMove(planned[i]) :: Lands(lib, planned, others, world, i)
  }

  predicate PlansNoMove(planned: seq<Planned>) {
    forall t | t in TasksOf(planned) :: t.mode != Move
  }

  /** After a default run of a library the same rules plan no move exactly if every move landed, which
      takes a run that does not break before its last move. */
  lemma LibraryConvergesExactly(lib: Library, answers: int -> Answer, others: set<string>, world: nat -> Trouble)
    requires Proper(answers)
    ensures var planned := TemplatePlans(lib.works, answers, false);
            var again := TemplatePlans(Run(lib, planned, others, world, |planned|).lib.works, answers, false);
            PlansNoMove(again) <==> AllLand(lib, planned, others, world)
  {
    var planned := TemplatePlans(lib.works, answers, false);
    var again := TemplatePlans(Run(lib, planned, others, world, |planned|).lib.works, answers, false);
    forall i: nat | i < |planned|
      ensures IsMove(again[i]) <==> IsMove(planned[i]) && !Lands(lib, planned, others, world, i)
    {
      NextRunMovesExactly(lib, answers, others, world, i);
    }
    ConvergesIff(lib, planned, again, others, world);
  }

  /** The same under AI mode. */
  lemma AiLibraryConvergesExactly(lib: Library, cache: map<int, string>, others: set<string>, world: nat -> Trouble)
    requires ProperAnswers(cache)
    ensures var planned := AiPlans(lib.works, cache, false, false);
            var again := AiPlans(Run(lib, planned, others, world, |planned|).lib.works, cache, false, false);
            PlansNoMove(again) <==> AllLand(lib, planned, others, world)
  {
    var planned := AiPlans(lib.works, cache, false, false);
    var again := AiPlans(Run(lib, planned, others, world, |planned|).lib.works, cache, false, false);
    forall i: nat | i < |planned|
      ensures IsMove(again[i]) <==> IsMove(planned[i]) && !Lands(lib, planned, others, world, i)
    {
      NextAiRunMovesExactly(lib, cache, others, world, i);
    }
    ConvergesIff(lib, planned, again, others, world);
  }

  lemma ConvergesIff(lib: Library, planned: seq<Planned>, again: seq<Planned>, others: set<string>,
                     world: nat -> Trouble)
    requires |again| == |planned| == |lib.works|
    requires forall i: nat | i < |planned| ::
               IsMove(again[i]) <==> IsMove(planned[i]) && !Lands(lib, planned, others, world, i)
    requires forall i: nat | i < |again| :: again[i].DoTask? && again[i].task.mode == Move ==> IsMove(again[i])
    ensures PlansNoMove(again) <==> AllLand(lib, planned, others, world)
  {
    NoMoves(again);
  }

  lemma NoMoves(planned: seq<Planned>)
    ensures PlansNoMove(planned)
            <==> forall i | 0 <= i < |planned| :: planned[i].DoTask? ==> planned[i].task.mode != Move
  {
    forall t: Task
      ensures t in TasksOf(planned) <==> DoTask(t) in planned
    {
      TasksOfExactly(planned, t);
    }
    forall i | 0 <= i < |planned| && planned[i].DoTask?
      ensures planned[i].task in TasksOf(planned)
    {
      assert planned[i] == DoTask(planned[i].task);
    }
  }

  // ------------------------------------------------------------------- orderly libraries

  /** The path a task is to pin its work to. */
  function Pins(planned: Planned): Option<string> {
    if planned.DoTask? && planned.task.mode != Refile then planned.task.target else None
  }

  /** A test on the library before the run: every file to be moved is there and no two of them are one
      file, no path to move to is taken by another file, no two tasks pin one path, and no other work is
      pinned at it. */
  predicate Orderly(lib: Library, planned: seq<Planned>, others: set<string>)
    requires |planned| == |lib.works|
  {
    && (forall i: nat | i < |planned| && IsMove(planned[i]) ::
          && Movable(lib.works[i], lib.disk)
          && (planned[i].task.target == lib.works[i].file || planned[i].task.target.value !in lib.disk))
    && (forall i: nat, j: nat | i < j < |planned| && IsMove(planned[i]) && IsMove(planned[j]) ::
          lib.works[i].file != lib.works[j].file)
    && (forall i: nat, j: nat | i < j < |planned| && Pins(planned[i]).Some? :: Pins(planned[i]) != Pins(planned[j]))
    && (forall i: nat | i < |planned| && Pins(planned[i]).Some? ::
          !PinTaken(lib.works, others, i, Pins(planned[i]).value))
  }

  ghost predicate Calm(world: nat -> Trouble) {
    forall i: nat :: world(i) == Smooth
  }

  /** What an orderly run has come to before the turn of the work at `i`. */
  ghost predicate OnCourse(lib: Library, planned: seq<Planned>, others: set<string>, now: Library, i: nat)
    requires |planned| == |lib.works| && i <= |planned|
  {
    && |now.works| == |lib.works|
    && (forall k: nat | i <= k < |planned| :: now.works[k] == lib.works[k])
    && (forall k: nat | k < |planned| ::
          now.works[k].pinnedPath in {None, lib.works[k].pinnedPath, Pins(planned[k])})
    && (forall k: nat | i <= k < |planned| && IsMove(planned[k]) ::
          && Movable(lib.works[k], now.disk)
          && (planned[k].task.target == lib.works[k].file || planned[k].task.target.value !in now.disk))
  }

  lemma OrderlyPinIsFree(lib: Library, planned: seq<Planned>, others: set<string>, now: Library, i: nat)
    requires i < |planned| == |lib.works| && Orderly(lib, planned, others) && OnCourse(lib, planned, others, now, i)
    requires Pins(planned[i]).Some?
    ensures !PinTaken(now.works, others, i, Pins(planned[i]).value)
  {
    var path := Pins(planned[i]).value;
    assert !PinTaken(lib.works, others, i, path);
    forall j: nat | j < |now.works| && j != i
      ensures now.works[j].pinnedPath != Some(path)
    {
      assert i < j ==> Pins(planned[i]) != Pins(planned[j]);
      assert j < i && Pins(planned[j]).Some? ==> Pins(planned[j]) != Pins(planned[i]);
    }
  }

  lemma OrderlyTurn(lib: Library, planned: seq<Planned>, others: set<string>, now: Library, i: nat)
    requires i < |planned| == |lib.works| && Orderly(lib, planned, others) && OnCourse(lib, planned, others, now, i)
    ensures var after := Turn(now, i, planned[i], others, Smooth);
            && !after.broken && OnCourse(lib, planned, others, after.lib, i + 1)
            && (IsMove(planned[i]) ==> Landable(now, i, planned[i].task.target.value, others, Smooth))
  {
    if Pins(planned[i]).Some? {
      OrderlyPinIsFree(lib, planned, others, now, i);
    }
    TurnIsLocal(now, i, planned[i], others, Smooth);
    if IsMove(planned[i]) {
      var target := planned[i].task.target.value;
      UniqueTargetIs(target, now.works[i].file.value, now.disk);
      var after := Turn(now, i, planned[i], others, Smooth);
      assert after.lib.disk == now.disk - {lib.works[i].file.value} + {target};
      forall k: nat | i < k < |planned| && IsMove(planned[k])
        ensures planned[k].task.target != planned[i].task.target
      {
        assert Pins(planned[i]) != Pins(planned[k]);
      }
    }
  }

  lemma {:induction false} CalmStep(lib: Library, planned: seq<Planned>, others: set<string>,
                                    world: nat -> Trouble, i: nat)
    requires i < |planned| == |lib.works| && Calm(world) && !Run(lib, planned, others, world, i).broken
    ensures Run(lib, planned, others, world, i + 1)
            == Turn(Run(lib, planned, others, world, i).lib, i, planned[i], others, Smooth)
  {
    assert world(i) == Smooth;
  }

  lemma {:induction false} OrderlySoFar(lib: Library, planned: seq<Planned>, others: set<string>,
                                        world: nat -> Trouble, i: nat)
    requires i <= |planned| == |lib.works| && Orderly(lib, planned, others) && Calm(world)
    ensures var now := Run(lib, planned, others, world, i);
            !now.broken && OnCourse(lib, planned, others, now.lib, i)
  {
    if i > 0 {
      var before := Run(lib, planned, others, world, i - 1);
      OrderlySoFar(lib, planned, others, world, i - 1);
      OrderlyTurn(lib, planned, others, before.lib, i - 1);
      CalmStep(lib, planned, others, world, i - 1);
    }
  }

  /** An orderly run of any plan reaches its end, and every move lands. */
  lemma OrderlyRunsLand(lib: Library, planned: seq<Planned>, others: set<string>, world: nat -> Trouble)
    requires |planned| == |lib.works| && Orderly(lib, planned, others) && Calm(world)
    ensures !Run(lib, planned, others, world, |planned|).broken && AllLand(lib, planned, others, world)
  {
    OrderlySoFar(lib, planned, others, world, |planned|);
    forall k: nat | k < |planned| && IsMove(planned[k])
      ensures Lands(lib, planned, others, world, k)
    {
      OrderlySoFar(lib, planned, others, world, k);
      OrderlyTurn(lib, planned, others, Run(lib, planned, others, world, k).lib, k);
      assert world(k) == Smooth;
    }
  }

  /** An orderly library converges in one run. */
  lemma OrderlyLibraryConverges(lib: Library, answers: int -> Answer, others: set<string>, world: nat -> Trouble)
    requires Proper(answers) && Calm(world) && Orderly(lib, TemplatePlans(lib.works, answers, false), others)
    ensures var planned := TemplatePlans(lib.works, answers, false);
            var end := Run(lib, planned, others, world, |planned|);
            && !end.broken && AllLand(lib, planned, others, world)
            && PlansNoMove(TemplatePlans(end.lib.works, answers, false))
  {
    OrderlyRunsLand(lib, TemplatePlans(lib.works, answers, false), others, world);
    LibraryConvergesExactly(lib, answers, others, world);
  }

  /** The same under AI mode. */
  lemma OrderlyAiLibraryConverges(lib: Library, cache: map<int, string>, others: set<string>, world: nat -> Trouble)
    requires ProperAnswers(cache) && Calm(world) && Orderly(lib, AiPlans(lib.works, cache, false, false), others)
    ensures var planned := AiPlans(lib.works, cache, false, false);
            var end := Run(lib, planned, others, world, |planned|);
            && !end.broken && AllLand(lib, planned, others, world)
            && PlansNoMove(AiPlans(end.lib.works, cache, false, false))
  {
    OrderlyRunsLand(lib, AiPlans(lib.works, cache, false, false), others, world);
    AiLibraryConvergesExactly(lib, cache, others, world);
  }

  /** A forced run does not settle: the next forced run plans to move a work exactly if it is packed and
      has a computed path, whether or not it is there. */
  lemma ForcedRunRepeatsExactly(lib: Library, answers: int -> Answer, others: set<string>, world: nat -> Trouble,
                                i: nat)
    requires i < |lib.works|
    ensures var planned := TemplatePlans(lib.works, answers, true);
            var after := Run(lib, planned, others, world, |planned|).lib.works;
            IsMove(TemplatePlans(after, answers, true)[i]) <==> Packaged(lib.works[i]) && answers(lib.works[i].id).Path?
  {
    var planned := TemplatePlans(lib.works, answers, true);
    var before := Run(lib, planned, others, world, i);
    WorkAt(lib, planned, others, world, |planned|, i);
    WorkAt(lib, planned, others, world, i, i);
    TurnKeepsWork(before.lib, i, planned[i], others, world(i));
    var after := Run(lib, planned, others, world, |planned|).lib.works[i];
    assert after.id == lib.works[i].id && (Packaged(after) <==> Packaged(lib.works[i]));
    ForcedPlan(after, answers(after.id));
  }

  lemma ForcedPlan(w: Work, answer: Answer)
    ensures IsMove(PlanTemplate(w, answer, true)) <==> Packaged(w) && answer.Path?
  {}

  // ---------------------------------------------------- what every run keeps, whatever is planned

  /** Every recorded file exists, and no two works have the same one. */
  predicate Apart(lib: Library) {
    && (forall i | 0 <= i < |lib.works| && lib.works[i].file.Some? :: lib.works[i].file.value in lib.disk)
    && (forall i, j | 0 <= i < j < |lib.works| && lib.works[i].file.Some? :: lib.works[i].file != lib.works[j].file)
  }

  /** The index of the pins: no two works are pinned at one path. */
  predicate PinsApart(works: seq<Work>, others: set<string>) {
    forall i: nat | i < |works| && works[i].pinnedPath.Some? :: !PinTaken(works, others, i, works[i].pinnedPath.value)
  }

  lemma TurnKeepsApart(lib: Library, i: nat, planned: Planned, others: set<string>, trouble: Trouble)
    requires i < |lib.works| && Apart(lib)
    ensures Apart(Turn(lib, i, planned, others, trouble).lib)
  {
    if IsMove(planned) && Movable(lib.works[i], lib.disk) {
      UniqueTargetIs(planned.task.target.value, lib.works[i].file.value, lib.disk);
    }
  }

  lemma {:induction false} NoBookSoFar(lib: Library, planned: seq<Planned>, others: set<string>,
                                       world: nat -> Trouble, n: nat)
    requires n <= |planned| == |lib.works| && Apart(lib)
    ensures Apart(Run(lib, planned, others, world, n).lib)
  {
    if n > 0 {
      NoBookSoFar(lib, planned, others, world, n - 1);
      TurnKeepsApart(Run(lib, planned, others, world, n - 1).lib, n - 1, planned[n - 1], others, world(n - 1));
    }
  }

  /** Whatever is planned, a run puts no book over another's. */
  lemma NoBookIsOverwritten(lib: Library, planned: seq<Planned>, others: set<string>, world: nat -> Trouble)
    requires |planned| == |lib.works| && Apart(lib)
    ensures Apart(Run(lib, planned, others, world, |planned|).lib)
  {
    NoBookSoFar(lib, planned, others, world, |planned|);
  }

  lemma PinsAfter(works: seq<Work>, others: set<string>, i: nat, w: Work)
    requires i < |works| && PinsApart(works, others)
    requires w.pinnedPath in {None, works[i].pinnedPath} || !PinTaken(works, others, i, w.pinnedPath.value)
    ensures PinsApart(works[i := w], others)
  {
    var after := works[i := w];
    forall k: nat | k < |after| && after[k].pinnedPath.Some?
      ensures !PinTaken(after, others, k, after[k].pinnedPath.value)
    {
      var path := after[k].pinnedPath.value;
      assert k != i || w.pinnedPath == works[i].pinnedPath ==> !PinTaken(works, others, k, path);
      forall j | 0 <= j < |after| && j != k
        ensures after[j].pinnedPath != Some(path)
      {
        assert k != i ==> works[k].pinnedPath == Some(path);
      }
    }
  }

  lemma TurnKeepsPinsApart(lib: Library, i: nat, planned: Planned, others: set<string>, trouble: Trouble)
    requires i < |lib.works| && PinsApart(lib.works, others)
    ensures PinsApart(Turn(lib, i, planned, others, trouble).lib.works, others)
  {
    var after := Turn(lib, i, planned, others, trouble).lib.works;
    TurnIsLocal(lib, i, planned, others, trouble);
    PinsAfter(lib.works, others, i, after[i]);
  }

  /** Whatever is planned, no run leaves two works pinned at one path. */
  lemma {:induction false} NoPinIsShared(lib: Library, planned: seq<Planned>, others: set<string>,
                                         world: nat -> Trouble, n: nat)
    requires n <= |planned| == |lib.works| && PinsApart(lib.works, others)
    ensures PinsApart(Run(lib, planned, others, world, n).lib.works, others)
  {
    if n > 0 {
      NoPinIsShared(lib, planned, others, world, n - 1);
      TurnKeepsPinsApart(Run(lib, planned, others, world, n - 1).lib, n - 1, planned[n - 1], others, world(n - 1));
    }
  }

  // ------------------------------------------------------------------ the inputs that fail

  /** A work without a CBZ, and one with its CBZ at `path`. */
  function Unpacked(id: int, pin: Option<string>): Work {
    Work(id, None, None, NotStarted, None, pin, pin.Some?)
  }

  function Packed(id: int, path: string): Work {
    Work(id, None, Some(path), NotStarted, Some(path), None, false)
  }

  lemma LandingTurn(lib: Library, i: nat, target: string, others: set<string>)
    requires i < |lib.works| && Landable(lib, i, target, others, Smooth)
    ensures var w := lib.works[i];
            MoveTurn(lib, i, target, others, Smooth)
            == Progress(Library(lib.works[i := Filed(w, target)], lib.disk - {w.file.value} + {target}), false)
  {
    UniqueTargetIs(target, lib.works[i].file.value, lib.disk);
  }

  lemma SuffixedTurn(lib: Library, i: nat, target: string, others: set<string>)
    requires i < |lib.works| && Movable(lib.works[i], lib.disk)
    requires lib.works[i].file != Some(target) && target in lib.disk
    requires lib.works[i].file == Some(Suffixed(target, 2)) || Suffixed(target, 2) !in lib.disk
    requires !PinTaken(lib.works, others, i, Suffixed(target, 2))
    ensures var (w, path) := (lib.works[i], Suffixed(target, 2));
            MoveTurn(lib, i, target, others, Smooth)
            == Progress(Library(lib.works[i := Filed(w, path)], lib.disk - {w.file.value} + {path}), false)
  {
    assert FreeNames(target, lib.works[i].file.value, lib.disk)(2);
  }

  lemma RunOfTwo(lib: Library, planned: seq<Planned>, others: set<string>, world: nat -> Trouble)
    requires |planned| == |lib.works| >= 2 && Calm(world)
    ensures var first := Turn(lib, 0, planned[0], others, Smooth);
            Run(lib, planned, others, world, 2)
            == if first.broken then first else Turn(first.lib, 1, planned[1], others, Smooth)
  {
    assert world(0) == Smooth && world(1) == Smooth;
    assert Run(lib, planned, others, world, 0) == Progress(lib, false);
    assert Run(lib, planned, others, world, 1) == Turn(lib, 0, planned[0], others, Smooth);
  }

  /** Two packed works with one computed path. The second is filed under a suffixed name, and every later
      default run plans its move again and leaves it there. */
  lemma TwoWorksOneName(a: string, b: string, t: string, answers: int -> Answer, world: nat -> Trouble)
    requires a != b && t !in {"", a, b} && Suffixed(t, 2) !in {a, b} && Calm(world)
    requires answers(1) == answers(2) == Path(t)
    ensures var lib := Library([Packed(1, a), Packed(2, b)], {a, b});
            var after := Library([Filed(Packed(1, a), t), Filed(Packed(2, b), Suffixed(t, 2))], {t, Suffixed(t, 2)});
            var again := TemplatePlans(after.works, answers, false);
            && Run(lib, TemplatePlans(lib.works, answers, false), {}, world, 2) == Progress(after, false)
            && again[0] == OutOfScope && IsMove(again[1])
            && Run(after, again, {}, world, 2) == Progress(after, false)
  {
    var lib := Library([Packed(1, a), Packed(2, b)], {a, b});
    var middle := Library([Filed(Packed(1, a), t), Packed(2, b)], {b, t});
    var after := Library([Filed(Packed(1, a), t), Filed(Packed(2, b), Suffixed(t, 2))], {t, Suffixed(t, 2)});
    SuffixedDiffers(t, 2);
    FirstLands(lib, middle, t, a);
    SecondIsSuffixed(middle, after, t, b);
    SuffixedStays(after, t, b);
    RunOfTwo(lib, TemplatePlans(lib.works, answers, false), {}, world);
    RunOfTwo(after, TemplatePlans(after.works, answers, false), {}, world);
  }

  lemma FirstLands(lib: Library, middle: Library, t: string, a: string)
    requires |lib.works| == 2 && lib.works[0] == Packed(1, a) && a in lib.disk && t !in lib.disk && t != ""
    requires lib.works[1].pinnedPath != Some(t)
    requires middle == Library([Filed(lib.works[0], t), lib.works[1]], lib.disk - {a} + {t})
    ensures Turn(lib, 0, PlanTemplate(lib.works[0], Path(t), false), {}, Smooth) == Progress(middle, false)
    ensures PlanTemplate(middle.works[0], Path(t), false) == OutOfScope
  {
    LandingTurn(lib, 0, t, {});
    assert lib.works[0 := Filed(lib.works[0], t)] == middle.works;
  }

  lemma SecondIsSuffixed(middle: Library, after: Library, t: string, b: string)
    requires |middle.works| == 2 && middle.works[1] == Packed(2, b) && b in middle.disk && t in middle.disk && t != b
    requires Suffixed(t, 2) !in middle.disk && middle.works[0].pinnedPath != Some(Suffixed(t, 2))
    requires after.works == [middle.works[0], Filed(middle.works[1], Suffixed(t, 2))]
    requires after.disk == middle.disk - {b} + {Suffixed(t, 2)}
    ensures Turn(middle, 1, PlanTemplate(middle.works[1], Path(t), false), {}, Smooth) == Progress(after, false)
  {
    SuffixedTurn(middle, 1, t, {});
    assert middle.works[1 := Filed(middle.works[1], Suffixed(t, 2))] == after.works;
  }

  lemma SuffixedStays(after: Library, t: string, b: string)
    requires |after.works| == 2 && after.works[1] == Filed(Packed(2, b), Suffixed(t, 2))
    requires {t, Suffixed(t, 2)} <= after.disk && after.works[0].pinnedPath != Some(Suffixed(t, 2))
    ensures var again := PlanTemplate(after.works[1], Path(t), false);
            IsMove(again) && Turn(after, 1, again, {}, Smooth) == Progress(after, false)
  {
    SuffixedDiffers(t, 2);
    assert Suffixed(t, 2) != "" by { assert |Suffixed(t, 2)| > |t|; }
    SuffixedTurn(after, 1, t, {});
    assert after.works[1 := Filed(after.works[1], Suffixed(t, 2))] == after.works;
    assert after.disk - {Suffixed(t, 2)} + {Suffixed(t, 2)} == after.disk;
  }

  /** A run that breaks at its second turn is over. */
  lemma BreaksAtSecond(lib: Library, planned: seq<Planned>, others: set<string>, world: nat -> Trouble,
                       middle: Library, end: Library)
    requires |planned| == |lib.works| == |middle.works| >= 2 && Calm(world)
    requires Turn(lib, 0, planned[0], others, Smooth) == Progress(middle, false)
    requires Turn(middle, 1, planned[1], others, Smooth) == Progress(end, true)
    ensures Run(lib, planned, others, world, |planned|) == Progress(end, true)
  {
    RunOfTwo(lib, planned, others, world);
    BrokenStays(lib, planned, others, world, 2, |planned|);
  }

  /** What the run and every later run of these three works come to: it breaks at the second work, and
      the third is never moved. */
  ghost predicate NeverSettles(lib: Library, answers: int -> Answer, world: nat -> Trouble, after: Library) {
    var planned, again := TemplatePlans(lib.works, answers, false), TemplatePlans(after.works, answers, false);
    && Run(lib, planned, {}, world, |planned|) == Progress(after, true)
    && Run(after, again, {}, world, |again|) == Progress(after, true)
    && |again| == 3 && IsMove(planned[2]) && IsMove(again[2])
  }

  /** A packed work whose computed path is free on the disk and pinned by hand by another work: its move
      is undone and ends the run, and so in every later run. */
  lemma PinnedElsewhere(t: string, b: string, c: string, u: string, answers: int -> Answer, world: nat -> Trouble)
    requires t !in {"", b, c} && u !in {"", t, c} && b != c && Calm(world)
    requires answers(1) == answers(2) == Path(t) && answers(3) == Path(u)
    ensures var pinned := Unpacked(1, Some(t));
            NeverSettles(Library([pinned, Packed(2, b), Packed(3, c)], {b, c}), answers, world,
                         Library([pinned.(packState := Pending), Packed(2, b), Packed(3, c)], {b, c}))
  {
    var pinned := Unpacked(1, Some(t));
    var lib := Library([pinned, Packed(2, b), Packed(3, c)], {b, c});
    var after := Library([pinned.(packState := Pending), Packed(2, b), Packed(3, c)], {b, c});
    QueuedAsPinned(lib, after, 0);
    MoveBreaks(after, 1, t, 0);
    InFlightIsSkipped(after, 0, Path(t));
    BreaksAtSecond(lib, TemplatePlans(lib.works, answers, false), {}, world, after, after);
    BreaksAtSecond(after, TemplatePlans(after.works, answers, false), {}, world, after, after);
  }

  lemma QueuedAsPinned(lib: Library, after: Library, i: nat)
    requires i < |lib.works| && !Packaged(lib.works[i]) && !InFlight(lib.works[i]) && Manual(lib.works[i])
    requires after.works == lib.works[i := lib.works[i].(packState := Pending)] && after.disk == lib.disk
    ensures forall answer ::
              Turn(lib, i, PlanTemplate(lib.works[i], answer, false), {}, Smooth) == Progress(after, false)
  {}

  lemma MoveBreaks(lib: Library, i: nat, t: string, j: nat)
    requires i < |lib.works| && j < |lib.works| && j != i && lib.works[j].pinnedPath == Some(t)
    requires Movable(lib.works[i], lib.disk) && t !in lib.disk && !Manual(lib.works[i])
    requires RelativePath(lib.works[i]) != Some(t)
    ensures Turn(lib, i, PlanTemplate(lib.works[i], Path(t), false), {}, Smooth) == Progress(lib, true)
  {
    assert PinTaken(lib.works, {}, i, t);
  }

  lemma InFlightIsSkipped(lib: Library, i: nat, answer: Answer)
    requires i < |lib.works| && !Packaged(lib.works[i]) && InFlight(lib.works[i])
    ensures Turn(lib, i, PlanTemplate(lib.works[i], answer, false), {}, Smooth) == Progress(lib, false)
  {}

  /** Two unpacked works with one computed path: the second cannot be pinned, which ends the run before
      any later work, and so in every later run. */
  lemma TwoQueuedOneName(t: string, c: string, u: string, answers: int -> Answer, world: nat -> Trouble)
    requires t !in {"", c} && u !in {"", t, c} && Calm(world)
    requires answers(1) == answers(2) == Path(t) && answers(3) == Path(u)
    ensures var queued := Unpacked(1, None).(packState := Pending, pinnedPath := Some(t));
            NeverSettles(Library([Unpacked(1, None), Unpacked(2, None), Packed(3, c)], {c}), answers, world,
                         Library([queued, Unpacked(2, None), Packed(3, c)], {c}))
  {
    var queued := Unpacked(1, None).(packState := Pending, pinnedPath := Some(t));
    var lib := Library([Unpacked(1, None), Unpacked(2, None), Packed(3, c)], {c});
    var after := Library([queued, Unpacked(2, None), Packed(3, c)], {c});
    QueuedUnder(lib, after, 0, t);
    QueueBreaks(after, 1, t, 0);
    InFlightIsSkipped(after, 0, Path(t));
    BreaksAtSecond(lib, TemplatePlans(lib.works, answers, false), {}, world, after, after);
    BreaksAtSecond(after, TemplatePlans(after.works, answers, false), {}, world, after, after);
  }

  lemma QueuedUnder(lib: Library, after: Library, i: nat, t: string)
    requires i < |lib.works| && lib.works[i] == Unpacked(lib.works[i].id, None) && !PinTaken(lib.works, {}, i, t)
    requires after.works == lib.works[i := lib.works[i].(packState := Pending, pinnedPath := Some(t))]
    requires after.disk == lib.disk
    ensures Turn(lib, i, PlanTemplate(lib.works[i], Path(t), false), {}, Smooth) == Progress(after, false)
  {}

  lemma QueueBreaks(lib: Library, i: nat, t: string, j: nat)
    requires i < |lib.works| && j < |lib.works| && j != i && lib.works[j].pinnedPath == Some(t)
    requires lib.works[i] == Unpacked(lib.works[i].id, None)
    ensures Turn(lib, i, PlanTemplate(lib.works[i], Path(t), false), {}, Smooth) == Progress(lib, true)
  {
    assert PinTaken(lib.works, {}, i, t);
    assert lib.works[i := lib.works[i]] == lib.works;
  }
}
