/** Automatic decisions: matched on a snapshot, checked again inside the write lock. */
module Decisions {
  import opened Text
  import opened Rules
  import opened RuleLaws
  import opened RuleEvaluation
  import RuleText
  import Sorting

  datatype Status = PendingReview | Approved | Rejected | OtherStatus(name: string)

  datatype Candidate = Candidate(
    status: Status,
    gallery: Option<int>,
    metadata: Metadata,
    identity: seq<(int, int, int)>)  // id, generation and revision of every ingest entry

  /** A stored condition; `Stale` names an operator outside the vocabulary, which evaluation reports
      as RuleValidationError. */
  datatype Stored = Known(rule: Rule) | Stale

  datatype AutoRule = AutoRule(
    id: int,
    name: string,
    enabled: bool,
    priority: int,
    version: int,
    condition: Stored,
    caseSensitive: bool,
    approves: bool)

  datatype Match = Match(
    rule: AutoRule,
    metadata: Metadata,
    conditions: seq<Entry>,
    gallery: int,
    identity: seq<(int, int, int)>)

  /** `Failed` is a Python error out of the evaluation; it ends the search. */
  datatype Search = NoMatch | Found(m: Match) | Failed

  datatype AuditRow =
    | Transition(candidate: int, approves: bool, note: string)
    | Decision(candidate: int, approves: bool, evidence: Match, jobs: seq<int>)

  /** The tables a decision reads and writes. */
  datatype Tables = Tables(
    candidates: map<int, Candidate>,
    rules: seq<AutoRule>,
    changing: set<int>,  // candidates with a pending reference or observation change
    audit: seq<AuditRow>)

  // ------------------------------------------------------------------- matching

  predicate Before(a: AutoRule, b: AutoRule) {
    a.priority < b.priority || (a.priority == b.priority && a.id <= b.id)
  }

  function Enabled(rules: seq<AutoRule>): seq<AutoRule> {
    if rules == [] then []
    else (if rules[0].enabled then [rules[0]] else []) + Enabled(rules[1..])
  }

  /** `WHERE enabled = 1 ORDER BY priority, id`. */
  function EnabledInOrder(rules: seq<AutoRule>): seq<AutoRule> {
    Sorting.Sort(Enabled(rules), Before)
  }

  ghost function Says(py: Runtime, rule: AutoRule, c: Candidate): Option<bool>
    requires rule.condition.Known?
  {
    Meaning(py, rule.condition.rule, c.metadata, rule.caseSensitive)
  }

  ghost function MatchOf(py: Runtime, rule: AutoRule, c: Candidate): Match
    requires rule.condition.Known? && c.gallery.Some?
  {
    Match(rule, c.metadata,
          EntriesOf(py, Leaves(rule.condition.rule), c.metadata, rule.caseSensitive),
          c.gallery.value, c.identity)
  }

  ghost function FirstMatch(py: Runtime, rules: seq<AutoRule>, c: Candidate): Search
    requires c.gallery.Some?
  {
    if rules == [] then NoMatch
    else if rules[0].condition.Stale? then FirstMatch(py, rules[1..], c)
    else
      match Says(py, rules[0], c)
      case None => Failed
      case Some(true) => Found(MatchOf(py, rules[0], c))
      case Some(false) => FirstMatch(py, rules[1..], c)
  }

  /** May automatic rules decide this candidate at all? */
  predicate Decidable(db: Tables, candidate: int) {
    && candidate in db.candidates
    && db.candidates[candidate].status == PendingReview
    && db.candidates[candidate].gallery.Some?
  }

  ghost function MatchingRule(py: Runtime, db: Tables, candidate: int): Search {
    if Decidable(db, candidate) then
      FirstMatch(py, EnabledInOrder(db.rules), db.candidates[candidate])
    else NoMatch
  }

  // ------------------------------------------------------------------- committing

  /** One decision transaction. `jobs` is what the approving path queued; None where it was refused
      after the check, which rolls the transaction back. */
  ghost function Commit(py: Runtime, db: Tables, candidate: int, m: Match, jobs: Option<seq<int>>): Option<Tables> {
    if MatchingRule(py, db, candidate) != Found(m) || candidate in db.changing || jobs.None? then None
    else
      var c := db.candidates[candidate];
      var approves := m.rule.approves;
      Some(Tables(
             db.candidates[candidate := c.(status := if approves then Approved else Rejected)],
             db.rules, db.changing,
             db.audit + [Transition(candidate, approves, if approves then "" else m.rule.name),
                         Decision(candidate, approves, m, jobs.value)]))
  }

  class Database {
    const py: Runtime
    var candidates: map<int, Candidate>
    var rules: seq<AutoRule>
    var changing: set<int>
    var audit: seq<AuditRow>

    constructor (py: Runtime, db: Tables)
      ensures this.py == py && Contents() == db
    {
      this.py := py;
      candidates, rules, changing, audit := db.candidates, db.rules, db.changing, db.audit;
    }

    function Contents(): Tables
      reads this
    {
      Tables(candidates, rules, changing, audit)
    }

    /** `matching_rule_in_transaction`. */
    method MatchingRuleInTransaction(candidate: int) returns (found: Search)
      ensures found == MatchingRule(py, Contents(), candidate)
    {
      if candidate !in candidates || candidates[candidate].status != PendingReview {
        return NoMatch;
      }
      var c := candidates[candidate];
      if c.gallery.None? {
        return NoMatch;
      }
      var rows := EnabledInOrder(rules);
      var i := 0;
      while i < |rows|
        invariant 0 <= i <= |rows|
        invariant FirstMatch(py, rows, c) == FirstMatch(py, rows[i..], c)
      {
        var rule := rows[i];
        if rule.condition.Known? {
          var evaluation := new Evaluation(py, c.metadata, rule.caseSensitive);
          var matched := evaluation.Evaluate(rule.condition.rule);
          if matched.None? {
            return Failed;
          }
          if matched.value {
            return Found(Match(rule, c.metadata, evaluation.conditions, c.gallery.value, c.identity));
          }
        }
        i := i + 1;
      }
      found := NoMatch;
    }

    /** `begin_decision`; false stands for the ReviewError that leaves everything as it was. */
    method BeginDecision(candidate: int, m: Match) returns (ok: bool)
      modifies this
      ensures ok <==> Commit(py, old(Contents()), candidate, m, Some([])).Some?
      ensures !ok ==> Contents() == old(Contents())
      ensures ok ==> Contents() == old(Contents()).(
                candidates := old(candidates)[candidate := old(candidates)[candidate].(
                    status := if m.rule.approves then Approved else Rejected)],
                audit := old(audit) + [Transition(candidate, m.rule.approves,
                                                  if m.rule.approves then "" else m.rule.name)])
    {
      var found := MatchingRuleInTransaction(candidate);
      if found != Found(m) || candidate in changing {
        return false;
      }
      var approve := m.rule.approves;
      candidates := candidates[candidate := candidates[candidate].(status := if approve then Approved else Rejected)];
      audit := audit + [Transition(candidate, approve, if approve then "" else m.rule.name)];
      ok := true;
    }

    method RecordDecision(candidate: int, m: Match, jobs: seq<int>)
      modifies this`audit
      ensures audit == old(audit) + [Decision(candidate, m.rule.approves, m, jobs)]
    {
      audit := audit + [Decision(candidate, m.rule.approves, m, jobs)];
    }

    /** `reject_automatically`, and the approving path with the jobs it queued: one transaction. */
    method Decide(candidate: int, m: Match, jobs: Option<seq<int>>) returns (ok: bool)
      modifies this
      ensures var after := Commit(py, old(Contents()), candidate, m, jobs);
              ok == after.Some? && Contents() == if ok then after.value else old(Contents())
    {
      var before := Contents();
      ok := BeginDecision(candidate, m);
      if ok && jobs.None? {
        candidates, audit := before.candidates, before.audit;
        return false;
      }
      if ok {
        RecordDecision(candidate, m, jobs.value);
      }
    }
  }

  // --------------------------------------------------------- what a match promises

  lemma BeforeIsTotal()
    ensures Sorting.TotalPreorder(Before)
  {}

  lemma {:induction false} EnabledExactly(rules: seq<AutoRule>, r: AutoRule)
    ensures r in Enabled(rules) <==> r in rules && r.enabled
  {
    if rules != [] {
      EnabledExactly(rules[1..], r);
      assert rules == [rules[0]] + rules[1..];
    }
  }

  lemma InOrderExactly(rules: seq<AutoRule>, r: AutoRule)
    ensures r in EnabledInOrder(rules) <==> r in rules && r.enabled
    ensures Sorting.Sorted(EnabledInOrder(rules), Before)
  {
    EnabledExactly(rules, r);
    Sorting.SortKeepsElements(Enabled(rules), Before);
    BeforeIsTotal();
    Sorting.SortSorts(Enabled(rules), Before);
  }

  /** The search ends at the first known rule that does not say no, or at the end. */
  lemma {:induction false} FirstMatchIsFirst(py: Runtime, rules: seq<AutoRule>, c: Candidate) returns (n: nat)
    requires c.gallery.Some?
    ensures n <= |rules|
    ensures forall i | 0 <= i < n :: Passes(py, rules[i], c)
    ensures n == |rules| ==> FirstMatch(py, rules, c) == NoMatch
    ensures n < |rules| ==>
              && rules[n].condition.Known? && Says(py, rules[n], c) != Some(false)
              && FirstMatch(py, rules, c)
                 == if Says(py, rules[n], c).None? then Failed else Found(MatchOf(py, rules[n], c))
  {
    if rules == [] {
      n := 0;
    } else if rules[0].condition.Known? && Says(py, rules[0], c) != Some(false) {
      n := 0;
    } else {
      var rest := FirstMatchIsFirst(py, rules[1..], c);
      n := rest + 1;
      forall i | 0 <= i < n
        ensures Passes(py, rules[i], c)
      {
        assert i > 0 ==> rules[i] == rules[1..][i - 1];
      }
      assert n < |rules| ==> rules[n] == rules[1..][rest];
    }
  }

  /** An enabled rule with a known condition, before which (by priority, and then by id) no such rule says
      anything but no. */
  ghost predicate Foremost(py: Runtime, db: Tables, c: Candidate, rule: AutoRule) {
    && rule in db.rules && rule.enabled && rule.condition.Known?
    && forall r | && r in db.rules && r.enabled
                  && (r.priority < rule.priority || (r.priority == rule.priority && r.id < rule.id)) :: Passes(py, r, c)
  }

  /** A rule that lets the search go on: a stale one, or one that says no. */
  ghost predicate Passes(py: Runtime, rule: AutoRule, c: Candidate) {
    rule.condition.Known? ==> Says(py, rule, c) == Some(false)
  }

  ghost predicate Raises(py: Runtime, db: Tables, c: Candidate, rule: AutoRule) {
    Foremost(py, db, c, rule) && Says(py, rule, c) == None
  }

  /** An enabled rule that is not behind the n-th one stands before it in the order. */
  lemma StandsBefore(rules: seq<AutoRule>, n: nat, r: AutoRule) returns (i: nat)
    requires n <= |EnabledInOrder(rules)|
    requires r in rules && r.enabled && (n < |EnabledInOrder(rules)| ==> !Before(EnabledInOrder(rules)[n], r))
    ensures i < n && EnabledInOrder(rules)[i] == r
  {
    var rows := EnabledInOrder(rules);
    InOrderExactly(rules, r);
    i :| 0 <= i < |rows| && rows[i] == r;
    if n < |rows| && n <= i {
      assert Sorting.Sorted(rows, Before) && Before(rows[i], rows[i]);
    }
  }

  lemma SearchIsForemost(py: Runtime, db: Tables, c: Candidate, rows: seq<AutoRule>, n: nat)
    requires rows == EnabledInOrder(db.rules) && n <= |rows|
    requires forall i | 0 <= i < n :: Passes(py, rows[i], c)
    ensures n == |rows| ==> AllPass(py, db, c)
    ensures n < |rows| && rows[n].condition.Known? ==> Foremost(py, db, c, rows[n])
  {
    forall r | r in db.rules && r.enabled && (n < |rows| ==> !Before(rows[n], r))
      ensures Passes(py, r, c)
    {
      var i := StandsBefore(db.rules, n, r);
    }
    if n < |rows| {
      InOrderExactly(db.rules, rows[n]);
    }
  }

  ghost predicate AllPass(py: Runtime, db: Tables, c: Candidate) {
    forall r | r in db.rules && r.enabled :: Passes(py, r, c)
  }

  /** The foremost rule that does not say no, and what the search makes of it. */
  ghost predicate Leads(py: Runtime, db: Tables, c: Candidate, rule: AutoRule, found: Search)
    requires c.gallery.Some?
  {
    && Foremost(py, db, c, rule)
    && match Says(py, rule, c)
       case Some(true) => found == Found(MatchOf(py, rule, c))
       case Some(false) => false
       case None => found == Failed
  }

  /** The search answers with the first enabled rule, by priority and then id, that does not say no:
      a match where it says yes, an error where it cannot be evaluated, and no match where there is none. */
  lemma {:induction false} MatchIsFirstByPriority(py: Runtime, db: Tables, candidate: int)
    requires Decidable(db, candidate)
    ensures var c := db.candidates[candidate];
            match MatchingRule(py, db, candidate)
            case NoMatch => AllPass(py, db, c)
            case found => exists r :: Leads(py, db, c, r, found)
  {
    var c := db.candidates[candidate];
    var rows := EnabledInOrder(db.rules);
    var n := FirstMatchIsFirst(py, rows, c);
    SearchIsForemost(py, db, c, rows, n);
    if n < |rows| {
      assert Leads(py, db, c, rows[n], FirstMatch(py, rows, c));
    }
  }

  predicate UniqueIds(rules: seq<AutoRule>) {
    forall i, j | 0 <= i < j < |rules| :: rules[i].id != rules[j].id
  }

  lemma {:induction false} Precedes(py: Runtime, db: Tables, c: Candidate, a: AutoRule, b: AutoRule)
    requires Foremost(py, db, c, a) && b in db.rules && b.enabled && !Passes(py, b, c)
    ensures Before(a, b)
  {}

  lemma SameId(rules: seq<AutoRule>, a: AutoRule, b: AutoRule)
    requires UniqueIds(rules) && a in rules && b in rules && a.id == b.id
    ensures a == b
  {}

  lemma {:induction false} OneForemost(py: Runtime, db: Tables, c: Candidate, a: AutoRule, b: AutoRule)
    requires UniqueIds(db.rules) && Foremost(py, db, c, a) && Foremost(py, db, c, b)
    requires !Passes(py, a, c) && !Passes(py, b, c)
    ensures a == b
  {
    Precedes(py, db, c, a, b);
    Precedes(py, db, c, b, a);
    SameId(db.rules, a, b);
  }

  /** Exactly when the search for a rule raises: the first enabled rule that does not say no has no
      verdict. That takes a rule with a comparison that is not sound. */
  lemma SearchRaisesExactly(py: Runtime, db: Tables, candidate: int)
    requires Decidable(db, candidate) && UniqueIds(db.rules)
    ensures var c := db.candidates[candidate];
            MatchingRule(py, db, candidate).Failed? <==> exists r :: Raises(py, db, c, r)
  {
    var c := db.candidates[candidate];
    var found := MatchingRule(py, db, candidate);
    MatchIsFirstByPriority(py, db, candidate);
    if r :| Raises(py, db, c, r) {
      if !found.NoMatch? {
        var l :| Leads(py, db, c, l, found);
        OneForemost(py, db, c, r, l);
      }
    } else if !found.NoMatch? {
      var l :| Leads(py, db, c, l, found);
      assert !Raises(py, db, c, l);
    }
  }

  /** Where every enabled rule is validated and sound, the search never raises. */
  lemma SoundRulesNeverRaise(py: Runtime, db: Tables, candidate: int)
    requires forall r | r in db.rules && r.enabled && r.condition.Known? ::
               Shaped(py, r.condition.rule) && Sound(py, r.condition.rule)
    ensures !MatchingRule(py, db, candidate).Failed?
  {
    if Decidable(db, candidate) {
      MatchIsFirstByPriority(py, db, candidate);
      var c := db.candidates[candidate];
      forall r | Foremost(py, db, c, r)
        ensures Says(py, r, c).Some?
      {
        SoundIsTotal(py, r.condition.rule, c.metadata, r.caseSensitive);
      }
    }
  }

  // ---------------------------------------------------------------------- runs

  /** A decision that was committed, with the tables it was committed on. */
  datatype Committed = Committed(before: Tables, candidate: int, m: Match, after: Tables)

  datatype World = World(db: Tables, held: map<nat, (int, Match)>, log: seq<Committed>)

  /** What can happen next: a worker matches on a snapshot, a worker that holds a match tries to
      commit it, or anything else at all changes the tables. */
  datatype Step =
    | Look(worker: nat, candidate: int)
    | TryCommit(worker: nat, jobs: Option<seq<int>>)
    | Interfere(change: Tables -> Tables)

  ghost function Next(py: Runtime, w: World, step: Step): World {
    match step
    case Look(worker, candidate) =>
      (match MatchingRule(py, w.db, candidate)
       case Found(m) => w.(held := w.held[worker := (candidate, m)])
       case _ => w.(held := w.held - {worker}))
    case TryCommit(worker, jobs) =>
      if worker !in w.held then w
      else
        var (candidate, m) := w.held[worker];
        (match Commit(py, w.db, candidate, m, jobs)
         case None => w.(held := w.held - {worker})
         case Some(after) => World(after, w.held - {worker}, w.log + [Committed(w.db, candidate, m, after)]))
    case Interfere(change) => w.(db := change(w.db))
  }

  ghost function Run(py: Runtime, w: World, steps: seq<Step>): World
    decreases |steps|
  {
    if steps == [] then w else Run(py, Next(py, w, steps[0]), steps[1..])
  }

  /** The decision that the tables as they are at commit time call for: the candidate is pending, with the
      gallery and the identity of the match, and not changing; the rule is enabled and says yes to it, and
      every enabled rule before it says no. The tables differ by the status and the two audit rows. */
  ghost predicate Justified(py: Runtime, d: Committed) {
    && d.candidate in d.before.candidates && d.candidate !in d.before.changing
    && var c := d.before.candidates[d.candidate];
       && c.status == PendingReview && c.gallery == Some(d.m.gallery)
       && c.identity == d.m.identity && c.metadata == d.m.metadata
       && Foremost(py, d.before, c, d.m.rule) && Says(py, d.m.rule, c) == Some(true)
       && d.m.conditions == EntriesOf(py, Leaves(d.m.rule.condition.rule), c.metadata, d.m.rule.caseSensitive)
       && Decided(d, c)
  }

  ghost predicate Decided(d: Committed, c: Candidate) {
    var approves := d.m.rule.approves;
    exists jobs ::
      d.after == Tables(
        d.before.candidates[d.candidate := c.(status := if approves then Approved else Rejected)],
        d.before.rules, d.before.changing,
        d.before.audit + AuditOf(d, jobs))
  }

  function AuditOf(d: Committed, jobs: seq<int>): seq<AuditRow> {
    [Transition(d.candidate, d.m.rule.approves, if d.m.rule.approves then "" else d.m.rule.name),
     Decision(d.candidate, d.m.rule.approves, d.m, jobs)]
  }

  /** Under any interference between match and commit, every committed decision is the one that the first
      matching rule makes on the commit-time tables. */
  lemma {:induction false} DecisionsAreJustified(py: Runtime, w: World, steps: seq<Step>)
    requires forall i | 0 <= i < |w.log| :: Justified(py, w.log[i])
    ensures forall i | 0 <= i < |Run(py, w, steps).log| :: Justified(py, Run(py, w, steps).log[i])
    decreases |steps|
  {
    if steps != [] {
      StepIsJustified(py, w, steps[0]);
      DecisionsAreJustified(py, Next(py, w, steps[0]), steps[1..]);
    }
  }

  lemma CommitIsJustified(py: Runtime, db: Tables, candidate: int, m: Match, jobs: Option<seq<int>>)
    requires Commit(py, db, candidate, m, jobs).Some?
    ensures Justified(py, Committed(db, candidate, m, Commit(py, db, candidate, m, jobs).value))
  {
    MatchIsFirstByPriority(py, db, candidate);
    var d := Committed(db, candidate, m, Commit(py, db, candidate, m, jobs).value);
    assert d.after.audit == db.audit + AuditOf(d, jobs.value);
  }

  lemma StepIsJustified(py: Runtime, w: World, step: Step)
    requires forall i | 0 <= i < |w.log| :: Justified(py, w.log[i])
    ensures forall i | 0 <= i < |Next(py, w, step).log| :: Justified(py, Next(py, w, step).log[i])
  {
    if step.TryCommit? && step.worker in w.held {
      var (candidate, m) := w.held[step.worker];
      if Commit(py, w.db, candidate, m, step.jobs).Some? {
        CommitIsJustified(py, w.db, candidate, m, step.jobs);
      }
    }
  }

  // ------------------------------------------------------------- when a decision goes through

  /** One line of evidence per leaf, in their order, with what the leaf says. */
  lemma {:induction false} EvidenceTells(py: Runtime, leaves: seq<Rule>, metadata: Metadata, caseSensitive: bool)
    requires forall i | 0 <= i < |leaves| :: leaves[i].Condition?
    ensures var entries := EntriesOf(py, leaves, metadata, caseSensitive);
            && |entries| == |leaves|
            && forall i | 0 <= i < |leaves| ::
                 && entries[i].field == leaves[i].field && entries[i].op == leaves[i].op
                 && entries[i].dsl == RuleText.Render(py, leaves[i])
                 && (entries[i].matched <==> Leaf(py, leaves[i], metadata, caseSensitive) == Some(true))
  {
    if leaves != [] {
      EvidenceTells(py, leaves[1..], metadata, caseSensitive);
    }
  }

  /** The match names the candidate as it is, and its rule is the foremost one and says yes to it. */
  ghost predicate Holds(py: Runtime, db: Tables, c: Candidate, m: Match) {
    && c.gallery == Some(m.gallery) && c.identity == m.identity && c.metadata == m.metadata
    && Foremost(py, db, c, m.rule) && Says(py, m.rule, c) == Some(true)
    && m.conditions == EntriesOf(py, Leaves(m.rule.condition.rule), c.metadata, m.rule.caseSensitive)
  }

  lemma {:induction false} FoundExactly(py: Runtime, db: Tables, candidate: int, m: Match)
    requires UniqueIds(db.rules)
    ensures MatchingRule(py, db, candidate) == Found(m)
            <==> && candidate in db.candidates && db.candidates[candidate].status == PendingReview
                 && Holds(py, db, db.candidates[candidate], m)
  {
    if Decidable(db, candidate) {
      var c, found := db.candidates[candidate], MatchingRule(py, db, candidate);
      MatchIsFirstByPriority(py, db, candidate);
      if !found.NoMatch? {
        var l :| Leads(py, db, c, l, found);
        if Foremost(py, db, c, m.rule) && Says(py, m.rule, c) == Some(true) {
          OneForemost(py, db, c, l, m.rule);
        }
      }
    }
  }

  /** A decision goes through exactly if the candidate is in review and not changing, the match holds of it
      now, and the approving path queued what it had to. It then is approved or rejected as its rule says,
      with two audit rows, and nothing else changes. */
  lemma CommitsExactly(py: Runtime, db: Tables, candidate: int, m: Match, jobs: Option<seq<int>>)
    requires UniqueIds(db.rules)
    ensures Commit(py, db, candidate, m, jobs).Some?
            <==> && candidate in db.candidates && db.candidates[candidate].status == PendingReview
                 && candidate !in db.changing && jobs.Some?
                 && Holds(py, db, db.candidates[candidate], m)
    ensures var after := Commit(py, db, candidate, m, jobs);
            after.Some? ==>
              && after.value.rules == db.rules && after.value.changing == db.changing
              && after.value.candidates.Keys == db.candidates.Keys
              && after.value.candidates[candidate].status == (if m.rule.approves then Approved else Rejected)
              && after.value.candidates[candidate].(status := PendingReview) == db.candidates[candidate]
              && (forall other | other in db.candidates && other != candidate ::
                    after.value.candidates[other] == db.candidates[other])
              && after.value.audit == db.audit + [
                   Transition(candidate, m.rule.approves, if m.rule.approves then "" else m.rule.name),
                   Decision(candidate, m.rule.approves, m, jobs.value)]
  {
    FoundExactly(py, db, candidate, m);
  }

  /** A step of somebody else. */
  predicate NotBy(worker: nat, step: Step) {
    match step
    case Look(w, _) => w != worker
    case TryCommit(w, _) => w != worker
    case Interfere(_) => true
  }

  lemma {:induction false} HeldStays(py: Runtime, w: World, steps: seq<Step>, worker: nat)
    requires forall i | 0 <= i < |steps| :: NotBy(worker, steps[i])
    ensures var end := Run(py, w, steps);
            && (worker in end.held <==> worker in w.held)
            && (worker in w.held ==> end.held[worker] == w.held[worker])
    decreases |steps|
  {
    if steps != [] {
      HeldStays(py, Next(py, w, steps[0]), steps[1..], worker);
    }
  }

  /** A worker that looks finds the foremost rule's match, and its commit goes through if, whatever others
      did in between, the tables are as they were, the candidate is not changing and the jobs are queued:
      the candidate is then approved or rejected, and that is one more decision. */
  lemma LookedAtIsDecided(py: Runtime, w: World, worker: nat, candidate: int, between: seq<Step>,
                          jobs: seq<int>, m: Match)
    requires UniqueIds(w.db.rules) && candidate in w.db.candidates
    requires w.db.candidates[candidate].status == PendingReview && candidate !in w.db.changing
    requires Holds(py, w.db, w.db.candidates[candidate], m)
    requires forall i | 0 <= i < |between| :: NotBy(worker, between[i])
    requires Run(py, Next(py, w, Look(worker, candidate)), between).db == w.db
    ensures var ready := Run(py, Next(py, w, Look(worker, candidate)), between);
            var end := Next(py, ready, TryCommit(worker, Some(jobs)));
            && |end.log| == |ready.log| + 1 && end.log[..|ready.log|] == ready.log
            && end.log[|ready.log|].candidate == candidate && end.log[|ready.log|].m == m
            && end.db.candidates[candidate].status == (if m.rule.approves then Approved else Rejected)
  {
    var looked := Next(py, w, Look(worker, candidate));
    FoundExactly(py, w.db, candidate, m);
    HeldStays(py, looked, between, worker);
    CommitsExactly(py, w.db, candidate, m, Some(jobs));
  }

  // --------------------------------------------------------------- the serial counterpart

  /** One indivisible act: a decision that looks and commits at once, or a change by somebody else. */
  datatype Act = Decide(candidate: int, jobs: seq<int>) | Change(change: Tables -> Tables)

  /** None where the act is a decision that cannot be made. */
  ghost function Perform(py: Runtime, db: Tables, act: Act): Option<Tables> {
    match act
    case Decide(candidate, jobs) =>
      (match MatchingRule(py, db, candidate)
       case Found(m) => Commit(py, db, candidate, m, Some(jobs))
       case _ => None)
    case Change(change) => Some(change(db))
  }

  ghost function PerformAll(py: Runtime, db: Tables, acts: seq<Act>): Option<Tables>
    decreases |acts|
  {
    if acts == [] then Some(db)
    else
      match Perform(py, db, acts[0])
      case None => None
      case Some(after) => PerformAll(py, after, acts[1..])
  }

  /** What is left of a run when looks and failed commits are dropped. */
  ghost function Acts(py: Runtime, w: World, steps: seq<Step>): seq<Act>
    decreases |steps|
  {
    if steps == [] then []
    else ActOf(py, w, steps[0]) + Acts(py, Next(py, w, steps[0]), steps[1..])
  }

  ghost function ActOf(py: Runtime, w: World, step: Step): seq<Act> {
    match step
    case Look(_, _) => []
    case TryCommit(worker, jobs) =>
      if worker in w.held && Commit(py, w.db, w.held[worker].0, w.held[worker].1, jobs).Some?
      then [Decide(w.held[worker].0, jobs.value)] else []
    case Interfere(change) => [Change(change)]
  }

  function DecidedIn(acts: seq<Act>): seq<int>
    decreases |acts|
  {
    if acts == [] then [] else (if acts[0].Decide? then [acts[0].candidate] else []) + DecidedIn(acts[1..])
  }

  function CandidatesOf(log: seq<Committed>): seq<int> {
    if log == [] then [] else CandidatesOf(log[..|log| - 1]) + [log[|log| - 1].candidate]
  }

  /** The acts, done one after the other, all go through and lead to the same tables, by decisions on the
      same candidates in the same order. */
  ghost predicate Serial(py: Runtime, w: World, end: World, acts: seq<Act>) {
    && PerformAll(py, w.db, acts) == Some(end.db)
    && CandidatesOf(end.log) == CandidatesOf(w.log) + DecidedIn(acts)
  }

  lemma StepIsSerial(py: Runtime, w: World, step: Step)
    ensures Serial(py, w, Next(py, w, step), ActOf(py, w, step))
  {
    var next := Next(py, w, step);
    if step.TryCommit? && |next.log| > |w.log| {
      assert next.log[..|next.log| - 1] == w.log;
    }
  }

  lemma {:induction false} SerialComposes(py: Runtime, w: World, mid: World, end: World, first: seq<Act>,
                                          later: seq<Act>)
    requires |first| <= 1 && Serial(py, w, mid, first) && Serial(py, mid, end, later)
    ensures Serial(py, w, end, first + later)
  {
    if first == [] {
      assert first + later == later;
    } else {
      assert (first + later)[1..] == later && first[1..] == [];
      assert PerformAll(py, w.db, first) == Perform(py, w.db, first[0]) by {
        assert forall db: Tables :: PerformAll(py, db, []) == Some(db);
      }
      assert DecidedIn([]) == [];
    }
  }

  /** Any run of looks, commits and changes has the effect of a serial one: the same changes and, at the
      places of its commits, decisions that look and commit at once, every one of which goes through. */
  lemma {:induction false} DecisionsAreSerialisable(py: Runtime, w: World, steps: seq<Step>)
    ensures Serial(py, w, Run(py, w, steps), Acts(py, w, steps))
    decreases |steps|
  {
    if steps != [] {
      var next, rest := Next(py, w, steps[0]), steps[1..];
      DecisionsAreSerialisable(py, next, rest);
      StepIsSerial(py, w, steps[0]);
      SerialComposes(py, w, next, Run(py, next, rest), ActOf(py, w, steps[0]), Acts(py, next, rest));
    }
  }

  function DecisionsOn(log: seq<Committed>, candidate: int): nat {
    if log == [] then 0
    else (if log[|log| - 1].candidate == candidate then 1 else 0) + DecisionsOn(log[..|log| - 1], candidate)
  }

  function Open(db: Tables, candidate: int): nat {
    if candidate in db.candidates && db.candidates[candidate].status == PendingReview then 1 else 0
  }

  /** No outside change puts the candidate back into review. */
  ghost predicate NeverReopened(py: Runtime, w: World, steps: seq<Step>, candidate: int)
    decreases |steps|
  {
    steps == []
    || (&& (steps[0].Interfere? ==> Open(steps[0].change(w.db), candidate) <= Open(w.db, candidate))
        && NeverReopened(py, Next(py, w, steps[0]), steps[1..], candidate))
  }

  /** However many workers hold matches for it, a candidate is decided at most once until somebody
      puts it back into review; a decided candidate is not decided again at all. */
  lemma {:induction false} DecidedAtMostOnce(py: Runtime, w: World, steps: seq<Step>, candidate: int)
    requires NeverReopened(py, w, steps, candidate)
    ensures var end := Run(py, w, steps);
            DecisionsOn(end.log, candidate) + Open(end.db, candidate)
            <= DecisionsOn(w.log, candidate) + Open(w.db, candidate)
    decreases |steps|
  {
    if steps != [] {
      var next := Next(py, w, steps[0]);
      assert next.log == w.log || next.log[..|next.log| - 1] == w.log;
      DecidedAtMostOnce(py, next, steps[1..], candidate);
    }
  }
}
