/** Evaluating a rule with a trace of its leaves. */
module RuleEvaluation {
  import opened Sequences
  import opened Text
  import opened Rules
  import opened RuleLaws
  import RuleText

  /** One line of the evaluation record. */
  datatype Entry = Entry(dsl: string, field: string, op: Operator, matched: bool)

  /** The leaves of a rule, left to right. */
  function Leaves(r: Rule): (leaves: seq<Rule>)
    ensures forall i | 0 <= i < |leaves| :: leaves[i].Condition?
    decreases r, 1
  {
    match r
    case Group(_, children) => AllLeaves(children)
    case Condition(_, _, _) => [r]
  }

  function AllLeaves(rules: seq<Rule>): (leaves: seq<Rule>)
    ensures forall i | 0 <= i < |leaves| :: leaves[i].Condition?
    decreases rules, 0
  {
    if rules == [] then [] else Leaves(rules[0]) + AllLeaves(rules[1..])
  }

  /** What a rule says of a work: every leaf is asked, even once the answer is known, so one leaf
      that cannot be evaluated spoils the whole rule. */
  ghost function Meaning(py: Runtime, r: Rule, metadata: Metadata, caseSensitive: bool): Option<bool>
    decreases r, 1
  {
    match r
    case Condition(_, _, _) => Leaf(py, r, metadata, caseSensitive)
    case Group(c, children) => Outcome(c, Meanings(py, children, metadata, caseSensitive))
  }

  ghost function Meanings(py: Runtime, rules: seq<Rule>, metadata: Metadata,
                          caseSensitive: bool): (m: seq<Option<bool>>)
    ensures |m| == |rules|
    ensures forall i | 0 <= i < |m| :: m[i] == Meaning(py, rules[i], metadata, caseSensitive)
    decreases rules, 0
  {
    if rules == [] then []
    else [Meaning(py, rules[0], metadata, caseSensitive)] + Meanings(py, rules[1..], metadata, caseSensitive)
  }

  /** AND and OR over the children's verdicts. */
  ghost function Outcome(c: Connective, verdicts: seq<Option<bool>>): Option<bool> {
    if exists i | 0 <= i < |verdicts| :: verdicts[i] == None then None
    else if c == And then Some(forall i | 0 <= i < |verdicts| :: verdicts[i] == Some(true))
    else Some(exists i | 0 <= i < |verdicts| :: verdicts[i] == Some(true))
  }

  function EntryOf(py: Runtime, leaf: Rule, metadata: Metadata, caseSensitive: bool): Entry
    requires leaf.Condition?
  {
    Entry(RuleText.Render(py, leaf), leaf.field, leaf.op, Leaf(py, leaf, metadata, caseSensitive) == Some(true))
  }

  function EntriesOf(py: Runtime, leaves: seq<Rule>, metadata: Metadata, caseSensitive: bool): seq<Entry>
    requires forall i | 0 <= i < |leaves| :: leaves[i].Condition?
  {
    if leaves == [] then []
    else [EntryOf(py, leaves[0], metadata, caseSensitive)] + EntriesOf(py, leaves[1..], metadata, caseSensitive)
  }

  lemma {:induction false} EntriesConcat(py: Runtime, a: seq<Rule>, b: seq<Rule>, metadata: Metadata,
                                         caseSensitive: bool)
    requires forall i | 0 <= i < |a| :: a[i].Condition?
    requires forall i | 0 <= i < |b| :: b[i].Condition?
    ensures EntriesOf(py, a + b, metadata, caseSensitive)
            == EntriesOf(py, a, metadata, caseSensitive) + EntriesOf(py, b, metadata, caseSensitive)
  {
    if a == [] {
      assert a + b == b;
    } else {
      assert (a + b)[1..] == a[1..] + b;
      EntriesConcat(py, a[1..], b, metadata, caseSensitive);
    }
  }

  /** `evaluate_rule`: the closure `evaluate` and the list of conditions it appends to. */
  class Evaluation {
    const py: Runtime
    const metadata: Metadata
    const caseSensitive: bool
    var conditions: seq<Entry>

    constructor (py: Runtime, metadata: Metadata, caseSensitive: bool)
      ensures this.py == py && this.metadata == metadata && this.caseSensitive == caseSensitive
      ensures conditions == []
    {
      this.py := py;
      this.metadata := metadata;
      this.caseSensitive := caseSensitive;
      conditions := [];
    }

    /** None stands for the Python error that ends the evaluation. */
    method Evaluate(node: Rule) returns (matched: Option<bool>)
      modifies this
      ensures matched == Meaning(py, node, metadata, caseSensitive)
      ensures matched.Some? ==>
                conditions == old(conditions) + EntriesOf(py, Leaves(node), metadata, caseSensitive)
      decreases node, 1
    {
      if node.Group? {
        var outcomes := EvaluateAll(node.children);
        if outcomes.None? {
          return None;
        }
        matched := Some(if node.connective == And then All(outcomes.value) else Any(outcomes.value));
        Folds(node.connective, Meanings(py, node.children, metadata, caseSensitive), outcomes.value);
      } else {
        LeafTrace(py, node, metadata, caseSensitive);
        matched := Leaf(py, node, metadata, caseSensitive);
        if matched.Some? {
          conditions := conditions + [Entry(RuleText.Render(py, node), node.field, node.op, matched.value)];
        }
      }
    }

    /** The list comprehension over the children of a group. */
    method EvaluateAll(children: seq<Rule>) returns (outcomes: Option<seq<bool>>)
      modifies this
      ensures outcomes.None? ==> None in Meanings(py, children, metadata, caseSensitive)
      ensures outcomes.Some? ==>
                && Answers(Meanings(py, children, metadata, caseSensitive), outcomes.value)
                && conditions == old(conditions) + EntriesOf(py, AllLeaves(children), metadata, caseSensitive)
      decreases children, 0
    {
      if children == [] {
        return Some([]);
      }
      ghost var before := conditions;
      var first := Evaluate(children[0]);
      if first.None? {
        assert Meanings(py, children, metadata, caseSensitive)[0] == None;
        return None;
      }
      var rest := EvaluateAll(children[1..]);
      MeaningsUnfold(py, children, metadata, caseSensitive);
      if rest.None? {
        return None;
      }
      TraceUnfold(py, children, before, metadata, caseSensitive);
      outcomes := Some([first.value] + rest.value);
    }
  }

  lemma Folds(c: Connective, verdicts: seq<Option<bool>>, answers: seq<bool>)
    requires Answers(verdicts, answers)
    ensures Outcome(c, verdicts) == Some(if c == And then All(answers) else Any(answers))
  {}

  lemma LeafTrace(py: Runtime, leaf: Rule, metadata: Metadata, caseSensitive: bool)
    requires leaf.Condition?
    ensures Leaves(leaf) == [leaf]
    ensures EntriesOf(py, [leaf], metadata, caseSensitive) == [EntryOf(py, leaf, metadata, caseSensitive)]
  {}

  lemma MeaningsUnfold(py: Runtime, rules: seq<Rule>, metadata: Metadata, caseSensitive: bool)
    requires rules != []
    ensures Meanings(py, rules, metadata, caseSensitive)
            == [Meaning(py, rules[0], metadata, caseSensitive)] + Meanings(py, rules[1..], metadata, caseSensitive)
  {}

  lemma TraceUnfold(py: Runtime, rules: seq<Rule>, before: seq<Entry>, metadata: Metadata, caseSensitive: bool)
    requires rules != []
    ensures before + EntriesOf(py, AllLeaves(rules), metadata, caseSensitive)
            == before + EntriesOf(py, Leaves(rules[0]), metadata, caseSensitive)
               + EntriesOf(py, AllLeaves(rules[1..]), metadata, caseSensitive)
  {
    EntriesConcat(py, Leaves(rules[0]), AllLeaves(rules[1..]), metadata, caseSensitive);
    Assoc(before, EntriesOf(py, Leaves(rules[0]), metadata, caseSensitive),
            EntriesOf(py, AllLeaves(rules[1..]), metadata, caseSensitive));
  }

  ghost predicate Answers(verdicts: seq<Option<bool>>, answers: seq<bool>) {
    |verdicts| == |answers| && forall i | 0 <= i < |answers| :: verdicts[i] == Some(answers[i])
  }

  predicate All(outcomes: seq<bool>) {
    forall i | 0 <= i < |outcomes| :: outcomes[i]
  }

  predicate Any(outcomes: seq<bool>) {
    exists i | 0 <= i < |outcomes| :: outcomes[i]
  }

  // ------------------------------------------------------------------- totality

  /** A validated rule can be evaluated on every work, under either case setting, exactly when it is
      sound; with `SoundUnlessBoolEquality` this is a test on the raw rule. */
  lemma TotalIffSound(py: Runtime, r: Rule)
    requires Lawful(py) && Shaped(py, r)
    ensures Sound(py, r) <==>
            forall metadata, caseSensitive :: Meaning(py, r, metadata, caseSensitive).Some?
  {
    if Sound(py, r) {
      forall metadata, caseSensitive
        ensures Meaning(py, r, metadata, caseSensitive).Some?
      {
        SoundIsTotal(py, r, metadata, caseSensitive);
      }
    } else {
      UnsoundFails(py, r);
    }
  }

  lemma {:induction false} SoundIsTotal(py: Runtime, r: Rule, metadata: Metadata, caseSensitive: bool)
    requires Shaped(py, r) && Sound(py, r)
    ensures Meaning(py, r, metadata, caseSensitive).Some?
  {
    if r.Group? {
      forall i | 0 <= i < |r.children|
        ensures Meaning(py, r.children[i], metadata, caseSensitive).Some?
      {
        SoundIsTotal(py, r.children[i], metadata, caseSensitive);
      }
    }
  }

  /** A work whose numeric fields all hold a number. */
  function Rated(py: Runtime): Metadata {
    map["Rating" := py.show(Finite(ONE)), "Pages" := py.show(Finite(ONE))]
  }

  lemma {:induction false} UnsoundFails(py: Runtime, r: Rule)
    requires Lawful(py) && Shaped(py, r) && !Sound(py, r)
    ensures Meaning(py, r, Rated(py), true) == None
  {
    if r.Group? {
      var i :| 0 <= i < |r.children| && !Sound(py, r.children[i]);
      UnsoundFails(py, r.children[i]);
    } else {
      var text := py.show(Finite(ONE));
      assert py.parse(text) == Some(Finite(ONE));
      NumeralIsClean(py, Finite(ONE));
      StripIsClean(text);
      assert Fetch(Rated(py), r.field) == text;
    }
  }

  lemma NumeralIsClean(py: Runtime, n: Float)
    requires Lawful(py)
    ensures Clean(py.show(n))
  {
    assert NumeralChar(py.show(n)[0]) && NumeralChar(py.show(n)[|py.show(n)| - 1]);
  }

  /** The failing input: `{"kind": "condition", "field": "Rating", "operator": "=", "value": true}`
      is accepted, cannot be accepted again once stored, and cannot be evaluated on a rated work. */
  lemma BooleanEqualityBreaks(py: Runtime)
    requires Lawful(py)
    ensures var raw := Dict(Str("condition"), Str("="), Null, Str("Rating"), Bool(true));
            var rule := Condition("Rating", Eq, Exact("True"));
            && Validate(py, raw) == Ok(rule)
            && Validate(py, Encode(py, rule)) == Err
            && Meaning(py, rule, Rated(py), true) == None
  {
    StripIsClean("True");
    ValidateCondition(py, "Rating", Eq, Bool(true));
    var rule := Condition("Rating", Eq, Exact("True"));
    assert !Sound(py, rule) && Shaped(py, rule);
    ValidationIsIdempotentIffSound(py, rule);
    UnsoundFails(py, rule);
  }

  // ------------------------------------------------------------------- negations

  predicate Opposites(op: Operator, negation: Operator) {
    (op, negation) in {(Exists, NotExists), (In, NotIn), (Operator.Like, NotLike), (Eq, Ne)}
  }

  /** Whether the work has something for this condition to compare with. */
  predicate Comparable(py: Runtime, field: string, op: Operator, metadata: Metadata) {
    || field == COLLECTION_FIELD
    || AsksExistence(op)
    || (&& Strip(Fetch(metadata, field)) != ""
        && (field in NUMERIC_FIELDS ==> py.parse(Strip(Fetch(metadata, field))).Some?))
  }

  /** A NOT operator is the exact complement where there is something to compare with, which on TAG
      is always; on a blank or non-numeric value the operator and its negation are both false. */
  lemma NegationLaw(py: Runtime, field: string, op: Operator, negation: Operator, value: Value,
                    metadata: Metadata, caseSensitive: bool)
    requires Opposites(op, negation)
    requires Shaped(py, Condition(field, op, value)) && Sound(py, Condition(field, op, value))
    ensures Shaped(py, Condition(field, negation, value)) && Sound(py, Condition(field, negation, value))
    ensures var yes := Leaf(py, Condition(field, op, value), metadata, caseSensitive);
            var no := Leaf(py, Condition(field, negation, value), metadata, caseSensitive);
            && yes.Some? && no.Some?
            && (Comparable(py, field, op, metadata) ==> no.value == !yes.value)
            && (!Comparable(py, field, op, metadata) ==> !no.value && !yes.value)
  {
    var yes, no := Condition(field, op, value), Condition(field, negation, value);
    var actual := Strip(Fetch(metadata, field));
    if field == COLLECTION_FIELD {
      NegatedTag(py, yes, no, Tags(py, metadata, caseSensitive), caseSensitive);
    } else if !AsksExistence(op) && actual != "" {
      if field in NUMERIC_FIELDS {
        NegatedNumber(py, yes, no, actual);
      } else {
        NegatedText(py, yes, no, actual, caseSensitive);
      }
    }
  }

  ghost predicate Negates(py: Runtime, yes: Rule, no: Rule) {
    && yes.Condition? && Shaped(py, yes) && Sound(py, yes)
    && no.Condition? && no.field == yes.field && no.value == yes.value && Opposites(yes.op, no.op)
  }

  lemma NegatedTag(py: Runtime, yes: Rule, no: Rule, tags: set<string>, caseSensitive: bool)
    requires Negates(py, yes, no) && yes.field == COLLECTION_FIELD
    ensures TagLeaf(py, yes, tags, caseSensitive).Some?
    ensures TagLeaf(py, no, tags, caseSensitive) == Negate(TagLeaf(py, yes, tags, caseSensitive))
  {}

  lemma NegatedNumber(py: Runtime, yes: Rule, no: Rule, actual: string)
    requires Negates(py, yes, no) && yes.field in NUMERIC_FIELDS && !AsksExistence(yes.op)
    ensures NumericLeaf(py, yes, actual).Some?
    ensures NumericLeaf(py, no, actual)
            == if py.parse(actual).None? then Some(false) else Negate(NumericLeaf(py, yes, actual))
    ensures py.parse(actual).None? ==> NumericLeaf(py, yes, actual) == Some(false)
  {}

  lemma NegatedText(py: Runtime, yes: Rule, no: Rule, actual: string, caseSensitive: bool)
    requires Negates(py, yes, no) && RoleOf(yes.field) == Textual && !AsksExistence(yes.op)
    ensures TextLeaf(py, yes, actual, caseSensitive).Some?
    ensures TextLeaf(py, no, actual, caseSensitive) == Negate(TextLeaf(py, yes, actual, caseSensitive))
  {}

  // --------------------------------------------- the audit text and what a rule means

  lemma {:induction false} CanonMeansTheSame(py: Runtime, r: Rule, metadata: Metadata, caseSensitive: bool)
    ensures Meaning(py, RuleText.Canon(r), metadata, caseSensitive) == Meaning(py, r, metadata, caseSensitive)
  {
    if r.Group? {
      var canon := RuleText.Canon(r);
      forall i | 0 <= i < |r.children|
        ensures Meaning(py, canon.children[i], metadata, caseSensitive)
                == Meaning(py, r.children[i], metadata, caseSensitive)
      {
        CanonMeansTheSame(py, r.children[i], metadata, caseSensitive);
      }
      assert Meanings(py, canon.children, metadata, caseSensitive) == Meanings(py, r.children, metadata, caseSensitive);
      OneVerdict(Meanings(py, r.children, metadata, caseSensitive));
    }
  }

  lemma OneVerdict(verdicts: seq<Option<bool>>)
    ensures |verdicts| == 1 ==> Outcome(And, verdicts) == Outcome(Or, verdicts)
  {
    if |verdicts| == 1 && verdicts[0] != None {
      assert Outcome(And, verdicts) == Some(verdicts[0] == Some(true));
    }
  }

  lemma {:induction false} CanonHasTheSameLeaves(r: Rule)
    ensures Leaves(RuleText.Canon(r)) == Leaves(r)
    decreases r, 1
  {
    if r.Group? {
      CanonsHaveTheSameLeaves(r.children, RuleText.Canon(r).children);
    }
  }

  lemma {:induction false} CanonsHaveTheSameLeaves(rules: seq<Rule>, canons: seq<Rule>)
    requires |rules| == |canons| && forall i | 0 <= i < |rules| :: canons[i] == RuleText.Canon(rules[i])
    ensures AllLeaves(canons) == AllLeaves(rules)
    decreases rules, 0
  {
    if rules != [] {
      CanonHasTheSameLeaves(rules[0]);
      CanonsHaveTheSameLeaves(rules[1..], canons[1..]);
    }
  }

  /** Two validated rules with one audit text decide alike on every work, leaf by leaf. */
  lemma SameTextSameMeaning(py: Runtime, a: Rule, b: Rule, metadata: Metadata, caseSensitive: bool)
    requires Lawful(py) && Shaped(py, a) && Shaped(py, b)
    requires RuleText.Render(py, a) == RuleText.Render(py, b)
    ensures Meaning(py, a, metadata, caseSensitive) == Meaning(py, b, metadata, caseSensitive)
    ensures Leaves(a) == Leaves(b)
  {
    RuleText.AuditTextDeterminesRule(py, a, b);
    CanonMeansTheSame(py, a, metadata, caseSensitive);
    CanonMeansTheSame(py, b, metadata, caseSensitive);
    CanonHasTheSameLeaves(a);
    CanonHasTheSameLeaves(b);
  }

  /** The printed form of every validated condition: field, operator and value, with a quoted list for
      the membership operators, a bare number for the bounds, and a quoted text for all others but EXISTS
      and NOT EXISTS, which ask a tag in parentheses and a plain field nothing; so no condition prints
      a missing value. */
  lemma PrintedForm(py: Runtime, field: string, op: Operator, value: Value)
    requires Shaped(py, Condition(field, op, value))
    ensures value.Items? <==> AsksMembership(op)
    ensures value.Bound? <==> Compares(op)
    ensures value.Absent? <==> AsksExistence(op) && field != COLLECTION_FIELD
    ensures RuleText.Render(py, Condition(field, op, value))
            == "{" + field + "} " + RuleText.Spoken(op)
               + if value.Absent? then ""
                 else if AsksExistence(op) && value.Exact? then "(" + RuleText.Quote(value.s) + ")"
                 else " " + RuleText.RenderValue(py, value)
  {
    ValueFits(py, field, op, value);
    var head := "{" + field + "} " + RuleText.Spoken(op);
    assert RuleText.Render(py, Condition(field, op, value)) == head + RuleText.Tail(py, field, op, value);
    PrintedTail(py, field, op, value);
  }

  lemma ValueFits(py: Runtime, field: string, op: Operator, value: Value)
    requires Shaped(py, Condition(field, op, value))
    ensures value.Items? <==> AsksMembership(op)
    ensures value.Bound? <==> Compares(op)
    ensures value.Absent? <==> AsksExistence(op) && field != COLLECTION_FIELD
    ensures value.Exact? && AsksExistence(op) ==> field == COLLECTION_FIELD
  {}

  lemma PrintedTail(py: Runtime, field: string, op: Operator, value: Value)
    requires value.Absent? <==> AsksExistence(op) && field != COLLECTION_FIELD
    requires AsksExistence(op) ==> !value.Items? && !value.Bound?
    ensures RuleText.Tail(py, field, op, value)
            == if value.Absent? then ""
               else if AsksExistence(op) && value.Exact? then "(" + RuleText.Quote(value.s) + ")"
               else " " + RuleText.RenderValue(py, value)
  {}

  /** The operator words of the audit text are operators one can type: they normalize to the token that
      is stored. */
  lemma PrintedOperatorReads(py: Runtime, op: Operator)
    requires Lawful(py)
    ensures NormalizeOperator(py, RuleText.Spoken(op)) == Token(op)
    ensures OperatorOf(NormalizeOperator(py, RuleText.Spoken(op))) == Some(op)
  {
    OperatorRoundTrip(py, op);
    if RuleText.Negated(op) {
      NotIsKept(py, RuleText.LastWord(op));
    }
  }

  lemma NotIsKept(py: Runtime, word: string)
    requires Lawful(py) && word in {"LIKE", "IN", "EXISTS"}
    ensures NormalizeOperator(py, "NOT " + word) == "NOT_" + word
  {
    WordIsKept(py, "NOT", word);
    assert "NOT" + " " + word == "NOT " + word;
    assert word == "LIKE" ==> "NOT " + word == "NOT LIKE" && "NOT_" + word == "NOT_LIKE";
    assert word == "IN" ==> "NOT " + word == "NOT IN" && "NOT_" + word == "NOT_IN";
    assert word == "EXISTS" ==> "NOT " + word == "NOT EXISTS" && "NOT_" + word == "NOT_EXISTS";
  }

  lemma WordIsKept(py: Runtime, a: string, b: string)
    requires Lawful(py) && a != "" && b != ""
    requires forall i | 0 <= i < |a| :: TokenChar(a[i])
    requires forall i | 0 <= i < |b| :: TokenChar(b[i])
    ensures py.upper(Join(Words(a + " " + b), " ")) == a + " " + b
  {
    TwoWords(a, b);
    UpperKeepsTokens(py, a + " " + b);
  }

  lemma TwoWords(a: string, b: string)
    requires a != "" && b != "" && forall c | c in a + b :: !IsSpace(c)
    ensures Join(Words(a + " " + b), " ") == a + " " + b
  {
    WordThenRest(a, b, "");
    OneWord(b, "");
  }

  lemma {:induction false} WordThenRest(a: string, b: string, word: string)
    requires word + a != "" && forall c | c in a :: !IsSpace(c)
    ensures WordsAfter(a + " " + b, word) == [word + a] + WordsAfter(b, "")
    decreases |a|
  {
    var s := a + " " + b;
    if a == "" {
      assert s[0] == ' ' && s[1..] == b && word + a == word;
    } else {
      assert s[0] == a[0] && s[1..] == a[1..] + " " + b;
      assert word + [a[0]] + a[1..] == word + a;
      WordThenRest(a[1..], b, word + [a[0]]);
    }
  }

  /** What the audit text does not tell apart decides alike on every work, leaf by leaf. */
  lemma OneChildGroupsPrintAlike(py: Runtime, child: Rule, metadata: Metadata, caseSensitive: bool)
    ensures var a, b := Group(And, [child]), Group(Or, [child]);
            && a != b && RuleText.Render(py, a) == RuleText.Render(py, b)
            && Meaning(py, a, metadata, caseSensitive) == Meaning(py, b, metadata, caseSensitive)
            && Leaves(a) == Leaves(b)
  {
    assert RuleText.RenderAll(py, [child], " AND ") == RuleText.RenderAll(py, [child], " OR ");
    OneVerdict(Meanings(py, [child], metadata, caseSensitive));
  }
}
