/** What validation promises about evaluation, and exactly when it keeps the promise. */
module RuleLaws {
  import opened Text
  import opened Rules

  // ---------------------------------------------------------- what validation returns

  /** The shape of every validated rule. */
  ghost predicate Shaped(py: Runtime, r: Rule) {
    match r
    case Group(_, children) => children != [] && forall i | 0 <= i < |children| :: Shaped(py, children[i])
    case Condition(field, op, value) =>
      field in ALLOWED_FIELDS && Accepts(RoleOf(field), op) && ShapedValue(py, RoleOf(field), op, value)
  }

  ghost predicate ShapedValue(py: Runtime, role: Role, op: Operator, value: Value) {
    if AsksExistence(op) then
      if role == Collection then value.Exact? && Clean(value.s) else value == Absent
    else if AsksMembership(op) then
      && value.Items? && value.xs != []
      && forall i | 0 <= i < |value.xs| ::
           Clean(value.xs[i]) && (role == Numeric ==> py.parse(value.xs[i]).Some?)
    else if Compares(op) then value.Bound?
    else value.Exact? && Clean(value.s)
  }

  /** No leaf compares a number with a text that is not one. */
  ghost predicate Sound(py: Runtime, r: Rule) {
    match r
    case Group(_, children) => forall i | 0 <= i < |children| :: Sound(py, children[i])
    case Condition(field, op, value) => SoundLeaf(py, RoleOf(field), op, value)
  }

  ghost predicate SoundLeaf(py: Runtime, role: Role, op: Operator, value: Value) {
    role == Numeric && (op.Eq? || op.Ne?) && value.Exact? ==> py.parse(value.s).Some?
  }

  lemma CleanItemsAreClean(py: Runtime, items: seq<Json>)
    ensures forall i | 0 <= i < |CleanItems(py, items)| :: Clean(CleanItems(py, items)[i])
  {
    if items != [] {
      CleanItemsAreClean(py, items[1..]);
      StripIsClean(Show(py, items[0]));
    }
  }

  lemma {:induction false} ValidatedIsShaped(py: Runtime, j: Json)
    requires Validate(py, j).Ok?
    ensures Shaped(py, Validate(py, j).value)
    decreases j, 1
  {
    var r := Validate(py, j).value;
    if r.Group? {
      AllValidatedAreShaped(py, j.children.items);
    } else {
      CleanItemsAreClean(py, if j.value.List? then j.value.items else [j.value]);
      StripIsClean(Show(py, j.value));
    }
  }

  lemma {:induction false} AllValidatedAreShaped(py: Runtime, js: seq<Json>)
    requires ValidateAll(py, js).Ok?
    ensures |ValidateAll(py, js).value| == |js|
    ensures forall i | 0 <= i < |js| :: Validate(py, js[i]) == Ok(ValidateAll(py, js).value[i])
    ensures forall i | 0 <= i < |js| :: Shaped(py, ValidateAll(py, js).value[i])
    decreases js, 0
  {
    if js != [] {
      ValidatedIsShaped(py, js[0]);
      AllValidatedAreShaped(py, js[1..]);
    }
  }

  // -------------------------------------------- soundness, told from the raw rule alone

  /** A raw rule with a numeric field compared by `=` or `<>` with a JSON boolean. */
  ghost predicate BoolEquality(py: Runtime, j: Json)
  {
    j.Dict? &&
    if Lower(Name(j.kind)) == "group" then
      j.children.List? && exists i | 0 <= i < |j.children.items| :: BoolEquality(py, j.children.items[i])
    else
      && j.value.Bool?
      && RoleOf(Name(j.field)) == Numeric
      && NormalizeOperator(py, Name(j.operator)) in {"=", "<>"}
  }

  /** Every number in the raw rule prints as a text that reads back as that number. */
  ghost predicate Genuine(py: Runtime, j: Json) {
    match j
    case Num(n, text) => py.parse(text) == Some(n)
    case Dict(_, _, children, _, value) => Genuine(py, children) && Genuine(py, value)
    case List(items) => forall i | 0 <= i < |items| :: Genuine(py, items[i])
    case _ => true
  }

  lemma EqualityTokens(token: string)
    ensures token in {"=", "<>"} <==> OperatorOf(token) in {Some(Eq), Some(Ne)}
  {}

  lemma SoundUnlessBoolValue(py: Runtime, op: Operator, role: Role, raw: Json)
    requires Lawful(py) && Genuine(py, raw) && ConditionValue(py, op, role, raw).Ok?
    ensures SoundLeaf(py, role, op, ConditionValue(py, op, role, raw).value)
            <==> !(role == Numeric && (op.Eq? || op.Ne?) && raw.Bool?)
  {
    if role == Numeric && (op.Eq? || op.Ne?) {
      assert py.parse(Strip(Show(py, raw))) == py.parse(Show(py, raw));
    }
  }

  /** Validation accepts `true` for `{Rating} = ...` because float(true) is 1.0, stores the text
      "True", and evaluation cannot read that text back. Nothing else escapes it. */
  lemma {:induction false} SoundUnlessBoolEquality(py: Runtime, j: Json)
    requires Lawful(py) && Genuine(py, j) && Validate(py, j).Ok?
    ensures Sound(py, Validate(py, j).value) <==> !BoolEquality(py, j)
    decreases j
  {
    var r := Validate(py, j).value;
    if r.Group? {
      var items := j.children.items;
      AllValidatedAreShaped(py, items);
      forall i | 0 <= i < |items|
        ensures Sound(py, r.children[i]) <==> !BoolEquality(py, items[i])
      {
        SoundUnlessBoolEquality(py, items[i]);
      }
    } else {
      ConditionSoundUnlessBool(py, j);
    }
  }

  lemma ConditionSoundUnlessBool(py: Runtime, j: Json)
    requires Lawful(py) && Genuine(py, j) && Validate(py, j).Ok? && Validate(py, j).value.Condition?
    ensures Sound(py, Validate(py, j).value) <==> !BoolEquality(py, j)
  {
    var r := Validate(py, j).value;
    EqualityTokens(NormalizeOperator(py, Name(j.operator)));
    SoundUnlessBoolValue(py, r.op, RoleOf(r.field), j.value);
  }

  // ------------------------------------------------------------------- idempotence

  /** A validated rule as the JSON it is stored as. */
  function Encode(py: Runtime, r: Rule): Json {
    match r
    case Group(c, children) =>
      Dict(Str("group"), Str(if c == And then "AND" else "OR"),
           List(seq(|children|, i requires 0 <= i < |children| => Encode(py, children[i]))), Null, Null)
    case Condition(field, op, value) =>
      Dict(Str("condition"), Str(Token(op)), Null, Str(field), EncodeValue(py, value))
  }

  function EncodeValue(py: Runtime, value: Value): Json {
    match value
    case Absent => Null
    case Exact(s) => Str(s)
    case Items(xs) => List(seq(|xs|, i requires 0 <= i < |xs| => Str(xs[i])))
    case Bound(n) => Num(n, py.show(n))
  }

  predicate TokenChar(c: char) {
    'A' <= c <= 'Z' || c in "_=<>"
  }

  lemma UpperKeepsTokens(py: Runtime, token: string)
    requires Lawful(py) && forall i | 0 <= i < |token| :: TokenChar(token[i]) || token[i] == ' '
    ensures py.upper(token) == token
  {
    assert seq(|token|, i requires 0 <= i < |token| => UpperChar(token[i])) == token;
  }

  lemma TokenHasNoBlank(token: string)
    requires forall i | 0 <= i < |token| :: TokenChar(token[i])
    ensures forall c :: c in token ==> !IsSpace(c)
    ensures token !in {"NOT LIKE", "NOT IN", "NOT EXISTS"}
  {
    assert "NOT LIKE"[3] == ' ' && "NOT IN"[3] == ' ' && "NOT EXISTS"[3] == ' ';
  }

  lemma TokenIsNormal(py: Runtime, token: string)
    requires Lawful(py) && token != "" && forall i | 0 <= i < |token| :: TokenChar(token[i])
    ensures NormalizeOperator(py, token) == token
  {
    TokenHasNoBlank(token);
    OneWord(token, "");
    assert "" + token == token;
    assert Join([token], " ") == token;
    UpperKeepsTokens(py, token);
  }

  lemma TokenChars(op: Operator)
    ensures Token(op) != "" && forall i | 0 <= i < |Token(op)| :: TokenChar(Token(op)[i])
  {}

  lemma OperatorRoundTrip(py: Runtime, op: Operator)
    requires Lawful(py)
    ensures NormalizeOperator(py, Token(op)) == Token(op) && OperatorOf(Token(op)) == Some(op)
  {
    TokenChars(op);
    TokenIsNormal(py, Token(op));
    TokenReads(op);
  }

  lemma TokenReads(op: Operator)
    ensures OperatorOf(Token(op)) == Some(op)
  {
    match op {
      case Eq => case Ne => case Gt => case Ge => case Lt => case Le =>
      case Like => case NotLike => case In => case NotIn => case Exists => case NotExists =>
    }
  }

  lemma {:induction false} CleanItemsOfTexts(py: Runtime, items: seq<Json>, xs: seq<string>)
    requires |items| == |xs| && forall i | 0 <= i < |xs| :: items[i] == Str(xs[i]) && Clean(xs[i])
    ensures CleanItems(py, items) == xs
  {
    if xs != [] {
      StripIsClean(xs[0]);
      CleanItemsOfTexts(py, items[1..], xs[1..]);
    }
  }

  lemma EncodedValueValidates(py: Runtime, role: Role, op: Operator, value: Value)
    requires Lawful(py) && Accepts(role, op) && ShapedValue(py, role, op, value)
    ensures ConditionValue(py, op, role, EncodeValue(py, value))
            == if SoundLeaf(py, role, op, value) then Ok(value) else Err
  {
    match value
    case Absent => assert CleanItems(py, [Null]) == CleanItems(py, [Null][1..]) == [];
    case Exact(s) => StripIsClean(s); CleanItemsOfTexts(py, [Str(s)], [s]);
    case Items(xs) => CleanItemsOfTexts(py, EncodeValue(py, value).items, xs);
    case Bound(n) =>
  }

  lemma KindsAreLower()
    ensures Lower("group") == "group" && Lower("condition") == "condition"
  {
    assert |Lower("group")| == 5 && |Lower("condition")| == 9;
  }

  lemma ValidateGroup(py: Runtime, c: Connective, js: seq<Json>)
    requires Lawful(py) && js != []
    ensures Validate(py, Dict(Str("group"), Str(if c == And then "AND" else "OR"), List(js), Null, Null))
            == match ValidateAll(py, js) case Ok(rules) => Ok(Group(c, rules)) case Err => Err
  {
    KindsAreLower();
    TokenIsNormal(py, if c == And then "AND" else "OR");
  }

  lemma ValidateCondition(py: Runtime, field: string, op: Operator, raw: Json)
    requires Lawful(py) && field in ALLOWED_FIELDS && Accepts(RoleOf(field), op)
    ensures Validate(py, Dict(Str("condition"), Str(Token(op)), Null, Str(field), raw))
            == match ConditionValue(py, op, RoleOf(field), raw)
               case Ok(v) => Ok(Condition(field, op, v))
               case Err => Err
  {
    KindsAreLower();
    OperatorRoundTrip(py, op);
    assert "condition" != "group";
  }

  /** Storing and validating again gives the same rule exactly when the rule is sound. */
  lemma {:induction false} ValidationIsIdempotentIffSound(py: Runtime, r: Rule)
    requires Lawful(py) && Shaped(py, r)
    ensures Validate(py, Encode(py, r)) == if Sound(py, r) then Ok(r) else Err
    decreases r
  {
    match r
    case Group(c, children) =>
      var js := Encode(py, r).children.items;
      forall i | 0 <= i < |children|
        ensures Validate(py, js[i]) == if Sound(py, children[i]) then Ok(children[i]) else Err
      {
        ValidationIsIdempotentIffSound(py, children[i]);
      }
      ValidateAllPointwise(py, js, children);
      ValidateGroup(py, c, js);
    case Condition(field, op, value) =>
      ValidateCondition(py, field, op, EncodeValue(py, value));
      EncodedValueValidates(py, RoleOf(field), op, value);
  }

  ghost predicate AllSound(py: Runtime, rules: seq<Rule>) {
    forall i | 0 <= i < |rules| :: Sound(py, rules[i])
  }

  lemma AllSoundCons(py: Runtime, rules: seq<Rule>)
    requires rules != []
    ensures AllSound(py, rules) <==> Sound(py, rules[0]) && AllSound(py, rules[1..])
  {
    assert rules == [rules[0]] + rules[1..];
  }

  lemma {:induction false} ValidateAllPointwise(py: Runtime, js: seq<Json>, rules: seq<Rule>)
    requires |js| == |rules|
    requires forall i | 0 <= i < |js| :: Validate(py, js[i]) == if Sound(py, rules[i]) then Ok(rules[i]) else Err
    ensures ValidateAll(py, js) == if AllSound(py, rules) then Ok(rules) else Err
  {
    if js != [] {
      ValidateAllPointwise(py, js[1..], rules[1..]);
      AllSoundCons(py, rules);
      assert rules == [rules[0]] + rules[1..];
    }
  }
}
