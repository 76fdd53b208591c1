/** The automatic-approval rule language: validation and evaluation. */
module Rules {
  import opened Text
  import Like

  /** A Python float. Every finite one is a whole number of the smallest positive float, 2 ** -1074;
      which of these multiples a float can hold is not modelled. */
  datatype Float = NaN | Infinite(negative: bool) | Finite(units: int)

  function PowerOfTwo(n: nat): nat {
    if n == 0 then 1 else 2 * PowerOfTwo(n - 1)
  }

  /** 1.0 in these units. */
  const ONE: int := PowerOfTwo(1074)

  predicate FloatEq(a: Float, b: Float) {
    a == b && !a.NaN?
  }

  predicate FloatLess(a: Float, b: Float) {
    match (a, b)
    case (Finite(x), Finite(y)) => x < y
    case (Infinite(n), Finite(_)) => n
    case (Finite(_), Infinite(n)) => !n
    case (Infinite(m), Infinite(n)) => m && !n
    case _ => false
  }

  /** The parts of Python's runtime that a rule is read and evaluated with. */
  datatype Runtime = Runtime(
    parse: string -> Option<Float>,  // float(text), None for ValueError
    show: Float -> string,           // str(number)
    upper: string -> string,         // str.upper
    fold: string -> string,          // str.casefold
    repr: Json -> string)            // str() of a list or a dictionary

  predicate NumeralChar(c: char) {
    '0' <= c <= '9' || 'a' <= c <= 'z' || c == '+' || c == '-' || c == '.'
  }

  /** What the model relies on of `float`, `str` and `str.upper`. */
  ghost predicate Lawful(py: Runtime) {
    && (forall n {:trigger py.show(n)} :: py.show(n) != "" && py.parse(py.show(n)) == Some(n))
    && (forall n, i {:trigger py.show(n)[i]} | 0 <= i < |py.show(n)| :: NumeralChar(py.show(n)[i]))
    && (forall s {:trigger py.parse(Strip(s))} :: py.parse(s).Some? ==> py.parse(Strip(s)) == py.parse(s))
    && py.parse("True") == None
    && py.parse("False") == None
    && (forall s {:trigger py.upper(s)} | (forall i | 0 <= i < |s| :: s[i] < '\U{80}') ::
          py.upper(s) == seq(|s|, i requires 0 <= i < |s| => UpperChar(s[i])))
  }

  // ---------------------------------------------------------------- vocabulary

  datatype Operator =
    | Eq | Ne | Gt | Ge | Lt | Le | Like | NotLike | In | NotIn | Exists | NotExists

  datatype Role = Numeric | Collection | Textual

  const NUMERIC_FIELDS: set<string> := {"Rating", "Pages"}

  const COLLECTION_FIELD := "TAG"

  const ALLOWED_FIELDS: set<string> := {
    "Title", "JapaneseTitle", "Artist", "Group", "Parody", "Series", "Character", "Language",
    "Category", "Tags", "Rating", "Pages", "Uploader", "Description",
    "TagsRaw", "ArtistRaw", "GroupRaw", "ParodyRaw", "CharacterRaw", "LanguageRaw", "CategoryRaw",
    "FileSize", "Web", "TAG"}

  function RoleOf(field: string): Role {
    if field in NUMERIC_FIELDS then Numeric
    else if field == COLLECTION_FIELD then Collection
    else Textual
  }

  /** The operators a field of each role accepts. */
  predicate Accepts(role: Role, op: Operator) {
    match role
    case Numeric => !op.Like? && !op.NotLike?
    case Collection => op.Exists? || op.NotExists? || op.In? || op.NotIn? || op.Like? || op.NotLike?
    case Textual => !Compares(op)
  }

  predicate Compares(op: Operator) {
    op.Gt? || op.Ge? || op.Lt? || op.Le?
  }

  predicate AsksExistence(op: Operator) {
    op.Exists? || op.NotExists?
  }

  predicate AsksMembership(op: Operator) {
    op.In? || op.NotIn?
  }

  /** The token an operator is stored as. */
  function Token(op: Operator): string {
    match op
    case Eq => "="
    case Ne => "<>"
    case Gt => ">"
    case Ge => ">="
    case Lt => "<"
    case Le => "<="
    case Like => "LIKE"
    case NotLike => "NOT_LIKE"
    case In => "IN"
    case NotIn => "NOT_IN"
    case Exists => "EXISTS"
    case NotExists => "NOT_EXISTS"
  }

  function OperatorOf(token: string): Option<Operator> {
    match token
    case "=" => Some(Eq)
    case "<>" => Some(Ne)
    case ">" => Some(Gt)
    case ">=" => Some(Ge)
    case "<" => Some(Lt)
    case "<=" => Some(Le)
    case "LIKE" => Some(Operator.Like)
    case "NOT_LIKE" => Some(NotLike)
    case "IN" => Some(In)
    case "NOT_IN" => Some(NotIn)
    case "EXISTS" => Some(Exists)
    case "NOT_EXISTS" => Some(NotExists)
    case _ => None
  }

  /** `normalize_operator`: any case, any spacing, spaces or underscores. */
  function NormalizeOperator(py: Runtime, raw: string): string {
    var spaced := py.upper(Join(Words(raw), " "));
    match spaced
    case "NOT LIKE" => "NOT_LIKE"
    case "NOT IN" => "NOT_IN"
    case "NOT EXISTS" => "NOT_EXISTS"
    case _ => spaced
  }

  // ------------------------------------------------------------ rules, raw and validated

  /** Decoded JSON. A number keeps the text `str` gives it (`4` and `4.0` are the same value).
      A dictionary is known by the five keys the validator reads; a missing key and `null` are
      treated alike by all of them. */
  datatype Json =
    | Null
    | Bool(b: bool)
    | Num(number: Float, text: string)
    | Str(s: string)
    | List(items: seq<Json>)
    | Dict(kind: Json, operator: Json, children: Json, field: Json, value: Json)

  datatype Connective = And | Or

  datatype Value = Absent | Exact(s: string) | Items(xs: seq<string>) | Bound(n: Float)

  datatype Rule =
    | Group(connective: Connective, children: seq<Rule>)
    | Condition(field: string, op: Operator, value: Value)

  /** A text or nothing: no other JSON value prints as a kind, a field or an operator. */
  function Name(j: Json): string {
    if j.Str? then j.s else ""
  }

  /** `str(j)`. */
  function Show(py: Runtime, j: Json): string {
    match j
    case Null => "None"
    case Bool(b) => if b then "True" else "False"
    case Num(_, text) => text
    case Str(s) => s
    case _ => py.repr(j)
  }

  /** `float(j)`, Err where it raises TypeError or ValueError. */
  function ToFloat(py: Runtime, j: Json): Result<Float> {
    match j
    case Bool(b) => Ok(Finite(if b then ONE else 0))
    case Num(n, _) => Ok(n)
    case Str(s) => if py.parse(s).Some? then Ok(py.parse(s).value) else Err
    case _ => Err
  }

  /** `_clean_list`: the non-blank members of a list (or of one scalar), trimmed. */
  function CleanList(py: Runtime, raw: Json): seq<string> {
    CleanItems(py, if raw.List? then raw.items else [raw])
  }

  function CleanItems(py: Runtime, items: seq<Json>): seq<string> {
    if items == [] then []
    else
      var rest := CleanItems(py, items[1..]);
      var text := Strip(Show(py, items[0]));
      if items[0].Null? || text == "" then rest else [text] + rest
  }

  function Validate(py: Runtime, j: Json): Result<Rule>
    decreases j, 1
  {
    if !j.Dict? then Err
    else
      var kind := Lower(Name(j.kind));
      var token := NormalizeOperator(py, Name(j.operator));
      if kind == "group" then
        if token != "AND" && token != "OR" then Err
        else if !j.children.List? || j.children.items == [] then Err
        else
          match ValidateAll(py, j.children.items)
          case Ok(rules) => Ok(Group(if token == "AND" then And else Or, rules))
          case Err => Err
      else if kind != "condition" then Err
      else
        var field := Name(j.field);
        var op := OperatorOf(token);
        if field !in ALLOWED_FIELDS then Err
        else if op.None? || !Accepts(RoleOf(field), op.value) then Err
        else
          match ConditionValue(py, op.value, RoleOf(field), j.value)
          case Ok(v) => Ok(Condition(field, op.value, v))
          case Err => Err
  }

  function ValidateAll(py: Runtime, js: seq<Json>): Result<seq<Rule>>
    decreases js, 0
  {
    if js == [] then Ok([])
    else
      match Validate(py, js[0])
      case Err => Err
      case Ok(first) =>
        match ValidateAll(py, js[1..])
        case Err => Err
        case Ok(rest) => Ok([first] + rest)
  }

  /** `_condition_value`. */
  function ConditionValue(py: Runtime, op: Operator, role: Role, raw: Json): Result<Value> {
    var items := CleanList(py, raw);
    if AsksExistence(op) then
      if role == Collection then
        if |items| != 1 then Err else Ok(Exact(items[0]))
      else if raw != Null && raw != Str("") && items != [] then Err
      else Ok(Absent)
    else if AsksMembership(op) then
      if items == [] then Err
      else if role == Numeric && exists i | 0 <= i < |items| :: py.parse(items[i]).None? then Err
      else Ok(Items(items))
    else if raw == Null then Err
    else if Compares(op) then
      match ToFloat(py, raw)
      case Ok(n) => Ok(Bound(n))
      case Err => Err
    else if role == Numeric && ToFloat(py, raw).Err? then Err
    else
      var text := Strip(Show(py, raw));
      if text == "" then Err else Ok(Exact(text))
  }

  // ---------------------------------------------------------------- evaluation

  type Metadata = map<string, string>

  function Fetch(metadata: Metadata, field: string): string {
    if field in metadata then metadata[field] else ""
  }

  function Fold(py: Runtime, caseSensitive: bool, text: string): string {
    if caseSensitive then text else py.fold(text)
  }

  function FoldAll(py: Runtime, caseSensitive: bool, texts: seq<string>): set<string> {
    set text | text in texts :: Fold(py, caseSensitive, text)
  }

  function NonBlank(pieces: seq<string>): seq<string> {
    if pieces == [] then []
    else (if Strip(pieces[0]) == "" then [] else [Strip(pieces[0])]) + NonBlank(pieces[1..])
  }

  /** `_tags`: the trimmed names in both tag fields, split at commas and line breaks. */
  function Tags(py: Runtime, metadata: Metadata, caseSensitive: bool): set<string> {
    FoldAll(py, caseSensitive,
            NonBlank(Split(ReplaceChar(Fetch(metadata, "TagsRaw"), '\n', ','), ','))
            + NonBlank(Split(ReplaceChar(Fetch(metadata, "Tags"), '\n', ','), ',')))
  }

  function LikeMatches(py: Runtime, pattern: string, actual: string, caseSensitive: bool): bool {
    Like.FullMatch(Like.Compiled(Fold(py, caseSensitive, pattern)), Fold(py, caseSensitive, actual))
  }

  /** The verdict of one leaf; None where Python raises an unhandled error. */
  function Leaf(py: Runtime, c: Rule, metadata: Metadata, caseSensitive: bool): Option<bool>
    requires c.Condition?
  {
    if c.field == COLLECTION_FIELD then
      TagLeaf(py, c, Tags(py, metadata, caseSensitive), caseSensitive)
    else
      var actual := Strip(Fetch(metadata, c.field));
      if c.op.Exists? then Some(actual != "")
      else if c.op.NotExists? then Some(actual == "")
      else if actual == "" then Some(false)
      else if c.field in NUMERIC_FIELDS then NumericLeaf(py, c, actual)
      else TextLeaf(py, c, actual, caseSensitive)
  }

  function TagLeaf(py: Runtime, c: Rule, tags: set<string>, caseSensitive: bool): Option<bool>
    requires c.Condition?
  {
    match (c.op, c.value)
    case (Exists, Exact(s)) => Some(Fold(py, caseSensitive, s) in tags)
    case (NotExists, Exact(s)) => Some(Fold(py, caseSensitive, s) !in tags)
    case (In, Items(xs)) => Some(FoldAll(py, caseSensitive, xs) * tags != {})
    case (NotIn, Items(xs)) => Some(FoldAll(py, caseSensitive, xs) * tags == {})
    case (Like, Exact(s)) => Some(exists tag | tag in tags :: LikeMatches(py, s, tag, caseSensitive))
    case (NotLike, Exact(s)) => Some(!exists tag | tag in tags :: LikeMatches(py, s, tag, caseSensitive))
    case _ => None
  }

  function NumericLeaf(py: Runtime, c: Rule, actual: string): Option<bool>
    requires c.Condition?
  {
    var number := py.parse(actual);
    if number.None? then Some(false)
    else
      match (c.op, c.value)
      case (In, Items(xs)) => Membership(py, number.value, xs)
      case (NotIn, Items(xs)) => Negate(Membership(py, number.value, xs))
      case (Eq, Exact(s)) =>
        if py.parse(s).None? then None else Some(FloatEq(number.value, py.parse(s).value))
      case (Ne, Exact(s)) =>
        if py.parse(s).None? then None else Some(!FloatEq(number.value, py.parse(s).value))
      case (Gt, Bound(n)) => Some(FloatLess(n, number.value))
      case (Ge, Bound(n)) => Some(FloatLess(n, number.value) || FloatEq(n, number.value))
      case (Lt, Bound(n)) => Some(FloatLess(number.value, n))
      case (Le, Bound(n)) => Some(FloatLess(number.value, n) || FloatEq(n, number.value))
      case _ => None
  }

  function Negate(verdict: Option<bool>): Option<bool> {
    if verdict.Some? then Some(!verdict.value) else None
  }

  /** `number in {float(x) for x in xs}`. */
  function Membership(py: Runtime, number: Float, xs: seq<string>): Option<bool> {
    if exists i | 0 <= i < |xs| :: py.parse(xs[i]).None? then None
    else Some(exists i | 0 <= i < |xs| :: FloatEq(number, py.parse(xs[i]).value))
  }

  function TextLeaf(py: Runtime, c: Rule, actual: string, caseSensitive: bool): Option<bool>
    requires c.Condition?
  {
    var folded := Fold(py, caseSensitive, actual);
    match (c.op, c.value)
    case (Like, Exact(s)) => Some(LikeMatches(py, s, actual, caseSensitive))
    case (NotLike, Exact(s)) => Some(!LikeMatches(py, s, actual, caseSensitive))
    case (In, Items(xs)) => Some(folded in FoldAll(py, caseSensitive, xs))
    case (NotIn, Items(xs)) => Some(folded !in FoldAll(py, caseSensitive, xs))
    case (Eq, Exact(s)) => Some(folded == Fold(py, caseSensitive, s))
    case (Ne, Exact(s)) => Some(folded != Fold(py, caseSensitive, s))
    case _ => None
  }
}
