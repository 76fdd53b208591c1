/** What each condition and group of a rule asks, told on the metadata of a work. */
module RuleReadings {
  import opened Text
  import opened Rules
  import opened RuleLaws
  import opened RuleEvaluation
  import Like

  // ------------------------------------------------------------------------------ tags

  const CUTS: set<char> := {',', '\n'}

  /** Replacing one separator by the other and splitting there cuts at both. */
  lemma CutAtBoth(s: string, piece: string)
    ensures piece in Split(ReplaceChar(s, '\n', ','), ',')
            <==> exists i: nat, j: nat :: Piece(s, CUTS, i, j) && piece == s[i..j]
  {
    var t := ReplaceChar(s, '\n', ',');
    SplitExactly(t, ',', piece);
    forall i: nat, j: nat
      ensures Piece(t, {','}, i, j) <==> Piece(s, CUTS, i, j)
      ensures Piece(s, CUTS, i, j) ==> t[i..j] == s[i..j]
    {
      SamePiece(s, t, i, j);
    }
  }

  lemma SamePiece(s: string, t: string, i: nat, j: nat)
    requires t == ReplaceChar(s, '\n', ',')
    ensures Piece(t, {','}, i, j) <==> Piece(s, CUTS, i, j)
    ensures Piece(s, CUTS, i, j) ==> t[i..j] == s[i..j]
  {
    assert forall k | 0 <= k < |s| :: t[k] in {','} <==> s[k] in CUTS;
  }

  lemma {:induction false} NonBlankExactly(pieces: seq<string>, name: string)
    ensures name in NonBlank(pieces) <==> name != "" && exists piece :: piece in pieces && Strip(piece) == name
  {
    if pieces != [] {
      NonBlankExactly(pieces[1..], name);
      assert pieces == [pieces[0]] + pieces[1..];
    }
  }

  /** The text between two cuts of one of the two tag fields, trimmed. */
  ghost predicate HasName(metadata: Metadata, name: string) {
    exists field, i: nat, j: nat ::
      && field in {"TagsRaw", "Tags"} && field in metadata
      && Piece(metadata[field], CUTS, i, j) && name == Strip(metadata[field][i..j])
  }

  lemma FieldNames(metadata: Metadata, field: string, name: string)
    ensures name in NonBlank(Split(ReplaceChar(Fetch(metadata, field), '\n', ','), ','))
            <==> && name != "" && field in metadata
                 && exists i: nat, j: nat :: Piece(metadata[field], CUTS, i, j) && name == Strip(metadata[field][i..j])
  {
    var text := Fetch(metadata, field);
    var pieces := Split(ReplaceChar(text, '\n', ','), ',');
    NonBlankExactly(pieces, name);
    if piece :| piece in pieces && Strip(piece) == name {
      CutAtBoth(text, piece);
    }
    if i: nat, j: nat :| Piece(text, CUTS, i, j) && name == Strip(text[i..j]) {
      CutAtBoth(text, text[i..j]);
    }
  }

  /** Two texts are one under the rule's case setting. */
  predicate Same(py: Runtime, caseSensitive: bool, a: string, b: string) {
    if caseSensitive then a == b else py.fold(a) == py.fold(b)
  }

  lemma TagsExactly(py: Runtime, metadata: Metadata, caseSensitive: bool, tag: string)
    ensures tag in Tags(py, metadata, caseSensitive)
            <==> exists name :: name != "" && HasName(metadata, name)
                                && tag == if caseSensitive then name else py.fold(name)
  {
    var raw := NonBlank(Split(ReplaceChar(Fetch(metadata, "TagsRaw"), '\n', ','), ','));
    var own := NonBlank(Split(ReplaceChar(Fetch(metadata, "Tags"), '\n', ','), ','));
    forall name
      ensures name in raw + own <==> name != "" && HasName(metadata, name)
    {
      FieldNames(metadata, "TagsRaw", name);
      FieldNames(metadata, "Tags", name);
    }
    if tag in Tags(py, metadata, caseSensitive) {
      var name :| name in raw + own && tag == Fold(py, caseSensitive, name);
    }
    if name :| name != "" && HasName(metadata, name) && tag == if caseSensitive then name else py.fold(name) {
      assert name in raw + own && tag == Fold(py, caseSensitive, name);
    }
  }

  /** A tag exists on a work exactly if one of the names between the commas and line feeds of its two tag
      fields, trimmed, is it: as it stands, or with both folded. */
  lemma TagExistsExactly(py: Runtime, value: string, metadata: Metadata, caseSensitive: bool)
    ensures Leaf(py, Condition("TAG", Exists, Exact(value)), metadata, caseSensitive)
            == Some(exists name :: name != "" && HasName(metadata, name) && Same(py, caseSensitive, name, value))
  {
    var tag := if caseSensitive then value else py.fold(value);
    TagsExactly(py, metadata, caseSensitive, tag);
    assert COLLECTION_FIELD == "TAG";
  }

  /** The pattern reads the text, both folded unless case matters. */
  predicate Reads(py: Runtime, caseSensitive: bool, pattern: string, text: string) {
    if caseSensitive then Like.Matches(pattern, text) else Like.Matches(py.fold(pattern), py.fold(text))
  }

  lemma LikeReads(py: Runtime, pattern: string, text: string, caseSensitive: bool)
    ensures LikeMatches(py, pattern, text, caseSensitive) <==> Reads(py, caseSensitive, pattern, text)
  {
    Like.CompilationPreservesMeaning(pattern, text);
    Like.CompilationPreservesMeaning(py.fold(pattern), py.fold(text));
  }

  /** LIKE on TAG asks for a name that the pattern reads; names are folded when they are collected, and
      once more with the pattern. */
  lemma TagLikeExactly(py: Runtime, pattern: string, metadata: Metadata, caseSensitive: bool)
    ensures Leaf(py, Condition("TAG", Operator.Like, Exact(pattern)), metadata, caseSensitive)
            == Some(exists name :: && name != "" && HasName(metadata, name)
                                   && Reads(py, caseSensitive, pattern, if caseSensitive then name else py.fold(name)))
  {
    var tags := Tags(py, metadata, caseSensitive);
    assert COLLECTION_FIELD == "TAG";
    if tag :| tag in tags && LikeMatches(py, pattern, tag, caseSensitive) {
      TagsExactly(py, metadata, caseSensitive, tag);
      LikeReads(py, pattern, tag, caseSensitive);
    }
    if name :| && name != "" && HasName(metadata, name)
               && Reads(py, caseSensitive, pattern, if caseSensitive then name else py.fold(name)) {
      var tag := if caseSensitive then name else py.fold(name);
      TagsExactly(py, metadata, caseSensitive, tag);
      LikeReads(py, pattern, tag, caseSensitive);
      assert tag in tags && LikeMatches(py, pattern, tag, caseSensitive);
    }
  }

  // ------------------------------------------------------------------------ plain fields

  /** What a work has in a field: its text without the blanks around it. */
  function ValueOf(metadata: Metadata, field: string): string {
    if field in metadata then Strip(metadata[field]) else ""
  }

  /** A text field exists if it is not blank, equals a value that is the same text, and is LIKE a pattern
      that reads it; a blank one does neither. */
  lemma TextFieldsRead(py: Runtime, field: string, value: string, metadata: Metadata, caseSensitive: bool)
    requires RoleOf(field) == Textual
    ensures var actual := ValueOf(metadata, field);
            && Leaf(py, Condition(field, Exists, Absent), metadata, caseSensitive) == Some(actual != "")
            && Leaf(py, Condition(field, Eq, Exact(value)), metadata, caseSensitive)
               == Some(actual != "" && Same(py, caseSensitive, actual, value))
            && Leaf(py, Condition(field, Operator.Like, Exact(value)), metadata, caseSensitive)
               == Some(actual != "" && Reads(py, caseSensitive, value, actual))
  {
    LikeReads(py, value, ValueOf(metadata, field), caseSensitive);
  }

  /** Above another number: not NaN, and the greater one where both are finite; infinity is above every
      other number, and every other number is above minus infinity. */
  predicate Above(a: Float, b: Float) {
    && !a.NaN? && !b.NaN? && a != b
    && (a == Infinite(false) || b == Infinite(true) || (a.Finite? && b.Finite? && a.units > b.units))
  }

  /** A numeric field is compared as the number its text is; a text that is none satisfies no comparison. */
  lemma NumericFieldsRead(py: Runtime, field: string, bound: Float, metadata: Metadata, caseSensitive: bool)
    requires field in {"Rating", "Pages"}
    ensures var number := if ValueOf(metadata, field) == "" then None else py.parse(ValueOf(metadata, field));
            && Leaf(py, Condition(field, Gt, Bound(bound)), metadata, caseSensitive)
               == Some(number.Some? && Above(number.value, bound))
            && Leaf(py, Condition(field, Lt, Bound(bound)), metadata, caseSensitive)
               == Some(number.Some? && Above(bound, number.value))
            && Leaf(py, Condition(field, Ge, Bound(bound)), metadata, caseSensitive)
               == Some(number.Some? && (Above(number.value, bound) || (number.value == bound && !bound.NaN?)))
            && Leaf(py, Condition(field, Le, Bound(bound)), metadata, caseSensitive)
               == Some(number.Some? && (Above(bound, number.value) || (number.value == bound && !bound.NaN?)))
  {}

  // ------------------------------------------------------------------------------ groups

  /** AND and OR of rules that all have a verdict: every child, and some child. */
  lemma GroupsRead(py: Runtime, children: seq<Rule>, metadata: Metadata, caseSensitive: bool)
    requires forall i | 0 <= i < |children| :: Meaning(py, children[i], metadata, caseSensitive).Some?
    ensures Meaning(py, Group(And, children), metadata, caseSensitive)
            == Some(forall i | 0 <= i < |children| :: Meaning(py, children[i], metadata, caseSensitive) == Some(true))
    ensures Meaning(py, Group(Or, children), metadata, caseSensitive)
            == Some(exists i | 0 <= i < |children| :: Meaning(py, children[i], metadata, caseSensitive) == Some(true))
  {
    var verdicts := Meanings(py, children, metadata, caseSensitive);
    assert forall i | 0 <= i < |children| :: verdicts[i] == Meaning(py, children[i], metadata, caseSensitive);
    if i :| 0 <= i < |children| && Meaning(py, children[i], metadata, caseSensitive) == Some(true) {
      assert verdicts[i] == Some(true);
    }
  }

  // ---------------------------------------------------------------- what validation stores

  /** The operators each field takes. */
  lemma OperatorsTaken(field: string, op: Operator)
    ensures Accepts(RoleOf(field), op) <==>
            op in if field in {"Rating", "Pages"} then {Exists, NotExists, Eq, Ne, In, NotIn, Gt, Ge, Lt, Le}
                  else if field == "TAG" then {Exists, NotExists, In, NotIn, Operator.Like, NotLike}
                  else {Exists, NotExists, Eq, Ne, In, NotIn, Operator.Like, NotLike}
  {}

  /** A bound is the number given, or the one that the text given is; a boolean counts as one or zero. */
  lemma BoundsAreRead(py: Runtime, op: Operator, role: Role, raw: Json)
    requires op in {Gt, Ge, Lt, Le}
    ensures ConditionValue(py, op, role, raw)
            == match raw
               case Num(n, _) => Ok(Bound(n))
               case Bool(b) => Ok(Bound(Finite(if b then ONE else 0)))
               case Str(s) => if py.parse(s).Some? then Ok(Bound(py.parse(s).value)) else Err
               case _ => Err
  {}

  /** An equality or a pattern is stored as the text given without the blanks around it; it must not be
      blank, and on a numeric field it must be a number. */
  lemma TextsAreTrimmed(py: Runtime, op: Operator, role: Role, s: string)
    requires op in {Eq, Ne, Operator.Like, NotLike}
    ensures ConditionValue(py, op, role, Str(s))
            == if Strip(s) == "" || (role == Numeric && py.parse(s).None?) then Err else Ok(Exact(Strip(s)))
  {}

  /** The texts of a list, trimmed, without the blank ones, in the order of the list. */
  lemma {:induction false} ListsAreTrimmed(py: Runtime, a: seq<Json>, b: seq<Json>, s: string)
    ensures CleanList(py, List(a + b)) == CleanList(py, List(a)) + CleanList(py, List(b))
    ensures CleanList(py, List([Str(s)])) == CleanList(py, Str(s)) == if Strip(s) == "" then [] else [Strip(s)]
    ensures CleanList(py, List([Null])) == []
    decreases a
  {
    OneTrimmed(py, s);
    if a == [] {
      assert a + b == b;
    } else {
      ListsAreTrimmed(py, a[1..], b, s);
      assert (a + b)[1..] == a[1..] + b;
    }
  }

  lemma OneTrimmed(py: Runtime, s: string)
    ensures CleanList(py, List([Str(s)])) == CleanList(py, Str(s))
    ensures CleanList(py, Str(s)) == if Strip(s) == "" then [] else [Strip(s)]
    ensures CleanList(py, List([Null])) == []
  {
    assert [Str(s)][1..] == [] && [Null][1..] == [];
    assert CleanItems(py, []) == [];
  }

  /** A membership test needs a list with something in it, all numbers on a numeric field, and an existence
      test one tag, or nothing on another field. */
  lemma ListsAreStored(py: Runtime, op: Operator, role: Role, raw: Json)
    requires op in {In, NotIn, Exists, NotExists}
    ensures var xs := CleanList(py, raw);
            ConditionValue(py, op, role, raw)
            == if op in {In, NotIn} then
                 if xs == [] || (role == Numeric && !forall i | 0 <= i < |xs| :: py.parse(xs[i]).Some?) then Err
                 else Ok(Items(xs))
               else if role == Collection then if |xs| == 1 then Ok(Exact(xs[0])) else Err
               else if raw in {Null, Str("")} || xs == [] then Ok(Absent) else Err
  {}
}
