/** How the operators of the rule language hang together, whatever the work. */
module RuleOperators {
  import opened Text
  import opened Rules
  import opened RuleLaws

  function Answer(py: Runtime, field: string, op: Operator, value: Value,
                   metadata: Metadata, caseSensitive: bool): Option<bool>
  {
    Leaf(py, Condition(field, op, value), metadata, caseSensitive)
  }

  /** On a numeric field a work is below, at or above a bound, in exactly one way unless one of the two
      is no number or the field is blank; `>=` and `<=` are the unions, and `=` reads the printed bound. */
  lemma ComparisonsAreAnOrder(py: Runtime, field: string, bound: Float, metadata: Metadata, caseSensitive: bool)
    requires Lawful(py) && field in NUMERIC_FIELDS
    ensures var below := Answer(py, field, Lt, Bound(bound), metadata, caseSensitive);
            var above := Answer(py, field, Gt, Bound(bound), metadata, caseSensitive);
            var at := Answer(py, field, Eq, Exact(py.show(bound)), metadata, caseSensitive);
            var actual := py.parse(Strip(Fetch(metadata, field)));
            && below.Some? && above.Some? && at.Some?
            && !(below.value && above.value) && !(below.value && at.value) && !(at.value && above.value)
            && Answer(py, field, Ge, Bound(bound), metadata, caseSensitive) == Some(above.value || at.value)
            && Answer(py, field, Le, Bound(bound), metadata, caseSensitive) == Some(below.value || at.value)
            && (below.value || at.value || above.value
                <==> Strip(Fetch(metadata, field)) != "" && actual.Some? && !actual.value.NaN? && !bound.NaN?)
  {
    assert field != COLLECTION_FIELD;
    assert py.parse(py.show(bound)) == Some(bound);
  }

  /** A higher bound is harder to exceed. */
  lemma ComparisonsAreMonotone(py: Runtime, field: string, low: Float, high: Float, metadata: Metadata,
                               caseSensitive: bool)
    requires field in NUMERIC_FIELDS && FloatLess(low, high)
    ensures Answer(py, field, Gt, Bound(high), metadata, caseSensitive) == Some(true)
            ==> Answer(py, field, Gt, Bound(low), metadata, caseSensitive) == Some(true)
    ensures Answer(py, field, Lt, Bound(low), metadata, caseSensitive) == Some(true)
            ==> Answer(py, field, Lt, Bound(high), metadata, caseSensitive) == Some(true)
  {
    assert field != COLLECTION_FIELD;
  }

  /** IN says yes exactly if `=` does for one of the values; on TAG, exactly if one of the tags exists. */
  lemma MembershipIsAnyEquality(py: Runtime, field: string, xs: seq<string>, metadata: Metadata, caseSensitive: bool)
    requires Shaped(py, Condition(field, In, Items(xs)))
    ensures var one := if field == COLLECTION_FIELD then Exists else Eq;
            Answer(py, field, In, Items(xs), metadata, caseSensitive)
            == Some(exists i ::
                      0 <= i < |xs| && Answer(py, field, one, Exact(xs[i]), metadata, caseSensitive) == Some(true))
  {
    if field == COLLECTION_FIELD {
      TagMembership(py, xs, Tags(py, metadata, caseSensitive), caseSensitive);
    } else if Strip(Fetch(metadata, field)) != "" {
      if field in NUMERIC_FIELDS {
        NumericMembership(py, field, xs, Strip(Fetch(metadata, field)));
      } else {
        TextMembership(py, field, xs, Strip(Fetch(metadata, field)), caseSensitive);
      }
    }
  }

  lemma TagMembership(py: Runtime, xs: seq<string>, tags: set<string>, caseSensitive: bool)
    ensures FoldAll(py, caseSensitive, xs) * tags != {}
            <==> exists i :: 0 <= i < |xs| && Fold(py, caseSensitive, xs[i]) in tags
  {
    if tag :| tag in FoldAll(py, caseSensitive, xs) * tags {
      var x :| x in xs && Fold(py, caseSensitive, x) == tag;
    }
    if i :| 0 <= i < |xs| && Fold(py, caseSensitive, xs[i]) in tags {
      assert Fold(py, caseSensitive, xs[i]) in FoldAll(py, caseSensitive, xs) * tags;
    }
  }

  lemma TextMembership(py: Runtime, field: string, xs: seq<string>, actual: string, caseSensitive: bool)
    ensures TextLeaf(py, Condition(field, In, Items(xs)), actual, caseSensitive)
            == Some(exists i :: 0 <= i < |xs| &&
                      TextLeaf(py, Condition(field, Eq, Exact(xs[i])), actual, caseSensitive) == Some(true))
  {
    var folded := Fold(py, caseSensitive, actual);
    if folded in FoldAll(py, caseSensitive, xs) {
      var x :| x in xs && Fold(py, caseSensitive, x) == folded;
      var i :| 0 <= i < |xs| && xs[i] == x;
      assert TextLeaf(py, Condition(field, Eq, Exact(xs[i])), actual, caseSensitive) == Some(true);
    }
    if i :| 0 <= i < |xs| && TextLeaf(py, Condition(field, Eq, Exact(xs[i])), actual, caseSensitive) == Some(true) {
      assert xs[i] in xs;
    }
  }

  lemma NumericMembership(py: Runtime, field: string, xs: seq<string>, actual: string)
    requires forall i | 0 <= i < |xs| :: py.parse(xs[i]).Some?
    ensures NumericLeaf(py, Condition(field, In, Items(xs)), actual)
            == Some(exists i ::
                      0 <= i < |xs| && NumericLeaf(py, Condition(field, Eq, Exact(xs[i])), actual) == Some(true))
  {
    var number := py.parse(actual);
    if number.Some? {
      if i :| 0 <= i < |xs| && FloatEq(number.value, py.parse(xs[i]).value) {
        assert NumericLeaf(py, Condition(field, Eq, Exact(xs[i])), actual) == Some(true);
      }
    }
  }

  predicate HasNoWildcard(pattern: string) {
    forall c | c in pattern :: c !in {'%', '_', '['}
  }

  lemma {:induction false} PlainPatternMatchesItself(pattern: string, text: string)
    requires HasNoWildcard(pattern)
    ensures Like.Matches(pattern, text) <==> pattern == text
    decreases |pattern|
  {
    if pattern != "" {
      assert pattern[0] in pattern;
      assert forall c | c in pattern[1..] :: c in pattern;
      if text != "" {
        PlainPatternMatchesItself(pattern[1..], text[1..]);
        assert pattern == [pattern[0]] + pattern[1..] && text == [text[0]] + text[1..];
      }
    }
  }

  /** LIKE on a text field is equality for a value that holds no wildcard once it is folded. */
  lemma PlainLikeIsEquality(py: Runtime, field: string, value: string, metadata: Metadata, caseSensitive: bool)
    requires RoleOf(field) == Textual && HasNoWildcard(Fold(py, caseSensitive, value))
    ensures Answer(py, field, Operator.Like, Exact(value), metadata, caseSensitive)
            == Answer(py, field, Eq, Exact(value), metadata, caseSensitive)
  {
    var actual := Strip(Fetch(metadata, field));
    var pattern, text := Fold(py, caseSensitive, value), Fold(py, caseSensitive, actual);
    Like.CompilationPreservesMeaning(pattern, text);
    PlainPatternMatchesItself(pattern, text);
  }
}
