/** The audit text of a rule, and its unique readability. */
module RuleText {
  import opened Sequences
  import opened Text
  import opened Rules
  import opened RuleLaws

  // ------------------------------------------------------------------ JSON strings

  function HexDigit(n: nat): char
    requires n < 16
  {
    "0123456789abcdef"[n]
  }

  /** One character of `json.dumps(text, ensure_ascii=False)`. */
  function Escaped(c: char): string {
    if c == '"' then "\\\""
    else if c == '\\' then "\\\\"
    else if c == '\n' then "\\n"
    else if c == '\r' then "\\r"
    else if c == '\t' then "\\t"
    else if c == '\U{0c}' then "\\f"
    else if c == '\U{08}' then "\\b"
    else if c < ' ' then "\\u00" + [HexDigit(c as int / 16), HexDigit(c as int % 16)]
    else [c]
  }

  function EscapedAll(s: string): string {
    if s == "" then "" else Escaped(s[0]) + EscapedAll(s[1..])
  }

  /** `json.dumps(s, ensure_ascii=False)`. */
  function Quote(s: string): string {
    "\"" + EscapedAll(s) + "\""
  }

  function HexValue(c: char): nat {
    if '0' <= c <= '9' then c as int - '0' as int
    else if 'a' <= c <= 'f' then c as int - 'a' as int + 10
    else 0
  }

  /** A JSON reader for one character of a string and for a whole one, with what is left over. */
  function ReadChar(t: string): Option<(char, string)> {
    if t == "" || t[0] == '"' then None
    else if t[0] != '\\' then Some((t[0], t[1..]))
    else if |t| < 2 then None
    else
      match t[1]
      case 'n' => Some(('\n', t[2..]))
      case 'r' => Some(('\r', t[2..]))
      case 't' => Some(('\t', t[2..]))
      case 'f' => Some(('\U{0c}', t[2..]))
      case 'b' => Some(('\U{08}', t[2..]))
      case 'u' =>
        if |t| < 6 then None
        else
          var code := HexValue(t[4]) * 16 + HexValue(t[5]);
          Some((code as char, t[6..]))
      case c => Some((c, t[2..]))
  }

  function ReadString(t: string): Option<(string, string)>
    decreases |t|
  {
    if t != "" && t[0] == '"' then Some(("", t[1..]))
    else
      match ReadChar(t)
      case None => None
      case Some((c, rest)) =>
        if |rest| >= |t| then None
        else
          match ReadString(rest)
          case None => None
          case Some((s, left)) => Some(([c] + s, left))
  }

  lemma ReadEscaped(c: char, x: string)
    ensures ReadChar(Escaped(c) + x) == Some((c, x))
  {
    var t := Escaped(c) + x;
    assert t[|Escaped(c)|..] == x;
    if c < ' ' {
      HexRoundTrip(c as int / 16);
      HexRoundTrip(c as int % 16);
    }
  }

  lemma HexRoundTrip(n: nat)
    requires n < 16
    ensures HexValue(HexDigit(n)) == n
  {}

  /** Quoting can be undone whatever follows the closing quote. */
  lemma {:induction false} QuoteRoundTrip(s: string, x: string)
    ensures ReadString(EscapedAll(s) + "\"" + x) == Some((s, x))
  {
    if s == "" {
      ReadEnd(x);
      assert EscapedAll(s) + "\"" + x == "\"" + x;
    } else {
      var rest := EscapedAll(s[1..]) + "\"" + x;
      QuoteRoundTrip(s[1..], x);
      ReadOn(s[0], rest, s[1..], x);
      assert EscapedAll(s) + "\"" + x == Escaped(s[0]) + rest;
      assert s == [s[0]] + s[1..];
    }
  }

  lemma ReadEnd(x: string)
    ensures ReadString("\"" + x) == Some(("", x))
  {
    assert ("\"" + x)[1..] == x;
  }

  lemma ReadOn(c: char, rest: string, s: string, x: string)
    requires ReadString(rest) == Some((s, x))
    ensures ReadString(Escaped(c) + rest) == Some(([c] + s, x))
  {
    ReadEscaped(c, rest);
    assert (Escaped(c) + rest)[0] == Escaped(c)[0] != '"';
  }

  lemma QuoteOpens(e: string, x: string)
    ensures ("\"" + e + "\"" + x)[1..] == e + "\"" + x
  {}

  lemma QuoteReads(s: string, text: string, x: string)
    requires text == Quote(s) + x
    ensures text != "" && ReadString(text[1..]) == Some((s, x))
  {
    QuoteRoundTrip(s, x);
    QuoteOpens(EscapedAll(s), x);
  }

  lemma QuoteIsSelfDelimiting(s: string, x: string, t: string, y: string)
    requires Quote(s) + x == Quote(t) + y
    ensures s == t && x == y
  {
    QuoteReads(s, Quote(s) + x, x);
    QuoteReads(t, Quote(s) + x, y);
  }

  // ---------------------------------------------------------------------- rendering

  predicate Negated(op: Operator) {
    op.NotLike? || op.NotIn? || op.NotExists?
  }

  /** The operator's last word; the negated ones put NOT in front of it. */
  function LastWord(op: Operator): string {
    match op
    case NotLike => "LIKE"
    case NotIn => "IN"
    case NotExists => "EXISTS"
    case _ => Token(op)
  }

  function Spoken(op: Operator): string {
    if Negated(op) then "NOT " + LastWord(op) else LastWord(op)
  }

  function QuoteAll(xs: seq<string>): seq<string> {
    seq(|xs|, i requires 0 <= i < |xs| => Quote(xs[i]))
  }

  function RenderValue(py: Runtime, value: Value): string {
    match value
    case Items(xs) => "(" + Join(QuoteAll(xs), ", ") + ")"
    case Exact(s) => Quote(s)
    case Bound(n) => py.show(n)
    case Absent => "None"
  }

  /** What follows the operator. */
  function Tail(py: Runtime, field: string, op: Operator, value: Value): string {
    if AsksExistence(op) then
      if field == COLLECTION_FIELD then "(" + (if value.Exact? then Quote(value.s) else "null") + ")" else ""
    else " " + RenderValue(py, value)
  }

  function Separator(c: Connective): string {
    if c == And then " AND " else " OR "
  }

  /** `render_rule_dsl`. */
  function Render(py: Runtime, r: Rule): string
    decreases r, 1
  {
    match r
    case Group(c, children) => "(" + RenderAll(py, children, Separator(c)) + ")"
    case Condition(field, op, value) => "{" + field + "} " + Spoken(op) + Tail(py, field, op, value)
  }

  function RenderAll(py: Runtime, rules: seq<Rule>, separator: string): string
    decreases rules, 0
  {
    if rules == [] then ""
    else if |rules| == 1 then Render(py, rules[0])
    else Render(py, rules[0]) + separator + RenderAll(py, rules[1..], separator)
  }

  // -------------------------------------------------------------- unique readability

  /** The rule with every one-child group read as AND: what its audit text can tell. */
  function Canon(r: Rule): Rule {
    match r
    case Group(c, children) =>
      Group(if |children| == 1 then And else c,
            seq(|children|, i requires 0 <= i < |children| => Canon(children[i])))
    case Condition(_, _, _) => r
  }

  /** What can follow a rule inside a larger audit text. */
  predicate Stop(x: string) {
    x == "" || x[0] == ' ' || x[0] == ')'
  }

  lemma Assoc3(a: string, b: string, c: string, x: string)
    ensures a + b + c + x == a + (b + (c + x))
  {}

  /** Two texts that agree split at the first character outside `inside` in the same way. */
  lemma {:induction false} SplitsOnce(inside: char -> bool, u: string, s: string, v: string, t: string)
    requires u + s == v + t
    requires (forall i | 0 <= i < |u| :: inside(u[i])) && (forall i | 0 <= i < |v| :: inside(v[i]))
    requires (s == "" || !inside(s[0])) && (t == "" || !inside(t[0]))
    ensures u == v && s == t
  {
    assert (u == "" ==> u + s == s) && (u != "" ==> (u + s)[0] == u[0]);
    assert (v == "" ==> v + t == t) && (v != "" ==> (v + t)[0] == v[0]);
    if u != "" && v != "" {
      assert (u + s)[1..] == u[1..] + s && (v + t)[1..] == v[1..] + t;
      SplitsOnce(inside, u[1..], s, v[1..], t);
      assert u == [u[0]] + u[1..] && v == [v[0]] + v[1..];
    }
  }

  lemma FieldsHaveNoBrace(field: string)
    requires field in ALLOWED_FIELDS
    ensures forall i | 0 <= i < |field| :: field[i] != '}'
  {}

  lemma FieldReads(f: string, s: string, g: string, t: string)
    requires f in ALLOWED_FIELDS && g in ALLOWED_FIELDS
    requires "{" + f + "} " + s == "{" + g + "} " + t
    ensures f == g && s == t
  {
    FieldsHaveNoBrace(f);
    FieldsHaveNoBrace(g);
    Assoc3("{", f, "} ", s);
    Assoc3("{", g, "} ", t);
    Cancel("{", f + ("} " + s), g + ("} " + t));
    SplitsOnce(c => c != '}', f, "} " + s, g, "} " + t);
    Cancel("} ", s, t);
  }

  predicate WordChar(c: char) {
    c != ' ' && c != '(' && c != ')'
  }

  function FirstWord(op: Operator): string {
    if Negated(op) then "NOT" else LastWord(op)
  }

  lemma WordsOfOperators(op: Operator)
    ensures forall i | 0 <= i < |LastWord(op)| :: WordChar(LastWord(op)[i])
    ensures forall i | 0 <= i < |FirstWord(op)| :: WordChar(FirstWord(op)[i])
  {}

  lemma NotMeansNegated(op: Operator)
    ensures Negated(op) <==> FirstWord(op) == "NOT"
  {
    assert |"NOT"| == 3;
  }

  lemma WordsDetermineOperator(a: Operator, b: Operator)
    requires FirstWord(a) == FirstWord(b) && (Negated(a) ==> LastWord(a) == LastWord(b))
    ensures a == b
  {
    NotMeansNegated(a);
    NotMeansNegated(b);
    if !Negated(a) {
      TokenReads(a);
      TokenReads(b);
    }
  }

  function AfterFirstWord(op: Operator, s: string): string {
    if Negated(op) then " " + LastWord(op) + s else s
  }

  lemma SpokenSplits(op: Operator, s: string)
    ensures Spoken(op) + s == FirstWord(op) + AfterFirstWord(op, s)
  {
    if Negated(op) {
      assert "NOT " == "NOT" + " ";
      Assoc("NOT ", LastWord(op), s);
      Assoc("NOT", " ", LastWord(op) + s);
      Assoc(" ", LastWord(op), s);
    }
  }

  lemma FirstWordReads(a: Operator, s: string, b: Operator, t: string)
    requires Spoken(a) + s == Spoken(b) + t
    requires (s == "" || !WordChar(s[0])) && (t == "" || !WordChar(t[0]))
    ensures FirstWord(a) == FirstWord(b) && AfterFirstWord(a, s) == AfterFirstWord(b, t)
  {
    WordsOfOperators(a);
    WordsOfOperators(b);
    SpokenSplits(a, s);
    SpokenSplits(b, t);
    SplitsOnce(WordChar, FirstWord(a), AfterFirstWord(a, s), FirstWord(b), AfterFirstWord(b, t));
  }

  lemma LastWordReads(a: Operator, s: string, b: Operator, t: string)
    requires " " + LastWord(a) + s == " " + LastWord(b) + t
    requires (s == "" || !WordChar(s[0])) && (t == "" || !WordChar(t[0]))
    ensures LastWord(a) == LastWord(b) && s == t
  {
    WordsOfOperators(a);
    WordsOfOperators(b);
    Assoc(" ", LastWord(a), s);
    Assoc(" ", LastWord(b), t);
    Cancel(" ", LastWord(a) + s, LastWord(b) + t);
    SplitsOnce(WordChar, LastWord(a), s, LastWord(b), t);
  }

  lemma OperatorReads(a: Operator, s: string, b: Operator, t: string)
    requires Spoken(a) + s == Spoken(b) + t
    requires (s == "" || !WordChar(s[0])) && (t == "" || !WordChar(t[0]))
    ensures a == b && s == t
  {
    FirstWordReads(a, s, b, t);
    NotMeansNegated(a);
    NotMeansNegated(b);
    if Negated(a) {
      LastWordReads(a, s, b, t);
    }
    WordsDetermineOperator(a, b);
  }

  // ------------------------------------------------------------------- values

  lemma {:induction false} ItemsRead(xs: seq<string>, x: string, ys: seq<string>, y: string)
    requires xs != [] && ys != []
    requires Join(QuoteAll(xs), ", ") + (")" + x) == Join(QuoteAll(ys), ", ") + (")" + y)
    ensures xs == ys && x == y
  {
    var u, v := AfterItem(xs, x), AfterItem(ys, y);
    ItemsUnfold(xs, x);
    ItemsUnfold(ys, y);
    QuoteIsSelfDelimiting(xs[0], u, ys[0], v);
    if |xs| == 1 {
      assert u[0] == ')' && |ys| == 1;
      Cancel(")", x, y);
    } else {
      assert u[0] == ',' && |ys| > 1;
      Cancel(", ", Join(QuoteAll(xs[1..]), ", ") + (")" + x), Join(QuoteAll(ys[1..]), ", ") + (")" + y));
      ItemsRead(xs[1..], x, ys[1..], y);
    }
    assert xs == [xs[0]] + xs[1..] && ys == [ys[0]] + ys[1..];
  }

  function AfterItem(xs: seq<string>, x: string): string
    requires xs != []
  {
    if |xs| == 1 then ")" + x else ", " + (Join(QuoteAll(xs[1..]), ", ") + (")" + x))
  }

  lemma ItemsUnfold(xs: seq<string>, x: string)
    requires xs != []
    ensures Join(QuoteAll(xs), ", ") + (")" + x) == Quote(xs[0]) + AfterItem(xs, x)
  {
    assert QuoteAll(xs)[1..] == QuoteAll(xs[1..]);
    if |xs| > 1 {
      Assoc3(Quote(xs[0]), ", ", Join(QuoteAll(xs[1..]), ", "), ")" + x);
    }
  }

  /** The value and what follows it, for a fixed field and operator. */
  lemma TailReads(py: Runtime, field: string, op: Operator, v: Value, x: string, w: Value, y: string)
    requires Lawful(py) && Accepts(RoleOf(field), op) && Stop(x) && Stop(y)
    requires ShapedValue(py, RoleOf(field), op, v) && ShapedValue(py, RoleOf(field), op, w)
    requires Tail(py, field, op, v) + x == Tail(py, field, op, w) + y
    ensures v == w && x == y
  {
    if !AsksExistence(op) {
      Assoc(" ", RenderValue(py, v), x);
      Assoc(" ", RenderValue(py, w), y);
      Cancel(" ", RenderValue(py, v) + x, RenderValue(py, w) + y);
      ValueReads(py, v, x, w, y);
    } else if field == COLLECTION_FIELD {
      Assoc3("(", Quote(v.s), ")", x);
      Assoc3("(", Quote(w.s), ")", y);
      Cancel("(", Quote(v.s) + (")" + x), Quote(w.s) + (")" + y));
      QuoteIsSelfDelimiting(v.s, ")" + x, w.s, ")" + y);
      Cancel(")", x, y);
    } else {
      Cancel("", x, y);
    }
  }

  lemma ValueReads(py: Runtime, v: Value, x: string, w: Value, y: string)
    requires Lawful(py) && Stop(x) && Stop(y)
    requires RenderValue(py, v) + x == RenderValue(py, w) + y
    requires (v.Exact? && w.Exact?) || (v.Bound? && w.Bound?) || (v.Items? && w.Items? && v.xs != [] && w.xs != [])
    ensures v == w && x == y
  {
    match v
    case Exact(s) => QuoteIsSelfDelimiting(s, x, w.s, y);
    case Bound(n) =>
      SplitsOnce(NumeralChar, py.show(n), x, py.show(w.n), y);
      assert py.parse(py.show(n)) == Some(n) && py.parse(py.show(w.n)) == Some(w.n);
    case Items(xs) =>
      Assoc3("(", Join(QuoteAll(xs), ", "), ")", x);
      Assoc3("(", Join(QuoteAll(w.xs), ", "), ")", y);
      Cancel("(", Join(QuoteAll(xs), ", ") + (")" + x), Join(QuoteAll(w.xs), ", ") + (")" + y));
      ItemsRead(xs, x, w.xs, y);
  }

  // -------------------------------------------------------------------- whole rules

  /** A rule's text can be cut off the front of a longer text in one way only. */
  lemma {:induction false} RuleReads(py: Runtime, a: Rule, x: string, b: Rule, y: string)
    requires Lawful(py) && Shaped(py, a) && Shaped(py, b) && Stop(x) && Stop(y)
    requires Render(py, a) + x == Render(py, b) + y
    ensures Canon(a) == Canon(b) && x == y
    decreases a, 1
  {
    RenderStarts(py, a, x);
    RenderStarts(py, b, y);
    if a.Group? {
      var s := RenderAll(py, a.children, Separator(a.connective));
      var t := RenderAll(py, b.children, Separator(b.connective));
      Assoc3("(", s, ")", x);
      Assoc3("(", t, ")", y);
      Cancel("(", s + (")" + x), t + (")" + y));
      ChildrenRead(py, a.children, a.connective, x, b.children, b.connective, y);
    } else {
      ConditionReads(py, a, x, b, y);
    }
  }

  lemma RenderStarts(py: Runtime, r: Rule, x: string)
    ensures Render(py, r) != "" && (Render(py, r) + x)[0] == if r.Group? then '(' else '{'
  {}

  lemma ConditionReads(py: Runtime, a: Rule, x: string, b: Rule, y: string)
    requires Lawful(py) && Shaped(py, a) && Shaped(py, b) && Stop(x) && Stop(y)
    requires a.Condition? && b.Condition? && Render(py, a) + x == Render(py, b) + y
    ensures a == b && x == y
  {
    var s, t := Tail(py, a.field, a.op, a.value) + x, Tail(py, b.field, b.op, b.value) + y;
    ConditionSplits(py, a, x);
    ConditionSplits(py, b, y);
    FieldReads(a.field, Spoken(a.op) + s, b.field, Spoken(b.op) + t);
    TailIsOutsideWord(py, a, x);
    TailIsOutsideWord(py, b, y);
    OperatorReads(a.op, s, b.op, t);
    TailReads(py, a.field, a.op, a.value, x, b.value, y);
  }

  lemma ConditionSplits(py: Runtime, c: Rule, x: string)
    requires c.Condition?
    ensures Render(py, c) + x == "{" + c.field + "} " + (Spoken(c.op) + (Tail(py, c.field, c.op, c.value) + x))
  {
    Assoc3("{" + c.field + "} ", Spoken(c.op), Tail(py, c.field, c.op, c.value), x);
  }

  lemma TailIsOutsideWord(py: Runtime, c: Rule, x: string)
    requires c.Condition? && Stop(x)
    ensures var s := Tail(py, c.field, c.op, c.value) + x; s == "" || !WordChar(s[0])
  {}

  lemma {:induction false} ChildrenRead(py: Runtime, xs: seq<Rule>, c: Connective, x: string,
                                        ys: seq<Rule>, d: Connective, y: string)
    requires Lawful(py) && xs != [] && ys != []
    requires (forall i | 0 <= i < |xs| :: Shaped(py, xs[i])) && (forall i | 0 <= i < |ys| :: Shaped(py, ys[i]))
    requires RenderAll(py, xs, Separator(c)) + (")" + x) == RenderAll(py, ys, Separator(d)) + (")" + y)
    ensures |xs| == |ys| && (forall i | 0 <= i < |xs| :: Canon(xs[i]) == Canon(ys[i]))
    ensures (|xs| > 1 ==> c == d) && x == y
    decreases xs, 0
  {
    var u, v := AfterChild(py, xs, c, x), AfterChild(py, ys, d, y);
    ChildrenUnfold(py, xs, c, x);
    ChildrenUnfold(py, ys, d, y);
    RuleReads(py, xs[0], u, ys[0], v);
    if |xs| == 1 {
      assert u[0] == ')' && |ys| == 1;
      Cancel(")", x, y);
    } else {
      assert u[0] == ' ' && |ys| > 1;
      assert u[1] == Separator(c)[1] && v[1] == Separator(d)[1];
      assert c == d;
      Cancel(Separator(c), RenderAll(py, xs[1..], Separator(c)) + (")" + x),
             RenderAll(py, ys[1..], Separator(c)) + (")" + y));
      ChildrenRead(py, xs[1..], c, x, ys[1..], c, y);
      forall i | 1 <= i < |xs|
        ensures Canon(xs[i]) == Canon(ys[i])
      {
        assert xs[i] == xs[1..][i - 1] && ys[i] == ys[1..][i - 1];
      }
    }
  }

  function AfterChild(py: Runtime, rules: seq<Rule>, c: Connective, x: string): (rest: string)
    requires rules != []
    ensures Stop(rest)
  {
    if |rules| == 1 then ")" + x
    else Separator(c) + (RenderAll(py, rules[1..], Separator(c)) + (")" + x))
  }

  lemma ChildrenUnfold(py: Runtime, rules: seq<Rule>, c: Connective, x: string)
    requires rules != []
    ensures RenderAll(py, rules, Separator(c)) + (")" + x) == Render(py, rules[0]) + AfterChild(py, rules, c, x)
  {
    if |rules| > 1 {
      Assoc3(Render(py, rules[0]), Separator(c), RenderAll(py, rules[1..], Separator(c)), ")" + x);
    }
  }

  lemma {:induction false} CanonRendersAlike(py: Runtime, r: Rule)
    ensures Render(py, Canon(r)) == Render(py, r)
    decreases r, 1
  {
    if r.Group? {
      var c := if |r.children| == 1 then And else r.connective;
      CanonChildrenRenderAlike(py, r.children, Canon(r).children, Separator(c));
      if |r.children| == 1 {
        assert RenderAll(py, r.children, Separator(c)) == RenderAll(py, r.children, Separator(r.connective));
      }
    }
  }

  lemma {:induction false} CanonChildrenRenderAlike(py: Runtime, rules: seq<Rule>, canons: seq<Rule>, separator: string)
    requires |rules| == |canons| && forall i | 0 <= i < |rules| :: canons[i] == Canon(rules[i])
    ensures RenderAll(py, canons, separator) == RenderAll(py, rules, separator)
    decreases rules, 0
  {
    if rules != [] {
      CanonRendersAlike(py, rules[0]);
      CanonChildrenRenderAlike(py, rules[1..], canons[1..], separator);
    }
  }

  /** The audit text tells everything about a validated rule but the connective of a one-child
      group: two rules print alike exactly when they differ in nothing else. */
  lemma AuditTextDeterminesRule(py: Runtime, a: Rule, b: Rule)
    requires Lawful(py) && Shaped(py, a) && Shaped(py, b)
    ensures Render(py, a) == Render(py, b) <==> Canon(a) == Canon(b)
  {
    if Render(py, a) == Render(py, b) {
      assert Render(py, a) + "" == Render(py, b) + "";
      RuleReads(py, a, "", b, "");
    }
    CanonRendersAlike(py, a);
    CanonRendersAlike(py, b);
  }
}
