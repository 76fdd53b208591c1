/** LIKE patterns, compiled to regular-expression text by an index loop. */
module Like {
  import opened Text

  /** The fragment of regular expressions that LIKE compiles to. */
  datatype Part = AnyRun | AnyOne | Literal(c: char)

  /** What `.` accepts without the DOTALL flag. */
  predicate Dot(c: char) {
    c != '\n'
  }

  predicate PieceMatches(part: Part, piece: string) {
    match part
    case AnyRun => forall i | 0 <= i < |piece| :: Dot(piece[i])
    case AnyOne => |piece| == 1 && Dot(piece[0])
    case Literal(c) => piece == [c]
  }

  /** `re.fullmatch` on a concatenation of parts: the text splits into one piece per part. */
  predicate FullMatch(parts: seq<Part>, text: string)
  {
    if parts == [] then text == ""
    else exists k | 0 <= k <= |text| :: PieceMatches(parts[0], text[..k]) && FullMatch(parts[1..], text[k..])
  }

  /** The first part takes the first `k` characters and the other parts take the rest. */
  predicate SplitsAt(parts: seq<Part>, text: string, k: nat)
    requires parts != [] && k <= |text|
  {
    PieceMatches(parts[0], text[..k]) && FullMatch(parts[1..], text[k..])
  }

  lemma SplitExists(parts: seq<Part>, text: string) returns (k: nat)
    requires parts != [] && FullMatch(parts, text)
    ensures k <= |text| && SplitsAt(parts, text, k)
  {
    k :| 0 <= k <= |text| && PieceMatches(parts[0], text[..k]) && FullMatch(parts[1..], text[k..]);
  }

  lemma SplitSuffices(parts: seq<Part>, text: string, k: nat)
    requires parts != [] && k <= |text| && SplitsAt(parts, text, k)
    ensures FullMatch(parts, text)
  {}

  // ------------------------------------------------------------------ the compiler

  predicate Wildcard(c: char) {
    c == '%' || c == '_'
  }

  /** `[%]` or `[_]` at the front. */
  predicate Bracketed(pattern: string) {
    |pattern| > 2 && pattern[0] == '[' && Wildcard(pattern[1]) && pattern[2] == ']'
  }

  /** What one pass of the compiling loop takes from the front of the pattern, and how much of it. */
  function Head(pattern: string): (Part, nat)
    requires pattern != ""
  {
    if pattern[0] == '%' then (AnyRun, 1)
    else if pattern[0] == '_' then (AnyOne, 1)
    else if Bracketed(pattern) then (Literal(pattern[1]), 3)
    else (Literal(pattern[0]), 1)
  }

  function Compiled(pattern: string): seq<Part> {
    if pattern == "" then []
    else [Head(pattern).0] + Compiled(pattern[Head(pattern).1..])
  }

  const SPECIAL := "()[]{}?*+-|^$\\.&~# \t\n\r\U{0b}\U{0c}"

  /** `re.escape` of one character. */
  function Escape(c: char): string {
    if c in SPECIAL then ['\\', c] else [c]
  }

  function PartText(part: Part): string {
    match part
    case AnyRun => ".*"
    case AnyOne => "."
    case Literal(c) => Escape(c)
  }

  /** How the regular-expression engine reads text of this fragment; None for any other construct. */
  function Parse(regex: string): Option<seq<Part>> {
    if regex == "" then Some([])
    else if |regex| >= 2 && regex[0] == '\\' && regex[1] in SPECIAL then
      Prepend(Literal(regex[1]), Parse(regex[2..]))
    else if |regex| >= 2 && regex[0] == '.' && regex[1] == '*' then
      Prepend(AnyRun, Parse(regex[2..]))
    else if regex[0] == '.' then Prepend(AnyOne, Parse(regex[1..]))
    else if regex[0] in SPECIAL then None
    else Prepend(Literal(regex[0]), Parse(regex[1..]))
  }

  function Prepend(part: Part, rest: Option<seq<Part>>): Option<seq<Part>> {
    if rest.Some? then Some([part] + rest.value) else None
  }

  function Concat(texts: seq<string>): string {
    if texts == [] then "" else texts[0] + Concat(texts[1..])
  }

  lemma ConcatSnoc(texts: seq<string>, last: string)
    ensures Concat(texts + [last]) == Concat(texts) + last
  {
    if texts == [] {
      assert Concat([last]) == last + Concat([]);
    } else {
      ConcatSnoc(texts[1..], last);
      assert (texts + [last])[1..] == texts[1..] + [last];
    }
  }

  /** The index loop of `_like_pattern`. The text it joins is read back by the engine as exactly the
      parts the pattern means: no literal is taken for a metacharacter, and no `.` swallows a `*`
      that follows it. */
  method LikePattern(value: string) returns (regex: string)
    ensures Parse(regex) == Some(Compiled(value))
  {
    var parts: seq<string> := [];
    var index := 0;
    ghost var done: seq<Part> := [];
    while index < |value|
      invariant 0 <= index <= |value|
      invariant parts == Texts(done)
      invariant Compiled(value) == done + Compiled(value[index..])
    {
      HeadAt(value, index);
      ghost var head := Head(value[index..]);
      TextsSnoc(done, head.0);
      var c := value[index];
      if c == '%' || c == '_' {
        parts := parts + [if c == '%' then ".*" else "."];
        index := index + 1;
      } else if c == '[' && index + 2 < |value| && Wildcard(value[index + 1]) && value[index + 2] == ']' {
        parts := parts + [Escape(value[index + 1])];
        index := index + 3;
      } else {
        parts := parts + [Escape(c)];
        index := index + 1;
      }
      done := done + [head.0];
    }
    regex := Concat(parts);
    ParseInvertsTexts(done);
    assert done + Compiled(value[index..]) == done;
  }

  /** The loop's tests at `index`, stated on the rest of the pattern. */
  lemma HeadAt(value: string, index: nat)
    requires index < |value|
    ensures var (part, n) := Head(value[index..]);
            && index + n <= |value|
            && (forall done: seq<Part> ::
                  done + Compiled(value[index..]) == done + [part] + Compiled(value[index + n..]))
            && (part, n) ==
               if value[index] == '%' then (AnyRun, 1)
               else if value[index] == '_' then (AnyOne, 1)
               else if value[index] == '[' && index + 2 < |value| && Wildcard(value[index + 1])
                                         && value[index + 2] == ']'
               then (Literal(value[index + 1]), 3)
               else (Literal(value[index]), 1)
  {
    var n := Head(value[index..]).1;
    assert value[index..][n..] == value[index + n..];
  }

  function Texts(parts: seq<Part>): seq<string> {
    seq(|parts|, i requires 0 <= i < |parts| => PartText(parts[i]))
  }

  lemma TextsSnoc(parts: seq<Part>, last: Part)
    ensures Texts(parts + [last]) == Texts(parts) + [PartText(last)]
  {}

  lemma {:induction false} ParseInvertsTexts(parts: seq<Part>)
    ensures Parse(Concat(Texts(parts))) == Some(parts)
    ensures parts != [] ==> Concat(Texts(parts)) != "" && Concat(Texts(parts))[0] != '*'
  {
    if parts != [] {
      ParseInvertsTexts(parts[1..]);
      assert Texts(parts)[1..] == Texts(parts[1..]);
      assert parts == [parts[0]] + parts[1..];
      var rest := Concat(Texts(parts[1..]));
      var regex := Concat(Texts(parts));
      assert regex == PartText(parts[0]) + rest;
      assert regex[|PartText(parts[0])|..] == rest;
      match parts[0]
      case AnyRun => assert Parse(regex) == Prepend(AnyRun, Parse(rest));
      case AnyOne => assert Parse(regex) == Prepend(AnyOne, Parse(rest));
      case Literal(c) => assert Parse(regex) == Prepend(Literal(c), Parse(rest));
    }
  }

  // ------------------------------------------------------------- the direct reading

  /** LIKE, read straight off the pattern without a regular expression. */
  predicate Matches(pattern: string, text: string)
    decreases |pattern|, |text|
  {
    if pattern == "" then text == ""
    else if pattern[0] == '%' then
      || Matches(pattern[1..], text)
      || (text != "" && Dot(text[0]) && Matches(pattern, text[1..]))
    else if pattern[0] == '_' then text != "" && Dot(text[0]) && Matches(pattern[1..], text[1..])
    else if Bracketed(pattern) then text != "" && text[0] == pattern[1] && Matches(pattern[3..], text[1..])
    else text != "" && text[0] == pattern[0] && Matches(pattern[1..], text[1..])
  }

  /** Compilation preserves meaning, for every pattern and every text. */
  lemma {:induction false} CompilationPreservesMeaning(pattern: string, text: string)
    ensures FullMatch(Compiled(pattern), text) <==> Matches(pattern, text)
    decreases |pattern|, |text|
  {
    if pattern != "" {
      var (part, n) := Head(pattern);
      var parts := Compiled(pattern);
      assert parts[0] == part && parts[1..] == Compiled(pattern[n..]);
      if part == AnyRun {
        assert n == 1;
        RunUnfolds(parts, text);
        CompilationPreservesMeaning(pattern[1..], text);
        if text != "" {
          CompilationPreservesMeaning(pattern, text[1..]);
        }
      } else {
        OneUnfolds(parts, text);
        if text != "" {
          CompilationPreservesMeaning(pattern[n..], text[1..]);
        }
      }
    }
  }

  /** A run either is empty or takes one more character. */
  lemma RunUnfolds(parts: seq<Part>, text: string)
    requires parts != [] && parts[0] == AnyRun
    ensures FullMatch(parts, text) <==>
            || FullMatch(parts[1..], text)
            || (text != "" && Dot(text[0]) && FullMatch(parts, text[1..]))
  {
    if FullMatch(parts, text) {
      var k := SplitExists(parts, text);
      if k == 0 {
        assert text[0..] == text;
      } else {
        RunShorter(parts, text, k - 1);
        SplitSuffices(parts, text[1..], k - 1);
      }
    }
    if FullMatch(parts[1..], text) {
      assert text[0..] == text;
      SplitSuffices(parts, text, 0);
    }
    if text != "" && Dot(text[0]) && FullMatch(parts, text[1..]) {
      var k := SplitExists(parts, text[1..]);
      RunShorter(parts, text, k);
      SplitSuffices(parts, text, k + 1);
    }
  }

  lemma RunShorter(parts: seq<Part>, text: string, k: nat)
    requires parts != [] && parts[0] == AnyRun && k < |text|
    ensures SplitsAt(parts, text, k + 1) <==> Dot(text[0]) && SplitsAt(parts, text[1..], k)
  {
    assert text[1..][k..] == text[k + 1..];
    assert text[..k + 1] == [text[0]] + text[1..][..k];
  }

  /** Every other part takes exactly one character. */
  lemma OneUnfolds(parts: seq<Part>, text: string)
    requires parts != [] && parts[0] != AnyRun
    ensures FullMatch(parts, text) <==>
            text != "" && PieceMatches(parts[0], [text[0]]) && FullMatch(parts[1..], text[1..])
  {
    if FullMatch(parts, text) {
      var k := SplitExists(parts, text);
      assert |text[..k]| == 1;
      assert text[..k] == [text[0]];
    }
    if text != "" && PieceMatches(parts[0], [text[0]]) && FullMatch(parts[1..], text[1..]) {
      assert text[..1] == [text[0]];
      SplitSuffices(parts, text, 1);
    }
  }

  /** `%` is documented as any run; it is any run without a line feed. */
  lemma PercentMatchesLines(text: string)
    ensures FullMatch(Compiled("%"), text) <==> '\n' !in text
  {
    assert Compiled("%") == [AnyRun] + Compiled("%"[1..]);
    var parts := [AnyRun];
    assert parts[1..] == [];
    if FullMatch(parts, text) {
      var k := SplitExists(parts, text);
      assert text[..k] == text;
    }
    if '\n' !in text {
      assert text[..|text|] == text;
      SplitSuffices(parts, text, |text|);
    }
  }
}
