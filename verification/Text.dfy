/** The few pieces of Python text handling that the rest of the model is stated in. */
module Text {

  datatype Option<+T> = None | Some(value: T)

  datatype Result<+T> = Ok(value: T) | Err

  /** The characters that `str.strip`, `str.split` and `str.isspace` treat as blank. */
  predicate IsSpace(c: char) {
    || '\t' <= c <= '\r'
    || '\U{1c}' <= c <= ' '
    || c == '\U{85}' || c == '\U{a0}' || c == '\U{1680}'
    || '\U{2000}' <= c <= '\U{200a}'
    || c == '\U{2028}' || c == '\U{2029}' || c == '\U{202f}' || c == '\U{205f}' || c == '\U{3000}'
  }

  function StripLeft(s: string): string {
    if s != "" && IsSpace(s[0]) then StripLeft(s[1..]) else s
  }

  function StripRight(s: string): string {
    if s != "" && IsSpace(s[|s| - 1]) then StripRight(s[..|s| - 1]) else s
  }

  /** `str.strip()`. */
  function Strip(s: string): string {
    StripRight(StripLeft(s))
  }

  /** A text that is not blank and has no blank at either end. */
  predicate Clean(s: string) {
    s != "" && !IsSpace(s[0]) && !IsSpace(s[|s| - 1])
  }

  lemma StripRightKeepsHead(s: string)
    requires s == "" || !IsSpace(s[0])
    ensures StripRight(s) == "" <==> s == ""
    ensures s != "" ==> StripRight(s)[0] == s[0]
    ensures StripRight(s) != "" ==> !IsSpace(StripRight(s)[|StripRight(s)| - 1])
  {
    if s != "" && IsSpace(s[|s| - 1]) {
      StripRightKeepsHead(s[..|s| - 1]);
    }
  }

  lemma StripLeftHead(s: string)
    ensures StripLeft(s) == "" || !IsSpace(StripLeft(s)[0])
  {}

  /** Stripping yields the empty text or a clean one, and leaves a clean text alone. */
  lemma StripIsClean(s: string)
    ensures Strip(s) == "" || Clean(Strip(s))
    ensures Clean(s) ==> Strip(s) == s
  {
    StripLeftHead(s);
    StripRightKeepsHead(StripLeft(s));
  }

  lemma {:induction false} StripRightCuts(s: string) returns (b: nat)
    ensures b <= |s| && StripRight(s) == s[..b] && forall i | b <= i < |s| :: IsSpace(s[i])
  {
    b := |s|;
    if s != "" && IsSpace(s[|s| - 1]) {
      b := StripRightCuts(s[..|s| - 1]);
    }
  }

  lemma {:induction false} StripLeftCuts(s: string) returns (a: nat)
    ensures a <= |s| && StripLeft(s) == s[a..] && forall i | 0 <= i < a :: IsSpace(s[i])
  {
    a := 0;
    if s != "" && IsSpace(s[0]) {
      a := StripLeftCuts(s[1..]);
      a := a + 1;
    }
  }

  /** Stripping cuts blanks off both ends and nothing else. */
  lemma StripCuts(s: string) returns (a: nat, b: nat)
    ensures a <= b <= |s| && Strip(s) == s[a..b]
    ensures forall i | 0 <= i < a || b <= i < |s| :: IsSpace(s[i])
  {
    a := StripLeftCuts(s);
    b := StripRightCuts(s[a..]);
    b := a + b;
  }

  /** `separator.join(parts)`. */
  function Join(parts: seq<string>, separator: string): string {
    if |parts| == 0 then ""
    else if |parts| == 1 then parts[0]
    else parts[0] + separator + Join(parts[1..], separator)
  }

  /** `s.split(separator)`: always at least one piece. */
  function Split(s: string, separator: char): (pieces: seq<string>)
    ensures |pieces| > 0
  {
    if s == "" then [""]
    else if s[0] == separator then [""] + Split(s[1..], separator)
    else
      var rest := Split(s[1..], separator);
      [[s[0]] + rest[0]] + rest[1..]
  }

  /** `s[i..j]` lies between two separators next to each other, or a separator and an end. */
  predicate Piece(s: string, separators: set<char>, i: nat, j: nat) {
    && i <= j <= |s|
    && (i > 0 ==> s[i - 1] in separators) && (j < |s| ==> s[j] in separators)
    && forall k | i <= k < j :: s[k] !in separators
  }

  lemma PieceShifts(s: string, separators: set<char>, i: nat, j: nat)
    requires s != "" && i <= j < |s|
    ensures Piece(s, separators, i + 1, j + 1) <==> (i > 0 || s[0] in separators) && Piece(s[1..], separators, i, j)
    ensures s[i + 1..j + 1] == s[1..][i..j]
  {
    var rest := s[1..];
    assert forall k | 0 <= k < |rest| :: rest[k] == s[k + 1];
    if Piece(s, separators, i + 1, j + 1) {
      assert forall k | i <= k < j :: rest[k] == s[k + 1] && s[k + 1] !in separators;
    }
    if Piece(rest, separators, i, j) {
      forall k | i + 1 <= k < j + 1
        ensures s[k] !in separators
      {
        assert rest[k - 1] !in separators;
      }
    }
  }

  ghost predicate FirstPiece(s: string, separators: set<char>, piece: string) {
    exists j: nat :: Piece(s, separators, 0, j) && piece == s[..j]
  }

  ghost predicate LaterPiece(s: string, separators: set<char>, piece: string) {
    exists i: nat, j: nat :: i > 0 && Piece(s, separators, i, j) && piece == s[i..j]
  }

  lemma LaterShifts(s: string, separators: set<char>, piece: string)
    requires s != ""
    ensures LaterPiece(s, separators, piece)
            <==> || LaterPiece(s[1..], separators, piece)
                 || (s[0] in separators && FirstPiece(s[1..], separators, piece))
  {
    var rest := s[1..];
    if LaterPiece(s, separators, piece) {
      var i: nat, j: nat :| i > 0 && Piece(s, separators, i, j) && piece == s[i..j];
      PieceShifts(s, separators, i - 1, j - 1);
      assert Piece(rest, separators, i - 1, j - 1) && piece == rest[i - 1..j - 1];
      assert i == 1 ==> rest[0..j - 1] == rest[..j - 1];
    }
    if LaterPiece(rest, separators, piece) {
      var i: nat, j: nat :| i > 0 && Piece(rest, separators, i, j) && piece == rest[i..j];
      PieceShifts(s, separators, i, j);
    }
    if s[0] in separators && FirstPiece(rest, separators, piece) {
      var j: nat :| Piece(rest, separators, 0, j) && piece == rest[..j];
      PieceShifts(s, separators, 0, j);
      assert rest[0..j] == rest[..j];
    }
  }

  lemma OneFirstPiece(s: string, separators: set<char>, a: string, b: string)
    requires FirstPiece(s, separators, a) && FirstPiece(s, separators, b)
    ensures a == b
  {
    var j: nat :| Piece(s, separators, 0, j) && a == s[..j];
    var k: nat :| Piece(s, separators, 0, k) && b == s[..k];
    assert j == k;
  }

  lemma {:induction false} SplitHead(s: string, separator: char)
    ensures FirstPiece(s, {separator}, Split(s, separator)[0])
  {
    if s == "" || s[0] == separator {
      assert Piece(s, {separator}, 0, 0) && s[..0] == "";
    } else {
      SplitHead(s[1..], separator);
      var j: nat :| Piece(s[1..], {separator}, 0, j) && Split(s[1..], separator)[0] == s[1..][..j];
      forall k | 0 <= k < j + 1
        ensures s[k] != separator
      {
        assert k > 0 ==> s[1..][k - 1] == s[k];
      }
      assert Piece(s, {separator}, 0, j + 1) && s[..j + 1] == [s[0]] + s[1..][..j];
    }
  }

  lemma {:induction false} SplitTail(s: string, separator: char, piece: string)
    ensures piece in Split(s, separator)[1..] <==> LaterPiece(s, {separator}, piece)
  {
    if s != "" {
      var rest := Split(s[1..], separator);
      SplitTail(s[1..], separator, piece);
      SplitHead(s[1..], separator);
      LaterShifts(s, {separator}, piece);
      if s[0] == separator {
        assert Split(s, separator)[1..] == rest && rest == [rest[0]] + rest[1..];
        if FirstPiece(s[1..], {separator}, piece) {
          OneFirstPiece(s[1..], {separator}, piece, rest[0]);
        }
      } else {
        assert Split(s, separator)[1..] == rest[1..];
      }
    }
  }

  /** Splitting gives exactly the pieces between the separators. */
  lemma SplitExactly(s: string, separator: char, piece: string)
    ensures piece in Split(s, separator) <==> exists i: nat, j: nat :: Piece(s, {separator}, i, j) && piece == s[i..j]
  {
    var pieces := Split(s, separator);
    assert pieces == [pieces[0]] + pieces[1..];
    SplitHead(s, separator);
    SplitTail(s, separator, piece);
    if FirstPiece(s, {separator}, piece) {
      OneFirstPiece(s, {separator}, piece, pieces[0]);
      var j: nat :| Piece(s, {separator}, 0, j) && piece == s[..j];
      assert s[0..j] == s[..j];
    }
    if i: nat, j: nat :| Piece(s, {separator}, i, j) && piece == s[i..j] {
      assert i == 0 ==> s[0..j] == s[..j];
      assert i == 0 ==> FirstPiece(s, {separator}, piece);
      assert i > 0 ==> LaterPiece(s, {separator}, piece);
    }
  }

  /** `s.split()`: the maximal runs of non-blank characters. */
  function Words(s: string): seq<string> {
    WordsAfter(s, "")
  }

  function WordsAfter(s: string, word: string): seq<string>
    decreases |s|
  {
    if s == "" then
      if word == "" then [] else [word]
    else if IsSpace(s[0]) then
      (if word == "" then [] else [word]) + WordsAfter(s[1..], "")
    else
      WordsAfter(s[1..], word + [s[0]])
  }

  lemma {:induction false} OneWord(s: string, word: string)
    requires forall c :: c in s ==> !IsSpace(c)
    ensures WordsAfter(s, word) == if word + s == "" then [] else [word + s]
    decreases |s|
  {
    if s == "" {
      assert word + s == word;
    } else {
      OneWord(s[1..], word + [s[0]]);
      assert word + [s[0]] + s[1..] == word + s;
    }
  }

  /** `s.replace(from, to)` for single characters. */
  function ReplaceChar(s: string, from: char, to: char): string {
    seq(|s|, i requires 0 <= i < |s| => if s[i] == from then to else s[i])
  }

  function UpperChar(c: char): char {
    if 'a' <= c <= 'z' then (c as int - 32) as char else c
  }

  function LowerChar(c: char): char {
    if 'A' <= c <= 'Z' then (c as int + 32) as char else c
  }

  /** `str.lower()` on the ASCII letters; every other character is left alone. */
  function Lower(s: string): string {
    seq(|s|, i requires 0 <= i < |s| => LowerChar(s[i]))
  }

  /** `<=` of two texts: code points from the left. */
  function LexLeq(a: string, b: string): bool {
    if a == "" then true
    else if b == "" then false
    else if a[0] != b[0] then a[0] < b[0]
    else LexLeq(a[1..], b[1..])
  }

  lemma {:induction false} LexIsOrder(a: string, b: string, c: string)
    ensures LexLeq(a, b) || LexLeq(b, a)
    ensures LexLeq(a, b) && LexLeq(b, a) ==> a == b
    ensures LexLeq(a, b) && LexLeq(b, c) ==> LexLeq(a, c)
    decreases |a| + |b| + |c|
  {
    if a != "" && b != "" {
      if c != "" {
        LexIsOrder(a[1..], b[1..], c[1..]);
      } else {
        LexIsOrder(a[1..], b[1..], "");
      }
      assert a == [a[0]] + a[1..] && b == [b[0]] + b[1..];
    }
  }

  /** `s.rfind(".")`. */
  function LastDot(s: string): (dot: Option<nat>)
    ensures dot.Some? ==> dot.value < |s| && s[dot.value] == '.'
    ensures dot.Some? ==> forall i | dot.value < i < |s| :: s[i] != '.'
    ensures dot.None? ==> '.' !in s
  {
    if s == "" then None
    else if s[|s| - 1] == '.' then Some(|s| - 1)
    else
      assert s == s[..|s| - 1] + [s[|s| - 1]];
      LastDot(s[..|s| - 1])
  }
}
