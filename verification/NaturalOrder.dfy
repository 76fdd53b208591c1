/** The natural page order: digit runs compare as numbers. */
module NaturalOrder {
  import opened Sequences
  import opened Text
  import opened Decimals

  datatype Token = Run(text: string) | Number(value: nat)

  /** `re.split(r"(\d+)", s)` without its empty pieces: the runs of digits and of other characters. */
  function Pieces(s: string): (pieces: seq<string>)
    ensures s != "" ==> pieces != [] && pieces[0] != "" && pieces[0][0] == s[0]
  {
    if s == "" then [] else Grown(s[0], Pieces(s[1..]))
  }

  function Grown(c: char, pieces: seq<string>): seq<string> {
    if pieces != [] && pieces[0] != "" && IsDigit(pieces[0][0]) == IsDigit(c) then [[c] + pieces[0]] + pieces[1..]
    else [[c]] + pieces
  }

  function TokenOf(piece: string): Token {
    if piece != "" && AllDigits(piece) then Number(ValueOf(piece)) else Run(piece)
  }

  function TokensOf(pieces: seq<string>): seq<Token> {
    if pieces == [] then [] else [TokenOf(pieces[0])] + TokensOf(pieces[1..])
  }

  function Tokens(s: string): seq<Token> {
    TokensOf(Pieces(s))
  }

  /** `natural_sort_key`. */
  function NaturalKey(name: string): seq<Token> {
    Tokens(Lower(name))
  }

  predicate TokenLeq(a: Token, b: Token) {
    match (a, b)
    case (Run(x), Run(y)) => LexLeq(x, y)
    case (Run(_), Number(_)) => true
    case (Number(_), Run(_)) => false
    case (Number(x), Number(y)) => x <= y
  }

  /** `<=` of two tuples. */
  predicate KeyLeq(a: seq<Token>, b: seq<Token>) {
    if a == [] then true
    else if b == [] then false
    else if a[0] != b[0] then TokenLeq(a[0], b[0])
    else KeyLeq(a[1..], b[1..])
  }

  predicate KeyLess(a: seq<Token>, b: seq<Token>) {
    KeyLeq(a, b) && a != b
  }

  lemma TokenIsOrder(a: Token, b: Token, c: Token)
    ensures TokenLeq(a, b) || TokenLeq(b, a)
    ensures TokenLeq(a, b) && TokenLeq(b, a) ==> a == b
    ensures TokenLeq(a, b) && TokenLeq(b, c) ==> TokenLeq(a, c)
  {
    if a.Run? && b.Run? {
      LexIsOrder(a.text, b.text, if c.Run? then c.text else "");
    }
  }

  /** Keys are totally ordered, so sorting by them never fails and leaves only equal keys in doubt. */
  lemma {:induction false} KeyIsOrder(a: seq<Token>, b: seq<Token>, c: seq<Token>)
    ensures KeyLeq(a, b) || KeyLeq(b, a)
    ensures KeyLeq(a, b) && KeyLeq(b, a) ==> a == b
    ensures KeyLeq(a, b) && KeyLeq(b, c) ==> KeyLeq(a, c)
    decreases |a| + |b| + |c|
  {
    if a != [] && b != [] {
      TokenIsOrder(a[0], b[0], if c != [] then c[0] else a[0]);
      KeyIsOrder(a[1..], b[1..], if c != [] then c[1..] else []);
      assert a == [a[0]] + a[1..] && b == [b[0]] + b[1..];
      if c != [] {
        TokenIsOrder(b[0], c[0], a[0]);
      }
    }
  }

  lemma {:induction false} TokensOfSum(a: seq<string>, b: seq<string>)
    ensures TokensOf(a + b) == TokensOf(a) + TokensOf(b)
  {
    if a == [] {
      assert a + b == b;
    } else {
      TokensOfSum(a[1..], b);
      assert (a + b)[1..] == a[1..] + b;
    }
  }

  lemma TailOfSum<T>(a: seq<T>, b: seq<T>)
    requires a != []
    ensures (a + b)[1..] == a[1..] + b && (a + b)[0] == a[0]
    ensures |a| > 1 ==> a[1..][|a[1..]| - 1] == a[|a| - 1]
  {}

  lemma GrownSum(c: char, a: seq<string>, b: seq<string>)
    requires a != [] || (b != [] && b[0] != "" && IsDigit(b[0][0]) != IsDigit(c))
    ensures Grown(c, a + b) == Grown(c, a) + b
  {
    if a != [] {
      TailOfSum(a, b);
      Assoc([[c] + a[0]], a[1..], b);
      Assoc([[c]], a, b);
    } else {
      assert a + b == b;
    }
  }

  /** Pieces break wherever a digit meets another character. */
  lemma {:induction false} PiecesOfParts(a: string, b: string)
    requires a == "" || b == "" || IsDigit(a[|a| - 1]) != IsDigit(b[0])
    ensures Pieces(a + b) == Pieces(a) + Pieces(b)
  {
    if b == "" {
      assert a + b == a;
    } else if a == "" {
      assert a + b == b;
    } else {
      TailOfSum(a, b);
      PiecesOfParts(a[1..], b);
      GrownSum(a[0], Pieces(a[1..]), Pieces(b));
    }
  }

  lemma {:induction false} DigitsAreOnePiece(digits: string)
    requires digits != "" && AllDigits(digits)
    ensures Pieces(digits) == [digits]
  {
    assert digits == [digits[0]] + digits[1..];
    if |digits| > 1 {
      DigitsAreOnePiece(digits[1..]);
    } else {
      assert digits[1..] == "" && digits == [digits[0]];
    }
  }

  lemma LastOfSum(a: string, b: string)
    requires b != ""
    ensures (a + b)[|a + b| - 1] == b[|b| - 1]
  {}

  lemma NumberIsPiece(before: string, digits: string, after: string)
    requires before == "" || !IsDigit(before[|before| - 1])
    requires digits != "" && AllDigits(digits)
    requires after == "" || !IsDigit(after[0])
    ensures Pieces(before + digits + after) == Pieces(before) + [digits] + Pieces(after)
  {
    PiecesOfParts(before, digits);
    LastOfSum(before, digits);
    PiecesOfParts(before + digits, after);
    DigitsAreOnePiece(digits);
  }

  lemma TokensAround(a: seq<string>, piece: string, b: seq<string>)
    ensures TokensOf(a + [piece] + b) == TokensOf(a) + ([TokenOf(piece)] + TokensOf(b))
  {
    assert a + [piece] + b == a + ([piece] + b);
    TokensOfSum(a, [piece] + b);
    assert ([piece] + b)[1..] == b;
  }

  /** A number between texts is one token of the key. */
  lemma NumberIsToken(before: string, digits: string, after: string)
    requires before == "" || !IsDigit(before[|before| - 1])
    requires digits != "" && AllDigits(digits)
    requires after == "" || !IsDigit(after[0])
    ensures Tokens(before + digits + after) == Tokens(before) + ([Number(ValueOf(digits))] + Tokens(after))
  {
    NumberIsPiece(before, digits, after);
    TokensAround(Pieces(before), digits, Pieces(after));
  }

  lemma {:induction false} KeyLeqAfter(prefix: seq<Token>, a: seq<Token>, b: seq<Token>)
    ensures KeyLeq(prefix + a, prefix + b) == KeyLeq(a, b)
  {
    if prefix == [] {
      assert prefix + a == a && prefix + b == b;
    } else {
      KeyLeqAfter(prefix[1..], a, b);
      assert (prefix + a)[1..] == prefix[1..] + a && (prefix + b)[1..] == prefix[1..] + b;
    }
  }

  /** Behind one text, a smaller number sorts first, whatever its padding and whatever follows. */
  lemma NumbersSortByValue(before: string, m: string, after: string, n: string, later: string)
    requires before == "" || !IsDigit(before[|before| - 1])
    requires m != "" && AllDigits(m) && n != "" && AllDigits(n)
    requires (after == "" || !IsDigit(after[0])) && (later == "" || !IsDigit(later[0]))
    requires ValueOf(m) < ValueOf(n)
    ensures KeyLess(Tokens(before + m + after), Tokens(before + n + later))
  {
    NumberIsToken(before, m, after);
    NumberIsToken(before, n, later);
    var a, b := [Number(ValueOf(m))] + Tokens(after), [Number(ValueOf(n))] + Tokens(later);
    KeyLeqAfter(Tokens(before), a, b);
    KeyLeqAfter(Tokens(before), b, a);
    HeadsDecide(a, b);
    HeadsDecide(b, a);
    KeyIsOrder(Tokens(before) + b, Tokens(before) + b, []);
  }

  lemma HeadsDecide(a: seq<Token>, b: seq<Token>)
    requires a != [] && b != [] && a[0] != b[0]
    ensures KeyLeq(a, b) == TokenLeq(a[0], b[0])
  {}
}
