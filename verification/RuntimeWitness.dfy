/** A runtime that meets every law the rule model relies on, so that its theorems speak of something. */
module RuntimeWitness {
  import opened Text
  import opened Decimals
  import opened Rules

  function ShowInt(n: int): string {
    if n < 0 then "-" + Dec(-n) else Dec(n)
  }

  function ReadInt(s: string): Option<int> {
    if s != "" && AllDigits(s) then Some(ValueOf(s))
    else if |s| > 1 && s[0] == '-' && AllDigits(s[1..]) then Some(0 - ValueOf(s[1..]) as int)
    else None
  }

  function Show(n: Float): string {
    match n
    case NaN => "nan"
    case Infinite(negative) => if negative then "-inf" else "inf"
    case Finite(units) => ShowInt(units)
  }

  function Parse(s: string): Option<Float> {
    var t := Strip(s);
    if t == "nan" then Some(NaN)
    else if t == "inf" then Some(Infinite(false))
    else if t == "-inf" then Some(Infinite(true))
    else if ReadInt(t).Some? then Some(Finite(ReadInt(t).value))
    else None
  }

  function Upper(s: string): string {
    seq(|s|, i requires 0 <= i < |s| => UpperChar(s[i]))
  }

  function Witness(): Runtime {
    Runtime(Parse, Show, Upper, s => s, j => "")
  }

  lemma ShowIsClean(n: Float)
    ensures Clean(Show(n)) && forall i | 0 <= i < |Show(n)| :: NumeralChar(Show(n)[i])
  {
    if n.Finite? {
      var digits := Dec(if n.units < 0 then -n.units else n.units);
      assert IsDigit(digits[0]) && IsDigit(digits[|digits| - 1]);
    }
  }

  lemma IntRoundTrip(n: int)
    ensures ReadInt(ShowInt(n)) == Some(n) && ShowInt(n) !in {"nan", "inf", "-inf"}
  {
    DecRoundTrip(if n < 0 then -n else n);
    if n < 0 {
      assert ShowInt(n)[1..] == Dec(-n);
      assert IsDigit(ShowInt(n)[1]);
    } else {
      assert IsDigit(ShowInt(n)[0]);
    }
  }

  lemma ShowRoundTrip(n: Float)
    ensures Parse(Show(n)) == Some(n)
  {
    ShowIsClean(n);
    StripIsClean(Show(n));
    if n.Finite? {
      IntRoundTrip(n.units);
    }
  }

  lemma NoNumeral(s: string)
    requires s in {"True", "False"}
    ensures Parse(s) == None
  {
    StripIsClean(s);
    assert s[0] in {'T', 'F'};
  }

  lemma StripTwice(s: string)
    ensures Parse(Strip(s)) == Parse(s)
  {
    StripIsClean(s);
    if Strip(s) != "" {
      StripIsClean(Strip(s));
    }
  }

  lemma NumbersAreRead()
    ensures forall n {:trigger Show(n)} :: Show(n) != "" && Parse(Show(n)) == Some(n)
    ensures forall n, i {:trigger Show(n)[i]} | 0 <= i < |Show(n)| :: NumeralChar(Show(n)[i])
  {
    forall n
      ensures Show(n) != "" && Parse(Show(n)) == Some(n)
      ensures forall i | 0 <= i < |Show(n)| :: NumeralChar(Show(n)[i])
    {
      ShowIsClean(n);
      ShowRoundTrip(n);
    }
  }

  lemma BlanksDoNotMatter()
    ensures forall s {:trigger Parse(Strip(s))} :: Parse(Strip(s)) == Parse(s)
  {
    forall s
      ensures Parse(Strip(s)) == Parse(s)
    {
      StripTwice(s);
    }
  }

  /** The laws hold together. */
  lemma WitnessIsLawful()
    ensures Lawful(Witness())
  {
    NumbersAreRead();
    BlanksDoNotMatter();
    NoNumeral("True");
    NoNumeral("False");
  }
}
