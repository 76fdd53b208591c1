/** The names pages are published under, and what the archive gate makes of them. */
module PageNames {
  import opened Text
  import opened Decimals
  import opened NaturalOrder
  import opened Members
  import opened Manifest

  function PageExtension(m: Member): string {
    EffectiveExtension(PageName(m), m.header)
  }

  function Numbered(index: nat, suffix: string): string {
    Padded(index, 4) + suffix
  }

  /** The names `page_file_names` is there to give: the place in the book and the true extension. */
  function NamesOf(members: seq<Member>): (names: seq<string>)
    ensures |names| == |members|
    ensures forall k: nat | k < |members| :: names[k] == Numbered(k + 1, PageExtension(members[k]))
  {
    seq(|members|, k requires 0 <= k < |members| => Numbered(k + 1, PageExtension(members[k])))
  }

  /** The name the collision loop tries at a turn. */
  function Attempt(index: nat, attempt: nat, suffix: string): string {
    if attempt <= 1 then Numbered(index, suffix) else Padded(index, 4) + "-" + Dec(attempt) + suffix
  }

  lemma LowerKeepsPlaces(a: string, b: string, c: string, k: nat)
    requires k < |b|
    ensures Lower(a + b + c)[|a| + k] == LowerChar(b[k])
  {}

  lemma AttemptsDiffer(index: nat, a: nat, b: nat, suffix: string)
    requires 1 <= a < b
    ensures Lower(Attempt(index, a, suffix)) != Lower(Attempt(index, b, suffix))
  {
    if a > 1 && Lower(Attempt(index, a, suffix)) == Lower(Attempt(index, b, suffix)) {
      var front := Padded(index, 4) + "-";
      assert |Lower(Attempt(index, a, suffix))| == |front| + |Dec(a)| + |suffix|;
      assert |Lower(Attempt(index, b, suffix))| == |front| + |Dec(b)| + |suffix|;
      forall k | 0 <= k < |Dec(a)|
        ensures Dec(a)[k] == Dec(b)[k]
      {
        LowerKeepsPlaces(front, Dec(a), suffix, k);
        LowerKeepsPlaces(front, Dec(b), suffix, k);
      }
      assert Dec(a) == Dec(b);
      DecRoundTrip(a);
      DecRoundTrip(b);
    }
  }

  /** The collision loop: it ends, with a name not in use, and is not entered if the plain name is free. */
  method FreshName(index: nat, suffix: string, used: set<string>) returns (name: string)
    ensures Lower(name) !in used
    ensures Lower(Numbered(index, suffix)) !in used ==> name == Numbered(index, suffix)
  {
    name := Padded(index, 4) + suffix;
    var attempt := 1;
    ghost var tried: set<string> := {};
    while Lower(name) in used
      invariant attempt >= 1 && name == Attempt(index, attempt, suffix)
      invariant attempt > 1 ==> Lower(Numbered(index, suffix)) in used
      invariant tried <= used
      invariant forall t | t in tried :: exists a: nat :: 1 <= a < attempt && t == Lower(Attempt(index, a, suffix))
      decreases used - tried
    {
      if Lower(name) in tried {
        var a: nat :| 1 <= a < attempt && Lower(name) == Lower(Attempt(index, a, suffix));
        AttemptsDiffer(index, a, attempt, suffix);
      }
      tried := tried + {Lower(name)};
      attempt := attempt + 1;
      name := Padded(index, 4) + "-" + Dec(attempt) + suffix;
    }
  }

  // ------------------------------------------------------------------------ name order

  predicate IsExtension(suffix: string) {
    suffix == "" || suffix[0] == '.'
  }

  lemma ImagesAreExtensions(e: string)
    requires e in IMAGES
    ensures PlainExtension(e)
  {}

  lemma ExtensionShape(m: Member)
    ensures IsExtension(PageExtension(m))
  {
    if Detected(m.header).Some? {
      ImagesAreExtensions(Detected(m.header).value);
    }
  }

  lemma LowerNumbered(index: nat, suffix: string)
    ensures Lower(Numbered(index, suffix)) == Padded(index, 4) + Lower(suffix)
    ensures IsExtension(suffix) ==> Lower(suffix) == "" || !IsDigit(Lower(suffix)[0])
  {
    var digits := Padded(index, 4);
    forall k | 0 <= k < |digits|
      ensures LowerChar(digits[k]) == digits[k]
    {
      assert IsDigit(digits[k]);
    }
  }

  /** A later page has the greater natural key, whatever the extensions. */
  lemma LaterIsGreater(i: nat, e: string, j: nat, f: string)
    requires i < j && IsExtension(e) && IsExtension(f)
    ensures KeyLess(NaturalKey(Numbered(i, e)), NaturalKey(Numbered(j, f)))
  {
    NumberedKey(i, e);
    NumberedKey(j, f);
    NumbersSortByValue("", Padded(i, 4), Lower(e), Padded(j, 4), Lower(f));
  }

  lemma NumberedKey(index: nat, suffix: string)
    requires IsExtension(suffix)
    ensures NaturalKey(Numbered(index, suffix)) == Tokens("" + Padded(index, 4) + Lower(suffix))
    ensures Lower(suffix) == "" || !IsDigit(Lower(suffix)[0])
    ensures ValueOf(Padded(index, 4)) == index
  {
    LowerNumbered(index, suffix);
    PaddedRoundTrip(index, 4);
    assert "" + Padded(index, 4) == Padded(index, 4);
  }

  /** For any number of pages, the names grow in natural order and no two are alike but for case. */
  lemma NamesGrow(members: seq<Member>, i: nat, j: nat)
    requires i < j < |members|
    ensures KeyLess(NaturalKey(NamesOf(members)[i]), NaturalKey(NamesOf(members)[j]))
    ensures Lower(NamesOf(members)[i]) != Lower(NamesOf(members)[j])
  {
    ExtensionShape(members[i]);
    ExtensionShape(members[j]);
    LaterIsGreater(i + 1, PageExtension(members[i]), j + 1, PageExtension(members[j]));
  }

  /** One turn of the naming loop. */
  method NamePage(m: Member, index: nat, used: set<string>) returns (verdict: Verdict<string>)
    ensures verdict.Accepted? <==> IsNamed(m)
    ensures verdict.Accepted? ==> Lower(verdict.value) !in used
    ensures verdict.Accepted? && Lower(Numbered(index, PageExtension(m))) !in used
            ==> verdict.value == Numbered(index, PageExtension(m))
  {
    match NormalName(m.name) {
      case Refused(fault) => return Refused(fault);
      case Accepted(name) =>
        var suffix := EffectiveExtension(name, m.header);
        var free := FreshName(index, suffix, used);
        return Accepted(free);
    }
  }

  predicate IsNamed(m: Member) {
    NormalName(m.name).Accepted?
  }

  predicate AllNamed(members: seq<Member>) {
    forall m | m in members :: IsNamed(m)
  }

  function InUse(names: seq<string>): set<string> {
    if names == [] then {} else InUse(names[..|names| - 1]) + {Lower(names[|names| - 1])}
  }

  /** `page_file_names`: a member without a proper name ends it, and nothing else disturbs the names. */
  method PageFileNames(members: seq<Member>) returns (verdict: Verdict<seq<string>>)
    ensures verdict.Accepted? <==> AllNamed(members)
    ensures verdict.Accepted? ==> verdict.value == NamesOf(members)
  {
    var used: set<string> := {};
    var names: seq<string> := [];
    for i := 0 to |members|
      invariant names == NamesOf(members)[..i] && used == InUse(names)
      invariant AllNamed(members[..i])
    {
      NextName(members, i);
      AllNamedStep(members, i);
      var named := NamePage(members[i], i + 1, used);
      if named.Refused? {
        return Refused(named.fault);
      }
      names := names + [named.value];
      used := used + {Lower(named.value)};
    }
    assert members[..|members|] == members;
    return Accepted(names);
  }

  lemma {:induction false} InUseExactly(names: seq<string>, u: string)
    ensures u in InUse(names) <==> exists k: nat :: k < |names| && Lower(names[k]) == u
  {
    if names != [] {
      var front := names[..|names| - 1];
      InUseExactly(front, u);
      if u in InUse(front) {
        var k: nat :| k < |front| && Lower(front[k]) == u;
        assert names[k] == front[k];
      }
      if k: nat :| k < |names| && Lower(names[k]) == u && k < |front| {
        assert front[k] == names[k];
      }
    }
  }

  lemma InUseStep(names: seq<string>, i: nat)
    requires i < |names| && forall k: nat | k < i :: Lower(names[k]) != Lower(names[i])
    ensures Lower(names[i]) !in InUse(names[..i])
    ensures names[..i + 1] == names[..i] + [names[i]]
    ensures InUse(names[..i + 1]) == InUse(names[..i]) + {Lower(names[i])}
  {
    InUseExactly(names[..i], Lower(names[i]));
    assert names[..i + 1][..i] == names[..i];
  }

  lemma AllNamedStep(members: seq<Member>, i: nat)
    requires i < |members|
    ensures AllNamed(members[..i + 1]) <==> AllNamed(members[..i]) && IsNamed(members[i])
    ensures AllNamed(members) ==> IsNamed(members[i])
  {
    assert members[..i + 1] == members[..i] + [members[i]];
    assert members[i] in members;
  }

  lemma NextName(members: seq<Member>, i: nat)
    requires i < |members|
    ensures var names := NamesOf(members);
            && names[i] == Numbered(i + 1, PageExtension(members[i]))
            && Lower(names[i]) !in InUse(names[..i])
            && names[..i + 1] == names[..i] + [names[i]]
            && InUse(names[..i + 1]) == InUse(names[..i]) + {Lower(names[i])}
  {
    forall k: nat | k < i
      ensures Lower(NamesOf(members)[k]) != Lower(NamesOf(members)[i])
    {
      NamesGrow(members, k, i);
    }
    InUseStep(NamesOf(members), i);
  }

  // --------------------------------------------------------------------- reading them back

  predicate IsPlain(c: char) {
    'a' <= c <= 'z' || IsDigit(c)
  }

  predicate PlainExtension(e: string) {
    |e| >= 2 && e[0] == '.' && forall k | 1 <= k < |e| :: IsPlain(e[k])
  }

  /** A single file name in lower case that starts with a digit. */
  predicate PlainName(s: string) {
    s != "" && IsDigit(s[0]) && forall k | 0 <= k < |s| :: IsPlain(s[k]) || s[k] == '.'
  }

  lemma {:induction false} OnePiece(s: string)
    requires forall k | 0 <= k < |s| :: s[k] != '/'
    ensures Split(s, '/') == [s]
  {
    if s != "" {
      OnePiece(s[1..]);
      assert s == [s[0]] + s[1..];
    }
  }

  lemma PlainParts(s: string)
    requires PlainName(s)
    ensures Lower(s) == s && PathParts(s) == [s]
  {
    OnePiece(s);
    assert s != ".";
    assert [s][1..] == [] && [s] + Kept([]) == [s];
  }

  lemma PlainIsNormal(s: string)
    requires PlainName(s)
    requires !IsSpace(s[|s| - 1])
    ensures NormalName(s) == Accepted(s)
  {
    assert ReplaceChar(s, '\\', '/') == s;
    assert IsDigit(s[0]);
    StripIsClean(s);
    PlainParts(s);
  }

  lemma NumberedIsPlain(index: nat, e: string)
    requires PlainExtension(e)
    ensures PlainName(Numbered(index, e)) && !IsSpace(Numbered(index, e)[|Numbered(index, e)| - 1])
    ensures LastDot(Numbered(index, e)) == Some(|Padded(index, 4)|)
  {
    var s, n := Numbered(index, e), |Padded(index, 4)|;
    forall k | 0 <= k < |s|
      ensures s[k] == if k < n then Padded(index, 4)[k] else e[k - n]
      ensures k < n ==> IsDigit(s[k])
      ensures k > n ==> IsPlain(s[k])
    {}
    assert s[n] == '.';
  }

  lemma NumberedReads(index: nat, e: string)
    requires PlainExtension(e)
    ensures NormalName(Numbered(index, e)) == Accepted(Numbered(index, e))
    ensures Suffix(Numbered(index, e)) == e
  {
    var s := Numbered(index, e);
    NumberedIsPlain(index, e);
    PlainIsNormal(s);
    PlainParts(s);
    assert s[|Padded(index, 4)|..] == e;
  }

  lemma PagesHaveExtensions(m: Member)
    requires Publishable(m)
    ensures PageExtension(m) in IMAGES
  {}

  function Renamed(members: seq<Member>): (renamed: seq<Member>)
    ensures |renamed| == |members|
    ensures forall k: nat | k < |members| :: renamed[k] == members[k].(name := NamesOf(members)[k])
  {
    seq(|members|, k requires 0 <= k < |members| => members[k].(name := NamesOf(members)[k]))
  }

  lemma RenamedPage(m: Member, index: nat)
    requires Publishable(m)
    ensures var p := m.(name := Numbered(index, PageExtension(m)));
            && Publishable(p)
            && PageName(p) == Numbered(index, PageExtension(m))
            && PageExtension(p) == PageExtension(m)
  {
    PagesHaveExtensions(m);
    ImagesAreExtensions(PageExtension(m));
    NumberedReads(index, PageExtension(m));
  }

  /** A published name is read back as the extension its bytes go by. */
  lemma NameTellsFormat(m: Member, index: nat)
    requires Publishable(m)
    ensures Suffix(Numbered(index, PageExtension(m))) in IMAGES
    ensures Detected(m.header).Some?
            ==> Suffix(Numbered(index, PageExtension(m))) in Aliases(Detected(m.header).value)
  {
    PagesHaveExtensions(m);
    ImagesAreExtensions(PageExtension(m));
    NumberedReads(index, PageExtension(m));
  }

  /** Under their published names pages are pages still: their names come out the same again, and the
      natural order leaves them where they are. */
  lemma PublishedNamesAreStable(pages: seq<Member>)
    requires forall m | m in pages :: Publishable(m)
    ensures forall m | m in Renamed(pages) :: Publishable(m)
    ensures NamesOf(Renamed(pages)) == NamesOf(pages)
    ensures Sorting.Sort(Renamed(pages), PageLeq) == Renamed(pages)
  {
    var renamed := Renamed(pages);
    RenamedPages(pages);
    RenamedInOrder(pages);
    PageOrder();
    Sorting.SortSorts(renamed, PageLeq);
    Sorting.SortKeepsElements(renamed, PageLeq);
    Sorting.SortedIsUnique(Sorting.Sort(renamed, PageLeq), renamed, PageLeq);
  }

  lemma RenamedAt(pages: seq<Member>, k: nat)
    requires k < |pages| && Publishable(pages[k])
    ensures Publishable(Renamed(pages)[k]) && PageName(Renamed(pages)[k]) == NamesOf(pages)[k]
    ensures NamesOf(Renamed(pages))[k] == NamesOf(pages)[k]
  {
    RenamedPage(pages[k], k + 1);
  }

  lemma RenamedPages(pages: seq<Member>)
    requires forall m | m in pages :: Publishable(m)
    ensures forall m | m in Renamed(pages) :: Publishable(m)
    ensures forall k: nat | k < |pages| :: PageName(Renamed(pages)[k]) == NamesOf(pages)[k]
    ensures NamesOf(Renamed(pages)) == NamesOf(pages)
  {
    forall k: nat | k < |pages|
      ensures Publishable(Renamed(pages)[k]) && PageName(Renamed(pages)[k]) == NamesOf(pages)[k]
      ensures NamesOf(Renamed(pages))[k] == NamesOf(pages)[k]
    {
      assert pages[k] in pages;
      RenamedAt(pages, k);
    }
  }

  lemma RenamedInOrder(pages: seq<Member>)
    requires forall k: nat | k < |pages| :: PageName(Renamed(pages)[k]) == NamesOf(pages)[k]
    ensures Sorting.Sorted(Renamed(pages), PageLeq)
    ensures forall x, y | x in Renamed(pages) && y in Renamed(pages) && PageLeq(x, y) && PageLeq(y, x) :: x == y
  {
    var renamed := Renamed(pages);
    forall i: nat, j: nat | i < j < |pages|
      ensures PageLeq(renamed[i], renamed[j]) && !PageLeq(renamed[j], renamed[i])
    {
      NamesGrow(pages, i, j);
      KeyIsOrder(PageKey(renamed[i]), PageKey(renamed[j]), []);
    }
  }
}
