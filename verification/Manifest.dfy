/** The archive gate: what a listing must look like before anything is unpacked. */
module Manifest {
  import opened Text
  import opened NaturalOrder
  import opened Members
  import opened Compression
  import Sorting

  /** An image by its name, or a name without suffix and an image by its bytes. */
  predicate IsPage(name: string, header: Bytes) {
    Suffix(name) in IMAGES || (Suffix(name) == "" && Detected(header).Some?)
  }

  /** What one member is refused for, given the size of the members before it. */
  function MemberFault(m: Member, before: int, limits: Limits): Option<Fault> {
    match NormalName(m.name)
    case Refused(fault) => Some(fault)
    case Accepted(name) =>
      if m.symlink then Some(Symlink)
      else if |PathParts(name)| > limits.depth then Some(TooDeep)
      else if Suffix(name) in NESTED then Some(NestedArchive)
      else if m.size > limits.member then Some(MemberTooLarge)
      else if before + m.size > limits.total then Some(TotalTooLarge)
      else if Suffix(name) in IMAGES && !HeaderMatches(Suffix(name), m.header) && Detected(m.header).None?
      then Some(FakeImage)
      else None
  }

  /** The first fault found, when `check` is told each member and the size of those before it. */
  function FirstFault(files: seq<Member>, check: (Member, int) -> Option<Fault>): Option<Fault> {
    if files == [] then None
    else
      var front := files[..|files| - 1];
      match FirstFault(front, check)
      case Some(fault) => Some(fault)
      case None => check(files[|files| - 1], Sum(front, SizeOf))
  }

  function ScanFault(files: seq<Member>, limits: Limits): Option<Fault> {
    FirstFault(files, MemberCheck(limits))
  }

  function MemberCheck(limits: Limits): (Member, int) -> Option<Fault> {
    (m: Member, before: int) => MemberFault(m, before, limits)
  }

  /** A member's name in the archive, once it is known to have one. */
  function PageName(m: Member): string {
    match NormalName(m.name)
    case Accepted(name) => name
    case Refused(_) => ""
  }

  predicate Publishable(m: Member) {
    NormalName(m.name).Accepted? && IsPage(PageName(m), m.header)
  }

  function Pages(files: seq<Member>): seq<Member> {
    if files == [] then []
    else Pages(files[..|files| - 1]) + (if Publishable(files[|files| - 1]) then [files[|files| - 1]] else [])
  }

  function PageKey(m: Member): seq<Token> {
    NaturalKey(PageName(m))
  }

  predicate PageLeq(a: Member, b: Member) {
    KeyLeq(PageKey(a), PageKey(b))
  }

  ghost function Gate(files: seq<Member>, limits: Limits, encrypted: bool,
                      probe: Option<Member -> Bytes>): Verdict<seq<Member>> {
    if files == [] then Refused(Empty)
    else if |files| > limits.members then Refused(TooManyMembers)
    else if ScanFault(files, limits).Some? then Refused(ScanFault(files, limits).value)
    else if !RatioHolds(Groups(files), limits.ratio, encrypted, probe) then Refused(CompressionRatio)
    else if Pages(files) == [] then Refused(NoImages)
    else Accepted(Sorting.Sort(Pages(files), PageLeq))
  }

  /** One turn of the loop over the members. */
  method InspectMember(m: Member, before: int, limits: Limits) returns (fault: Option<Fault>, page: bool)
    ensures fault == MemberFault(m, before, limits)
    ensures fault == None ==> page == Publishable(m)
  {
    page := false;
    var name: string;
    match NormalName(m.name) {
      case Refused(wrong) => return Some(wrong), false;
      case Accepted(normal) => name := normal;
    }
    var detected := Detected(m.header);
    if m.symlink {
      return Some(Symlink), false;
    }
    if |PathParts(name)| > limits.depth {
      return Some(TooDeep), false;
    }
    var suffix := Suffix(name);
    if suffix in NESTED {
      return Some(NestedArchive), false;
    }
    if m.size > limits.member {
      return Some(MemberTooLarge), false;
    }
    if before + m.size > limits.total {
      return Some(TotalTooLarge), false;
    }
    if suffix in IMAGES || (suffix == "" && detected.Some?) {
      var mislabelled := detected.Some? && suffix !in Aliases(detected.value);
      if mislabelled || !HeaderMatches(suffix, m.header) {
        if detected.None? {
          return Some(FakeImage), false;
        }
      }
      page := true;
    }
    return None, page;
  }

  /** `validate_manifest`. */
  method ValidateManifest(
    members: seq<Member>,
    limits: Limits,
    encrypted: bool,
    probe: Option<Member -> Bytes>)
    returns (verdict: Verdict<seq<Member>>)
    ensures verdict == Gate(Files(members), limits, encrypted, probe)
  {
    var files := Files(members);
    if files == [] {
      return Refused(Empty);
    }
    if |files| > limits.members {
      return Refused(TooManyMembers);
    }
    var total := 0;
    var pages: seq<Member> := [];
    for i := 0 to |files|
      invariant ScanFault(files[..i], limits) == None
      invariant total == Sum(files[..i], SizeOf)
      invariant pages == Pages(files[..i])
    {
      ScanStep(files, MemberCheck(limits), i);
      var fault, page := InspectMember(files[i], total, limits);
      if fault.Some? {
        return Refused(fault.value);
      }
      total := total + files[i].size;
      if page {
        pages := pages + [files[i]];
      }
    }
    assert files[..|files|] == files;
    var ok := EnforceCompressionRatio(files, limits, encrypted, probe);
    if !ok {
      return Refused(CompressionRatio);
    }
    if pages == [] {
      return Refused(NoImages);
    }
    return Accepted(Sorting.Sort(pages, PageLeq));
  }

  /** A fault stays the answer, however many members follow. */
  lemma {:induction false} FaultStays(files: seq<Member>, check: (Member, int) -> Option<Fault>, i: nat)
    requires i <= |files| && FirstFault(files[..i], check).Some?
    ensures FirstFault(files, check) == FirstFault(files[..i], check)
  {
    if i < |files| {
      assert files[..|files| - 1][..i] == files[..i];
      FaultStays(files[..|files| - 1], check, i);
    } else {
      assert files[..i] == files;
    }
  }

  lemma ScanStep(files: seq<Member>, check: (Member, int) -> Option<Fault>, i: nat)
    requires i < |files| && FirstFault(files[..i], check) == None
    ensures files[..i + 1][..i] == files[..i]
    ensures var fault := check(files[i], Sum(files[..i], SizeOf));
            && FirstFault(files[..i + 1], check) == fault
            && (fault.Some? ==> FirstFault(files, check) == fault)
    ensures Sum(files[..i + 1], SizeOf) == Sum(files[..i], SizeOf) + files[i].size
  {
    assert files[..i + 1][..i] == files[..i];
    if FirstFault(files[..i + 1], check).Some? {
      FaultStays(files, check, i + 1);
    }
  }

  // --------------------------------------------------------------- what acceptance means

  /** Everything asked of one member by itself. */
  predicate Sound(m: Member, limits: Limits) {
    && NormalName(m.name).Accepted?
    && var name := NormalName(m.name).value;
       && !m.symlink
       && |PathParts(name)| <= limits.depth
       && Suffix(name) !in NESTED
       && m.size <= limits.member
       && (Suffix(name) in IMAGES ==> HeaderMatches(Suffix(name), m.header) || Detected(m.header).Some?)
  }

  /** The member at `i` is sound and keeps the total. */
  predicate SoundAt(files: seq<Member>, limits: Limits, i: nat)
    requires i < |files|
  {
    Sound(files[i], limits) && Sum(files[..i + 1], SizeOf) <= limits.total
  }

  lemma MemberPasses(m: Member, before: int, limits: Limits)
    ensures MemberFault(m, before, limits) == None <==> Sound(m, limits) && before + m.size <= limits.total
  {}

  predicate ClearAt(files: seq<Member>, check: (Member, int) -> Option<Fault>, i: nat)
    requires i < |files|
  {
    check(files[i], Sum(files[..i], SizeOf)) == None
  }

  lemma {:induction false} NoFault(files: seq<Member>, check: (Member, int) -> Option<Fault>)
    ensures FirstFault(files, check) == None <==> forall i: nat | i < |files| :: ClearAt(files, check, i)
  {
    if files != [] {
      var n := |files| - 1;
      var front := files[..n];
      NoFault(front, check);
      forall i: nat | i < n
        ensures ClearAt(front, check, i) == ClearAt(files, check, i)
      {
        assert front[..i] == files[..i];
      }
      assert FirstFault(files, check) == None <==> FirstFault(front, check) == None && ClearAt(files, check, n);
    }
  }

  lemma PassesAt(files: seq<Member>, limits: Limits, i: nat)
    requires i < |files|
    ensures ClearAt(files, MemberCheck(limits), i) <==> SoundAt(files, limits, i)
  {
    MemberPasses(files[i], Sum(files[..i], SizeOf), limits);
    assert files[..i + 1][..i] == files[..i];
  }

  lemma ScanPasses(files: seq<Member>, limits: Limits)
    ensures ScanFault(files, limits) == None <==> forall i: nat | i < |files| :: SoundAt(files, limits, i)
  {
    NoFault(files, MemberCheck(limits));
    forall i: nat | i < |files|
      ensures ClearAt(files, MemberCheck(limits), i) <==> SoundAt(files, limits, i)
    {
      PassesAt(files, limits, i);
    }
  }

  lemma {:induction false} PagesExactly(files: seq<Member>, m: Member)
    ensures m in Pages(files) <==> m in files && Publishable(m)
  {
    if files != [] {
      PagesExactly(files[..|files| - 1], m);
      assert files == files[..|files| - 1] + [files[|files| - 1]];
    }
  }

  /** A listing is accepted exactly if it has files and not too many, every member is sound, no sum of
      leading members passes the total, every charged group keeps the ratio and there is a page. */
  lemma AcceptedExactly(files: seq<Member>, limits: Limits, encrypted: bool, probe: Option<Member -> Bytes>)
    ensures Gate(files, limits, encrypted, probe).Accepted? <==>
            && 0 < |files| <= limits.members
            && (forall i: nat | i < |files| :: SoundAt(files, limits, i))
            && RatioHolds(Groups(files), limits.ratio, encrypted, probe)
            && exists m | m in files :: Publishable(m)
  {
    ScanPasses(files, limits);
    if Pages(files) != [] {
      PagesExactly(files, Pages(files)[0]);
    }
    forall m | m in files && Publishable(m)
      ensures Pages(files) != []
    {
      PagesExactly(files, m);
    }
  }

  /** An accepted archive unpacks to at most the total; and what its charged groups unpack to is at
      most the ratio times their packed sizes. */
  lemma AcceptedIsBounded(files: seq<Member>, limits: Limits, encrypted: bool, probe: Option<Member -> Bytes>)
    requires Gate(files, limits, encrypted, probe).Accepted?
    ensures forall m | m in files :: m.size <= limits.member
    ensures SumAll(Groups(files), SizeOf) == Sum(files, SizeOf) <= limits.total
    ensures ChargedSize(Groups(files), encrypted, probe) as real
            <= Product(limits.ratio, ChargedPacked(Groups(files), encrypted, probe))
  {
    forall m | m in files
      ensures m.size <= limits.member
    {
      AcceptedMember(files, limits, encrypted, probe, m);
      SoundMember(m, limits);
    }
    AcceptedTotal(files, limits, encrypted, probe);
    GroupsPartition(files, SizeOf);
    ExpansionIsBounded(Groups(files), limits.ratio, encrypted, probe);
  }

  lemma AcceptedTotal(files: seq<Member>, limits: Limits, encrypted: bool, probe: Option<Member -> Bytes>)
    requires Gate(files, limits, encrypted, probe).Accepted?
    ensures Sum(files, SizeOf) <= limits.total
  {
    AcceptedExactly(files, limits, encrypted, probe);
    assert SoundAt(files, limits, |files| - 1);
    assert files[..|files| - 1 + 1] == files;
  }

  lemma AcceptedMember(files: seq<Member>, limits: Limits, encrypted: bool, probe: Option<Member -> Bytes>, m: Member)
    requires Gate(files, limits, encrypted, probe).Accepted? && m in files
    ensures Sound(m, limits)
  {
    AcceptedExactly(files, limits, encrypted, probe);
    var i: nat :| i < |files| && files[i] == m;
    assert SoundAt(files, limits, i);
  }

  lemma SoundMember(m: Member, limits: Limits)
    requires Sound(m, limits)
    ensures m.size <= limits.member
    ensures Publishable(m) ==>
              || m.header == []
              || Detected(m.header).Some?
              || Suffix(PageName(m)) in {".avif", ".jxl"}
              || (Suffix(PageName(m)) == ".webp" && (RIFF <= m.header || |m.header| < 4))
  {}

  lemma PageOrder()
    ensures Sorting.TotalPreorder(PageLeq)
  {
    forall a, b, c
      ensures PageLeq(a, b) || PageLeq(b, a)
      ensures PageLeq(a, b) && PageLeq(b, c) ==> PageLeq(a, c)
    {
      KeyIsOrder(PageKey(a), PageKey(b), PageKey(c));
    }
  }

  /** The pages are the publishable members, each as often as it is listed, in natural order, and
      members with the same key stay in the order of the listing. */
  lemma PagesAreNatural(files: seq<Member>, limits: Limits, encrypted: bool, probe: Option<Member -> Bytes>)
    requires Gate(files, limits, encrypted, probe).Accepted?
    ensures var pages := Gate(files, limits, encrypted, probe).value;
            && pages != []
            && (forall m :: m in pages <==> m in files && Publishable(m))
            && multiset(pages) == multiset(Pages(files))
            && Sorting.Sorted(pages, PageLeq)
            && forall m :: Sorting.Ties(pages, m, PageLeq) == Sorting.Ties(Pages(files), m, PageLeq)
  {
    var found := Pages(files);
    PageOrder();
    Sorting.SortSorts(found, PageLeq);
    Sorting.SortKeepsElements(found, PageLeq);
    forall m
      ensures m in Sorting.Sort(found, PageLeq) <==> m in files && Publishable(m)
      ensures Sorting.Ties(Sorting.Sort(found, PageLeq), m, PageLeq) == Sorting.Ties(found, m, PageLeq)
    {
      PagesExactly(files, m);
      Sorting.SortIsStable(found, m, PageLeq);
    }
    assert |Sorting.Sort(found, PageLeq)| == |found|;
  }

  /** A page whose first bytes were seen and identify no image goes by a name without a fixed signature. */
  lemma PagesHoldImages(files: seq<Member>, limits: Limits, encrypted: bool, probe: Option<Member -> Bytes>, m: Member)
    requires Gate(files, limits, encrypted, probe).Accepted? && m in Gate(files, limits, encrypted, probe).value
    ensures || m.header == []
            || Detected(m.header).Some?
            || Suffix(PageName(m)) in {".avif", ".jxl"}
            || (Suffix(PageName(m)) == ".webp" && (RIFF <= m.header || |m.header| < 4))
  {
    PagesAreNatural(files, limits, encrypted, probe);
    AcceptedMember(files, limits, encrypted, probe, m);
    SoundMember(m, limits);
  }
}
