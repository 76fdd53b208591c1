/** Split archives: reading volume names, ordering the volumes and naming the missing ones. */
module Volumes {
  import opened Sequences
  import opened Text
  import opened Decimals
  import Sorting

  // ---------------------------------------------------------------- reading a file name

  /** `s` ends with `tail` under re.IGNORECASE; `tail` is written in lower case. */
  predicate EndsWith(s: string, tail: string) {
    |s| >= |tail| && forall i | 0 <= i < |tail| :: LowerChar(s[|s| - |tail| + i]) == tail[i]
  }

  /** `.+` in the name patterns. */
  predicate IsStem(s: string) {
    s != "" && '\n' !in s
  }

  /** `$` also matches before one trailing line feed. */
  function Body(name: string): string {
    if name != "" && name[|name| - 1] == '\n' then name[..|name| - 1] else name
  }

  /** The length of the run of digits at the end. */
  function DigitRun(s: string): (n: nat)
    ensures n <= |s| && forall i | |s| - n <= i < |s| :: IsDigit(s[i])
    ensures n < |s| ==> !IsDigit(s[|s| - n - 1])
  {
    if s == "" || !IsDigit(s[|s| - 1]) then 0 else DigitRun(s[..|s| - 1]) + 1
  }

  /** What a name pattern captures; the container is in lower case. */
  datatype Named = Named(stem: string, container: string, index: nat)

  function Container(s: string): Option<string> {
    if EndsWith(s, ".zip") then Some("zip")
    else if EndsWith(s, ".7z") then Some("7z")
    else if EndsWith(s, ".rar") then Some("rar")
    else None
  }

  /** `name.7z.001`. */
  function Numbered(name: string): Option<Named> {
    var b := Body(name);
    if |b| < 4 || b[|b| - 4] != '.' || !AllDigits(b[|b| - 3..]) then None
    else NumberedFrom(b[..|b| - 4], b[|b| - 3..])
  }

  function NumberedFrom(rest: string, digits: string): Option<Named>
    requires AllDigits(digits)
  {
    match Container(rest)
    case None => None
    case Some(c) =>
      var stem := rest[..|rest| - |c| - 1];
      if IsStem(stem) then Some(Named(stem, c, ValueOf(digits))) else None
  }

  /** `name.part1.rar`. */
  function RarPart(name: string): Option<Named> {
    var b := Body(name);
    if !EndsWith(b, ".rar") then None
    else
      var rest := b[..|b| - 4];
      var n := DigitRun(rest);
      var before := rest[..|rest| - n];
      if n == 0 || !EndsWith(before, ".part") || !IsStem(before[..|before| - 5]) then None
      else Some(Named(before[..|before| - 5], "rar", ValueOf(rest[|rest| - n..])))
  }

  /** `name.r00`, the volume after the leading `name.rar`. */
  function Legacy(name: string): Option<Named> {
    var b := Body(name);
    var n := DigitRun(b);
    LegacyFrom(b[..|b| - n], b[|b| - n..])
  }

  function LegacyFrom(before: string, digits: string): Option<Named>
    requires AllDigits(digits)
  {
    if |digits| < 2 || |digits| > 3 || !EndsWith(before, ".r") || !IsStem(before[..|before| - 2]) then None
    else Some(Named(before[..|before| - 2], "rar", ValueOf(digits) + 2))
  }

  /** A plain `.rar` or `.cbr`, by `Path.suffix`. */
  function Leading(name: string): Option<Named> {
    if |name| > 4 && (EndsWith(name, ".rar") || EndsWith(name, ".cbr"))
    then Some(Named(name[..|name| - 4], "rar", 1)) else None
  }

  /** The first pattern that fits, in the order both `volume_group` and `_volume_index` try them. */
  function Read(name: string): Option<Named> {
    if Numbered(name).Some? then Numbered(name)
    else if RarPart(name).Some? then RarPart(name)
    else if Legacy(name).Some? then Legacy(name)
    else Leading(name)
  }

  function GroupName(v: Named): string {
    v.stem + "." + v.container
  }

  /** `volume_group`. */
  function Group(name: string): Option<string> {
    if Read(name).Some? then Some(GroupName(Read(name).value)) else None
  }

  /** `_volume_index`. */
  function Index(name: string): Option<nat> {
    if Read(name).Some? then Some(Read(name).value.index) else None
  }

  // ----------------------------------------------------------------- printing a file name

  /** `_expected_volume_name`; the group is told by its two parts. */
  function Expected(stem: string, container: string, index: nat, legacy: bool): string
    requires index >= 1
  {
    if container == "rar" then
      if index == 1 then stem + ".rar"
      else if legacy then stem + ".r" + Padded(index - 2, 2)
      else stem + ".part" + Dec(index) + ".rar"
    else stem + "." + container + "." + Padded(index, 3)
  }

  /** `_expected_volume_name` of a whole group name, taken apart at its last dot. */
  function ExpectedVolumeName(group: string, index: nat, legacy: bool): string
    requires index >= 1
  {
    match LastDot(group)
    case None => Expected("", group, index, legacy)
    case Some(dot) => Expected(group[..dot], group[dot + 1..], index, legacy)
  }

  // -------------------------------------------------------------------- resolving volumes

  /** One candidate of the sibling scan. */
  datatype Volume = Volume(index: nat, name: string)

  predicate VolumeLeq(a: Volume, b: Volume) {
    a.index < b.index || (a.index == b.index && LexLeq(a.name, b.name))
  }

  /** What the scan makes of one file of the directory. */
  function Sibling(name: string, group: string): Option<Volume> {
    match Read(name)
    case None => if name == group then Some(Volume(1, name)) else None
    case Some(v) => if GroupName(v) == group then Some(Volume(v.index, name)) else None
  }

  function Siblings(directory: seq<string>, group: string): seq<Volume> {
    if directory == [] then []
    else
      var front := Siblings(directory[..|directory| - 1], group);
      match Sibling(directory[|directory| - 1], group)
      case None => front
      case Some(v) => front + [v]
  }

  function SortedVolumes(directory: seq<string>, group: string): seq<Volume> {
    Sorting.Sort(Siblings(directory, group), VolumeLeq)
  }

  function Names(volumes: seq<Volume>): seq<string> {
    seq(|volumes|, i requires 0 <= i < |volumes| => volumes[i].name)
  }

  /** The indexes that count: those read from the names, but for zero. */
  function Indexes(volumes: seq<Volume>): seq<nat> {
    if volumes == [] then []
    else
      var (front, last) := (Indexes(volumes[..|volumes| - 1]), volumes[|volumes| - 1]);
      if Index(last.name).Some? && Index(last.name).value != 0 then front + [Index(last.name).value] else front
  }

  function MaxOf(indexes: seq<nat>): (m: nat)
    ensures forall i | i in indexes :: i <= m
    ensures indexes != [] ==> m in indexes
  {
    if indexes == [] then 0
    else
      var (front, last) := (MaxOf(indexes[..|indexes| - 1]), indexes[|indexes| - 1]);
      assert indexes == indexes[..|indexes| - 1] + [last];
      if last >= front then last else front
  }

  /** The numbers from 1 to `n` that are not present, ascending. */
  function MissingUpTo(present: seq<nat>, n: nat): (missing: seq<nat>)
    ensures forall i | 0 <= i < |missing| :: 1 <= missing[i] <= n
  {
    if n == 0 then [] else MissingUpTo(present, n - 1) + if n in present then [] else [n]
  }

  function MissingIndexes(volumes: seq<Volume>): seq<nat> {
    MissingUpTo(Indexes(volumes), MaxOf(Indexes(volumes)))
  }

  predicate AnyLegacy(volumes: seq<Volume>) {
    exists v | v in volumes :: Legacy(v.name).Some?
  }

  function MissingNames(group: string, missing: seq<nat>, legacy: bool): seq<string>
    requires forall i | 0 <= i < |missing| :: 1 <= missing[i]
  {
    seq(|missing|, i requires 0 <= i < |missing| => ExpectedVolumeName(group, missing[i], legacy))
  }

  function Resolution(directory: seq<string>, name: string): (seq<string>, seq<string>) {
    match Group(name)
    case None => ([name], [])
    case Some(group) =>
      var volumes := SortedVolumes(directory, group);
      if volumes == [] then ([name], [])
      else (Names(volumes), MissingNames(group, MissingIndexes(volumes), AnyLegacy(volumes)))
  }

  method SiblingVolumes(directory: seq<string>, group: string) returns (volumes: seq<Volume>)
    ensures volumes == SortedVolumes(directory, group)
  {
    var candidates: seq<Volume> := [];
    for i := 0 to |directory|
      invariant candidates == Siblings(directory[..i], group)
    {
      assert directory[..i + 1][..i] == directory[..i];
      var sibling := directory[i];
      var siblingGroup := Group(sibling);
      if siblingGroup.None? {
        if sibling == group {
          candidates := candidates + [Volume(1, sibling)];
        }
      } else if siblingGroup.value == group {
        var index := Index(sibling);
        if index.Some? {
          candidates := candidates + [Volume(index.value, sibling)];
        }
      }
    }
    assert directory[..|directory|] == directory;
    volumes := Sorting.Sort(candidates, VolumeLeq);
  }

  /** `resolve_volumes`. */
  method ResolveVolumes(directory: seq<string>, name: string) returns (ordered: seq<string>, missing: seq<string>)
    ensures (ordered, missing) == Resolution(directory, name)
  {
    var group := Group(name);
    if group.None? {
      return [name], [];
    }
    var volumes := SiblingVolumes(directory, group.value);
    if volumes == [] {
      return [name], [];
    }
    var indexes := CollectIndexes(volumes);
    missing := NameMissing(group.value, indexes, AnyLegacy(volumes));
    ordered := Names(volumes);
  }

  method CollectIndexes(volumes: seq<Volume>) returns (indexes: seq<nat>)
    ensures indexes == Indexes(volumes)
  {
    indexes := [];
    for i := 0 to |volumes|
      invariant indexes == Indexes(volumes[..i])
    {
      assert volumes[..i + 1][..i] == volumes[..i];
      var index := Index(volumes[i].name);
      if index.Some? && index.value != 0 {
        indexes := indexes + [index.value];
      }
    }
    assert volumes[..|volumes|] == volumes;
  }

  /** The loop over 1 to the highest index. */
  method NameMissing(group: string, indexes: seq<nat>, legacy: bool) returns (missing: seq<string>)
    ensures missing == MissingNames(group, MissingUpTo(indexes, MaxOf(indexes)), legacy)
  {
    missing := [];
    ghost var found: seq<nat> := [];
    for index := 1 to MaxOf(indexes) + 1
      invariant found == MissingUpTo(indexes, index - 1)
      invariant missing == MissingNames(group, found, legacy)
    {
      if index !in indexes {
        found := found + [index];
        missing := missing + [ExpectedVolumeName(group, index, legacy)];
      }
    }
  }

  // --------------------------------------------------------------- entry independence

  lemma VolumeOrder()
    ensures Sorting.TotalPreorder(VolumeLeq)
    ensures forall a, b | VolumeLeq(a, b) && VolumeLeq(b, a) :: a == b
  {
    forall a, b, c
      ensures VolumeLeq(a, b) || VolumeLeq(b, a)
      ensures VolumeLeq(a, b) && VolumeLeq(b, a) ==> a == b
      ensures VolumeLeq(a, b) && VolumeLeq(b, c) ==> VolumeLeq(a, c)
    {
      LexIsOrder(a.name, b.name, c.name);
    }
  }

  lemma {:induction false} SiblingsExactly(directory: seq<string>, group: string, v: Volume)
    ensures v in Siblings(directory, group) <==> v.name in directory && Sibling(v.name, group) == Some(v)
  {
    if directory != [] {
      SiblingsExactly(directory[..|directory| - 1], group, v);
      assert directory == directory[..|directory| - 1] + [directory[|directory| - 1]];
    }
  }

  lemma {:induction false} SiblingsOnce(directory: seq<string>, group: string, v: Volume)
    requires Distinct(directory)
    ensures multiset(Siblings(directory, group))[v]
            == if v.name in directory && Sibling(v.name, group) == Some(v) then 1 else 0
  {
    if directory != [] {
      var front, last := directory[..|directory| - 1], directory[|directory| - 1];
      SiblingsOnce(front, group, v);
      assert directory == front + [last] && last !in front;
    }
  }

  /** Two listings of one directory, in any order, and any two members of one volume group in it: the
      ordered volumes and the missing names come out the same. */
  lemma ResolutionIsEntryIndependent(d1: seq<string>, d2: seq<string>, p: string, q: string)
    requires Distinct(d1) && Distinct(d2) && forall name :: name in d1 <==> name in d2
    requires p in d1 && q in d2 && Group(p).Some? && Group(p) == Group(q)
    ensures Resolution(d1, p) == Resolution(d2, q)
  {
    var group := Group(p).value;
    var a, b := Siblings(d1, group), Siblings(d2, group);
    forall v
      ensures multiset(a)[v] == multiset(b)[v]
    {
      SiblingsOnce(d1, group, v);
      SiblingsOnce(d2, group, v);
    }
    assert multiset(a) == multiset(b);
    VolumeOrder();
    Sorting.SortSorts(a, VolumeLeq);
    Sorting.SortSorts(b, VolumeLeq);
    Sorting.SortKeepsElements(a, VolumeLeq);
    Sorting.SortKeepsElements(b, VolumeLeq);
    Sorting.SortedIsUnique(SortedVolumes(d1, group), SortedVolumes(d2, group), VolumeLeq);
    SiblingsExactly(d1, group, Volume(Index(p).value, p));
    SiblingsExactly(d2, group, Volume(Index(q).value, q));
  }

  lemma {:induction false} MissingExactly(present: seq<nat>, n: nat, i: nat)
    ensures i in MissingUpTo(present, n) <==> 1 <= i <= n && i !in present
  {
    if n > 0 {
      MissingExactly(present, n - 1, i);
    }
  }

  lemma {:induction false} MissingAscends(present: seq<nat>, n: nat)
    ensures forall j, k | 0 <= j < k < |MissingUpTo(present, n)| ::
              MissingUpTo(present, n)[j] < MissingUpTo(present, n)[k]
  {
    if n > 0 {
      MissingAscends(present, n - 1);
    }
  }

  lemma {:induction false} IndexesExactly(volumes: seq<Volume>, i: nat)
    ensures i in Indexes(volumes) <==> i != 0 && exists v | v in volumes :: Index(v.name) == Some(i)
  {
    if volumes != [] {
      var front, last := volumes[..|volumes| - 1], volumes[|volumes| - 1];
      IndexesExactly(front, i);
      assert volumes == front + [last];
    }
  }

  /** A file of the directory carries index `i` of the group. */
  ghost predicate Has(directory: seq<string>, group: string, i: nat) {
    exists name | name in directory ::
      Read(name).Some? && GroupName(Read(name).value) == group && Read(name).value.index == i
  }

  /** The volumes are sorted by index and then name, and are exactly the group's files (a file that
      merely is called like the group stands first). */
  lemma VolumesExactly(directory: seq<string>, group: string)
    ensures Sorting.Sorted(SortedVolumes(directory, group), VolumeLeq)
    ensures forall v ::
              v in SortedVolumes(directory, group) <==> v.name in directory && Sibling(v.name, group) == Some(v)
    ensures forall i :: i in Indexes(SortedVolumes(directory, group)) <==> i != 0 && Has(directory, group, i)
  {
    var volumes := SortedVolumes(directory, group);
    VolumeOrder();
    Sorting.SortSorts(Siblings(directory, group), VolumeLeq);
    Sorting.SortKeepsElements(Siblings(directory, group), VolumeLeq);
    forall v
      ensures v in volumes <==> v.name in directory && Sibling(v.name, group) == Some(v)
    {
      SiblingsExactly(directory, group, v);
    }
    forall i
      ensures i in Indexes(volumes) <==> i != 0 && Has(directory, group, i)
    {
      IndexesExactly(volumes, i);
      if i != 0 && Has(directory, group, i) {
        var name :| name in directory && Read(name).Some? && GroupName(Read(name).value) == group
                    && Read(name).value.index == i;
        assert Volume(i, name) in volumes;
      }
    }
  }
}
