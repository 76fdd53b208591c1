/** The names reported for missing volumes, read back: adding those files closes the gap. */
module VolumeGaps {
  import opened Sequences
  import opened Text
  import opened Decimals
  import opened Volumes

  // ------------------------------------------------------------ reading what was printed

  lemma {:induction false} DigitRunOf(before: string, digits: string)
    requires AllDigits(digits) && (before == "" || !IsDigit(before[|before| - 1]))
    ensures DigitRun(before + digits) == |digits|
  {
    var s := before + digits;
    if digits != "" {
      var front := digits[..|digits| - 1];
      DigitRunOf(before, front);
      assert s[..|s| - 1] == before + front && s[|s| - 1] == digits[|digits| - 1];
    } else {
      assert s == before;
    }
  }

  lemma Cut(a: string, b: string)
    ensures (a + b)[..|a|] == a && (a + b)[|a|..] == b && |a + b| == |a| + |b|
    ensures b != "" ==> (a + b)[|a + b| - 1] == b[|b| - 1]
  {}

  lemma BodyIsWhole(name: string)
    requires name != "" && name[|name| - 1] != '\n'
    ensures Body(name) == name
  {}

  predicate IsLowerCase(tail: string) {
    forall i | 0 <= i < |tail| :: LowerChar(tail[i]) == tail[i]
  }

  lemma TailsAreLowerCase()
    ensures IsLowerCase(".zip") && IsLowerCase(".7z") && IsLowerCase(".rar")
    ensures IsLowerCase(".part") && IsLowerCase(".r")
  {}

  lemma EndsWithOwnTail(s: string, tail: string)
    requires IsLowerCase(tail)
    ensures EndsWith(s + tail, tail)
  {
    forall i | 0 <= i < |tail|
      ensures LowerChar((s + tail)[|s| + i]) == tail[i]
    {
      assert (s + tail)[|s| + i] == tail[i];
    }
  }

  lemma OtherLastChar(s: string, tail: string)
    requires s != "" && tail != "" && LowerChar(s[|s| - 1]) != tail[|tail| - 1]
    ensures !EndsWith(s, tail)
  {
    var i := |tail| - 1;
    if |s| >= |tail| {
      assert s[|s| - |tail| + i] == s[|s| - 1];
    }
  }

  lemma ContainerReads(stem: string, container: string)
    requires container in {"zip", "7z", "rar"}
    ensures Container(stem + ("." + container)) == Some(container)
  {
    if container == "zip" {
      assert "." + container == ".zip";
      ZipReads(stem);
    } else if container == "7z" {
      assert "." + container == ".7z";
      SevenReads(stem);
    } else {
      assert "." + container == ".rar";
      RarReads(stem);
    }
  }

  lemma ZipReads(stem: string)
    ensures Container(stem + ".zip") == Some("zip")
  {
    TailsAreLowerCase();
    EndsWithOwnTail(stem, ".zip");
  }

  lemma SevenReads(stem: string)
    ensures Container(stem + ".7z") == Some("7z")
  {
    TailsAreLowerCase();
    EndsWithOwnTail(stem, ".7z");
    Cut(stem, ".7z");
    OtherLastChar(stem + ".7z", ".zip");
  }

  lemma RarReads(stem: string)
    ensures Container(stem + ".rar") == Some("rar")
  {
    TailsAreLowerCase();
    EndsWithOwnTail(stem, ".rar");
    Cut(stem, ".rar");
    OtherLastChar(stem + ".rar", ".zip");
    OtherLastChar(stem + ".rar", ".7z");
  }

  lemma Regroup(a: string, b: string, c: string, d: string, e: string)
    ensures a + b + c + d + e == a + (b + c) + (d + e)
  {}

  lemma NumberedSplits(rest: string, digits: string)
    requires AllDigits(digits) && |digits| == 3
    ensures var name := rest + ("." + digits);
            && Body(name) == name && |name| == |rest| + 4
            && name[..|name| - 4] == rest && name[|name| - 3..] == digits && name[|name| - 4] == '.'
  {
    Cut(rest, "." + digits);
    BodyIsWhole(rest + ("." + digits));
  }

  lemma NumberedFromReads(stem: string, container: string, digits: string)
    requires IsStem(stem) && container in {"zip", "7z", "rar"} && AllDigits(digits)
    ensures NumberedFrom(stem + ("." + container), digits) == Some(Named(stem, container, ValueOf(digits)))
  {
    ContainerReads(stem, container);
    Cut(stem, "." + container);
  }

  lemma NumberedReads(stem: string, container: string, index: nat)
    requires IsStem(stem) && container in {"zip", "7z", "rar"} && index <= 999
    ensures Read(stem + "." + container + "." + Padded(index, 3)) == Some(Named(stem, container, index))
  {
    var digits := Padded(index, 3);
    DecLength(index);
    PaddedRoundTrip(index, 3);
    Regroup(stem, ".", container, ".", digits);
    NumberedSplits(stem + ("." + container), digits);
    NumberedFromReads(stem, container, digits);
  }

  /** A name that ends in a letter is not numbered, nor is one of the legacy series. */
  lemma LetterEndIsNoNumeral(name: string)
    requires name != "" && name[|name| - 1] != '\n' && !IsDigit(name[|name| - 1])
    ensures Numbered(name) == None && Legacy(name) == None
  {
    BodyIsWhole(name);
    if |name| >= 4 {
      assert name[|name| - 3..][2] == name[|name| - 1];
    }
    assert DigitRun(name) == 0;
  }

  lemma RarPartReads(stem: string, digits: string)
    requires IsStem(stem) && AllDigits(digits) && digits != ""
    ensures RarPart(stem + ".part" + digits + ".rar") == Some(Named(stem, "rar", ValueOf(digits)))
  {
    var before := stem + ".part";
    var rest := before + digits;
    TailsAreLowerCase();
    Cut(rest, ".rar");
    BodyIsWhole(rest + ".rar");
    EndsWithOwnTail(rest, ".rar");
    PartBefore(stem, digits);
  }

  lemma PartBefore(stem: string, digits: string)
    requires AllDigits(digits) && digits != ""
    ensures var before := stem + ".part";
            var rest := before + digits;
            && DigitRun(rest) == |digits| && rest[..|rest| - |digits|] == before && rest[|rest| - |digits|..] == digits
            && EndsWith(before, ".part") && before[..|before| - 5] == stem
  {
    var before := stem + ".part";
    TailsAreLowerCase();
    Cut(stem, ".part");
    DigitRunOf(before, digits);
    Cut(before, digits);
    EndsWithOwnTail(stem, ".part");
  }

  lemma PartReads(stem: string, index: nat)
    requires IsStem(stem)
    ensures Read(stem + ".part" + Dec(index) + ".rar") == Some(Named(stem, "rar", index))
  {
    RarPartReads(stem, Dec(index));
    DecRoundTrip(index);
    Cut(stem + ".part" + Dec(index), ".rar");
    LetterEndIsNoNumeral(stem + ".part" + Dec(index) + ".rar");
  }

  /** A name that ends in a digit is no `.rar`, and is numbered only if its last three are digits. */
  lemma DigitEndIsNoRar(name: string)
    requires name != "" && IsDigit(name[|name| - 1])
    ensures RarPart(name) == None && Leading(name) == None
  {
    BodyIsWhole(name);
    OtherLastChar(name, ".rar");
    OtherLastChar(name, ".cbr");
  }

  lemma LegacyCut(stem: string, digits: string)
    requires AllDigits(digits) && digits != ""
    ensures Legacy(stem + ".r" + digits) == LegacyFrom(stem + ".r", digits)
  {
    var name := stem + ".r" + digits;
    assert Body(name) == name by {
      Cut(stem + ".r", digits);
      BodyIsWhole(name);
    }
    LegacyBefore(stem, digits);
  }

  lemma LegacySplits(stem: string, digits: string)
    requires IsStem(stem) && AllDigits(digits) && |digits| >= 2
    ensures LegacyFrom(stem + ".r", digits)
            == if |digits| <= 3 then Some(Named(stem, "rar", ValueOf(digits) + 2)) else None
  {
    LegacyBefore(stem, digits);
    SplitAt(stem, stem + ".r", digits);
  }

  lemma SplitAt(stem: string, before: string, digits: string)
    requires IsStem(stem) && AllDigits(digits) && |digits| >= 2
    requires EndsWith(before, ".r") && before[..|before| - 2] == stem
    ensures LegacyFrom(before, digits)
            == if |digits| <= 3 then Some(Named(stem, "rar", ValueOf(digits) + 2)) else None
  {}

  lemma LegacyBefore(stem: string, digits: string)
    requires AllDigits(digits) && digits != ""
    ensures var before := stem + ".r";
            var rest := before + digits;
            && DigitRun(rest) == |digits| && rest[..|rest| - |digits|] == before && rest[|rest| - |digits|..] == digits
            && EndsWith(before, ".r") && before[..|before| - 2] == stem
  {
    var before := stem + ".r";
    TailsAreLowerCase();
    Cut(stem, ".r");
    DigitRunOf(before, digits);
    Cut(before, digits);
    EndsWithOwnTail(stem, ".r");
  }

  lemma LegacyIsNotNumbered(before: string, digits: string)
    requires before != "" && before[|before| - 1] == 'r' && AllDigits(digits) && |digits| >= 2
    ensures Numbered(before + digits) == None
  {
    var name := before + digits;
    Cut(before, digits);
    BodyIsWhole(name);
    if |name| >= 4 {
      if |digits| == 2 {
        assert name[|name| - 3..][0] == name[|before| - 1] == 'r';
      } else if |digits| == 3 {
        assert name[|name| - 4] == name[|before| - 1] == 'r';
      } else {
        assert name[|name| - 4] == digits[|digits| - 4];
      }
    }
  }

  /** A name in the style of the legacy series, with any run of digits. */
  lemma LegacyReads(stem: string, digits: string)
    requires IsStem(stem) && AllDigits(digits) && |digits| >= 2
    ensures Read(stem + ".r" + digits) == if |digits| <= 3 then Some(Named(stem, "rar", ValueOf(digits) + 2)) else None
  {
    var before := stem + ".r";
    Cut(stem, ".r");
    Cut(before, digits);
    LegacyCut(stem, digits);
    LegacySplits(stem, digits);
    LegacyIsNotNumbered(before, digits);
    DigitEndIsNoRar(before + digits);
  }

  /** The leading `.rar` reads as volume 1 of its own group, unless it looks like a numbered part. */
  lemma LeadingReads(stem: string)
    requires IsStem(stem)
    ensures RarPart(stem + ".rar") == None ==> Read(stem + ".rar") == Some(Named(stem, "rar", 1))
    ensures RarPart(stem + ".rar") != None ==>
              Read(stem + ".rar").Some? && GroupName(Read(stem + ".rar").value) != stem + ".rar"
  {
    var name := stem + ".rar";
    Cut(stem, ".rar");
    LetterEndIsNoNumeral(name);
    TailsAreLowerCase();
    EndsWithOwnTail(stem, ".rar");
    if RarPart(name) != None {
      BodyIsWhole(name);
      assert |GroupName(RarPart(name).value)| < |name|;
    }
  }

  // ---------------------------------------------------------------- groups and their parts

  /** What is known of anything read from a name. */
  lemma ReadParts(name: string)
    requires Read(name).Some?
    ensures var v := Read(name).value;
            && v.stem != "" && v.container in {"zip", "7z", "rar"}
            && (v.index > 1 ==> '\n' !in v.stem)
            && (v.container != "rar" ==> v.index <= 999 && '\n' !in v.stem)
  {
    if Numbered(name).Some? {
      var b := Body(name);
      ValueBound(b[|b| - 3..]);
    }
  }

  lemma {:induction false} LastDotOf(stem: string, container: string)
    requires '.' !in container
    ensures LastDot(stem + "." + container) == Some(|stem|)
  {
    var s := stem + "." + container;
    if container != "" {
      var front := container[..|container| - 1];
      LastDotOf(stem, front);
      assert s[..|s| - 1] == stem + "." + front && s[|s| - 1] == container[|container| - 1];
      assert s[|s| - 1] in container;
    } else {
      assert s == stem + ".";
    }
  }

  lemma ExpectedFromGroup(stem: string, container: string, index: nat, legacy: bool)
    requires container in {"zip", "7z", "rar"} && index >= 1
    ensures ExpectedVolumeName(stem + "." + container, index, legacy) == Expected(stem, container, index, legacy)
  {
    LastDotOf(stem, container);
    var group := stem + "." + container;
    assert group[..|stem|] == stem && group[|stem| + 1..] == container;
  }

  /** A missing index whose reported name is not read back as that volume. */
  predicate Unreadable(group: string, index: nat, legacy: bool) {
    && EndsWith(group, ".rar")
    && ((index == 1 && RarPart(group).Some?) || (legacy && index > 1001))
  }

  lemma ExpectedRarReads(stem: string, index: nat, legacy: bool)
    requires IsStem(stem) && index >= 1
    ensures var (group, name) := (stem + ".rar", Expected(stem, "rar", index, legacy));
            if Unreadable(group, index, legacy)
            then Read(name).Some? ==> GroupName(Read(name).value) != group
            else Read(name) == Some(Named(stem, "rar", index))
  {
    TailsAreLowerCase();
    EndsWithOwnTail(stem, ".rar");
    if index == 1 {
      LeadingReads(stem);
    } else if legacy {
      DecLength(index - 2);
      PaddedRoundTrip(index - 2, 2);
      LegacyReads(stem, Padded(index - 2, 2));
    } else {
      PartReads(stem, index);
    }
  }

  lemma NumberedGroupIsNoRar(stem: string, container: string)
    requires container in {"zip", "7z"}
    ensures !EndsWith(stem + "." + container, ".rar")
  {
    Assoc(stem, ".", container);
    Cut(stem, "." + container);
    OtherLastChar(stem + ("." + container), ".rar");
  }

  lemma ExpectedNumberedReads(stem: string, container: string, index: nat, legacy: bool)
    requires IsStem(stem) && container in {"zip", "7z"} && 1 <= index <= 999
    ensures Read(Expected(stem, container, index, legacy)) == Some(Named(stem, container, index))
  {
    assert container != "rar";
    NumberedReads(stem, container, index);
  }

  lemma ExpectedReads(stem: string, container: string, index: nat, legacy: bool)
    requires stem != "" && '\n' !in stem && container in {"zip", "7z", "rar"} && index >= 1
    requires container != "rar" ==> index <= 999
    ensures var group := stem + "." + container;
            var name := ExpectedVolumeName(group, index, legacy);
            if Unreadable(group, index, legacy)
            then Read(name).Some? ==> GroupName(Read(name).value) != group
            else Read(name) == Some(Named(stem, container, index))
  {
    ExpectedFromGroup(stem, container, index, legacy);
    if container == "rar" {
      Assoc(stem, ".", "rar");
      assert "." + "rar" == ".rar";
      ExpectedRarReads(stem, index, legacy);
    } else {
      NumberedGroupIsNoRar(stem, container);
      ExpectedNumberedReads(stem, container, index, legacy);
    }
  }

  // ------------------------------------------------------------------------ closing gaps

  function Added(directory: seq<string>, names: seq<string>): seq<string> {
    if names == [] then directory
    else
      var before := Added(directory, names[..|names| - 1]);
      if names[|names| - 1] in before then before else before + [names[|names| - 1]]
  }

  lemma {:induction false} AddedExactly(directory: seq<string>, names: seq<string>, name: string)
    ensures name in Added(directory, names) <==> name in directory || name in names
  {
    if names != [] {
      AddedExactly(directory, names[..|names| - 1], name);
      assert names == names[..|names| - 1] + [names[|names| - 1]];
    }
  }

  function Missing(directory: seq<string>, name: string): seq<nat> {
    if Group(name).None? then [] else MissingIndexes(SortedVolumes(directory, Group(name).value))
  }

  function ReportsLegacy(directory: seq<string>, name: string): bool {
    Group(name).Some? && AnyLegacy(SortedVolumes(directory, Group(name).value))
  }

  lemma MissingIsGap(directory: seq<string>, name: string, i: nat)
    requires Group(name).Some?
    ensures var group := Group(name).value;
            && (i in Missing(directory, name) <==>
                1 <= i && !Has(directory, group, i) && exists top :: top > i && Has(directory, group, top))
  {
    var group := Group(name).value;
    var indexes := Indexes(SortedVolumes(directory, group));
    VolumesExactly(directory, group);
    MissingExactly(indexes, MaxOf(indexes), i);
    if i in Missing(directory, name) {
      assert Has(directory, group, MaxOf(indexes));
    }
  }

  /** A volume with a higher index tells the group's parts. */
  lemma GroupOf(directory: seq<string>, group: string, top: nat) returns (stem: string, container: string)
    requires top > 1 && Has(directory, group, top)
    ensures IsStem(stem) && container in {"zip", "7z", "rar"} && group == stem + "." + container
    ensures container != "rar" ==> top <= 999
  {
    var name :| name in directory && Read(name).Some? && GroupName(Read(name).value) == group
                && Read(name).value.index == top;
    ReadParts(name);
    stem, container := Read(name).value.stem, Read(name).value.container;
  }

  /** The missing volume's reported name, once added, is that volume or none of the group. */
  lemma ReportedNameReads(directory: seq<string>, name: string, i: nat)
    requires Group(name).Some? && i in Missing(directory, name)
    ensures var (group, legacy) := (Group(name).value, ReportsLegacy(directory, name));
            var added := ExpectedVolumeName(group, i, legacy);
            if Unreadable(group, i, legacy)
            then Read(added).Some? ==> GroupName(Read(added).value) != group
            else Read(added).Some? && GroupName(Read(added).value) == group && Read(added).value.index == i
  {
    var group := Group(name).value;
    MissingIsGap(directory, name, i);
    var top :| top > i && Has(directory, group, top);
    var stem, container := GroupOf(directory, group, top);
    ExpectedReads(stem, container, i, ReportsLegacy(directory, name));
  }

  lemma ReportedNames(directory: seq<string>, name: string)
    requires name in directory && Group(name).Some?
    ensures var missing := Missing(directory, name);
            var names := Resolution(directory, name).1;
            && |names| == |missing|
            && forall k | 0 <= k < |missing| ::
                 && missing[k] >= 1
                 && names[k] == ExpectedVolumeName(Group(name).value, missing[k], ReportsLegacy(directory, name))
  {
    var group := Group(name).value;
    VolumesExactly(directory, group);
    assert Volume(Index(name).value, name) in SortedVolumes(directory, group);
  }

  /** After adding the reported names, index `i` is there exactly if it was before or was reported
      under a name that reads back. */
  lemma HasAfterAdding(directory: seq<string>, name: string, i: nat)
    requires name in directory && Group(name).Some?
    ensures var (group, legacy) := (Group(name).value, ReportsLegacy(directory, name));
            var after := Added(directory, Resolution(directory, name).1);
            Has(after, group, i) <==>
            Has(directory, group, i) || (i in Missing(directory, name) && !Unreadable(group, i, legacy))
  {
    var group, legacy := Group(name).value, ReportsLegacy(directory, name);
    var missing, names := Missing(directory, name), Resolution(directory, name).1;
    var after := Added(directory, names);
    ReportedNames(directory, name);
    if Has(after, group, i) {
      var file :| file in after && Read(file).Some? && GroupName(Read(file).value) == group
                  && Read(file).value.index == i;
      AddedExactly(directory, names, file);
      if file !in directory {
        var k :| 0 <= k < |names| && names[k] == file;
        assert missing[k] in missing;
        ReportedNameReads(directory, name, missing[k]);
      }
    }
    if Has(directory, group, i) {
      var file :| file in directory && Read(file).Some? && GroupName(Read(file).value) == group
                  && Read(file).value.index == i;
      AddedExactly(directory, names, file);
    }
    if i in missing && !Unreadable(group, i, legacy) {
      ReportedNameReads(directory, name, i);
      var k :| 0 <= k < |missing| && missing[k] == i;
      AddedExactly(directory, names, names[k]);
    }
  }

  /** Adding files with exactly the reported names makes the next report empty, exactly unless one of
      them cannot be read back: the first volume of a series whose own name looks like a numbered part,
      or a legacy volume beyond `.r999`. */
  lemma GapReportClosesTheGap(directory: seq<string>, name: string)
    requires name in directory
    ensures var after := Added(directory, Resolution(directory, name).1);
            Resolution(after, name).1 == []
            <==> forall i | i in Missing(directory, name) ::
                   !Unreadable(Group(name).value, i, ReportsLegacy(directory, name))
  {
    if Group(name).Some? {
      var names := Resolution(directory, name).1;
      var after := Added(directory, names);
      AddedExactly(directory, names, name);
      ReportedNames(after, name);
      forall i
        ensures i in Missing(after, name) <==>
                i in Missing(directory, name) && Unreadable(Group(name).value, i, ReportsLegacy(directory, name))
      {
        GapAfterAdding(directory, name, i);
      }
      if Missing(after, name) != [] {
        assert Missing(after, name)[0] in Missing(after, name);
      }
    }
  }

  lemma GapAfterAdding(directory: seq<string>, name: string, i: nat)
    requires name in directory && Group(name).Some?
    ensures i in Missing(Added(directory, Resolution(directory, name).1), name) <==>
            i in Missing(directory, name) && Unreadable(Group(name).value, i, ReportsLegacy(directory, name))
  {
    var group := Group(name).value;
    var after := Added(directory, Resolution(directory, name).1);
    MissingIsGap(directory, name, i);
    MissingIsGap(after, name, i);
    HasAfterAdding(directory, name, i);
    if i in Missing(after, name) {
      var top :| top > i && Has(after, group, top);
      HasAfterAdding(directory, name, top);
      MissingIsGap(directory, name, top);
    }
    if i in Missing(directory, name) {
      var top :| top > i && Has(directory, group, top);
      HasAfterAdding(directory, name, top);
    }
  }

  lemma SecondPartAlone(name: string)
    requires Read(name).Some? && Read(name).value.index == 2
    requires Unreadable(GroupName(Read(name).value), 1, false)
    ensures Resolution(Added([name], Resolution([name], name).1), name).1 != []
  {
    assert name in [name];
    assert Has([name], Group(name).value, 2);
    MissingIsGap([name], name, 1);
    assert Unreadable(Group(name).value, 1, ReportsLegacy([name], name));
    GapReportClosesTheGap([name], name);
  }

  lemma NoLineFeed(stem: string, digits: string)
    requires IsStem(stem) && AllDigits(digits)
    ensures IsStem(stem + ".part" + digits)
  {
    assert '\n' !in ".part";
    assert '\n' !in digits;
  }

  /** The inputs that fail: with only the second part of `a.part1` on disk, `a.part1.rar` is reported
      missing, is read as part 1 of `a` once it is there, and so is reported again. */
  lemma PartOfAPartStaysOpen(stem: string, digits: string)
    requires stem != "" && '\n' !in stem && AllDigits(digits) && digits != ""
    ensures var name := stem + ".part" + digits + ".part" + Dec(2) + ".rar";
            Resolution(Added([name], Resolution([name], name).1), name).1 != []
  {
    var first := stem + ".part" + digits;
    NoLineFeed(stem, digits);
    PartReads(first, 2);
    SecondPartOf(first, stem, digits);
    SecondPartAlone(first + ".part" + Dec(2) + ".rar");
  }

  lemma SecondPartOf(first: string, stem: string, digits: string)
    requires IsStem(stem) && AllDigits(digits) && digits != "" && first == stem + ".part" + digits
    ensures Unreadable(GroupName(Named(first, "rar", 2)), 1, false)
  {
    RarGroup(first, 2);
    RarPartReads(stem, digits);
  }

  lemma RarGroup(stem: string, index: nat)
    ensures GroupName(Named(stem, "rar", index)) == stem + ".rar" && EndsWith(stem + ".rar", ".rar")
  {
    Assoc(stem, ".", "rar");
    assert "." + "rar" == ".rar";
    assert IsLowerCase(".rar");
    EndsWithOwnTail(stem, ".rar");
  }

  /** The other inputs that fail: next to a volume in the old style and one part far enough along, the
      1002nd volume is reported as `.r1000`, which no pattern reads. */
  lemma BeyondR999StaysOpen(stem: string, top: nat)
    requires stem != "" && '\n' !in stem && top > 1002
    ensures var name := stem + ".r00";
            var directory := [name, stem + ".part" + Dec(top) + ".rar"];
            Resolution(Added(directory, Resolution(directory, name).1), name).1 != []
  {
    FirstOldStyle(stem);
    PartReads(stem, top);
    TwoStyles(stem, stem + ".r00", stem + ".part" + Dec(top) + ".rar", top);
  }

  lemma FirstOldStyle(stem: string)
    requires IsStem(stem)
    ensures Read(stem + ".r00") == Some(Named(stem, "rar", 2)) && Legacy(stem + ".r00").Some?
  {
    TwoZeros();
    SecondLegacyReads(stem, "00");
    Assoc(stem, ".r", "00");
    assert ".r" + "00" == ".r00";
  }

  lemma TwoZeros()
    ensures AllDigits("00") && ValueOf("00") == 0
  {
    assert "00"[..1] == "0" && "0"[..0] == "";
  }

  lemma TwoStyles(stem: string, name: string, part: string, top: nat)
    requires Read(name) == Some(Named(stem, "rar", 2)) && Legacy(name).Some?
    requires Read(part) == Some(Named(stem, "rar", top)) && top > 1002
    ensures Resolution(Added([name, part], Resolution([name, part], name).1), name).1 != []
  {
    RarGroup(stem, 2);
    RarGroup(stem, top);
    LegacyThenPart([name, part], name, part);
  }

  lemma SecondLegacyReads(stem: string, digits: string)
    requires IsStem(stem) && AllDigits(digits) && |digits| == 2
    ensures Read(stem + ".r" + digits) == Some(Named(stem, "rar", ValueOf(digits) + 2))
    ensures Legacy(stem + ".r" + digits).Some?
  {
    LegacyReads(stem, digits);
    LegacyCut(stem, digits);
    LegacySplits(stem, digits);
  }

  lemma LegacyThenPart(directory: seq<string>, name: string, part: string)
    requires name in directory && part in directory && forall file | file in directory :: file in {name, part}
    requires Read(name).Some? && Legacy(name).Some? && Read(name).value.index == 2
    requires Read(part).Some? && Read(part).value.index > 1002 && Group(part) == Group(name)
    requires EndsWith(Group(name).value, ".rar")
    ensures Resolution(Added(directory, Resolution(directory, name).1), name).1 != []
  {
    NoneBetween(directory, name, part);
    LegacyIsReported(directory, name);
    assert Unreadable(Group(name).value, 1002, ReportsLegacy(directory, name));
    GapReportClosesTheGap(directory, name);
  }

  lemma NoneBetween(directory: seq<string>, name: string, part: string)
    requires part in directory && forall file | file in directory :: file in {name, part}
    requires Read(name).Some? && Read(name).value.index == 2
    requires Read(part).Some? && Read(part).value.index > 1002 && Group(part) == Group(name)
    ensures 1002 in Missing(directory, name)
  {
    assert Has(directory, Group(name).value, Read(part).value.index);
    MissingIsGap(directory, name, 1002);
  }

  lemma LegacyIsReported(directory: seq<string>, name: string)
    requires name in directory && Read(name).Some? && Legacy(name).Some?
    ensures ReportsLegacy(directory, name)
  {
    var group := Group(name).value;
    VolumesExactly(directory, group);
    assert Volume(Index(name).value, name) in SortedVolumes(directory, group);
  }
}
