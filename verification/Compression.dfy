/** What an archive's packed sizes are charged to, and how far the members may expand. */
module Compression {
  import opened Sequences
  import opened Text
  import opened Members

  // ------------------------------------------------------------------------------- blocks

  function Files(members: seq<Member>): seq<Member> {
    if members == [] then []
    else Files(members[..|members| - 1]) + (if members[|members| - 1].directory then [] else [members[|members| - 1]])
  }

  /** The blocks in the order of their first members. */
  function Blocks(files: seq<Member>): seq<int> {
    if files == [] then []
    else
      var front, last := Blocks(files[..|files| - 1]), files[|files| - 1];
      if last.block.None? || last.block.value in front then front else front + [last.block.value]
  }

  function InBlock(files: seq<Member>, block: Option<int>): seq<Member> {
    if files == [] then []
    else
      var front, last := InBlock(files[..|files| - 1], block), files[|files| - 1];
      if last.block == block then front + [last] else front
  }

  function BlockGroups(files: seq<Member>, blocks: seq<int>): seq<seq<Member>> {
    if blocks == [] then []
    else BlockGroups(files, blocks[..|blocks| - 1]) + [InBlock(files, Some(blocks[|blocks| - 1]))]
  }

  function Singles(files: seq<Member>): seq<seq<Member>> {
    if files == [] then [] else Singles(files[..|files| - 1]) + [[files[|files| - 1]]]
  }

  /** What `compression_groups` returns. */
  function Groups(files: seq<Member>): seq<seq<Member>> {
    BlockGroups(files, Blocks(files)) + Singles(InBlock(files, None))
  }

  /** The one pass that fills the dictionary and the list of members without a block. */
  method CollectBlocks(files: seq<Member>) returns (order: seq<int>, grouped: map<int, seq<Member>>, loose: seq<Member>)
    ensures order == Blocks(files) && loose == InBlock(files, None)
    ensures forall k | 0 <= k < |order| :: order[k] in grouped
    ensures forall b | b in grouped :: grouped[b] == InBlock(files, Some(b))
  {
    order, grouped, loose := [], map[], [];
    for i := 0 to |files|
      invariant order == Blocks(files[..i]) && loose == InBlock(files[..i], None)
      invariant forall k | 0 <= k < |order| :: order[k] in grouped
      invariant forall b :: b in grouped ==> b in order && grouped[b] == InBlock(files[..i], Some(b))
      invariant forall b :: b !in grouped ==> InBlock(files[..i], Some(b)) == []
    {
      OneMore(files, i);
      match files[i].block {
        case None =>
          loose := loose + [files[i]];
        case Some(b) =>
          if b in grouped {
            grouped := grouped[b := grouped[b] + [files[i]]];
          } else {
            order, grouped := order + [b], grouped[b := [files[i]]];
          }
      }
    }
    assert files[..|files|] == files;
  }

  lemma OneMore(files: seq<Member>, i: nat)
    requires i < |files|
    ensures forall block :: InBlock(files[..i + 1], block)
                            == InBlock(files[..i], block) + if files[i].block == block then [files[i]] else []
    ensures var before, block := Blocks(files[..i]), files[i].block;
            Blocks(files[..i + 1]) == if block.None? || block.value in before then before else before + [block.value]
  {
    assert files[..i + 1][..i] == files[..i];
  }

  method CompressionGroups(files: seq<Member>) returns (groups: seq<seq<Member>>)
    ensures groups == Groups(files)
  {
    var order, grouped, loose := CollectBlocks(files);
    groups := [];
    for k := 0 to |order|
      invariant groups == BlockGroups(files, order[..k])
    {
      assert order[..k + 1][..k] == order[..k];
      var block := order[k];
      groups := groups + [grouped[block]];
    }
    assert order[..|order|] == order;
    ghost var blocks := groups;
    for k := 0 to |loose|
      invariant groups == blocks + Singles(loose[..k])
    {
      assert loose[..k + 1][..k] == loose[..k];
      groups := groups + [[loose[k]]];
    }
    assert loose[..|loose|] == loose;
  }

  function Sum(files: seq<Member>, weight: Member -> int): int {
    if files == [] then 0 else Sum(files[..|files| - 1], weight) + weight(files[|files| - 1])
  }

  function SumAll(groups: seq<seq<Member>>, weight: Member -> int): int {
    if groups == [] then 0 else SumAll(groups[..|groups| - 1], weight) + Sum(groups[|groups| - 1], weight)
  }

  lemma {:induction false} SumAllAdds(a: seq<seq<Member>>, b: seq<seq<Member>>, weight: Member -> int)
    ensures SumAll(a + b, weight) == SumAll(a, weight) + SumAll(b, weight)
  {
    if b == [] {
      assert a + b == a;
    } else {
      SumAllAdds(a, b[..|b| - 1], weight);
      assert (a + b)[..|a + b| - 1] == a + b[..|b| - 1];
    }
  }

  lemma SumOne(m: Member, weight: Member -> int)
    ensures Sum([m], weight) == weight(m)
  {
    assert [m][..0] == [];
  }

  lemma {:induction false} SinglesWeigh(files: seq<Member>, weight: Member -> int)
    ensures SumAll(Singles(files), weight) == Sum(files, weight)
  {
    if files != [] {
      SinglesWeigh(files[..|files| - 1], weight);
      SumOne(files[|files| - 1], weight);
    }
  }

  lemma {:induction false} BlocksAreDistinct(files: seq<Member>)
    ensures Distinct(Blocks(files))
    ensures forall b :: b !in Blocks(files) ==> InBlock(files, Some(b)) == []
    ensures forall b :: b in Blocks(files) ==> InBlock(files, Some(b)) != []
  {
    if files != [] {
      BlocksAreDistinct(files[..|files| - 1]);
    }
  }

  /** One more member joins its own block's group and no other. */
  lemma {:induction false} BlockGroupsGrow(files: seq<Member>, blocks: seq<int>, weight: Member -> int)
    requires files != [] && Distinct(blocks)
    ensures var front, last := files[..|files| - 1], files[|files| - 1];
            SumAll(BlockGroups(files, blocks), weight)
            == SumAll(BlockGroups(front, blocks), weight)
               + if last.block.Some? && last.block.value in blocks then weight(last) else 0
  {
    if blocks != [] {
      BlockGroupsGrow(files, blocks[..|blocks| - 1], weight);
    }
  }

  /** The groups partition the files: every weight of the files, and with it every count, is the sum
      over the groups. */
  lemma {:induction false} GroupsPartition(files: seq<Member>, weight: Member -> int)
    ensures SumAll(Groups(files), weight) == Sum(files, weight)
  {
    SumAllAdds(BlockGroups(files, Blocks(files)), Singles(InBlock(files, None)), weight);
    SinglesWeigh(InBlock(files, None), weight);
    BlockGroupsWeigh(files, weight);
  }

  lemma {:induction false} BlockGroupsWeigh(files: seq<Member>, weight: Member -> int)
    ensures SumAll(BlockGroups(files, Blocks(files)), weight) + Sum(InBlock(files, None), weight) == Sum(files, weight)
  {
    if files != [] {
      var front, last := files[..|files| - 1], files[|files| - 1];
      BlockGroupsWeigh(front, weight);
      BlocksAreDistinct(front);
      BlockGroupsGrow(files, Blocks(front), weight);
      if last.block.Some? && last.block.value !in Blocks(front) {
        NewBlock(files, weight);
      }
    }
  }

  lemma OneMoreGroup(files: seq<Member>, blocks: seq<int>, block: int, weight: Member -> int)
    ensures SumAll(BlockGroups(files, blocks + [block]), weight)
            == SumAll(BlockGroups(files, blocks), weight) + Sum(InBlock(files, Some(block)), weight)
  {
    var more := blocks + [block];
    assert more[..|more| - 1] == blocks && more[|more| - 1] == block;
    var groups := BlockGroups(files, more);
    assert groups[..|groups| - 1] == BlockGroups(files, blocks);
  }

  lemma NewBlock(files: seq<Member>, weight: Member -> int)
    requires files != [] && files[|files| - 1].block.Some?
    requires files[|files| - 1].block.value !in Blocks(files[..|files| - 1])
    ensures SumAll(BlockGroups(files, Blocks(files)), weight)
            == SumAll(BlockGroups(files, Blocks(files[..|files| - 1])), weight) + weight(files[|files| - 1])
  {
    var front, last := files[..|files| - 1], files[|files| - 1];
    BlocksAreDistinct(front);
    OneMoreGroup(files, Blocks(front), last.block.value, weight);
    SumOne(last, weight);
    assert InBlock(files, last.block) == [last];
  }

  /** A group is all the members of one block, or one member outside the blocks. */
  predicate IsGroup(files: seq<Member>, group: seq<Member>) {
    || (group != [] && group[0].block.Some? && group == InBlock(files, group[0].block))
    || (|group| == 1 && group[0].block.None? && group[0] in files)
  }

  lemma {:induction false} InBlockExactly(files: seq<Member>, block: Option<int>, m: Member)
    ensures m in InBlock(files, block) <==> m in files && m.block == block
  {
    if files != [] {
      var front := files[..|files| - 1];
      InBlockExactly(front, block, m);
      assert files == front + [files[|files| - 1]];
    }
  }

  lemma {:induction false} BlockGroupsAre(files: seq<Member>, blocks: seq<int>, k: nat)
    requires k < |blocks|
    ensures |BlockGroups(files, blocks)| == |blocks|
    ensures BlockGroups(files, blocks)[k] == InBlock(files, Some(blocks[k]))
  {
    if k < |blocks| - 1 {
      BlockGroupsAre(files, blocks[..|blocks| - 1], k);
    } else if |blocks| > 1 {
      BlockGroupsAre(files, blocks[..|blocks| - 1], 0);
    }
  }

  lemma {:induction false} SinglesAre(files: seq<Member>, k: nat)
    requires k < |files|
    ensures |Singles(files)| == |files| && Singles(files)[k] == [files[k]]
  {
    if k < |files| - 1 {
      SinglesAre(files[..|files| - 1], k);
    } else if |files| > 1 {
      SinglesAre(files[..|files| - 1], 0);
    }
  }

  lemma GroupsAreGroups(files: seq<Member>, group: seq<Member>)
    requires group in Groups(files)
    ensures IsGroup(files, group)
  {
    var blocks, loose := Blocks(files), InBlock(files, None);
    if group in BlockGroups(files, blocks) {
      var k :| 0 <= k < |BlockGroups(files, blocks)| && BlockGroups(files, blocks)[k] == group;
      if blocks != [] {
        BlockGroupsAre(files, blocks, 0);
        BlockGroupsAre(files, blocks, k);
        BlocksAreDistinct(files);
        assert blocks[k] in blocks;
        InBlockExactly(files, Some(blocks[k]), group[0]);
      }
    } else {
      var k :| 0 <= k < |Singles(loose)| && Singles(loose)[k] == group;
      if loose != [] {
        SinglesAre(loose, 0);
        SinglesAre(loose, k);
        InBlockExactly(files, None, loose[k]);
      }
    }
  }

  // -------------------------------------------------------------------- expansion ratio

  function SizeOf(m: Member): int { m.size }

  function PackedSize(group: seq<Member>): int {
    if group == [] then 0
    else if |group| == 1 then group[0].packed
    else
      var front, last := PackedSize(group[..|group| - 1]), group[|group| - 1].packed;
      if front < last then last else front
  }

  predicate Identified(group: seq<Member>) {
    forall m | m in group :: Detected(m.header).Some?
  }

  /** Every byte seen is an image's, or the probe of the group's first member says so. */
  predicate Exempt(group: seq<Member>, encrypted: bool, probe: Option<Member -> Bytes>) {
    || Identified(group)
    || (group != [] && probe.Some? && !encrypted && Detected(probe.value(group[0])).Some?)
  }

  predicate Charged(group: seq<Member>, encrypted: bool, probe: Option<Member -> Bytes>) {
    PackedSize(group) > 0 && !Exempt(group, encrypted, probe)
  }

  function Product(r: real, p: int): real {
    r * p as real
  }

  predicate WithinRatio(group: seq<Member>, ratio: real) {
    Sum(group, SizeOf) as real <= Product(ratio, PackedSize(group))
  }

  predicate RatioHolds(groups: seq<seq<Member>>, ratio: real, encrypted: bool, probe: Option<Member -> Bytes>) {
    forall group | group in groups :: Charged(group, encrypted, probe) ==> WithinRatio(group, ratio)
  }

  lemma QuotientBound(x: real, p: real, r: real)
    requires p > 0.0
    ensures x / p <= r <==> x <= r * p
  {
    assert x == (x / p) * p;
    if x / p <= r {
      assert (r - x / p) * p >= 0.0;
    } else {
      assert (x / p - r) * p > 0.0;
    }
  }

  /** One turn of the loop: may the group stay. */
  method ToleratesGroup(
    group: seq<Member>,
    limits: Limits,
    encrypted: bool,
    probe: Option<Member -> Bytes>)
    returns (ok: bool)
    requires group != []
    ensures ok <==> (Charged(group, encrypted, probe) ==> WithinRatio(group, limits.ratio))
  {
    var packed := PackedSize(group);
    if packed <= 0 {
      return true;
    }
    var ratio := Sum(group, SizeOf) as real / packed as real;
    QuotientBound(Sum(group, SizeOf) as real, packed as real, limits.ratio);
    if ratio <= limits.ratio {
      return true;
    }
    if Identified(group) {
      return true;
    }
    if probe.Some? && !encrypted {
      if Detected(probe.value(group[0])).Some? {
        return true;
      }
    }
    return false;
  }

  /** `enforce_compression_ratio`. */
  method EnforceCompressionRatio(
    files: seq<Member>,
    limits: Limits,
    encrypted: bool,
    probe: Option<Member -> Bytes>)
    returns (ok: bool)
    ensures ok <==> RatioHolds(Groups(files), limits.ratio, encrypted, probe)
  {
    var groups := CompressionGroups(files);
    for k := 0 to |groups|
      invariant RatioHolds(groups[..k], limits.ratio, encrypted, probe)
    {
      var group := groups[k];
      assert groups[..k + 1] == groups[..k] + [group];
      assert group in groups;
      GroupsAreGroups(files, group);
      var fine := ToleratesGroup(group, limits, encrypted, probe);
      if !fine {
        return false;
      }
    }
    assert groups[..|groups|] == groups;
    return true;
  }

  function ChargedSize(groups: seq<seq<Member>>, encrypted: bool, probe: Option<Member -> Bytes>): int {
    if groups == [] then 0
    else
      var last := groups[|groups| - 1];
      ChargedSize(groups[..|groups| - 1], encrypted, probe)
      + if Charged(last, encrypted, probe) then Sum(last, SizeOf) else 0
  }

  function ChargedPacked(groups: seq<seq<Member>>, encrypted: bool, probe: Option<Member -> Bytes>): int {
    if groups == [] then 0
    else
      var last := groups[|groups| - 1];
      ChargedPacked(groups[..|groups| - 1], encrypted, probe)
      + if Charged(last, encrypted, probe) then PackedSize(last) else 0
  }

  lemma ProductAdds(r: real, a: int, b: int)
    ensures Product(r, a + b) == Product(r, a) + Product(r, b)
  {
    assert (a + b) as real == a as real + b as real;
  }

  lemma ChargeLast(groups: seq<seq<Member>>, ratio: real, encrypted: bool, probe: Option<Member -> Bytes>)
    requires groups != [] && RatioHolds(groups, ratio, encrypted, probe)
    ensures var front, last := groups[..|groups| - 1], groups[|groups| - 1];
            var charged := Charged(last, encrypted, probe);
            && RatioHolds(front, ratio, encrypted, probe)
            && ChargedSize(groups, encrypted, probe)
               == ChargedSize(front, encrypted, probe) + (if charged then Sum(last, SizeOf) else 0)
            && ChargedPacked(groups, encrypted, probe)
               == ChargedPacked(front, encrypted, probe) + (if charged then PackedSize(last) else 0)
            && (charged ==> Sum(last, SizeOf) as real <= Product(ratio, PackedSize(last)))
  {
    var front, last := groups[..|groups| - 1], groups[|groups| - 1];
    assert groups == front + [last];
    assert last in groups;
  }

  /** Together, the groups that are charged at all unpack to no more than the ratio times what they
      are packed to. */
  lemma {:induction false} ExpansionIsBounded(
    groups: seq<seq<Member>>,
    ratio: real,
    encrypted: bool,
    probe: Option<Member -> Bytes>)
    requires RatioHolds(groups, ratio, encrypted, probe)
    ensures ChargedSize(groups, encrypted, probe) as real <= Product(ratio, ChargedPacked(groups, encrypted, probe))
  {
    if groups == [] {
      assert Product(ratio, 0) == 0.0;
    } else {
      var front, last := groups[..|groups| - 1], groups[|groups| - 1];
      ChargeLast(groups, ratio, encrypted, probe);
      ExpansionIsBounded(front, ratio, encrypted, probe);
      if Charged(last, encrypted, probe) {
        ProductAdds(ratio, ChargedPacked(front, encrypted, probe), PackedSize(last));
      }
    }
  }

  // --------------------------------------------------------------------- read in fields

  /** The files of a listing are its members without the directories, in the order of the listing. */
  lemma {:induction false} FilesExactly(front: seq<Member>, back: seq<Member>, m: Member)
    ensures Files(front + back) == Files(front) + Files(back)
    ensures Files([m]) == if m.directory then [] else [m]
    decreases |back|
  {
    assert [m][..0] == [];
    if back == [] {
      assert front + back == front;
    } else {
      FilesExactly(front, back[..|back| - 1], m);
      assert (front + back)[..|front + back| - 1] == front + back[..|back| - 1];
    }
  }

  /** The packed size of a group is the largest of its members'. */
  lemma {:induction false} PackedIsLargest(group: seq<Member>)
    requires group != []
    ensures exists m | m in group :: m.packed == PackedSize(group)
    ensures forall m | m in group :: m.packed <= PackedSize(group)
  {
    var front, last := group[..|group| - 1], group[|group| - 1];
    assert group == front + [last];
    if front != [] {
      PackedIsLargest(front);
    }
  }

  /** The size of a group is the sum of its members' sizes. */
  lemma {:induction false} SizesAdd(front: seq<Member>, back: seq<Member>, m: Member)
    ensures Sum(front + back, SizeOf) == Sum(front, SizeOf) + Sum(back, SizeOf) && Sum([m], SizeOf) == m.size
    decreases |back|
  {
    SumOne(m, SizeOf);
    if back == [] {
      assert front + back == front;
    } else {
      SizesAdd(front, back[..|back| - 1], m);
      assert (front + back)[..|front + back| - 1] == front + back[..|back| - 1];
    }
  }

  /** A group that may stay: it has no packed size, unpacks to at most the ratio times it, holds nothing but
      images by their first bytes, or has a first member that the probe, asked of an archive that is not
      encrypted, finds to be an image. */
  predicate Tolerable(group: seq<Member>, ratio: real, encrypted: bool, probe: Option<Member -> Bytes>) {
    || PackedSize(group) <= 0
    || Sum(group, SizeOf) as real <= ratio * (PackedSize(group) as real)
    || (forall m | m in group :: Detected(m.header).Some?)
    || (group != [] && probe.Some? && !encrypted && Detected(probe.value(group[0])).Some?)
  }

  lemma GroupTolerated(group: seq<Member>, ratio: real, encrypted: bool, probe: Option<Member -> Bytes>)
    ensures (Charged(group, encrypted, probe) ==> WithinRatio(group, ratio))
            <==> Tolerable(group, ratio, encrypted, probe)
  {}

  /** The gate lets a listing pass exactly if each of its groups may stay. */
  lemma RatioExactly(files: seq<Member>, ratio: real, encrypted: bool, probe: Option<Member -> Bytes>)
    ensures RatioHolds(Groups(files), ratio, encrypted, probe)
            <==> forall group | group in Groups(files) :: Tolerable(group, ratio, encrypted, probe)
  {
    GroupsTolerated(Groups(files), ratio, encrypted, probe);
  }

  lemma GroupsTolerated(groups: seq<seq<Member>>, ratio: real, encrypted: bool, probe: Option<Member -> Bytes>)
    ensures RatioHolds(groups, ratio, encrypted, probe)
            <==> forall group | group in groups :: Tolerable(group, ratio, encrypted, probe)
  {
    forall group | group in groups
      ensures (Charged(group, encrypted, probe) ==> WithinRatio(group, ratio))
              <==> Tolerable(group, ratio, encrypted, probe)
    {
      GroupTolerated(group, ratio, encrypted, probe);
    }
  }
}
