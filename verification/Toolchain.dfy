/** Replacing the managed tool directory so that no fault or crash loses a working install. */
module Toolchain {

  /** A directory as `installed_executable` sees it: not there, usable, or there and not usable. */
  datatype Dir = Absent | Good | Broken

  /** The three directories of one installed version. */
  datatype Layout = Layout(root: Dir, previous: Dir, incoming: Dir)

  /** How deleting a directory tree goes. */
  datatype Removal = Removed | PartlyRemoved | NotRemoved

  /** How unpacking goes: it raises, or it ends with a directory that is usable or is not. */
  datatype Extraction = Unpacked | UnpackedUnusable | ExtractionRaises(left: Dir)

  /** The outside world's part in one run: which operations succeed. */
  datatype Luck = Luck(
    recover: bool,       // moving `previous` back to `root` at the start
    cleanup: Removal,    // deleting a leftover `previous` at the start
    download: bool,      // fetching the asset and its digest check
    sweep: Removal,      // deleting a leftover `incoming`, errors ignored
    extract: Extraction,
    setAside: bool,      // moving `root` to `previous`
    publish: bool,       // moving `incoming` to `root`
    restore: bool,       // moving `previous` back after that failed
    discard: Removal,    // deleting `previous` after it succeeded
    tidy: Removal)       // the final deletion of `incoming`, errors ignored

  datatype Outcome = Installed | Raised

  /** Every state a deletion passes through: what is left of the tree is never usable again. */
  function Deleting(d: Dir, removal: Removal): seq<Dir> {
    if d == Absent || removal == NotRemoved then []
    else if removal == PartlyRemoved then [Broken]
    else [Broken, Absent]
  }

  function End(d: Dir, removal: Removal): Dir {
    if d == Absent || removal == NotRemoved then d
    else if removal == PartlyRemoved then Broken
    else Absent
  }

  /** The layouts one run goes through after the one it starts in, and how it ends. */
  function Install(l: Layout, force: bool, luck: Luck): (seq<Layout>, Outcome) {
    var (first, ok) := Recovery(l, luck);
    if !ok then (first, Raised)
    else
      var (rest, outcome) := Fetch(Last(l, first), force, luck);
      (first + rest, outcome)
  }

  /** What an earlier run left in `previous`: put back where there is no root, deleted where there is. */
  function Recovery(l: Layout, luck: Luck): (seq<Layout>, bool) {
    if l.previous == Absent then ([], true)
    else if l.root == Absent then
      if luck.recover then ([Layout(l.previous, Absent, l.incoming)], true) else ([], false)
    else (WithPrevious(l, Deleting(l.previous, luck.cleanup)), luck.cleanup == Removed)
  }

  function WithPrevious(l: Layout, dirs: seq<Dir>): seq<Layout> {
    seq(|dirs|, i requires 0 <= i < |dirs| => l.(previous := dirs[i]))
  }

  function WithIncoming(l: Layout, dirs: seq<Dir>): seq<Layout> {
    seq(|dirs|, i requires 0 <= i < |dirs| => l.(incoming := dirs[i]))
  }

  /** From here on `previous` is absent. */
  function Fetch(l: Layout, force: bool, luck: Luck): (seq<Layout>, Outcome) {
    if l.root == Good && !force then ([], Installed)
    else if !luck.download then ([], Raised)
    else
      var stage := Stage(l, luck);
      var staged := Last(l, stage);
      if luck.extract.ExtractionRaises? then (stage + Tidy(staged, luck), Raised)
      else
        var (swap, published) := Swap(staged, luck);
        var last := Last(staged, swap);
        (stage + swap + Tidy(last, luck), if published && last.root == Good then Installed else Raised)
  }

  /** Clear `incoming` and unpack into it. */
  function Stage(l: Layout, luck: Luck): seq<Layout> {
    WithIncoming(l, Deleting(l.incoming, luck.sweep)) + [l.(incoming := StagedAs(luck.extract))]
  }

  function StagedAs(extract: Extraction): Dir {
    match extract
    case Unpacked => Good
    case UnpackedUnusable => Broken
    case ExtractionRaises(left) => left
  }

  /** Set the old install aside, publish the new one, discard the old one; put it back if that fails. */
  function Swap(l: Layout, luck: Luck): (seq<Layout>, bool) {
    if l.root == Absent then
      if luck.publish then ([Layout(l.incoming, Absent, Absent)], true) else ([], false)
    else if !luck.setAside then ([], false)
    else
      var aside := Layout(Absent, l.root, l.incoming);
      if luck.publish then
        var published := Layout(l.incoming, l.root, Absent);
        ([aside, published] + WithPrevious(published, Deleting(l.root, luck.discard)), luck.discard == Removed)
      else if luck.restore then ([aside, l], false)
      else ([aside], false)
  }

  function Tidy(l: Layout, luck: Luck): seq<Layout> {
    WithIncoming(l, Deleting(l.incoming, luck.tidy))
  }

  function Last(l: Layout, states: seq<Layout>): Layout {
    if states == [] then l else states[|states| - 1]
  }

  // -------------------------------------------------------------------- the live code

  /** The directories on disk; `seen` records every layout a crash could leave behind. */
  class ToolDirectory {
    var root: Dir
    var previous: Dir
    var incoming: Dir
    ghost var seen: seq<Layout>

    function Now(): Layout
      reads this
    {
      Layout(root, previous, incoming)
    }

    method Become(l: Layout)
      modifies this
      ensures Now() == l && seen == old(seen) + [l]
    {
      root, previous, incoming := l.root, l.previous, l.incoming;
      seen := seen + [l];
    }

    method RemovePrevious(removal: Removal) returns (ok: bool)
      requires previous != Absent
      modifies this
      ensures seen == old(seen) + WithPrevious(old(Now()), Deleting(old(previous), removal))
      ensures Now() == old(Now()).(previous := End(old(previous), removal))
      ensures ok <==> removal == Removed
    {
      if removal != NotRemoved {
        Become(Now().(previous := Broken));
      }
      if removal == Removed {
        Become(Now().(previous := Absent));
      }
      ok := removal == Removed;
    }

    /** `shutil.rmtree(staging, ignore_errors=True)`. */
    method RemoveIncoming(removal: Removal)
      modifies this
      ensures seen == old(seen) + WithIncoming(old(Now()), Deleting(old(incoming), removal))
      ensures Now() == old(Now()).(incoming := End(old(incoming), removal))
    {
      if incoming != Absent {
        if removal != NotRemoved {
          Become(Now().(incoming := Broken));
        }
        if removal == Removed {
          Become(Now().(incoming := Absent));
        }
      }
    }

    /** The `try` block from setting the old install aside to discarding it. */
    method SwapIn(luck: Luck) returns (ok: bool)
      requires previous == Absent
      modifies this
      ensures var (states, published) := Swap(old(Now()), luck);
              ok == published && seen == old(seen) + states && Now() == Last(old(Now()), states)
    {
      if root != Absent {
        if !luck.setAside {
          return false;
        }
        Become(Layout(Absent, root, incoming));
      }
      if !luck.publish {
        if previous != Absent && luck.restore {
          Become(Layout(previous, Absent, incoming));
        }
        return false;
      }
      Become(Layout(incoming, previous, Absent));
      ok := true;
      if previous != Absent {
        ok := RemovePrevious(luck.discard);
      }
    }

    method Unpack(luck: Luck)
      modifies this
      ensures seen == old(seen) + Stage(old(Now()), luck) && Now() == Last(old(Now()), Stage(old(Now()), luck))
    {
      RemoveIncoming(luck.sweep);
      Become(Now().(incoming := StagedAs(luck.extract)));
    }

    method FetchAndSwap(force: bool, luck: Luck) returns (outcome: Outcome)
      requires previous == Absent
      modifies this
      ensures var (states, expected) := Fetch(old(Now()), force, luck);
              outcome == expected && seen == old(seen) + states && Now() == Last(old(Now()), states)
    {
      if root == Good && !force {
        return Installed;
      }
      if !luck.download {
        return Raised;
      }
      ghost var l, soFar := Now(), seen;
      Unpack(luck);
      ghost var stage, staged := Stage(l, luck), Now();
      if luck.extract.ExtractionRaises? {
        RemoveIncoming(luck.tidy);
        Regroup(soFar, stage, [], Tidy(staged, luck));
        LastAfterTidy(stage, staged, luck);
        return Raised;
      }
      var published := SwapIn(luck);
      ghost var swap, last := Swap(staged, luck).0, Now();
      RemoveIncoming(luck.tidy);
      Regroup(soFar, stage, swap, Tidy(last, luck));
      LastAfterTidy(stage + swap, last, luck);
      outcome := if published && root == Good then Installed else Raised;
    }

    method RecoverPrevious(luck: Luck) returns (ok: bool)
      modifies this
      ensures var (states, expected) := Recovery(old(Now()), luck);
              ok == expected && seen == old(seen) + states && Now() == Last(old(Now()), states)
    {
      ok := true;
      if previous != Absent {
        if root != Absent {
          ok := RemovePrevious(luck.cleanup);
        } else if luck.recover {
          Become(Layout(previous, Absent, incoming));
        } else {
          ok := false;
        }
      }
    }

    /** `_install`. */
    method InstallTool(force: bool, luck: Luck) returns (outcome: Outcome)
      modifies this
      ensures var (states, expected) := Install(old(Now()), force, luck);
              outcome == expected && seen == old(seen) + states && Now() == Last(old(Now()), states)
    {
      ghost var l := Now();
      var ok := RecoverPrevious(luck);
      if !ok {
        return Raised;
      }
      ghost var first := Recovery(l, luck).0;
      outcome := FetchAndSwap(force, luck);
      LastConcat(old(seen), l, first, Fetch(Last(l, first), force, luck).0);
    }
  }

  lemma LastConcat(before: seq<Layout>, l: Layout, a: seq<Layout>, b: seq<Layout>)
    ensures Last(l, a + b) == Last(Last(l, a), b) && before + a + b == before + (a + b)
  {}

  lemma Regroup(a: seq<Layout>, b: seq<Layout>, c: seq<Layout>, d: seq<Layout>)
    ensures a + b + c + d == a + (b + c + d)
    ensures a + b + d == a + (b + d)
  {}

  lemma LastAfterTidy(states: seq<Layout>, last: Layout, luck: Luck)
    requires states != [] && states[|states| - 1] == last
    ensures Last(last, states + Tidy(last, luck)) == last.(incoming := End(last.incoming, luck.tidy))
  {}

  // ------------------------------------------------------------------------- safety

  /** A working install is there, or is where the next run looks for it. */
  predicate Recoverable(l: Layout) {
    l.root == Good || (l.root == Absent && l.previous == Good)
  }

  /** The run publishes a directory that unpacked without an error and yet is not usable. */
  predicate PublishesUnusable(l: Layout, force: bool, luck: Luck) {
    && luck.extract == UnpackedUnusable && luck.publish && luck.download
    && (l.previous != Absent ==> if l.root == Absent then luck.recover else luck.cleanup == Removed)
    && force && luck.setAside
  }

  /** From a recoverable layout, every layout the run goes through is recoverable, so a crash or an
      exception at any point loses nothing, exactly unless it publishes an unusable directory. */
  lemma InstallNeverLosesTheTool(l: Layout, force: bool, luck: Luck)
    requires Recoverable(l)
    ensures (forall i | 0 <= i < |Install(l, force, luck).0| :: Recoverable(Install(l, force, luck).0[i]))
            <==> !PublishesUnusable(l, force, luck)
  {
    var (first, ok) := Recovery(l, luck);
    if ok {
      var start := Last(l, first);
      assert start.root == Good && start.previous == Absent;
      FetchNeverLosesTheTool(start, force, luck);
      var states, rest := Install(l, force, luck).0, Fetch(start, force, luck).0;
      assert forall i | 0 <= i < |first| :: states[i] == first[i] && Recoverable(first[i]);
      assert forall i | 0 <= i < |rest| :: states[|first| + i] == rest[i];
    }
  }

  lemma FetchNeverLosesTheTool(l: Layout, force: bool, luck: Luck)
    requires l.root == Good && l.previous == Absent
    ensures (forall i | 0 <= i < |Fetch(l, force, luck).0| :: Recoverable(Fetch(l, force, luck).0[i]))
            <==> !PublishesUnusable(l, force, luck)
  {
    if force && luck.download {
      var stage, staged := Stage(l, luck), Last(l, Stage(l, luck));
      var states := Fetch(l, force, luck).0;
      assert forall i | 0 <= i < |stage| :: Recoverable(stage[i]) && states[i] == stage[i];
      if !luck.extract.ExtractionRaises? {
        var swap := Swap(staged, luck).0;
        SwapKeepsTheTool(staged, luck);
        assert states == stage + swap + Tidy(Last(staged, swap), luck);
        assert forall i | 0 <= i < |swap| :: states[|stage| + i] == swap[i];
      }
    }
  }

  lemma SwapKeepsTheTool(l: Layout, luck: Luck)
    requires l.root == Good && l.previous == Absent && l.incoming != Absent
    ensures var (swap, published) := Swap(l, luck);
            && ((forall i | 0 <= i < |swap| :: Recoverable(swap[i]))
                <==> !(l.incoming == Broken && luck.setAside && luck.publish))
            && (Recoverable(Last(l, swap)) <==> !(l.incoming == Broken && luck.setAside && luck.publish))
  {
    var (swap, _) := Swap(l, luck);
    if luck.setAside && luck.publish {
      var published := Layout(l.incoming, l.root, Absent);
      var discarding := WithPrevious(published, Deleting(l.root, luck.discard));
      assert swap == [Layout(Absent, l.root, l.incoming), published] + discarding;
      assert swap[1] == published;
      assert forall i | 0 <= i < |discarding| :: swap[2 + i] == discarding[i];
    }
  }

  /** Any number of runs, each cut off by a crash after any of its layouts or left to end by itself. */
  datatype Attempt = Attempt(force: bool, luck: Luck, cutAfter: nat)

  function After(l: Layout, a: Attempt): Layout {
    var states := Install(l, a.force, a.luck).0;
    Last(l, if a.cutAfter < |states| then states[..a.cutAfter] else states)
  }

  function AfterAll(l: Layout, attempts: seq<Attempt>): Layout {
    if attempts == [] then l else After(AfterAll(l, attempts[..|attempts| - 1]), attempts[|attempts| - 1])
  }

  /** However many runs crash or fail, the tool is still recoverable. */
  lemma {:induction false} ToolSurvivesEveryHistory(l: Layout, attempts: seq<Attempt>)
    requires Recoverable(l)
    requires forall i | 0 <= i < |attempts| :: attempts[i].luck.extract != UnpackedUnusable
    ensures Recoverable(AfterAll(l, attempts))
  {
    if attempts != [] {
      var a := attempts[|attempts| - 1];
      ToolSurvivesEveryHistory(l, attempts[..|attempts| - 1]);
      InstallNeverLosesTheTool(AfterAll(l, attempts[..|attempts| - 1]), a.force, a.luck);
    }
  }

  /** From any recoverable layout the next run makes the tool usable even if its download fails: all it
      needs is the one rename. Unforced, it ends well without a download. */
  lemma NextRunRestores(l: Layout, force: bool, luck: Luck)
    requires Recoverable(l) && luck.recover
    ensures !luck.download ==> Last(l, Install(l, force, luck).0).root == Good
    ensures luck.cleanup == Removed && !force ==>
              Install(l, force, luck).1 == Installed && Last(l, Install(l, force, luck).0).root == Good
  {}

  /** A forced run that meets no fault replaces the install and leaves nothing behind. */
  lemma CleanRunReplaces(l: Layout, luck: Luck)
    requires luck.recover && luck.cleanup == Removed && luck.download && luck.sweep == Removed
    requires luck.extract == Unpacked && luck.setAside && luck.publish && luck.discard == Removed
             && luck.tidy == Removed
    ensures var (states, outcome) := Install(l, true, luck);
            outcome == Installed && Last(l, states) == Layout(Good, Absent, Absent)
  {}

  /** A run reports success exactly if what an earlier one left was put back or deleted, and then either the
      tool was usable and not forced, or everything else went well: the download, the unpacking into something
      usable, and the exchange of the directories with the old one discarded. */
  lemma InstallsExactly(l: Layout, force: bool, luck: Luck)
    ensures var recovered := l.previous == Absent || if l.root == Absent then luck.recover else luck.cleanup == Removed;
            var root := if l.previous != Absent && l.root == Absent then l.previous else l.root;
            Install(l, force, luck).1 == Installed <==>
              && recovered
              && (|| (root == Good && !force)
                  || (&& luck.download && luck.extract == Unpacked && luck.publish
                      && (root == Absent || (luck.setAside && luck.discard == Removed))))
  {}
}
