/** Refused keys: how long they rest, and when a later entry of the chain asks them again. */
module AiCooldowns {
  import opened AiClient
  import opened AiChain

  // ---------------------------------------------------------------------- refused keys

  predicate Refuses(a: Asked) {
    a.outcome.Failed? && a.outcome.failure.keyFault
  }

  /** Nobody else sets or clears this key's cooldown at these accesses. */
  ghost predicate Untouched(env: Env, key: int, from: nat, to: nat) {
    forall access: nat, table {:trigger env.others(access, table)} | from <= access < to ::
      (key in env.others(access, table) <==> key in table)
      && (key in table ==> env.others(access, table)[key] == table[key])
  }

  /** The last time its key was asked. */
  predicate LastAsk(log: seq<Asked>, i: nat)
    requires i < |log|
  {
    forall j | i < j < |log| :: log[j].key != log[i].key
  }

  /** The key was refused when it was last asked, that was recorded, and nobody touched it since. */
  ghost predicate Cooling(env: Env, s: State, i: nat)
    requires i < |s.log|
  {
    && Refuses(s.log[i]) && env.recorded(s.log[i].access) && LastAsk(s.log, i)
    && Untouched(env, s.log[i].key, s.log[i].access + 1, s.accesses)
  }

  /** A cooldown ends ten minutes after the refusal was recorded. */
  ghost predicate RowsTellRefusals(env: Env, s: State) {
    && (forall i | 0 <= i < |s.log| && Refuses(s.log[i]) :: s.log[i].access < s.accesses)
    && (forall i: nat | i < |s.log| && Cooling(env, s, i) ::
          && s.log[i].key in s.cooldowns
          && s.cooldowns[s.log[i].key] == env.clock(s.log[i].access) + COOLDOWN)
  }

  lemma AccessKeepsRows(env: Env, s: State)
    requires RowsTellRefusals(env, s)
    ensures RowsTellRefusals(env, Accessed(env, s))
  {
    var t := Accessed(env, s);
    forall i: nat | i < |t.log| && Cooling(env, t, i)
      ensures t.log[i].key in t.cooldowns && t.cooldowns[t.log[i].key] == env.clock(t.log[i].access) + COOLDOWN
    {
      assert Cooling(env, s, i);
      var table := env.others(s.accesses, s.cooldowns);
    }
  }

  lemma KeyKeepsRows(env: Env, s: State, e: Entry, key: Key)
    requires RowsTellRefusals(env, s)
    ensures RowsTellRefusals(env, Passed(env, s, e, key))
  {
    if key.readable {
      var t := Passed(env, s, e, key);
      assert t.log[..|s.log|] == s.log;
      forall i: nat | i < |t.log| && Cooling(env, t, i)
        ensures t.log[i].key in t.cooldowns && t.cooldowns[t.log[i].key] == env.clock(t.log[i].access) + COOLDOWN
      {
        if i < |s.log| {
          assert t.log[i] == s.log[i];
          assert t.log[|s.log|].key != t.log[i].key;
          assert Cooling(env, s, i);
          var table := env.others(s.accesses, s.cooldowns);
        }
      }
    }
  }

  lemma {:induction false} KeysKeepRows(env: Env, s: State, e: Entry, keys: seq<Key>, last: Failure)
    requires RowsTellRefusals(env, s)
    ensures RowsTellRefusals(env, AskKeys(env, s, e, keys, last).1)
    decreases |keys|
  {
    if keys != [] {
      KeyKeepsRows(env, s, e, keys[0]);
      if !keys[0].readable {
        KeysKeepRows(env, s, e, keys[1..], last);
      } else if OutcomeOf(env, s, e, keys[0]).Failed? {
        KeysKeepRows(env, AfterKey(env, s, e, keys[0]), e, keys[1..], OutcomeOf(env, s, e, keys[0]).failure);
      }
    }
  }

  lemma {:induction false} ChainKeepsRows(env: Env, s: State, chain: seq<Entry>, i: nat)
    requires i <= |chain| && RowsTellRefusals(env, s)
    ensures RowsTellRefusals(env, Reached(env, s, chain, i))
  {
    if i > 0 {
      ChainKeepsRows(env, s, chain, i - 1);
      var before, e := Reached(env, s, chain, i - 1), chain[i - 1];
      AccessKeepsRows(env, before);
      assert RowsTellRefusals(env, AfterRotation(env, before, e));
      KeysKeepRows(env, AfterRotation(env, before, e), e, KeysFor(env, before, e), NO_KEY);
    }
  }

  // ------------------------------------------------------------- when a key comes back

  function HasKey(keys: seq<Key>, id: int): bool {
    exists k | k in keys :: k.id == id
  }

  lemma {:induction false} UsableExactly(keys: seq<Key>, cooldowns: Cooldowns, now: nat, k: Key)
    ensures k in Usable(keys, cooldowns, now) <==> k in keys && Released(cooldowns, k.id, now)
  {
    if keys != [] {
      UsableExactly(keys[1..], cooldowns, now, k);
      assert keys == [keys[0]] + keys[1..];
    }
  }

  lemma RotatedExactly(keys: seq<Key>, start: nat, k: Key)
    requires start <= |keys|
    ensures k in Rotated(keys, start) <==> k in keys
  {
    assert keys == keys[..start] + keys[start..];
  }

  /** An entry may ask a stored key exactly if its cooldown, as everybody left it, has ended or been
      cleared when the entry is reached. */
  lemma OfferedExactly(env: Env, s: State, e: Entry, id: int)
    ensures HasKey(KeysFor(env, s, e), id)
            <==> HasKey(env.keys(e.provider), id) && Released(Accessed(env, s).cooldowns, id, env.clock(s.accesses))
  {
    var listed := Listed(env, s, e);
    forall k: Key
      ensures k in listed
              <==> k in env.keys(e.provider) && Released(Accessed(env, s).cooldowns, k.id, env.clock(s.accesses))
      ensures k in KeysFor(env, s, e) <==> k in listed
    {
      UsableExactly(env.keys(e.provider), Accessed(env, s).cooldowns, env.clock(s.accesses), k);
      if listed != [] {
        RotatedExactly(listed, Start(s.cursors, e.provider, |listed|), k);
      }
    }
  }

  /** The key at `p` can be opened and no key before it serves. */
  ghost predicate IsTurnOf(env: Env, s: State, e: Entry, keys: seq<Key>, p: nat, id: int)
    requires p < |keys|
  {
    keys[p].id == id && keys[p].readable && forall q: nat | q < p :: !KeyServes(env, s, e, keys, q)
  }

  /** The log grew by a question to this key. */
  predicate AskedSince(before: State, after: State, id: int) {
    exists j | |before.log| <= j < |after.log| :: after.log[j].key == id
  }

  lemma PassedLog(env: Env, s: State, e: Entry, key: Key)
    ensures var t := Passed(env, s, e, key);
            if key.readable
            then |t.log| == |s.log| + 1 && t.log[..|s.log|] == s.log && t.log[|s.log|].key == key.id
            else t == s
  {}

  lemma {:induction false} LogGrows(env: Env, s: State, e: Entry, keys: seq<Key>, last: Failure)
    ensures var after := AskKeys(env, s, e, keys, last).1;
            |s.log| <= |after.log| && after.log[..|s.log|] == s.log
    decreases |keys|
  {
    if keys != [] {
      PassedLog(env, s, e, keys[0]);
      if !keys[0].readable {
        LogGrows(env, s, e, keys[1..], last);
      } else if OutcomeOf(env, s, e, keys[0]).Failed? {
        var next := AfterKey(env, s, e, keys[0]);
        var failure := OutcomeOf(env, s, e, keys[0]).failure;
        LogGrows(env, next, e, keys[1..], failure);
        assert AskKeys(env, next, e, keys[1..], failure).1.log[..|next.log|][..|s.log|] == s.log;
      }
    }
  }

  /** A key is asked exactly if it is among the entry's keys, can be opened and none before it answers. */
  lemma {:induction false} AskedExactly(env: Env, s: State, e: Entry, keys: seq<Key>, last: Failure, id: int)
    ensures AskedSince(s, AskKeys(env, s, e, keys, last).1, id)
            <==> exists p: nat :: p < |keys| && IsTurnOf(env, s, e, keys, p, id)
    decreases |keys|
  {
    var after := AskKeys(env, s, e, keys, last).1;
    if keys != [] {
      var key, rest := keys[0], keys[1..];
      var next := Passed(env, s, e, key);
      PassedLog(env, s, e, key);
      if key.readable && OutcomeOf(env, s, e, key).Got? {
        assert KeyServes(env, s, e, keys, 0);
        if key.id == id {
          assert IsTurnOf(env, s, e, keys, 0, id);
          assert after.log[|s.log|].key == id;
        }
      } else {
        var failure := if key.readable then OutcomeOf(env, s, e, key).failure else last;
        assert after == AskKeys(env, next, e, rest, failure).1;
        AskedExactly(env, next, e, rest, failure, id);
        LogGrows(env, next, e, rest, failure);
        assert !KeyServes(env, s, e, keys, 0);
        TurnsShift(env, s, e, keys, id);
        if key.readable {
          assert after.log[|s.log|] == after.log[..|next.log|][|s.log|];
        }
      }
    }
  }

  lemma TurnsShift(env: Env, s: State, e: Entry, keys: seq<Key>, id: int)
    requires keys != [] && !KeyServes(env, s, e, keys, 0)
    ensures (exists p: nat :: p < |keys| && IsTurnOf(env, s, e, keys, p, id))
            <==> (keys[0].readable && keys[0].id == id)
                 || exists p: nat :: p < |keys[1..]| && IsTurnOf(env, Passed(env, s, e, keys[0]), e, keys[1..], p, id)
  {
    var next, rest := Passed(env, s, e, keys[0]), keys[1..];
    forall q: nat | q < |rest|
      ensures KeyServes(env, s, e, keys, q + 1) == KeyServes(env, next, e, rest, q)
    {}
    if keys[0].readable && keys[0].id == id {
      assert IsTurnOf(env, s, e, keys, 0, id);
    }
    forall p: nat | p < |rest|
      ensures IsTurnOf(env, s, e, keys, p + 1, id) == IsTurnOf(env, next, e, rest, p, id)
    {
      TurnShifts(env, s, e, keys, p, id);
    }
    if p: nat :| p < |keys| && IsTurnOf(env, s, e, keys, p, id) && p > 0 {
      assert IsTurnOf(env, s, e, keys, (p - 1) + 1, id) == IsTurnOf(env, next, e, rest, p - 1, id);
    }
  }

  lemma TurnShifts(env: Env, s: State, e: Entry, keys: seq<Key>, p: nat, id: int)
    requires p + 1 < |keys| && !KeyServes(env, s, e, keys, 0)
    ensures IsTurnOf(env, s, e, keys, p + 1, id) == IsTurnOf(env, Passed(env, s, e, keys[0]), e, keys[1..], p, id)
  {
    var next, rest := Passed(env, s, e, keys[0]), keys[1..];
    forall q: nat | q < |rest|
      ensures KeyServes(env, s, e, keys, q + 1) == KeyServes(env, next, e, rest, q)
    {}
    if IsTurnOf(env, next, e, rest, p, id) {
      forall q: nat | q < p + 1
        ensures !KeyServes(env, s, e, keys, q)
      {
        if q > 0 {
          assert KeyServes(env, s, e, keys, (q - 1) + 1) == KeyServes(env, next, e, rest, q - 1);
        }
      }
    }
    if IsTurnOf(env, s, e, keys, p + 1, id) {
      forall q: nat | q < p
        ensures !KeyServes(env, next, e, rest, q)
      {
        assert KeyServes(env, s, e, keys, q + 1) == KeyServes(env, next, e, rest, q);
      }
    }
  }

  /** A key that was refused in this call, that was recorded, and that nobody touched since: a later
      entry of its provider may ask it again exactly if ten minutes have passed since the refusal, and
      does exactly if it comes to the key's turn. */
  lemma RefusedKeyComesBackExactly(env: Env, s: State, chain: seq<Entry>, b: nat, i: nat)
    requires RowsTellRefusals(env, s) && b < |chain| && Enabled(chain[b])
    requires i < |Reached(env, s, chain, b).log| && Cooling(env, Reached(env, s, chain, b), i)
    requires HasKey(env.keys(chain[b].provider), Reached(env, s, chain, b).log[i].key)
    requires Untouched(env, Reached(env, s, chain, b).log[i].key, Reached(env, s, chain, b).accesses,
                       Reached(env, s, chain, b).accesses + 1)
    ensures var at, e := Reached(env, s, chain, b), chain[b];
            var (refused, keys) := (at.log[i], KeysFor(env, at, e));
            && (HasKey(keys, refused.key) <==> env.clock(at.accesses) >= env.clock(refused.access) + COOLDOWN)
            && (AskedSince(at, Reached(env, s, chain, b + 1), refused.key)
                <==> exists p: nat :: p < |keys| && IsTurnOf(env, AfterRotation(env, at, e), e, keys, p, refused.key))
  {
    var at, e := Reached(env, s, chain, b), chain[b];
    ChainKeepsRows(env, s, chain, b);
    OfferedExactly(env, at, e, at.log[i].key);
    var table := env.others(at.accesses, at.cooldowns);
    AskedExactly(env, AfterRotation(env, at, e), e, KeysFor(env, at, e), NO_KEY, at.log[i].key);
  }

  // ------------------------------------------------------------------- short enough chains

  /** The clock never goes back, and runs on by no more than the timeout, and the second that counting
      in whole seconds may add, for each post of an entry. */
  ghost predicate Paced(env: Env, s: State, chain: seq<Entry>, a: nat, b: nat)
    requires a <= b <= |chain|
  {
    && (forall i, j | 0 <= i <= j :: env.clock(i) <= env.clock(j))
    && (forall j: nat | a <= j < b && Enabled(chain[j]) :: KeepsPace(env, s, chain, j))
  }

  ghost predicate KeepsPace(env: Env, s: State, chain: seq<Entry>, j: nat)
    requires j < |chain|
  {
    Pace(env, Reached(env, s, chain, j), Reached(env, s, chain, j + 1), chain[j])
  }

  predicate Pace(env: Env, before: State, after: State, e: Entry) {
    env.clock(after.accesses) <= env.clock(before.accesses) + (after.time - before.time) * (e.timeout + 1)
  }

  /** The longest the entries from `a` up to `b` can take, by their settings. */
  function Patience(env: Env, chain: seq<Entry>, a: nat, b: nat): nat
    requires a <= b <= |chain|
    decreases b - a
  {
    if a == b then 0
    else Patience(env, chain, a, b - 1) + if Enabled(chain[b - 1]) then EntryPatience(env, chain[b - 1]) else 0
  }

  function EntryPatience(env: Env, e: Entry): nat {
    |env.keys(e.provider)| * Tries(e.maxRetries) * (e.timeout + 1)
  }

  lemma FewerPosts(posts: nat, most: nat, seconds: nat)
    requires posts <= most
    ensures posts * seconds <= most * seconds
  {
    MoreKeys(posts, most, seconds);
  }

  lemma EntryElapses(env: Env, before: State, e: Entry)
    requires Pace(env, before, AskEntry(env, before, e).1, e)
    ensures env.clock(AskEntry(env, before, e).1.accesses) <= env.clock(before.accesses) + EntryPatience(env, e)
  {
    var after := AskEntry(env, before, e).1;
    EntryPosts(env, before, e);
    FewerPosts(after.time - before.time, |env.keys(e.provider)| * Tries(e.maxRetries), e.timeout + 1);
  }

  lemma {:induction false} ElapsedIsBounded(env: Env, s: State, chain: seq<Entry>, a: nat, b: nat)
    requires a <= b <= |chain| && Paced(env, s, chain, a, b)
    ensures env.clock(Reached(env, s, chain, b).accesses)
            <= env.clock(Reached(env, s, chain, a).accesses) + Patience(env, chain, a, b)
    decreases b - a
  {
    if a < b {
      ElapsedIsBounded(env, s, chain, a, b - 1);
      if Enabled(chain[b - 1]) {
        assert KeepsPace(env, s, chain, b - 1);
        EntryElapses(env, Reached(env, s, chain, b - 1), chain[b - 1]);
      }
    }
  }

  /** Where the settings of the entries in between leave less than ten minutes, a refused key is not
      asked again. */
  lemma ShortChainsRestTheKey(env: Env, s: State, chain: seq<Entry>, a: nat, b: nat, i: nat)
    requires RowsTellRefusals(env, s) && a <= b < |chain| && Enabled(chain[b])
    requires i < |Reached(env, s, chain, b).log| && Cooling(env, Reached(env, s, chain, b), i)
    requires HasKey(env.keys(chain[b].provider), Reached(env, s, chain, b).log[i].key)
    requires Untouched(env, Reached(env, s, chain, b).log[i].key, Reached(env, s, chain, b).accesses,
                       Reached(env, s, chain, b).accesses + 1)
    requires Reached(env, s, chain, b).log[i].access >= Reached(env, s, chain, a).accesses
    requires Paced(env, s, chain, a, b) && Patience(env, chain, a, b) < COOLDOWN
    ensures var at := Reached(env, s, chain, b);
            && !HasKey(KeysFor(env, at, chain[b]), at.log[i].key)
            && !AskedSince(at, Reached(env, s, chain, b + 1), at.log[i].key)
  {
    var at, e := Reached(env, s, chain, b), chain[b];
    RefusedKeyComesBackExactly(env, s, chain, b, i);
    ElapsedIsBounded(env, s, chain, a, b);
    TurnsAreOfKeys(env, AfterRotation(env, at, e), e, KeysFor(env, at, e), at.log[i].key);
  }

  lemma TurnsAreOfKeys(env: Env, s: State, e: Entry, keys: seq<Key>, id: int)
    ensures forall p: nat | p < |keys| && IsTurnOf(env, s, e, keys, p, id) :: HasKey(keys, id)
  {
    forall p: nat | p < |keys| && IsTurnOf(env, s, e, keys, p, id)
      ensures HasKey(keys, id)
    {
      assert keys[p] in keys;
    }
  }

  // --------------------------------------------------------------------- a chain that fails

  function SlowKeys(provider: int): seq<Key> {
    if provider == 1 then [Key(10, true)] else if provider == 2 then [Key(20, true)] else []
  }

  function SlowWorld(): World {
    (post, key, model) => if key == 10 then Http(401, false, "") else NoReply
  }

  /** The second provider takes its four timeouts of five minutes each. */
  function SlowEnv(): Env {
    Env(SlowWorld(), SlowKeys, access => if access < 3 then 0 else 1200, (access, table) => table, access => true)
  }

  const SLOW_CHAIN := [
    Entry(1, true, 1, true, 3, 300),
    Entry(2, true, 2, true, 3, 300),
    Entry(1, true, 3, true, 3, 300)]

  const FRESH := State(0, 0, map[], map[], [])

  /** The input that fails, with every post within its timeout: the first provider's key is refused at
      its first model, the second provider times out for twenty minutes, and the refused key is asked
      again at the third entry. */
  lemma RefusedKeyIsAskedAgain()
    ensures var end := Reached(SlowEnv(), FRESH, SLOW_CHAIN, 3);
            && |end.log| == 3
            && end.log[0].key == end.log[2].key == 10
            && Refuses(end.log[0])
    ensures Paced(SlowEnv(), FRESH, SLOW_CHAIN, 0, 3)
  {
    SlowRun(SLOW_CHAIN);
  }

  lemma SlowRun(chain: seq<Entry>)
    requires |chain| == 3 && Enabled(chain[0]) && Enabled(chain[1]) && Enabled(chain[2])
    requires chain[0].provider == chain[2].provider == 1 && chain[1].provider == 2
    requires chain[1].maxRetries == 3 && chain[1].timeout == 300
    ensures var end := Reached(SlowEnv(), FRESH, chain, 3);
            && |end.log| == 3
            && end.log[0].key == end.log[2].key == 10
            && Refuses(end.log[0])
    ensures Paced(SlowEnv(), FRESH, chain, 0, 3)
  {
    var env := SlowEnv();
    var s1 := AskEntry(env, FRESH, chain[0]).1;
    var s2 := AskEntry(env, s1, chain[1]).1;
    var s3 := AskEntry(env, s2, chain[2]).1;
    ThreeEntries(env, FRESH, chain);
    SlowEntry(FRESH, chain[0], 10);
    SlowEntry(s1, chain[1], 20);
    SlowEntry(s2, chain[2], 10);
    SlowPaces(FRESH, s1, s2, s3, chain[0], chain[1], chain[2]);
    forall j: nat | j < 3
      ensures KeepsPace(env, FRESH, chain, j)
    {
      assert j == 0 || j == 1 || j == 2;
    }
  }

  lemma ThreeEntries(env: Env, s: State, chain: seq<Entry>)
    requires |chain| == 3 && Enabled(chain[0]) && Enabled(chain[1]) && Enabled(chain[2])
    ensures var s1 := AskEntry(env, s, chain[0]).1;
            var s2 := AskEntry(env, s1, chain[1]).1;
            && Reached(env, s, chain, 0) == s && Reached(env, s, chain, 1) == s1 && Reached(env, s, chain, 2) == s2
            && Reached(env, s, chain, 3) == AskEntry(env, s2, chain[2]).1
  {
    assert Reached(env, s, chain, 0) == s;
    var s1 := AskEntry(env, s, chain[0]).1;
    assert Reached(env, s, chain, 1) == s1;
    var s2 := AskEntry(env, s1, chain[1]).1;
    assert Reached(env, s, chain, 2) == s2;
  }

  lemma SlowPaces(s0: State, s1: State, s2: State, s3: State, p: Entry, q: Entry, r: Entry)
    requires s0.accesses == 0 && s1.accesses == 2 && s2.accesses == 3 && s3.accesses == 5
    requires s0.time <= s1.time && s2.time == s1.time + 4 && s2.time <= s3.time && q.timeout == 300
    ensures Pace(SlowEnv(), s0, s1, p) && Pace(SlowEnv(), s1, s2, q) && Pace(SlowEnv(), s2, s3, r)
  {
    FewerPosts(0, s1.time - s0.time, p.timeout + 1);
    FewerPosts(0, s3.time - s2.time, r.timeout + 1);
  }

  lemma SlowEntry(s: State, e: Entry, id: int)
    requires SlowKeys(e.provider) == [Key(id, true)] && id in {10, 20}
    requires Released(s.cooldowns, id, SlowEnv().clock(s.accesses))
    ensures var after := AskEntry(SlowEnv(), s, e).1;
            && after.time >= s.time
            && if id == 10 then
                 && after.log == s.log + [Asked(10, e.model, Failed(ClassifyStatus(401, false)), s.accesses + 1)]
                 && after.cooldowns == s.cooldowns[10 := SlowEnv().clock(s.accesses + 1) + COOLDOWN]
                 && after.accesses == s.accesses + 2
               else
                 && |after.log| == |s.log| + 1 && after.log[..|s.log|] == s.log
                 && after.cooldowns == s.cooldowns && after.accesses == s.accesses + 1
                 && after.time == s.time + Tries(e.maxRetries)
  {
    var env := SlowEnv();
    var key := Key(id, true);
    assert Usable(SlowKeys(e.provider), s.cooldowns, env.clock(s.accesses)) == [key] by {
      assert [key][1..] == [];
    }
    assert Listed(env, s, e) == [key];
    assert Rotated([key], 0) == [key];
    assert KeysFor(env, s, e) == [key];
    var begun := AfterRotation(env, s, e);
    SlowAnswer(begun.time, id, e.model, Tries(e.maxRetries));
    assert [key][1..] == [];
    assert AskKeys(env, begun, e, [key], NO_KEY).1 == AfterKey(env, begun, e, key);
  }

  lemma {:induction false} SlowAnswer(time: nat, key: int, model: int, tries: nat)
    requires tries >= 1
    ensures var (outcome, posts) := Answer(SlowWorld(), time, key, model, tries);
            if key == 10 then outcome == Failed(ClassifyStatus(401, false))
            else outcome.Failed? && !outcome.failure.keyFault && posts == tries
    decreases tries
  {
    if key != 10 && tries > 1 {
      SlowAnswer(time + 1, key, model, tries - 1);
    }
  }
}
