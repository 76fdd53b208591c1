/** The chain of AI models: which entry and which key the answer comes from. */
module AiChain {
  import opened AiClient

  /** A key row; one whose ciphertext cannot be opened is passed over. */
  datatype Key = Key(id: int, readable: bool)

  /** `timeout` is in seconds, per post. */
  datatype Entry = Entry(
    provider: int,
    providerEnabled: bool,
    model: int,
    modelEnabled: bool,
    maxRetries: int,
    timeout: nat)

  /** A key that was asked; `access` is the number of the next database access. */
  datatype Asked = Asked(key: int, model: int, outcome: Outcome, access: nat)

  /** When each key's cooldown ends, in seconds of the database's clock. */
  type Cooldowns = map<int, nat>

  const COOLDOWN: nat := 600

  /** The provider's replies, the enabled keys of each provider, and what happens around the database
      accesses of a call: what the clock says at each, what everybody else has done to the cooldowns
      before it, and whether the guard on key and provider revisions lets its write through. */
  datatype Env = Env(
    world: World,
    keys: int -> seq<Key>,
    clock: nat -> nat,
    others: (nat, Cooldowns) -> Cooldowns,
    recorded: nat -> bool)

  /** `time` counts the posts made and `accesses` the database accesses. */
  datatype State = State(time: nat, accesses: nat, cursors: map<int, nat>, cooldowns: Cooldowns, log: seq<Asked>)

  // ------------------------------------------------------------------------ key rotation

  function Rotated(keys: seq<Key>, start: nat): seq<Key>
    requires start <= |keys|
  {
    keys[start..] + keys[..start]
  }

  function Start(cursors: map<int, nat>, provider: int, n: nat): (start: nat)
    requires n > 0
    ensures start < n
  {
    (if provider in cursors then cursors[provider] else 0) % n
  }

  predicate Released(cooldowns: Cooldowns, key: int, now: nat) {
    key in cooldowns ==> cooldowns[key] <= now
  }

  function Usable(keys: seq<Key>, cooldowns: Cooldowns, now: nat): seq<Key> {
    if keys == [] then []
    else (if Released(cooldowns, keys[0].id, now) then [keys[0]] else []) + Usable(keys[1..], cooldowns, now)
  }

  /** The cursor one rotation of `n` keys leaves behind. */
  function Turn(cursor: nat, n: nat): (next: nat)
    requires n > 0
    ensures next < n
  {
    (cursor % n + 1) % n
  }

  /** Where the key list starts after `m` earlier rotations of `n` keys. */
  function StartAfter(cursor: nat, n: nat, m: nat): (start: nat)
    requires n > 0
    ensures start < n
  {
    (if m == 0 then cursor else CursorAfter(cursor, n, m)) % n
  }

  function CursorAfter(cursor: nat, n: nat, m: nat): (next: nat)
    requires n > 0 && m > 0
    ensures next < n
  {
    Turn(if m == 1 then cursor else CursorAfter(cursor, n, m - 1), n)
  }

  lemma SmallRemainders(x: nat, n: nat)
    requires n > 0
    ensures x < n ==> x % n == x
    ensures n % n == 0
  {}

  lemma {:induction false} StartsGoRound(cursor: nat, n: nat, m: nat)
    requires n > 0 && m < n
    ensures var start := cursor % n;
            StartAfter(cursor, n, m) == if start + m < n then start + m else start + m - n
  {
    if m > 0 {
      StartsGoRound(cursor, n, m - 1);
      SmallRemainders(StartAfter(cursor, n, m - 1) + 1, n);
      SmallRemainders(CursorAfter(cursor, n, m), n);
    }
  }

  /** Whatever the cursor, over as many consecutive calls as there are keys every key leads exactly once. */
  lemma RotationIsFair(keys: seq<Key>, cursor: nat, place: nat)
    requires place < |keys|
    ensures exists m: nat ::
              && m < |keys|
              && Rotated(keys, StartAfter(cursor, |keys|, m))[0] == keys[place]
              && forall k: nat | k < |keys| :: StartAfter(cursor, |keys|, k) == place <==> k == m
  {
    var n, start := |keys|, cursor % |keys|;
    var m: nat := if place >= start then place - start else place + n - start;
    forall k: nat | k < n
      ensures StartAfter(cursor, n, k) == place <==> k == m
    {
      StartsGoRound(cursor, n, k);
    }
    assert StartAfter(cursor, n, m) == place;
    assert Rotated(keys, place)[0] == keys[place];
  }

  /** A rotation loses no key. */
  lemma RotationKeepsKeys(keys: seq<Key>, start: nat)
    requires start <= |keys|
    ensures multiset(Rotated(keys, start)) == multiset(keys)
  {
    assert keys == keys[..start] + keys[start..];
  }

  // ----------------------------------------------------------------- one provider's keys

  datatype Given = Answered(key: int, text: string) | Refused(failure: Failure)

  const NO_KEY := Failure(Code.NoKey, false, false)

  /** One database access: whatever the others did to the cooldowns has happened by then. */
  function Accessed(env: Env, s: State): State {
    s.(accesses := s.accesses + 1, cooldowns := env.others(s.accesses, s.cooldowns))
  }

  /** `mark_ai_key_used` and `record_ai_key_failure`; any other failure leaves the database alone. */
  function Noted(env: Env, s: State, key: int, outcome: Outcome): State {
    if outcome.Failed? && !outcome.failure.keyFault then s
    else
      var t := Accessed(env, s);
      if !env.recorded(s.accesses) then t
      else if outcome.Got? then t.(cooldowns := t.cooldowns - {key})
      else t.(cooldowns := t.cooldowns[key := env.clock(s.accesses) + COOLDOWN])
  }

  /** The state after one key was asked. */
  function AfterKey(env: Env, s: State, e: Entry, key: Key): State
    requires key.readable
  {
    var (outcome, posts) := Answer(env.world, s.time, key.id, e.model, Tries(e.maxRetries));
    Noted(env, s.(time := s.time + posts, log := s.log + [Asked(key.id, e.model, outcome, s.accesses)]), key.id,
          outcome)
  }

  function OutcomeOf(env: Env, s: State, e: Entry, key: Key): Outcome {
    Answer(env.world, s.time, key.id, e.model, Tries(e.maxRetries)).0
  }

  /** What is left to do for an entry when `keys` are left to ask. */
  function AskKeys(env: Env, s: State, e: Entry, keys: seq<Key>, last: Failure): (Given, State)
    decreases |keys|
  {
    if keys == [] then (Refused(last), s)
    else if !keys[0].readable then AskKeys(env, s, e, keys[1..], last)
    else
      match OutcomeOf(env, s, e, keys[0])
      case Got(text) => (Answered(keys[0].id, text), AfterKey(env, s, e, keys[0]))
      case Failed(failure) => AskKeys(env, AfterKey(env, s, e, keys[0]), e, keys[1..], failure)
  }

  /** The keys the list query returns when an entry is reached. */
  function Listed(env: Env, s: State, e: Entry): seq<Key> {
    Usable(env.keys(e.provider), Accessed(env, s).cooldowns, env.clock(s.accesses))
  }

  function KeysFor(env: Env, s: State, e: Entry): seq<Key> {
    var keys := Listed(env, s, e);
    if keys == [] then [] else Rotated(keys, Start(s.cursors, e.provider, |keys|))
  }

  function AfterRotation(env: Env, s: State, e: Entry): State {
    var (keys, t) := (Listed(env, s, e), Accessed(env, s));
    if keys == [] then t
    else t.(cursors := s.cursors[e.provider := (Start(s.cursors, e.provider, |keys|) + 1) % |keys|])
  }

  function AskEntry(env: Env, s: State, e: Entry): (Given, State) {
    AskKeys(env, AfterRotation(env, s, e), e, KeysFor(env, s, e), NO_KEY)
  }

  // -------------------------------------------------------------------------- the chain

  datatype Final =
    | FromEntry(entry: nat, key: int, text: string)
    | NothingConfigured
    | AllFailed

  predicate Enabled(e: Entry) {
    e.providerEnabled && e.modelEnabled
  }

  predicate AnyEnabled(chain: seq<Entry>) {
    exists e | e in chain :: Enabled(e)
  }

  /** The state when the entry at `i` is reached, all before it having failed. */
  function Reached(env: Env, s: State, chain: seq<Entry>, i: nat): State
    requires i <= |chain|
  {
    if i == 0 then s
    else
      var before := Reached(env, s, chain, i - 1);
      if Enabled(chain[i - 1]) then AskEntry(env, before, chain[i - 1]).1 else before
  }

  /** The entry is enabled and, asked in its turn, gives an answer the caller accepts. */
  predicate Serves(env: Env, s: State, chain: seq<Entry>, valid: string -> bool, i: nat)
    requires i < |chain|
  {
    && Enabled(chain[i])
    && AskEntry(env, Reached(env, s, chain, i), chain[i]).0.Answered?
    && valid(AskEntry(env, Reached(env, s, chain, i), chain[i]).0.text)
  }

  class AiProviderService {
    const env: Env
    var time: nat
    var accesses: nat
    var cursors: map<int, nat>
    var cooldowns: Cooldowns
    ghost var log: seq<Asked>

    ghost function Now(): State
      reads this
    {
      State(time, accesses, cursors, cooldowns, log)
    }

    constructor (env: Env, cursors: map<int, nat>, cooldowns: Cooldowns)
      ensures this.env == env && Now() == State(0, 0, cursors, cooldowns, [])
    {
      this.env, time, accesses, this.cursors, this.cooldowns, log := env, 0, 0, cursors, cooldowns, [];
    }

    /** Whatever the others did by the time of this access; the clock's reading at it. */
    method Access() returns (now: nat)
      modifies `accesses, `cooldowns
      ensures Now() == Accessed(env, old(Now())) && now == env.clock(old(accesses))
    {
      now := env.clock(accesses);
      cooldowns := env.others(accesses, cooldowns);
      accesses := accesses + 1;
    }

    method RecordFailure(key: int)
      modifies `accesses, `cooldowns
      ensures forall f: Failure | f.keyFault :: Now() == Noted(env, old(Now()), key, Failed(f))
    {
      var accepted := env.recorded(accesses);
      var now := Access();
      if accepted {
        cooldowns := cooldowns[key := now + COOLDOWN];
      }
    }

    method MarkUsed(key: int)
      modifies `accesses, `cooldowns
      ensures forall text :: Now() == Noted(env, old(Now()), key, Got(text))
    {
      var accepted := env.recorded(accesses);
      var now := Access();
      if accepted {
        cooldowns := cooldowns - {key};
      }
    }

    method RotateKeys(provider: int, keys: seq<Key>) returns (ordered: seq<Key>)
      modifies `cursors
      ensures keys == [] ==> ordered == [] && cursors == old(cursors)
      ensures keys != [] ==>
                var start := Start(old(cursors), provider, |keys|);
                && ordered == Rotated(keys, start)
                && cursors == old(cursors)[provider := (start + 1) % |keys|]
    {
      if keys == [] {
        return [];
      }
      var start := (if provider in cursors then cursors[provider] else 0) % |keys|;
      ordered := keys[start..] + keys[..start];
      cursors := cursors[provider := (start + 1) % |keys|];
    }

    /** One turn of the loop over the keys. */
    method AskKey(e: Entry, key: Key) returns (outcome: Outcome)
      requires key.readable
      modifies this
      ensures outcome == OutcomeOf(env, old(Now()), e, key)
      ensures Now() == AfterKey(env, old(Now()), e, key)
    {
      var posts: nat;
      outcome, posts := Complete(env.world, time, key.id, e.model, e.maxRetries);
      time := time + posts;
      log := log + [Asked(key.id, e.model, outcome, accesses)];
      if outcome.Got? {
        MarkUsed(key.id);
      } else if outcome.failure.keyFault {
        RecordFailure(key.id);
      }
    }

    /** `_ask`: the keys in turn until one answers; a refused key is given a cooldown. */
    method Ask(e: Entry) returns (given: Given)
      modifies this
      ensures (given, Now()) == AskEntry(env, old(Now()), e)
    {
      var now := Access();
      var usable := Usable(env.keys(e.provider), cooldowns, now);
      var keys := RotateKeys(e.provider, usable);
      ghost var begun := Now();
      assert begun == AfterRotation(env, old(Now()), e);
      if keys == [] {
        return Refused(NO_KEY);
      }
      var last := NO_KEY;
      for i := 0 to |keys|
        invariant AskKeys(env, Now(), e, keys[i..], last) == AskKeys(env, begun, e, keys, NO_KEY)
      {
        assert keys[i..][1..] == keys[i + 1..];
        if keys[i].readable {
          var outcome := AskKey(e, keys[i]);
          if outcome.Got? {
            return Answered(keys[i].id, outcome.text);
          }
          last := outcome.failure;
        }
      }
      return Refused(last);
    }

    /** `complete`: the first entry that serves, and the reason when there is none. */
    method CompleteChain(chain: seq<Entry>, valid: string -> bool) returns (final: Final)
      modifies this
      ensures final.FromEntry? ==>
                && final.entry < |chain|
                && Serves(env, old(Now()), chain, valid, final.entry)
                && (forall j: nat | j < final.entry :: !Serves(env, old(Now()), chain, valid, j))
                && Now() == Reached(env, old(Now()), chain, final.entry + 1)
                && AskEntry(env, Reached(env, old(Now()), chain, final.entry), chain[final.entry]).0
                   == Answered(final.key, final.text)
      ensures !final.FromEntry? ==>
                && (forall j: nat | j < |chain| :: !Serves(env, old(Now()), chain, valid, j))
                && Now() == Reached(env, old(Now()), chain, |chain|)
      ensures final == NothingConfigured <==> !AnyEnabled(chain)
    {
      if chain == [] {
        return NothingConfigured;
      }
      ghost var begun := Now();
      var failures := 0;
      for i := 0 to |chain|
        invariant Now() == Reached(env, begun, chain, i)
        invariant forall j: nat | j < i :: !Serves(env, begun, chain, valid, j)
        invariant failures == 0 <==> forall j: nat | j < i :: !Enabled(chain[j])
      {
        var e := chain[i];
        if !e.providerEnabled || !e.modelEnabled {
          continue;
        }
        assert e in chain;
        var given := Ask(e);
        if given.Answered? && valid(given.text) {
          return FromEntry(i, given.key, given.text);
        }
        failures := failures + 1;
      }
      return if failures == 0 then NothingConfigured else AllFailed;
    }
  }

  // ---------------------------------------------------------------------- the first key

  function Passed(env: Env, s: State, e: Entry, key: Key): State {
    if key.readable then AfterKey(env, s, e, key) else s
  }

  /** The state when the key at `j` is reached, all before it having failed. */
  function AtKey(env: Env, s: State, e: Entry, keys: seq<Key>, j: nat): State
    requires j <= |keys|
    decreases j
  {
    if j == 0 then s else AtKey(env, Passed(env, s, e, keys[0]), e, keys[1..], j - 1)
  }

  /** The key can be opened and, asked in its turn, gives an answer. */
  predicate KeyServes(env: Env, s: State, e: Entry, keys: seq<Key>, j: nat)
    requires j < |keys|
  {
    keys[j].readable && OutcomeOf(env, AtKey(env, s, e, keys, j), e, keys[j]).Got?
  }

  /** An entry's answer is that of the first key that serves; without one, every key has been asked. */
  lemma {:induction false} FirstKeyAnswers(env: Env, s: State, e: Entry, keys: seq<Key>, last: Failure)
    ensures var (given, after) := AskKeys(env, s, e, keys, last);
            if given.Refused? then
              after == AtKey(env, s, e, keys, |keys|) && forall j: nat | j < |keys| :: !KeyServes(env, s, e, keys, j)
            else
              exists j: nat ::
                && j < |keys|
                && KeyServes(env, s, e, keys, j)
                && (forall i: nat | i < j :: !KeyServes(env, s, e, keys, i))
                && given == Answered(keys[j].id, OutcomeOf(env, AtKey(env, s, e, keys, j), e, keys[j]).text)
                && after == AtKey(env, s, e, keys, j + 1)
    decreases |keys|
  {
    if keys != [] {
      if keys[0].readable && OutcomeOf(env, s, e, keys[0]).Got? {
        assert KeyServes(env, s, e, keys, 0);
        assert AtKey(env, s, e, keys, 1) == AfterKey(env, s, e, keys[0]);
      } else {
        var next, rest := Passed(env, s, e, keys[0]), keys[1..];
        var after := if keys[0].readable then OutcomeOf(env, s, e, keys[0]).failure else last;
        FirstKeyAnswers(env, next, e, rest, after);
        assert AskKeys(env, s, e, keys, last) == AskKeys(env, next, e, rest, after);
        assert !KeyServes(env, s, e, keys, 0);
        forall j: nat | j < |rest|
          ensures KeyServes(env, s, e, keys, j + 1) == KeyServes(env, next, e, rest, j)
          ensures AtKey(env, s, e, keys, j + 2) == AtKey(env, next, e, rest, j + 1)
        {}
        if AskKeys(env, next, e, rest, after).0.Refused? {
          forall j: nat | j < |keys|
            ensures !KeyServes(env, s, e, keys, j)
          {
            if j > 0 {
              assert KeyServes(env, s, e, keys, j - 1 + 1) == KeyServes(env, next, e, rest, j - 1);
            }
          }
        } else {
          var j: nat :| j < |rest| && KeyServes(env, next, e, rest, j)
            && (forall i: nat | i < j :: !KeyServes(env, next, e, rest, i))
            && AskKeys(env, next, e, rest, after).0
               == Answered(rest[j].id, OutcomeOf(env, AtKey(env, next, e, rest, j), e, rest[j]).text)
            && AskKeys(env, next, e, rest, after).1 == AtKey(env, next, e, rest, j + 1);
          forall i: nat | i < j + 1
            ensures !KeyServes(env, s, e, keys, i)
          {
            if i > 0 {
              assert KeyServes(env, s, e, keys, i - 1 + 1) == KeyServes(env, next, e, rest, i - 1);
            }
          }
          assert KeyServes(env, s, e, keys, j + 1);
        }
      }
    }
  }

  // ------------------------------------------------------------------------ posts made

  lemma {:induction false} UsableIsFewer(keys: seq<Key>, cooldowns: Cooldowns, now: nat)
    ensures |Usable(keys, cooldowns, now)| <= |keys|
  {
    if keys != [] {
      UsableIsFewer(keys[1..], cooldowns, now);
    }
  }

  lemma {:induction false} KeysPost(env: Env, s: State, e: Entry, keys: seq<Key>, last: Failure)
    ensures s.time <= AskKeys(env, s, e, keys, last).1.time <= s.time + |keys| * Tries(e.maxRetries)
    decreases |keys|
  {
    if keys != [] {
      var next := Passed(env, s, e, keys[0]);
      assert next.time <= s.time + Tries(e.maxRetries);
      OneMore(|keys|, Tries(e.maxRetries));
      if !keys[0].readable {
        KeysPost(env, s, e, keys[1..], last);
      } else if OutcomeOf(env, s, e, keys[0]).Failed? {
        KeysPost(env, next, e, keys[1..], OutcomeOf(env, s, e, keys[0]).failure);
      }
    }
  }

  lemma OneMore(n: nat, t: nat)
    requires n > 0
    ensures n * t == (n - 1) * t + t && (n - 1) * t >= 0
  {}

  function Budget(env: Env, chain: seq<Entry>): nat {
    if chain == [] then 0
    else
      var last := chain[|chain| - 1];
      Budget(env, chain[..|chain| - 1])
      + if Enabled(last) then |env.keys(last.provider)| * Tries(last.maxRetries) else 0
  }

  lemma EntryPosts(env: Env, s: State, e: Entry)
    ensures s.time <= AskEntry(env, s, e).1.time <= s.time + |env.keys(e.provider)| * Tries(e.maxRetries)
  {
    UsableIsFewer(env.keys(e.provider), Accessed(env, s).cooldowns, env.clock(s.accesses));
    KeysPost(env, AfterRotation(env, s, e), e, KeysFor(env, s, e), NO_KEY);
    MoreKeys(|KeysFor(env, s, e)|, |env.keys(e.provider)|, Tries(e.maxRetries));
  }

  lemma {:induction false} MoreKeys(a: nat, b: nat, t: nat)
    requires a <= b
    ensures a * t <= b * t
  {
    assert b * t == a * t + (b - a) * t;
  }

  /** However the chain fares, the posts made are at most its enabled entries' keys times their tries. */
  lemma {:induction false} PostsAreBounded(env: Env, s: State, chain: seq<Entry>, i: nat)
    requires i <= |chain|
    ensures Reached(env, s, chain, i).time <= s.time + Budget(env, chain[..i])
  {
    if i > 0 {
      PostsAreBounded(env, s, chain, i - 1);
      assert chain[..i][..i - 1] == chain[..i - 1];
      EntryPosts(env, Reached(env, s, chain, i - 1), chain[i - 1]);
    }
  }

  // ------------------------------------------------------------- one entry and one call, told apart

  /** An entry of a disabled provider, or with a disabled model, is passed over: it makes no post, reads no
      key and gives no answer. */
  lemma DisabledIsPassedOver(env: Env, s: State, chain: seq<Entry>, valid: string -> bool, i: nat)
    requires i < |chain| && !(chain[i].providerEnabled && chain[i].modelEnabled)
    ensures Reached(env, s, chain, i + 1) == Reached(env, s, chain, i)
    ensures !Serves(env, s, chain, valid, i)
  {}

  /** Any other entry is asked in its turn, and serves exactly if one of its keys answers with a text that the
      caller accepts. */
  lemma EnabledIsAsked(env: Env, s: State, chain: seq<Entry>, valid: string -> bool, i: nat)
    requires i < |chain| && chain[i].providerEnabled && chain[i].modelEnabled
    ensures var (given, after) := AskEntry(env, Reached(env, s, chain, i), chain[i]);
            && Reached(env, s, chain, i + 1) == after
            && (Serves(env, s, chain, valid, i) <==> given.Answered? && valid(given.text))
  {}

  /** A call asks the keys that are listed, from its provider's cursor around, the first of them where there
      is no cursor yet; the cursor then is one further. With no key listed, nothing is asked and the cursor
      stays. */
  lemma CallsRotate(env: Env, s: State, e: Entry)
    ensures var keys := Listed(env, s, e);
            if keys == [] then KeysFor(env, s, e) == [] && AfterRotation(env, s, e).cursors == s.cursors
            else
              var start := if e.provider in s.cursors then s.cursors[e.provider] % |keys| else 0;
              && KeysFor(env, s, e) == keys[start..] + keys[..start]
              && AfterRotation(env, s, e).cursors == s.cursors[e.provider := (start + 1) % |keys|]
              && AfterRotation(env, s, e).log == s.log && AfterRotation(env, s, e).time == s.time
  {
    var keys := Listed(env, s, e);
    if keys != [] && e.provider !in s.cursors {
      assert 0 % |keys| == 0;
    }
  }
}
