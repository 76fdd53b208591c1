/** One question to one AI provider: which failures are tried again. */
module AiClient {
  datatype Code =
    | Auth | RateLimit | ModelMissing | ServerError | ParamRejected | RequestRejected
    | TimedOut | Unreachable | BadResponse | NoKey

  datatype Failure = Failure(code: Code, keyFault: bool, retryable: bool)

  /** What a post comes to. `Unreadable` is the error raised while a body below 400 is read: no JSON,
      no text, or an error envelope of the vendor. */
  datatype Reply =
    | NoReply
    | NoConnection
    | Http(status: int, mentionsParam: bool, text: string)
    | Unreadable(failure: Failure)

  datatype Outcome = Got(text: string) | Failed(failure: Failure)

  /** The provider's side: the reply to the n-th post of all, made with this key to this model. */
  type World = (nat, int, int) -> Reply

  /** `_classify_status`. */
  function ClassifyStatus(status: int, mentionsParam: bool): Failure {
    if status == 401 || status == 403 then Failure(Auth, true, false)
    else if status == 429 then Failure(RateLimit, true, false)
    else if status == 404 then Failure(ModelMissing, false, false)
    else if status >= 500 then Failure(ServerError, false, true)
    else if status == 400 && mentionsParam then Failure(ParamRejected, false, false)
    else Failure(RequestRejected, false, false)
  }

  /** What to do about a reply: `Again` if a retry may help. */
  datatype Judgement = Done(outcome: Outcome) | Again(failure: Failure)

  function Judge(reply: Reply): Judgement {
    match reply
    case NoReply => Again(Failure(TimedOut, false, true))
    case NoConnection => Again(Failure(Unreachable, false, true))
    case Http(status, mentionsParam, text) =>
      if status < 400 then Done(Got(text))
      else if status >= 500 then Again(ClassifyStatus(status, mentionsParam))
      else Done(Failed(ClassifyStatus(status, mentionsParam)))
    case Unreadable(failure) => Done(Failed(failure))
  }

  function Tries(maxRetries: int): nat {
    if maxRetries <= 0 then 1 else maxRetries + 1
  }

  /** The outcome and the number of posts, with `tries` of them left. */
  function Answer(world: World, time: nat, key: int, model: int, tries: nat): (r: (Outcome, nat))
    requires tries >= 1
    ensures 1 <= r.1 <= tries
    decreases tries
  {
    match Judge(world(time, key, model))
    case Done(outcome) => (outcome, 1)
    case Again(failure) =>
      if tries == 1 then (Failed(failure), 1)
      else
        var (outcome, posts) := Answer(world, time + 1, key, model, tries - 1);
        (outcome, posts + 1)
  }

  /** `OpenAiCompatibleClient.complete`: the retry loop. */
  method Complete(world: World, time: nat, key: int, model: int, maxRetries: int)
    returns (outcome: Outcome, posts: nat)
    ensures (outcome, posts) == Answer(world, time, key, model, Tries(maxRetries))
  {
    var tries := Tries(maxRetries);
    var last := Failure(BadResponse, false, false);
    posts := 0;
    while true
      invariant posts < tries
      invariant var (o, n) := Answer(world, time + posts, key, model, tries - posts);
                (o, n + posts) == Answer(world, time, key, model, tries)
      decreases tries - posts
    {
      var reply := world(time + posts, key, model);
      posts := posts + 1;
      match reply {
        case NoReply =>
          last := Failure(TimedOut, false, true);
        case NoConnection =>
          last := Failure(Unreachable, false, true);
        case Http(status, mentionsParam, text) =>
          if status >= 400 {
            last := ClassifyStatus(status, mentionsParam);
          } else {
            return Got(text), posts;
          }
        case Unreadable(failure) =>
          return Failed(failure), posts;
      }
      if !last.retryable || posts >= tries {
        return Failed(last), posts;
      }
    }
  }

  /** The post at `at` failed in a way a retry may help: nobody answered, or the server broke. */
  predicate Retryable(world: World, at: nat, key: int, model: int) {
    match world(at, key, model)
    case NoReply => true
    case NoConnection => true
    case Http(status, _, _) => status >= 500
    case Unreadable(_) => false
  }

  /** What a reply tells on its own. */
  lemma RepliesTell(reply: Reply)
    ensures Judge(reply).Again? <==> reply.NoReply? || reply.NoConnection? || (reply.Http? && reply.status >= 500)
    ensures var outcome := if Judge(reply).Again? then Failed(Judge(reply).failure) else Judge(reply).outcome;
            outcome == match reply
                       case NoReply => Failed(Failure(TimedOut, false, true))
                       case NoConnection => Failed(Failure(Unreachable, false, true))
                       case Unreadable(failure) => Failed(failure)
                       case Http(status, mentionsParam, text) =>
                         if status < 400 then Got(text)
                         else if status >= 500 then Failed(Failure(ServerError, false, true))
                         else if status == 401 || status == 403 then Failed(Failure(Auth, true, false))
                         else if status == 429 then Failed(Failure(RateLimit, true, false))
                         else if status == 404 then Failed(Failure(ModelMissing, false, false))
                         else if status == 400 && mentionsParam then Failed(Failure(ParamRejected, false, false))
                         else Failed(Failure(RequestRejected, false, false))
  {}

  /** There is one try, and one more for each retry that is allowed. */
  lemma TriesAllowed(maxRetries: int)
    ensures Tries(maxRetries) == 1 + if maxRetries > 0 then maxRetries else 0
  {}

  /** The posts made are the shortest run of retryable failures that ends in something else, or all
      that are allowed; the last post decides. A vendor's error inside a readable body ends the run
      even where it is marked retryable. */
  lemma {:induction false} RetriesExactly(world: World, time: nat, key: int, model: int, tries: nat)
    requires tries >= 1
    ensures var (outcome, posts) := Answer(world, time, key, model, tries);
            && 1 <= posts <= tries
            && (forall at: nat | time <= at < time + posts - 1 :: Retryable(world, at, key, model))
            && (Retryable(world, time + posts - 1, key, model) ==> posts == tries)
            && outcome == (match Judge(world(time + posts - 1, key, model))
                           case Done(o) => o
                           case Again(f) => Failed(f))
    decreases tries
  {
    RepliesTell(world(time, key, model));
    if Retryable(world, time, key, model) && tries > 1 {
      RetriesExactly(world, time + 1, key, model, tries - 1);
      var posts := Answer(world, time + 1, key, model, tries - 1).1;
      assert time + 1 + posts - 1 == time + (posts + 1) - 1;
    }
  }

  /** A key is refused exactly if the last post ends in 401, 403 or 429, or in the vendor's own words that
      refuse it; the text of an answer is that of the last post, below 400. */
  lemma KeyFaultsAreFinal(world: World, time: nat, key: int, model: int, tries: nat)
    requires tries >= 1
    ensures var (outcome, posts) := Answer(world, time, key, model, tries);
            var last := world(time + posts - 1, key, model);
            && (outcome.Failed? && outcome.failure.keyFault
                <==> || (last.Http? && last.status in {401, 403, 429})
                     || (last.Unreadable? && last.failure.keyFault))
            && (forall text :: outcome == Got(text) <==> last.Http? && last.status < 400 && last.text == text)
  {
    RetriesExactly(world, time, key, model, tries);
    RepliesTell(world(time + Answer(world, time, key, model, tries).1 - 1, key, model));
  }
}
