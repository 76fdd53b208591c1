/** The in-process event bus: bounded queues that give up their oldest event. */
module Events {
  import opened Text

  const KNOWN := {"candidate", "download", "conversion", "connection", "refresh"}

  datatype Event = Event(name: string, data: string, sequence: nat)

  /** One subscriber's queue, with a record of what became of the events published since it joined. */
  datatype Feed = Feed(open: bool, queue: seq<Event>, since: nat, delivered: seq<Event>, lost: nat)

  /** `log` is everything published so far, whether or not anyone listened. */
  datatype System = System(feeds: seq<Feed>, log: seq<Event>, dropped: nat, maxsize: int)

  datatype Step = Subscribe | Leave(feed: nat) | Publish(name: string, data: string) | Take(feed: nat)

  /** `asyncio.Queue` without a positive size is never full. */
  predicate Full(f: Feed, maxsize: int) {
    f.open && maxsize > 0 && |f.queue| >= maxsize
  }

  function Offered(f: Feed, event: Event, maxsize: int): Feed {
    if !f.open then f
    else if Full(f, maxsize) then f.(queue := f.queue[1..] + [event], lost := f.lost + 1)
    else f.(queue := f.queue + [event])
  }

  function OfferedAll(feeds: seq<Feed>, event: Event, maxsize: int): seq<Feed> {
    if feeds == [] then []
    else OfferedAll(feeds[..|feeds| - 1], event, maxsize) + [Offered(feeds[|feeds| - 1], event, maxsize)]
  }

  function CountFull(feeds: seq<Feed>, maxsize: int): nat {
    if feeds == [] then 0
    else CountFull(feeds[..|feeds| - 1], maxsize) + if Full(feeds[|feeds| - 1], maxsize) then 1 else 0
  }

  function Taken(f: Feed): Feed
    requires f.queue != []
  {
    f.(queue := f.queue[1..], delivered := f.delivered + [f.queue[0]])
  }

  function Next(s: System, step: Step): System {
    match step
    case Subscribe => s.(feeds := s.feeds + [Feed(true, [], |s.log|, [], 0)])
    case Leave(i) => if i < |s.feeds| then s.(feeds := s.feeds[i := s.feeds[i].(open := false)]) else s
    case Publish(name, data) =>
      if name !in KNOWN then s
      else
        var event := Event(name, data, |s.log| + 1);
        s.(feeds := OfferedAll(s.feeds, event, s.maxsize), log := s.log + [event],
           dropped := s.dropped + CountFull(s.feeds, s.maxsize))
    case Take(i) =>
      if i < |s.feeds| && s.feeds[i].open && s.feeds[i].queue != [] then
        s.(feeds := s.feeds[i := Taken(s.feeds[i])])
      else s
  }

  function Run(maxsize: int, steps: seq<Step>): System {
    if steps == [] then System([], [], 0, maxsize)
    else Next(Run(maxsize, steps[..|steps| - 1]), steps[|steps| - 1])
  }

  /** `EventBus`: `feeds` stands for the set of queues, one per subscriber that ever joined. */
  class EventBus {
    const maxsize: int
    var feeds: seq<Feed>
    var sequence: nat
    var dropped: nat
    ghost var log: seq<Event>

    ghost predicate Valid()
      reads this
    {
      sequence == |log|
    }

    ghost function State(): System
      reads this
    {
      System(feeds, log, dropped, maxsize)
    }

    constructor (maxsize: int)
      ensures Valid() && State() == Run(maxsize, [])
    {
      this.maxsize := maxsize;
      feeds, sequence, dropped, log := [], 0, 0, [];
    }

    method Subscribe() returns (feed: nat)
      requires Valid()
      modifies this
      ensures Valid() && State() == Next(old(State()), Step.Subscribe)
      ensures feed == |old(feeds)|
    {
      feed := |feeds|;
      feeds := feeds + [Feed(true, [], sequence, [], 0)];
    }

    method Leave(feed: nat)
      requires Valid()
      modifies this
      ensures Valid() && State() == Next(old(State()), Step.Leave(feed))
    {
      if feed < |feeds| {
        feeds := feeds[feed := feeds[feed].(open := false)];
      }
    }

    /** `queue.get`, where it does not have to wait. */
    method Take(feed: nat) returns (event: Option<Event>)
      requires Valid()
      modifies this
      ensures Valid() && State() == Next(old(State()), Step.Take(feed))
      ensures event.Some? <==> feed < |old(feeds)| && old(feeds)[feed].open && old(feeds)[feed].queue != []
      ensures event.Some? ==> event.value == old(feeds)[feed].queue[0]
    {
      event := None;
      if feed < |feeds| && feeds[feed].open && feeds[feed].queue != [] {
        var f := feeds[feed];
        event := Some(f.queue[0]);
        feeds := feeds[feed := f.(queue := f.queue[1..], delivered := f.delivered + [f.queue[0]])];
      }
    }

    /** `_offer`: try, and if the queue is full give up its oldest event and try again. */
    method Offer(feed: nat, event: Event)
      requires feed < |feeds| && feeds[feed].open
      modifies `feeds, `dropped
      ensures feeds == old(feeds)[feed := Offered(old(feeds)[feed], event, maxsize)]
      ensures dropped == old(dropped) + if Full(old(feeds)[feed], maxsize) then 1 else 0
    {
      var f := feeds[feed];
      if maxsize <= 0 || |f.queue| < maxsize {
        feeds := feeds[feed := f.(queue := f.queue + [event])];
        return;
      }
      f := f.(queue := f.queue[1..], lost := f.lost + 1);
      dropped := dropped + 1;
      feeds := feeds[feed := f.(queue := f.queue + [event])];
    }

    method OfferToAll(event: Event)
      modifies `feeds, `dropped
      ensures feeds == OfferedAll(old(feeds), event, maxsize)
      ensures dropped == old(dropped) + CountFull(old(feeds), maxsize)
    {
      ghost var before := feeds;
      for i := 0 to |feeds|
        invariant feeds == HalfOffered(before, i, event, maxsize)
        invariant dropped == old(dropped) + CountFull(before[..i], maxsize)
      {
        OfferedStep(before, i, event, maxsize);
        if feeds[i].open {
          Offer(i, event);
        }
      }
      assert before[..|before|] == before;
    }

    /** An unknown name is refused; the answer is None when nobody listens. */
    method Publish(name: string, data: string) returns (published: Result<Option<Event>>)
      requires Valid()
      modifies this
      ensures Valid() && State() == Next(old(State()), Step.Publish(name, data))
      ensures published.Ok? <==> name in KNOWN
      ensures published.Ok? ==>
                published.value == if AnyOpen(old(feeds)) then Some(Event(name, data, old(sequence) + 1)) else None
    {
      if name !in KNOWN {
        return Err;
      }
      sequence := sequence + 1;
      var event := Event(name, data, sequence);
      log := log + [event];
      var open := AnyOpen(feeds);
      OfferToAll(event);
      return Ok(if open then Some(event) else None);
    }
  }

  predicate AnyOpen(feeds: seq<Feed>) {
    exists f | f in feeds :: f.open
  }

  /** The first `i` queues have been offered the event. */
  ghost function HalfOffered(feeds: seq<Feed>, i: nat, event: Event, maxsize: int): (half: seq<Feed>)
    requires i <= |feeds|
  {
    OfferedAll(feeds[..i], event, maxsize) + feeds[i..]
  }

  lemma OfferedStep(feeds: seq<Feed>, i: nat, event: Event, maxsize: int)
    requires i < |feeds|
    ensures var half := HalfOffered(feeds, i, event, maxsize);
            && |half| == |feeds| && half[i] == feeds[i]
            && HalfOffered(feeds, i + 1, event, maxsize) == half[i := Offered(feeds[i], event, maxsize)]
    ensures CountFull(feeds[..i + 1], maxsize) == CountFull(feeds[..i], maxsize)
            + if Full(feeds[i], maxsize) then 1 else 0
  {
    OfferedAllAre(feeds[..i], event, maxsize);
    assert feeds[..i + 1][..i] == feeds[..i];
    var done := OfferedAll(feeds[..i], event, maxsize);
    var next := Offered(feeds[i], event, maxsize);
    assert OfferedAll(feeds[..i + 1], event, maxsize) == done + [next];
    assert feeds[i..] == [feeds[i]] + feeds[i + 1..];
    OneReplaced(done, feeds[i], next, feeds[i + 1..]);
  }

  lemma OneReplaced<T>(front: seq<T>, before: T, after: T, back: seq<T>)
    ensures (front + ([before] + back))[|front| := after] == front + [after] + back
    ensures (front + ([before] + back))[|front|] == before
  {}

  // ------------------------------------------------------------------------ every run

  predicate Numbered(log: seq<Event>) {
    forall k | 0 <= k < |log| :: log[k].sequence == k + 1
  }

  /** What is always true of an open queue. */
  predicate FeedHolds(f: Feed, log: seq<Event>, maxsize: int) {
    // a contiguous run of events that ends at the newest
    && |f.queue| <= |log|
    && f.queue == log[|log| - |f.queue|..]
    && (maxsize > 0 ==> |f.queue| <= maxsize)
    // nothing is lost track of
    && f.since + |f.delivered| + f.lost + |f.queue| == |log|
    && (f.lost == 0 ==> f.delivered + f.queue == log[f.since..])
    // deliveries keep the order of publication, and what is queued is newer
    && InOrder(f.delivered, log, |log| - |f.queue|)
  }

  /** Published events in rising order, none of them numbered beyond `last`. */
  predicate InOrder(delivered: seq<Event>, log: seq<Event>, last: int) {
    && (forall k | 0 <= k < |delivered| :: delivered[k] in log)
    && (forall j, k | 0 <= j < k < |delivered| :: delivered[j].sequence < delivered[k].sequence)
    && (delivered != [] ==> delivered[|delivered| - 1].sequence <= last)
  }

  function Lost(feeds: seq<Feed>): nat {
    if feeds == [] then 0 else Lost(feeds[..|feeds| - 1]) + feeds[|feeds| - 1].lost
  }

  predicate Inv(s: System) {
    && Numbered(s.log)
    && s.dropped == Lost(s.feeds)
    && forall i | 0 <= i < |s.feeds| && s.feeds[i].open :: FeedHolds(s.feeds[i], s.log, s.maxsize)
  }

  lemma {:induction false} OfferedAllAre(feeds: seq<Feed>, event: Event, maxsize: int)
    ensures var after := OfferedAll(feeds, event, maxsize);
            && |after| == |feeds|
            && (forall k | 0 <= k < |feeds| :: after[k] == Offered(feeds[k], event, maxsize))
            && Lost(after) == Lost(feeds) + CountFull(feeds, maxsize)
  {
    if feeds != [] {
      OfferedAllAre(feeds[..|feeds| - 1], event, maxsize);
      var after := OfferedAll(feeds, event, maxsize);
      assert after[..|after| - 1] == OfferedAll(feeds[..|feeds| - 1], event, maxsize);
    }
  }

  lemma {:induction false} LostAfterUpdate(feeds: seq<Feed>, i: nat, f: Feed)
    requires i < |feeds| && f.lost == feeds[i].lost
    ensures Lost(feeds[i := f]) == Lost(feeds)
  {
    var n := |feeds| - 1;
    if i < n {
      LostAfterUpdate(feeds[..n], i, f);
      assert feeds[i := f][..n] == feeds[..n][i := f];
    } else {
      assert feeds[i := f][..n] == feeds[..n];
    }
  }

  lemma OfferKeeps(f: Feed, log: seq<Event>, event: Event, maxsize: int)
    requires f.open && FeedHolds(f, log, maxsize) && event.sequence == |log| + 1
    ensures FeedHolds(Offered(f, event, maxsize), log + [event], maxsize)
  {
    var g, after := Offered(f, event, maxsize), log + [event];
    assert g.queue == after[|after| - |g.queue|..];
    if g.lost == 0 {
      assert after[f.since..] == log[f.since..] + [event];
      assert f.delivered + (f.queue + [event]) == f.delivered + f.queue + [event];
    }
  }

  lemma TakeKeeps(f: Feed, log: seq<Event>, maxsize: int)
    requires f.open && FeedHolds(f, log, maxsize) && Numbered(log) && f.queue != []
    ensures FeedHolds(Taken(f), log, maxsize)
  {
    var g := Taken(f);
    var at := |log| - |f.queue|;
    assert f.queue[0] == log[at] && log[at].sequence == at + 1;
    StaysInOrder(f.delivered, f.queue[0], log, at);
    assert g.queue == log[|log| - |g.queue|..];
    assert g.delivered + g.queue == f.delivered + f.queue;
  }

  lemma StaysInOrder(delivered: seq<Event>, event: Event, log: seq<Event>, last: int)
    requires InOrder(delivered, log, last) && event in log && event.sequence == last + 1
    ensures InOrder(delivered + [event], log, last + 1)
  {
    var d := delivered + [event];
    forall j, k | 0 <= j < k < |d|
      ensures d[j].sequence < d[k].sequence
    {
      if k == |delivered| && j < k - 1 {
        assert delivered[j].sequence < delivered[k - 1].sequence;
      }
    }
  }

  lemma {:induction false} FeedsKeep(s: System, i: nat, f: Feed)
    requires Inv(s) && i < |s.feeds| && f.lost == s.feeds[i].lost
    requires f.open ==> FeedHolds(f, s.log, s.maxsize)
    ensures Inv(s.(feeds := s.feeds[i := f]))
  {
    LostAfterUpdate(s.feeds, i, f);
  }

  lemma {:induction false} PublishKeeps(s: System, event: Event)
    requires Inv(s) && event.sequence == |s.log| + 1
    ensures Inv(s.(feeds := OfferedAll(s.feeds, event, s.maxsize), log := s.log + [event],
                   dropped := s.dropped + CountFull(s.feeds, s.maxsize)))
  {
    OfferedAllAre(s.feeds, event, s.maxsize);
    var after := OfferedAll(s.feeds, event, s.maxsize);
    forall i | 0 <= i < |after| && after[i].open
      ensures FeedHolds(after[i], s.log + [event], s.maxsize)
    {
      OfferKeeps(s.feeds[i], s.log, event, s.maxsize);
    }
  }

  lemma {:induction false} StepKeeps(s: System, step: Step)
    requires Inv(s)
    ensures Inv(Next(s, step))
  {
    match step {
      case Subscribe =>
        var t := Next(s, step);
        assert t.feeds[..|t.feeds| - 1] == s.feeds;
        assert s.log[|s.log|..] == [];
      case Leave(i) =>
        if i < |s.feeds| {
          FeedsKeep(s, i, s.feeds[i].(open := false));
        }
      case Publish(name, data) =>
        if name in KNOWN {
          PublishKeeps(s, Event(name, data, |s.log| + 1));
        }
      case Take(i) =>
        if i < |s.feeds| && s.feeds[i].open && s.feeds[i].queue != [] {
          TakeKeeps(s.feeds[i], s.log, s.maxsize);
          FeedsKeep(s, i, Taken(s.feeds[i]));
        }
    }
  }

  /** In every run, every open queue is the newest events without a gap, within its size, and what was
      published since it joined is delivered, queued or counted as dropped. */
  lemma {:induction false} BusHolds(maxsize: int, steps: seq<Step>)
    ensures Inv(Run(maxsize, steps))
  {
    if steps != [] {
      BusHolds(maxsize, steps[..|steps| - 1]);
      StepKeeps(Run(maxsize, steps[..|steps| - 1]), steps[|steps| - 1]);
    }
  }
}
