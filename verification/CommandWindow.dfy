/** The WebSocket command window: one receiver, one worker, eight slots, 4096 remembered ids. */
module CommandWindow {
  import opened Text

  const SLOTS := 8
  const REMEMBERED := 4096

  /** What the receiver can read off the socket; a proper command carries an id of 1 to 128 characters. */
  datatype Frame = Pong | Malformed | Command(id: string, payload: string)

  datatype Answer = Silent | Invalid | Duplicate | Busy | Accept

  /** Between the check and the enqueueing the receiver awaits its answer being sent: `admitted` is the
      command in that gap. `accepted`, `taken` and `finished` record the whole session. */
  datatype Session = Session(
    seen: set<string>,
    order: seq<string>,
    commands: seq<Frame>,
    admitted: Option<Frame>,
    running: Option<Frame>,
    accepted: seq<Frame>,
    finished: seq<Frame>)

  datatype Step =
    | Receive(frame: Frame)  // read, check and remember; runs to the next await
    | Enqueue                // the answer was sent: `put_nowait`
    | Start                  // the worker takes the next command
    | Finish                 // and is done with it, however it went

  predicate IsCommand(f: Frame) {
    f.Command? && 1 <= |f.id| <= 128
  }

  function AnswerTo(s: Session, f: Frame): Answer {
    if f.Pong? then Silent
    else if !IsCommand(f) then Invalid
    else if f.id in s.seen then Duplicate
    else if |s.commands| >= SLOTS then Busy
    else Accept
  }

  function Remember(s: Session, id: string): Session {
    if |s.order| >= REMEMBERED then s.(seen := s.seen - {s.order[0]} + {id}, order := s.order[1..] + [id])
    else s.(seen := s.seen + {id}, order := s.order + [id])
  }

  /** None when the step cannot happen now: the receiver is still sending, or there is nothing to take. */
  function Next(s: Session, step: Step): Option<Session> {
    match step
    case Receive(f) =>
      if s.admitted.Some? then None
      else if AnswerTo(s, f) == Accept then
        Some(Remember(s, f.id).(admitted := Some(f), accepted := s.accepted + [f]))
      else Some(s)
    case Enqueue =>
      // QueueFull is an exception that would end the session
      if s.admitted.None? || |s.commands| >= SLOTS then None
      else Some(s.(commands := s.commands + [s.admitted.value], admitted := None))
    case Start =>
      if s.running.Some? || s.commands == [] then None
      else Some(s.(running := Some(s.commands[0]), commands := s.commands[1..]))
    case Finish =>
      if s.running.None? then None
      else Some(s.(running := None, finished := s.finished + [s.running.value]))
  }

  const START := Session({}, [], [], None, None, [], [])

  /** A run: any interleaving of receiver and worker steps that can happen. */
  function Run(steps: seq<Step>): Option<Session> {
    if steps == [] then Some(START)
    else
      match Run(steps[..|steps| - 1])
      case None => None
      case Some(before) => Next(before, steps[|steps| - 1])
  }

  class CommandSession {
    var seen: set<string>
    var order: seq<string>
    var commands: seq<Frame>
    var admitted: Option<Frame>
    var running: Option<Frame>
    ghost var accepted: seq<Frame>
    ghost var finished: seq<Frame>

    ghost function State(): Session
      reads this
    {
      Session(seen, order, commands, admitted, running, accepted, finished)
    }

    constructor ()
      ensures State() == START
    {
      seen, order, commands, admitted, running, accepted, finished := {}, [], [], None, None, [], [];
    }

    /** `receive`, from the read to the next send. */
    method Receive(frame: Frame) returns (answer: Answer)
      requires admitted.None?
      modifies this
      ensures Next(old(State()), Step.Receive(frame)) == Some(State())
      ensures answer == AnswerTo(old(State()), frame)
    {
      if frame.Pong? {
        return Silent;
      }
      if frame.Malformed? || !(1 <= |frame.id| <= 128) {
        return Invalid;
      }
      if frame.id in seen || |commands| >= SLOTS {
        return if frame.id in seen then Duplicate else Busy;
      }
      if |order| >= REMEMBERED {
        seen, order := seen - {order[0]}, order[1..];
      }
      seen := seen + {frame.id};
      order := order + [frame.id];
      admitted, accepted := Some(frame), accepted + [frame];
      return Accept;
    }

    /** `put_nowait`, which raises if there is no room. */
    method Enqueue() returns (ok: bool)
      requires admitted.Some?
      modifies this
      ensures ok ==> Next(old(State()), Step.Enqueue) == Some(State())
      ensures !ok ==> Next(old(State()), Step.Enqueue) == None && State() == old(State())
    {
      if |commands| >= SLOTS {
        return false;
      }
      commands, admitted := commands + [admitted.value], None;
      return true;
    }

    /** `worker`: the next command, if there is one. */
    method Start() returns (command: Option<Frame>)
      requires running.None?
      modifies this
      ensures command.None? ==> old(commands) == [] && State() == old(State())
      ensures command.Some? ==>
                && Next(old(State()), Step.Start) == Some(State())
                && old(commands) != [] && command.value == old(commands)[0]
    {
      if commands == [] {
        return None;
      }
      running, commands := Some(commands[0]), commands[1..];
      return running;
    }

    method Finish()
      requires running.Some?
      modifies this
      ensures Next(old(State()), Step.Finish) == Some(State())
    {
      running, finished := None, finished + [running.value];
    }
  }

  // -------------------------------------------------------------------------- every run

  function Ids(frames: seq<Frame>): (ids: seq<string>)
    ensures |ids| == |frames|
    ensures forall k | 0 <= k < |frames| && frames[k].Command? :: ids[k] == frames[k].id
  {
    seq(|frames|, k requires 0 <= k < |frames| => if frames[k].Command? then frames[k].id else "")
  }

  function Listed(f: Option<Frame>): seq<Frame> {
    if f.Some? then [f.value] else []
  }

  /** The last `n` of a list, or all of it. */
  function Last(ids: seq<string>, n: nat): seq<string> {
    if |ids| <= n then ids else ids[|ids| - n..]
  }

  /** No id comes back while it is among the remembered ones. */
  predicate Apart(ids: seq<string>) {
    forall j, k | 0 <= j < k < |ids| && k - j <= REMEMBERED :: ids[j] != ids[k]
  }

  ghost predicate Inv(s: Session) {
    && (forall k | 0 <= k < |s.accepted| :: IsCommand(s.accepted[k]))
    && s.order == Last(Ids(s.accepted), REMEMBERED)
    && (forall id :: id in s.seen <==> id in s.order)
    && Apart(Ids(s.accepted))
    && |s.commands| + |Listed(s.admitted)| <= SLOTS
    && s.accepted == s.finished + Listed(s.running) + s.commands + Listed(s.admitted)
  }

  lemma LastGrows(ids: seq<string>, id: string)
    ensures Last(ids + [id], REMEMBERED)
            == if |Last(ids, REMEMBERED)| >= REMEMBERED then Last(ids, REMEMBERED)[1..] + [id]
               else Last(ids, REMEMBERED) + [id]
  {}

  lemma ApartGrows(ids: seq<string>, id: string)
    requires Apart(ids) && id !in Last(ids, REMEMBERED)
    ensures Apart(ids + [id])
  {
    var last := Last(ids, REMEMBERED);
    forall j | 0 <= j < |ids| && |ids| - j <= REMEMBERED
      ensures ids[j] != id
    {
      assert ids[j] == last[j - (|ids| - |last|)];
    }
  }

  /** The oldest remembered id is not among the newer ones, so forgetting it leaves exactly those. */
  lemma OldestIsAlone(ids: seq<string>)
    requires Apart(ids) && ids != []
    ensures Last(ids, REMEMBERED)[0] !in Last(ids, REMEMBERED)[1..]
  {
    var last := Last(ids, REMEMBERED);
    forall k | 0 <= k < |last| - 1
      ensures last[1..][k] != last[0]
    {
      var from := |ids| - |last|;
      assert last[0] == ids[from] && last[1..][k] == ids[from + 1 + k];
    }
  }

  lemma RememberKeeps(s: Session, ids: seq<string>, id: string)
    requires s.order == Last(ids, REMEMBERED) && (forall i :: i in s.seen <==> i in s.order)
    requires Apart(ids) && id !in s.order
    ensures var t := Remember(s, id);
            t.order == Last(ids + [id], REMEMBERED) && forall i :: i in t.seen <==> i in t.order
  {
    LastGrows(ids, id);
    if |s.order| >= REMEMBERED {
      OldestIsAlone(ids);
      assert s.order == [s.order[0]] + s.order[1..];
    }
  }

  lemma {:induction false} AcceptKeeps(s: Session, f: Frame)
    requires Inv(s) && s.admitted.None? && AnswerTo(s, f) == Accept
    ensures Inv(Remember(s, f.id).(admitted := Some(f), accepted := s.accepted + [f]))
  {
    var ids := Ids(s.accepted);
    assert Ids(s.accepted + [f]) == ids + [f.id];
    RememberKeeps(s, ids, f.id);
    ApartGrows(ids, f.id);
  }

  lemma {:induction false} StepKeeps(s: Session, step: Step)
    requires Inv(s) && Next(s, step).Some?
    ensures Inv(Next(s, step).value)
  {
    match step {
      case Receive(f) =>
        if AnswerTo(s, f) == Accept {
          AcceptKeeps(s, f);
        }
      case Enqueue =>
      case Start =>
        assert s.commands == [s.commands[0]] + s.commands[1..];
      case Finish =>
    }
  }

  lemma {:induction false} RunHolds(steps: seq<Step>, s: Session)
    requires Run(steps) == Some(s)
    ensures Inv(s)
  {
    if steps != [] {
      var before := Run(steps[..|steps| - 1]).value;
      RunHolds(steps[..|steps| - 1], before);
      StepKeeps(before, steps[|steps| - 1]);
    }
  }

  /** Whatever the worker does between the check and the enqueueing, there is room for the command. */
  lemma AdmittedAlwaysFits(steps: seq<Step>, s: Session)
    requires Run(steps) == Some(s) && s.admitted.Some?
    ensures |s.commands| < SLOTS && Next(s, Enqueue).Some?
  {
    RunHolds(steps, s);
  }

  /** Commands run in the order of their acceptance and each at most once: what has been started is a
      prefix of what was accepted, in which no id appears twice within 4097 places. */
  lemma StartedInOrder(steps: seq<Step>, s: Session)
    requires Run(steps) == Some(s)
    ensures s.finished + Listed(s.running) <= s.accepted
    ensures forall j, k | 0 <= j < k < |s.accepted| && k - j <= REMEMBERED ::
              Ids(s.accepted)[j] != Ids(s.accepted)[k]
  {
    RunHolds(steps, s);
  }

  lemma LastExactly(ids: seq<string>, id: string)
    ensures id in Last(ids, REMEMBERED)
            <==> exists k :: 0 <= k < |ids| && |ids| - k <= REMEMBERED && ids[k] == id
  {
    var last := Last(ids, REMEMBERED);
    var from := |ids| - |last|;
    if i :| 0 <= i < |last| && last[i] == id {
      assert ids[from + i] == id;
    }
    if k :| 0 <= k < |ids| && |ids| - k <= REMEMBERED && ids[k] == id {
      assert last[k - from] == id;
    }
  }

  /** A ping's answer is passed over; a frame that is no command with an id of 1 to 128 characters is invalid;
      a proper command is turned away as a duplicate exactly if it repeats one of the last 4096 accepted, and
      otherwise as too busy exactly if eight commands wait; every other one is accepted. */
  lemma RefusedExactly(steps: seq<Step>, s: Session, f: Frame)
    requires Run(steps) == Some(s)
    ensures var repeated := f.Command? && exists k ::
                              0 <= k < |s.accepted| && |s.accepted| - k <= 4096 && Ids(s.accepted)[k] == f.id;
            AnswerTo(s, f) == match f
                              case Pong => Silent
                              case Malformed => Invalid
                              case Command(id, _) =>
                                if id == "" || |id| > 128 then Invalid
                                else if repeated then Duplicate
                                else if |s.commands| == 8 then Busy
                                else Accept
  {
    RunHolds(steps, s);
    if f.Command? {
      LastExactly(Ids(s.accepted), f.id);
    }
  }
}
