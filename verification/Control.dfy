/** Correlation of control requests and replies on the outer connection (src/bridge.rs:312-339, 412-457,
    2477-2549). Worker threads issue requests and wait for their replies with a deadline, the reader thread
    routes replies; every critical section under the state lock is one step. */
module Control {
  import opened Wrappers
  import opened FixedWidth

  const MAX_PENDING_CONTROL_REPLIES: nat := 4096

  const UNKNOWN_REQUEST := "outer presenter replied to an unknown request"
  const OVERFLOW_OR_DUPLICATE := "outer control reply queue overflow or duplicate"

  /** A reply: the request it answers, the object it is about, its type, and whether that is the ERROR type. */
  datatype Reply = Reply(requestId: nat, objectId: nat, recordType: nat, isError: bool)

  /** The shared state: issued and unanswered, timed out, answered and unclaimed requests. */
  datatype State = State(pending: set<nat>, abandoned: set<nat>, replies: map<nat, Reply>, closed: Option<string>)

  const INITIAL := State({}, {}, map[], None)

  function Close(s: State, reason: string): State {
    if s.closed.Some? then s else s.(closed := Some(reason))
  }

  /** Registering a request before it is written. */
  function Register(s: State, id: nat): Result<State> {
    if id == 0 then Err("outbound outer request has request ID zero")
    else if |s.pending| >= MAX_PENDING_CONTROL_REPLIES || id in s.pending then
      Err("outer pending request bound exceeded or request ID was reused")
    else Ok(s.(pending := s.pending + {id}))
  }

  function WriteFailed(s: State, id: nat): State {
    s.(pending := s.pending - {id})
  }

  function Route(s: State, reply: Reply): State {
    var id := reply.requestId;
    if id == 0 then s
    else if id in s.abandoned then s.(abandoned := s.abandoned - {id})
    else if id !in s.pending then Close(s, UNKNOWN_REQUEST)
    else
      var after := s.(pending := s.pending - {id});
      if |s.replies| >= MAX_PENDING_CONTROL_REPLIES then Close(after, OVERFLOW_OR_DUPLICATE)
      else
        var stored := after.(replies := s.replies[id := reply]);
        if id in s.replies then Close(stored, OVERFLOW_OR_DUPLICATE) else stored
  }

  /** What a waiter makes of the reply it takes. */
  function Judge(reply: Reply, expected: nat, objectId: nat): Result<Reply> {
    if reply.objectId != objectId then Err("outer reply has an unexpected object")
    else if reply.isError then Err("protocol error")
    else if reply.recordType != expected then Err("outer reply has an unexpected type")
    else Ok(reply)
  }

  /** What a waiter asks of the answer to its request. */
  predicate Fits(answer: Reply, expected: nat, objectId: nat) {
    answer.objectId == objectId && !answer.isError && answer.recordType == expected
  }

  /** One turn of a waiter under the lock; `None` means it goes on waiting. */
  datatype Turn = Turn(state: State, outcome: Option<Result<Reply>>)

  function WaitTurn(s: State, id: nat, expected: nat, objectId: nat, expired: bool): Turn {
    if id in s.replies then Turn(s.(replies := s.replies - {id}), Some(Judge(s.replies[id], expected, objectId)))
    else if s.closed.Some? then Turn(s, Some(Err(s.closed.value)))
    else if !expired then Turn(s, None)
    else
      Turn(s.(pending := s.pending - {id},
              abandoned := if |s.abandoned| < MAX_PENDING_CONTROL_REPLIES then s.abandoned + {id} else s.abandoned),
           Some(Err("outer reply did not arrive within the deadline")))
  }

  class ControlState {
    var pendingRequests: set<nat>
    var abandonedRequests: set<nat>
    var replies: map<nat, Reply>
    var closed: Option<string>

    ghost function Value(): State
      reads this
    {
      State(pendingRequests, abandonedRequests, replies, closed)
    }

    constructor ()
      ensures Value() == INITIAL
    {
      pendingRequests, abandonedRequests, replies, closed := {}, {}, map[], None;
    }

    /** `writer` is the outcome of handing the record to the transport. */
    method WriteRecord(requestId: nat, writer: Result<()>) returns (r: Result<()>)
      modifies this
      ensures Register(old(Value()), requestId).Err? ==> r.Err? && Value() == old(Value())
      ensures Register(old(Value()), requestId).Ok? ==>
        && r == writer
        && Value() == if writer.Ok? then Register(old(Value()), requestId).value
                      else WriteFailed(Register(old(Value()), requestId).value, requestId)
    {
      if requestId == 0 { return Err("outbound outer request has request ID zero"); }
      if |pendingRequests| >= MAX_PENDING_CONTROL_REPLIES || requestId in pendingRequests {
        return Err("outer pending request bound exceeded or request ID was reused");
      }
      pendingRequests := pendingRequests + {requestId};
      if writer.Err? {
        pendingRequests := pendingRequests - {requestId};
      }
      r := writer;
    }

    method RouteReply(reply: Reply)
      modifies this
      ensures Value() == Route(old(Value()), reply)
    {
      var id := reply.requestId;
      if id == 0 { return; }
      if id in abandonedRequests {
        abandonedRequests := abandonedRequests - {id};
        return;
      }
      var error := None;
      if id !in pendingRequests {
        error := Some(UNKNOWN_REQUEST);
      } else {
        pendingRequests := pendingRequests - {id};
        if |replies| >= MAX_PENDING_CONTROL_REPLIES {
          error := Some(OVERFLOW_OR_DUPLICATE);
        } else {
          if id in replies {
            error := Some(OVERFLOW_OR_DUPLICATE);
          }
          replies := replies[id := reply];
        }
      }
      if error.Some? && closed.None? {
        closed := error;
      }
    }

    method WaitReplyTurn(id: nat, expected: nat, objectId: nat, expired: bool) returns (outcome: Option<Result<Reply>>)
      modifies this
      ensures Turn(Value(), outcome) == WaitTurn(old(Value()), id, expected, objectId, expired)
      ensures id in old(replies) ==>
                && outcome.Some? && (outcome.value.Ok? <==> Fits(old(replies)[id], expected, objectId))
                && (outcome.value.Ok? ==> outcome.value.value == old(replies)[id]) && replies == old(replies) - {id}
      ensures id !in old(replies) ==>
                if old(closed).None? && !expired then outcome.None? else outcome.Some? && outcome.value.Err?
    {
      if id in replies {
        var reply := replies[id];
        replies := replies - {id};
        return Some(Judge(reply, expected, objectId));
      }
      if closed.Some? { return Some(Err(closed.value)); }
      if !expired { return None; }
      pendingRequests := pendingRequests - {id};
      if |abandonedRequests| < MAX_PENDING_CONTROL_REPLIES {
        abandonedRequests := abandonedRequests + {id};
      }
      return Some(Err("outer reply did not arrive within the deadline"));
    }
  }

  // ---- The whole connection ----

  /** The control state together with its surroundings: `lastId` is the request counter, `writing` the requests
      registered and not yet written, `owed` those the presenter has received and not answered, `unclaimed` those
      whose issuer has not finished waiting, `answers` all that the presenter has said, `lost` the timed-out
      requests that found the abandoned set full, and `transportFailed` whether something else closed the connection. */
  datatype System = System(
    control: State, lastId: nat, writing: set<nat>, owed: set<nat>, unclaimed: set<nat>, answers: map<nat, Reply>,
    lost: set<nat>, transportFailed: bool)

  const START := System(INITIAL, 0, {}, {}, {}, map[], {}, false)

  datatype Step =
    | Begin
    | Written(id: nat)
    | NotWritten(id: nat)
    | Answer(reply: Reply)
    | Unsolicited(reply: Reply)
    | Wait(id: nat, expected: nat, objectId: nat, expired: bool)
    | TransportFails(reason: string)

  /** A step the threads and a presenter that answers every request at most once can take. */
  predicate Possible(y: System, step: Step) {
    match step
    case Begin => true
    case Written(id) => id in y.writing
    case NotWritten(id) => id in y.writing
    case Answer(reply) => y.control.closed.None? && reply.requestId in y.owed
    case Unsolicited(reply) => y.control.closed.None? && reply.requestId == 0
    case Wait(id, _, _, _) => id in y.unclaimed && id !in y.writing
    case TransportFails(_) => true
  }

  function Next(y: System, step: Step): System {
    match step
    case Begin =>
      var id := y.lastId + 1;
      var registered := Register(y.control, id);
      if registered.Err? then y.(lastId := id)
      else y.(control := registered.value, lastId := id, writing := y.writing + {id}, unclaimed := y.unclaimed + {id})
    case Written(id) => y.(writing := y.writing - {id}, owed := y.owed + {id})
    case NotWritten(id) =>
      y.(control := WriteFailed(y.control, id), writing := y.writing - {id}, unclaimed := y.unclaimed - {id})
    case Answer(reply) =>
      y.(control := Route(y.control, reply), owed := y.owed - {reply.requestId},
         answers := y.answers[reply.requestId := reply], lost := y.lost - {reply.requestId})
    case Unsolicited(reply) => y.(control := Route(y.control, reply))
    case Wait(id, expected, objectId, expired) =>
      var turn := WaitTurn(y.control, id, expected, objectId, expired);
      y.(control := turn.state,
         unclaimed := if turn.outcome.Some? then y.unclaimed - {id} else y.unclaimed,
         lost := if id in y.control.pending && id !in turn.state.pending && id !in turn.state.abandoned
                 then y.lost + {id} else y.lost)
    case TransportFails(reason) => y.(control := Close(y.control, reason), transportFailed := true)
  }

  /** A request was issued from the counter; it is at most one of pending, stored, abandoned and lost; the presenter
      owes an answer exactly to the written ones that are pending, abandoned or lost; its issuer still waits exactly
      while it is pending or stored; and a stored reply is what the presenter said to that very request. */
  predicate RequestValid(y: System, id: nat) {
    var s := y.control;
    && (id in s.pending || id in s.abandoned || id in y.lost || id in y.unclaimed || id in y.answers ==> 0 < id <= y.lastId)
    && !(id in s.pending && id in s.abandoned) && !(id in y.lost && (id in s.pending || id in s.abandoned))
    && (id in s.replies ==> id !in s.pending && id !in s.abandoned && id !in y.lost)
    && (id in s.pending <==> id in y.writing || (id in y.owed && id !in s.abandoned && id !in y.lost))
    && (id in y.writing ==> id !in y.owed)
    && (id in s.abandoned || id in y.lost ==> id in y.owed && id !in y.unclaimed)
    && (id in s.replies ==> id in y.unclaimed && id in y.answers && s.replies[id] == y.answers[id])
    && (s.closed.None? ==> (id in y.unclaimed <==> id in s.pending || id in s.replies))
    && (id in y.answers ==> id !in y.owed && id !in s.pending && y.answers[id].requestId == id)
  }

  ghost predicate Valid(y: System) {
    forall id: nat :: RequestValid(y, id)
  }

  lemma StepKeepsRequestValid(y: System, step: Step, id: nat)
    requires RequestValid(y, id) && Possible(y, step)
    ensures RequestValid(Next(y, step), id)
  {
    hide Next, RequestValid, Possible;
    match step
    case Begin => BeginKeepsRequestValid(y, id);
    case Answer(reply) => AnswerKeepsRequestValid(y, reply, id);
    case Unsolicited(reply) => UnsolicitedChangesNothing(y, reply);
    case Wait(_, _, _, _) => WaitKeepsRequestValid(y, step, id);
    case _ => WritingKeepsRequestValid(y, step, id);
  }

  lemma BeginKeepsRequestValid(y: System, id: nat)
    requires RequestValid(y, id)
    ensures RequestValid(Next(y, Begin), id)
  {
  }

  lemma WritingKeepsRequestValid(y: System, step: Step, id: nat)
    requires step.Written? || step.NotWritten? || step.TransportFails?
    requires RequestValid(y, id) && Possible(y, step)
    ensures RequestValid(Next(y, step), id)
  {
  }

  lemma UnsolicitedChangesNothing(y: System, reply: Reply)
    requires Possible(y, Unsolicited(reply))
    ensures Next(y, Unsolicited(reply)) == y
  {
    UnsolicitedIsIgnored(y.control, reply);
  }

  lemma UnsolicitedIsIgnored(s: State, reply: Reply)
    requires reply.requestId == 0
    ensures Route(s, reply) == s
  {
  }

  lemma AnswerKeepsRequestValid(y: System, reply: Reply, id: nat)
    requires RequestValid(y, id) && Possible(y, Answer(reply))
    ensures RequestValid(Next(y, Answer(reply)), id)
  {
  }

  lemma WaitKeepsRequestValid(y: System, step: Step, id: nat)
    requires step.Wait? && RequestValid(y, id) && Possible(y, step)
    ensures RequestValid(Next(y, step), id)
  {
    hide Judge;
  }

  lemma StepKeepsValid(y: System, step: Step)
    requires Valid(y) && Possible(y, step)
    ensures Valid(Next(y, step))
  {
    hide Next, RequestValid, Possible;
    forall id: nat ensures RequestValid(Next(y, step), id) {
      StepKeepsRequestValid(y, step, id);
    }
  }

  lemma StrictSubset(x: set<nat>, y: set<nat>, id: nat)
    requires x <= y && id in y && id !in x
    ensures |x| < |y|
  {
    assert x <= y - {id};
    Subset(x, y - {id});
  }

  lemma {:induction false} Subset(x: set<nat>, y: set<nat>)
    requires x <= y
    ensures |x| <= |y|
  {
    if x != {} {
      var e :| e in x;
      Subset(x - {e}, y - {e});
    }
  }

  /** While at most 4096 requests are unclaimed, the presenter's answer closes the connection exactly when the
      timed-out request it answers found the abandoned set full. */
  lemma AnswerClosesIffLost(y: System, reply: Reply)
    requires Valid(y) && Possible(y, Answer(reply)) && |y.unclaimed| <= MAX_PENDING_CONTROL_REPLIES
    ensures Next(y, Answer(reply)).control.closed
            == if reply.requestId in y.lost then Some(UNKNOWN_REQUEST) else None
  {
    var id := reply.requestId;
    assert RequestValid(y, id);
    if id in y.control.pending {
      forall other | other in y.control.replies ensures other in y.unclaimed { assert RequestValid(y, other); }
      StrictSubset(y.control.replies.Keys, y.unclaimed, id);
    }
  }

  /** Without that bound: an answer closes an open connection exactly when its request was lost, or when 4096 replies wait to
      be claimed and it cannot be kept; an answer to an abandoned request is dropped; any other is kept for its waiter. */
  lemma AnswerExactly(y: System, reply: Reply)
    requires Valid(y) && Possible(y, Answer(reply))
    ensures
      var before, after, id := y.control, Next(y, Answer(reply)).control, reply.requestId;
      var room := |before.replies| < 4096;
      && after.closed == (if id in y.lost then Some("outer presenter replied to an unknown request")
                          else if id in before.pending && !room then Some("outer control reply queue overflow or duplicate")
                          else None)
      && after.replies == (if id in before.pending && room then before.replies[id := reply] else before.replies)
      && after.pending == before.pending - {id} && after.abandoned == before.abandoned - {id}
  {
    assert RequestValid(y, reply.requestId);
  }

  /** The next request is registered exactly while fewer than 4096 are pending; its id was never used. */
  lemma BeginExactly(y: System)
    requires Valid(y)
    ensures
      var after, id := Next(y, Begin), y.lastId + 1;
      && after.lastId == id && id !in y.control.pending && id !in y.answers && id !in y.control.abandoned && id !in y.lost
      && (id in after.control.pending <==> |y.control.pending| < 4096)
      && after.control == (if |y.control.pending| < 4096 then y.control.(pending := y.control.pending + {id}) else y.control)
  {
    assert RequestValid(y, y.lastId + 1);
  }

  /** A request whose record could not be written is forgotten, and so is nothing else. */
  lemma NotWrittenExactly(y: System, id: nat)
    requires Valid(y) && Possible(y, NotWritten(id))
    ensures
      var after := Next(y, NotWritten(id));
      && id in y.control.pending && id !in after.unclaimed && id !in after.writing
      && after.control == y.control.(pending := y.control.pending - {id})
  {
    assert RequestValid(y, id);
  }

  /** The first reason for which the connection closes stands; the transport can always give one. */
  lemma ClosesOnce(y: System, step: Step)
    requires Possible(y, step)
    ensures y.control.closed.Some? ==> Next(y, step).control.closed == y.control.closed
    ensures step.TransportFails? && y.control.closed.None? ==> Next(y, step).control.closed == Some(step.reason)
  {
    hide Judge;
  }

  /** A request becomes lost only by a timeout that finds 4096 abandoned requests. */
  lemma LostOnlyWhenFull(y: System, step: Step)
    requires Valid(y) && Possible(y, step)
    ensures
      Next(y, step).lost
      == if step.Wait? && step.expired && step.id in y.control.pending && y.control.closed.None?
            && |y.control.abandoned| >= MAX_PENDING_CONTROL_REPLIES
         then y.lost + {step.id} else if step.Answer? then y.lost - {step.reply.requestId} else y.lost
  {
    if step.Wait? { assert RequestValid(y, step.id); }
  }

  /** A waiter goes on waiting exactly while its request is unanswered, the connection open and its deadline ahead. On an
      open connection it gets the presenter's answer to its own request as soon as there is one, exactly when that
      answer fits, and otherwise the error of the first thing that does not; without an answer it times out. */
  lemma WaiterGetsItsOwnReply(y: System, id: nat, expected: nat, objectId: nat, expired: bool)
    requires Valid(y) && Possible(y, Wait(id, expected, objectId, expired))
    ensures
      var outcome, open := WaitTurn(y.control, id, expected, objectId, expired).outcome, y.control.closed.None?;
      && (open && id in y.answers ==>
            && (outcome == Some(Ok(y.answers[id])) <==> Fits(y.answers[id], expected, objectId))
            && (outcome == Some(Err("outer reply has an unexpected object")) <==> y.answers[id].objectId != objectId)
            && (outcome == Some(Err("protocol error")) <==> y.answers[id].objectId == objectId && y.answers[id].isError)
            && (outcome == Some(Err("outer reply has an unexpected type")) <==>
                  y.answers[id].objectId == objectId && !y.answers[id].isError && y.answers[id].recordType != expected))
      && (open && id !in y.answers ==>
            outcome == if expired then Some(Err("outer reply did not arrive within the deadline")) else None)
      && (!open ==>
            outcome.Some? && (outcome.value.Ok? ==> id in y.answers && outcome.value.value == y.answers[id])
            && (id !in y.control.replies ==> outcome.value == Err(y.control.closed.value)))
      && (outcome.Some? && outcome.value.Ok? ==>
            && id in y.answers && outcome.value.value == y.answers[id] && y.answers[id].requestId == id
            && Fits(y.answers[id], expected, objectId))
      && (outcome.Some? <==> id !in Next(y, Wait(id, expected, objectId, expired)).unclaimed)
  {
    assert RequestValid(y, id);
  }

  // ---- Runs ----

  function RunSteps(y: System, steps: seq<Step>): System {
    if steps == [] then y else Next(RunSteps(y, steps[..|steps| - 1]), steps[|steps| - 1])
  }

  /** Every step is possible, and is taken within the bounds. */
  predicate BoundedRun(steps: seq<Step>) {
    if steps == [] then true
    else
      var n := |steps| - 1;
      BoundedRun(steps[..n]) && Possible(RunSteps(START, steps[..n]), steps[n])
      && |RunSteps(START, steps[..n]).unclaimed| <= MAX_PENDING_CONTROL_REPLIES
      && (steps[n].Wait? && steps[n].expired ==> |RunSteps(START, steps[..n]).control.abandoned| < MAX_PENDING_CONTROL_REPLIES)
  }

  /** Over every bounded run, in any interleaving, the three sets stay disjoint and only the transport closes the
      connection: no reply is taken for unknown or duplicate, and none is dropped. */
  lemma {:induction false} OnlyTheTransportCloses(steps: seq<Step>)
    requires BoundedRun(steps)
    ensures Valid(RunSteps(START, steps))
    ensures RunSteps(START, steps).lost == {}
    ensures RunSteps(START, steps).control.closed.Some? ==> RunSteps(START, steps).transportFailed
  {
    hide Next, Valid, Possible;
    if steps == [] {
      StartIsValid();
    } else {
      var n := |steps| - 1;
      OnlyTheTransportCloses(steps[..n]);
      var y := RunSteps(START, steps[..n]);
      StepKeepsValid(y, steps[n]);
      LostOnlyWhenFull(y, steps[n]);
      StepKeepsOpen(y, steps[n]);
    }
  }

  lemma StartIsValid()
    ensures Valid(START)
  {
  }

  lemma StepKeepsOpen(y: System, step: Step)
    requires Valid(y) && Possible(y, step) && y.lost == {} && |y.unclaimed| <= MAX_PENDING_CONTROL_REPLIES
    requires y.control.closed.Some? ==> y.transportFailed
    ensures Next(y, step).control.closed.Some? ==> Next(y, step).transportFailed
  {
    if step.Answer? {
      AnswerClosesIffLost(y, step.reply);
    }
  }

  // ---- The bound is sharp ----

  /** Up to 4096 timeouts in a row stay within the bounds. */
  lemma {:induction false} TimeoutsAreBounded(n: nat)
    requires n <= MAX_PENDING_CONTROL_REPLIES
    ensures BoundedRun(Timeouts(n)) && RunSteps(START, Timeouts(n)) == TimedOut(n)
  {
    hide BoundedRun, RunSteps, Vain, TimedOut;
    if n == 0 {
      NothingTimedOut();
      NoStepIsBounded();
    } else {
      TimeoutsAreBounded(n - 1);
      OneMoreBounded(n - 1);
      VainIsAbandoned(n - 1);
      TimeoutsAreAbandoned(n);
    }
  }

  lemma NoStepIsBounded()
    ensures BoundedRun([]) && Timeouts(0) == []
  {
  }

  lemma BoundedStep(steps: seq<Step>, step: Step)
    ensures
      BoundedRun(steps + [step]) <==>
        && BoundedRun(steps) && Possible(RunSteps(START, steps), step)
        && |RunSteps(START, steps).unclaimed| <= MAX_PENDING_CONTROL_REPLIES
        && (step.Wait? && step.expired ==> |RunSteps(START, steps).control.abandoned| < MAX_PENDING_CONTROL_REPLIES)
  {
    hide Next, Possible, RunSteps;
    assert (steps + [step])[..|steps|] == steps;
  }

  lemma OneMoreBounded(n: nat)
    requires n < MAX_PENDING_CONTROL_REPLIES
    requires BoundedRun(Timeouts(n)) && RunSteps(START, Timeouts(n)) == TimedOut(n)
    ensures BoundedRun(Timeouts(n + 1))
  {
    hide BoundedRun, RunSteps, SequentialRun;
    var steps, y := Timeouts(n), TimedOut(n);
    var begin, written, wait := Begin, Written(n + 1), Wait(n + 1, 0, 0, true);
    OneMoreStep(steps, begin);
    OneMoreStep(steps + [begin], written);
    BoundedStep(steps, begin);
    BoundedStep(steps + [begin], written);
    BoundedStep(steps + [begin] + [written], wait);
    assert steps + [begin] + [written] + [wait] == Timeouts(n + 1);
    assert n + 1 in Next(y, begin).writing && Next(y, begin).unclaimed == {n + 1};
  }

  /** The first `n` request ids. */
  function Ids(n: nat): (ids: set<nat>)
    ensures |ids| == n
    ensures forall id :: id in ids <==> 1 <= id <= n
  {
    if n == 0 then {} else Ids(n - 1) + {n}
  }

  /** `n` requests, each written and then waited for in vain. */
  function Timeouts(n: nat): seq<Step> {
    if n == 0 then [] else Timeouts(n - 1) + [Begin, Written(n), Wait(n, 0, 0, true)]
  }

  /** The connection after that, while the abandoned set holds them all: the presenter still owes every answer. */
  function TimedOut(n: nat): System {
    System(State({}, Ids(n), map[], None), n, {}, Ids(n), {}, map[], {}, false)
  }

  /** Every step is possible, and at most one request at a time is unclaimed. */
  predicate SequentialRun(steps: seq<Step>) {
    if steps == [] then true
    else
      var n := |steps| - 1;
      SequentialRun(steps[..n]) && Possible(RunSteps(START, steps[..n]), steps[n])
      && |RunSteps(START, steps[..n]).unclaimed| <= 1
  }

  lemma OneMoreStep(steps: seq<Step>, step: Step)
    ensures RunSteps(START, steps + [step]) == Next(RunSteps(START, steps), step)
    ensures SequentialRun(steps + [step]) <==> SequentialRun(steps) && Possible(RunSteps(START, steps), step)
                                               && |RunSteps(START, steps).unclaimed| <= 1
  {
    hide Next, Possible;
    assert (steps + [step])[..|steps|] == steps;
  }

  /** One more request in vain, with the abandoned set full or not. */
  function Vain(y: System): System {
    Next(Next(Next(y, Begin), Written(y.lastId + 1)), Wait(y.lastId + 1, 0, 0, true))
  }

  lemma OneMoreTimeout(n: nat)
    requires SequentialRun(Timeouts(n)) && RunSteps(START, Timeouts(n)) == TimedOut(n)
    ensures SequentialRun(Timeouts(n + 1)) && RunSteps(START, Timeouts(n + 1)) == Vain(TimedOut(n))
  {
    hide SequentialRun, RunSteps;
    var steps, y := Timeouts(n), TimedOut(n);
    var begin, written, wait := Begin, Written(n + 1), Wait(n + 1, 0, 0, true);
    OneMoreStep(steps, begin);
    OneMoreStep(steps + [begin], written);
    OneMoreStep(steps + [begin] + [written], wait);
    assert steps + [begin] + [written] + [wait] == Timeouts(n + 1);
    assert n + 1 in Next(y, begin).writing && Next(y, begin).unclaimed == {n + 1};
  }

  lemma VainIsAbandoned(n: nat)
    requires n < MAX_PENDING_CONTROL_REPLIES
    ensures Vain(TimedOut(n)) == TimedOut(n + 1)
  {
  }

  lemma NothingTimedOut()
    ensures SequentialRun(Timeouts(0)) && RunSteps(START, Timeouts(0)) == TimedOut(0)
  {
  }

  lemma {:induction false} TimeoutsAreAbandoned(n: nat)
    requires n <= MAX_PENDING_CONTROL_REPLIES
    ensures SequentialRun(Timeouts(n)) && RunSteps(START, Timeouts(n)) == TimedOut(n)
  {
    hide SequentialRun, RunSteps, Vain, TimedOut;
    if n == 0 {
      NothingTimedOut();
    } else {
      TimeoutsAreAbandoned(n - 1);
      OneMoreTimeout(n - 1);
      VainIsAbandoned(n - 1);
    }
  }

  lemma VainIsLost(n: nat)
    requires n == MAX_PENDING_CONTROL_REPLIES
    ensures
      var y := Vain(TimedOut(n));
      && y.lost == {n + 1} && n + 1 in y.owed && y.control.closed.None? && y.unclaimed == {}
      && n + 1 !in y.control.pending && n + 1 !in y.control.abandoned
  {
    hide Ids;
  }

  /** The failure happens: 4097 requests issued one after the other time out, and the presenter's late answer to the
      last of them closes the connection. */
  lemma LateAnswerCloses(n: nat, reply: Reply)
    requires n == MAX_PENDING_CONTROL_REPLIES && reply.requestId == n + 1
    ensures
      var steps := Timeouts(n + 1);
      && SequentialRun(steps + [Answer(reply)])
      && RunSteps(START, steps).lost == {reply.requestId}
      && RunSteps(START, steps).control.closed == None
      && RunSteps(START, steps + [Answer(reply)]).control.closed == Some(UNKNOWN_REQUEST)
  {
    hide SequentialRun, RunSteps, Timeouts, Vain, TimedOut;
    TimeoutsAreAbandoned(n);
    OneMoreTimeout(n);
    VainIsLost(n);
    OneMoreStep(Timeouts(n + 1), Answer(reply));
  }
}
