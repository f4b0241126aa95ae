/** What the queue accepts and the clients receive, read off the steps of a run alone. */
module PipelineHistory {
  import opened WsPipeline

  /** Messages waiting: a step of a producer adds one while there is room, each receive takes one. */
  function Waiting(steps: seq<Step>): int {
    if steps == [] then 0
    else
      var n := Waiting(steps[..|steps| - 1]);
      match steps[|steps| - 1]
      case Enqueue(_) => if n < 10 then n + 1 else n
      case Receive => n - 1
      case _ => n
  }

  /** What a task last copied, and whether it still has to queue it. */
  function Copied(steps: seq<Step>, task: Task): Body {
    if steps == [] then OtherEvent("")
    else
      match steps[|steps| - 1]
      case Allocate(t, body, true) => if t == task then body else Copied(steps[..|steps| - 1], task)
      case _ => Copied(steps[..|steps| - 1], task)
  }

  predicate Copies(steps: seq<Step>, task: Task) {
    if steps == [] then false
    else
      match steps[|steps| - 1]
      case Allocate(t, _, true) => t == task || Copies(steps[..|steps| - 1], task)
      case Enqueue(t) => t != task && Copies(steps[..|steps| - 1], task)
      case _ => Copies(steps[..|steps| - 1], task)
  }

  /** The messages that found room, in order. */
  function Accepted(steps: seq<Step>): seq<Body> {
    if steps == [] then []
    else
      var before := steps[..|steps| - 1];
      match steps[|steps| - 1]
      case Enqueue(task) => if Waiting(before) < 10 then Accepted(before) + [Copied(before, task)] else Accepted(before)
      case _ => Accepted(before)
  }

  function Receives(steps: seq<Step>): nat {
    if steps == [] then 0 else Receives(steps[..|steps| - 1]) + if steps[|steps| - 1].Receive? then 1 else 0
  }

  /** The client registered last, until it is removed or some send fails. */
  function ActiveAt(steps: seq<Step>): int {
    if steps == [] then -1
    else
      var active := ActiveAt(steps[..|steps| - 1]);
      match steps[|steps| - 1]
      case AddClient(socket) => socket
      case RemoveClient(socket) => if socket == active then -1 else active
      case SendFrame(isClient, buffer, ok) => if !isClient || (buffer && !ok) then -1 else active
      case _ => active
  }

  /** The socket the dispatcher read for its current send. */
  function SocketRead(steps: seq<Step>): int {
    if steps == [] then -1
    else if steps[|steps| - 1].ReadSocket? then ActiveAt(steps[..|steps| - 1])
    else SocketRead(steps[..|steps| - 1])
  }

  /** The frames that got through: each carries the message received last, to the socket read last. */
  function Frames(steps: seq<Step>): seq<Sent> {
    if steps == [] then []
    else
      var before := steps[..|steps| - 1];
      if steps[|steps| - 1] == SendFrame(true, true, true) && 0 < Receives(before) <= |Accepted(before)| then
        Frames(before) + [Sent(SocketRead(before), Accepted(before)[Receives(before) - 1])]
      else Frames(before)
  }

  // ---- the theorem --------------------------------------------------------------------------------

  ghost predicate QueueFollows(s: State, steps: seq<Step>) {
    && |s.queue| == Waiting(steps) && Bodies(s.accepted) == Accepted(steps)
    && (forall t :: t in s.inFlight <==> Copies(steps, t))
    && (forall t :: t in s.inFlight ==> s.inFlight[t].body == Copied(steps, t))
  }

  ghost predicate SendsFollow(s: State, steps: seq<Step>) {
    && |s.consumed| + |InHand(s)| == Receives(steps)
    && s.active == ActiveAt(steps) && (s.hand.Checked? ==> s.hand.socket == SocketRead(steps))
    && s.sent == Frames(steps)
  }

  lemma QueueStep(s: State, steps: seq<Step>, step: Step)
    requires QueueFollows(s, steps) && Enabled(s, step)
    ensures QueueFollows(Next(s, step), steps + [step])
  {
    assert (steps + [step])[..|steps|] == steps;
    if step.Enqueue? {
      assert Bodies(s.accepted + [s.inFlight[step.task]]) == Bodies(s.accepted) + [s.inFlight[step.task].body];
    }
  }

  /** The message in hand is the one received last. */
  lemma HandIsLastReceived(s: State, steps: seq<Step>)
    requires Fifo(s) && QueueFollows(s, steps) && SendsFollow(s, steps) && !s.hand.Empty?
    ensures 0 < Receives(steps) <= |Accepted(steps)| && s.hand.msg.body == Accepted(steps)[Receives(steps) - 1]
  {
    assert s.accepted[|s.consumed|] == s.hand.msg;
  }

  lemma SendsStep(s: State, steps: seq<Step>, step: Step)
    requires Fifo(s) && QueueFollows(s, steps) && SendsFollow(s, steps) && Enabled(s, step)
    ensures SendsFollow(Next(s, step), steps + [step])
  {
    assert (steps + [step])[..|steps|] == steps;
    if step.SendFrame? { HandIsLastReceived(s, steps); }
  }

  /** In every run: the queue has accepted exactly the messages that found fewer than ten waiting, as they were
      copied; the active client is the last registered one until a removal or a failed send; and the
      frames that got through are those the steps say, message by message and socket by socket. */
  lemma {:induction false} PipelineFollowsSteps(steps: seq<Step>)
    requires IsRun(steps)
    ensures QueueFollows(After(steps), steps) && SendsFollow(After(steps), steps)
    decreases |steps|
  {
    if steps != [] {
      var before, step := steps[..|steps| - 1], steps[|steps| - 1];
      PipelineFollowsSteps(before);
      EveryRunIsSafe(before);
      QueueStep(After(before), before, step);
      SendsStep(After(before), before, step);
      assert steps == before + [step];
    }
  }
}
