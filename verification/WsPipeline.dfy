/** ws_queue.c and ws_dispatcher.c: many producers, a bounded queue that drops, one consumer, one
    active client. Every step below is one indivisible action of one task. Clients are added and removed
    by the HTTP server's task alone; while it tests a socket before forgetting it, the dispatcher can
    only forget it first, so the removal is one step. */
module WsPipeline {

  const QUEUE_SIZE := 10
  const NO_SOCKET := -1

  type Task = nat
  type Address = nat

  /** A queued message; `payload` is the heap block that carries its text. An OTA progress message
      carries its percentage. */
  datatype Body = Progress(percent: int) | OtherEvent(text: string)
  datatype Msg = Msg(body: Body, payload: Address)

  /** Where the dispatcher loop stands. `Seen` has found a socket registered, `Passed` a server too,
      `Checked` has then read the socket again for the call to send_ws_json; `Done` is about to free. */
  datatype Hand =
    | Empty
    | Holding(msg: Msg)
    | Seen(msg: Msg)
    | Passed(msg: Msg)
    | Checked(msg: Msg, socket: int)
    | Done(msg: Msg)

  datatype Sent = Sent(socket: int, body: Body)

  datatype State = State(
    live: set<Address>,             // heap payloads not yet freed
    next: Address,
    inFlight: map<Task, Msg>,       // between strdup and xQueueSend
    queue: seq<Msg>,
    hand: Hand,
    active: int,                    // s_active_socket
    server: bool,                   // s_server_handle != NULL
    freed: seq<Address>,
    offered: seq<Body>,             // bodies handed to ws_queue_send, in order of their strdup
    accepted: seq<Msg>,
    consumed: seq<Msg>,
    sent: seq<Sent>)                // frames a client socket received

  function InHand(s: State): seq<Msg> { if s.hand.Empty? then [] else [s.hand.msg] }

  datatype Step =
    | Allocate(task: Task, body: Body, memory: bool)       // strncpy and strdup
    | Enqueue(task: Task)                                  // xQueueSend with no wait, else free
    | Receive                                              // xQueueReceive
    | CheckSocket                                          // s_active_socket != -1
    | CheckServer                                          // s_server_handle != NULL
    | ReadSocket                                           // s_active_socket, as the argument
    | SendFrame(isClient: bool, buffer: bool, ok: bool)    // send_ws_json on the socket read before
    | Free                                                 // free(msg.payload)
    | AddClient(socket: int)                               // the two stores of ws_dispatcher_add_client
    | SetServer
    | RemoveClient(socket: int)

  predicate Enabled(s: State, step: Step) {
    match step
    case Allocate(task, _, _) => task !in s.inFlight
    case Enqueue(task) => task in s.inFlight
    case Receive => s.hand.Empty? && s.queue != []
    case CheckSocket => s.hand.Holding?
    case CheckServer => s.hand.Seen?
    case ReadSocket => s.hand.Passed?
    case SendFrame(isClient, _, _) => s.hand.Checked? && (isClient ==> s.hand.socket != NO_SOCKET)
    case Free => s.hand.Done?
    case AddClient(socket) => socket >= 0
    case SetServer => true
    case RemoveClient(_) => true
  }

  function Next(s: State, step: Step): State
    requires Enabled(s, step)
  {
    match step
    case Allocate(task, body, memory) =>
      if !memory then s.(offered := s.offered + [body])
      else s.(offered := s.offered + [body], live := s.live + {s.next}, next := s.next + 1,
           inFlight := s.inFlight[task := Msg(body, s.next)])
    case Enqueue(task) =>
      var m := s.inFlight[task];
      var left := s.(inFlight := s.inFlight - {task});
      if |s.queue| < QUEUE_SIZE then left.(queue := s.queue + [m], accepted := s.accepted + [m])
      else left.(live := s.live - {m.payload}, freed := s.freed + [m.payload])
    case Receive => s.(hand := Holding(s.queue[0]), queue := s.queue[1..])
    case CheckSocket => s.(hand := if s.active != NO_SOCKET then Seen(s.hand.msg) else Done(s.hand.msg))
    case CheckServer => s.(hand := if s.server then Passed(s.hand.msg) else Done(s.hand.msg))
    case ReadSocket => s.(hand := Checked(s.hand.msg, s.active))
    case SendFrame(isClient, buffer, ok) =>
      var done := s.(hand := Done(s.hand.msg));
      if !isClient then done.(active := NO_SOCKET)
      else if !buffer then done
      else if !ok then done.(active := NO_SOCKET)
      else done.(sent := s.sent + [Sent(s.hand.socket, s.hand.msg.body)])
    case Free =>
      s.(hand := Empty, live := s.live - {s.hand.msg.payload}, freed := s.freed + [s.hand.msg.payload],
      consumed := s.consumed + [s.hand.msg])
    case AddClient(socket) => s.(active := socket)
    case SetServer => s.(server := true)
    case RemoveClient(socket) => if s.active == socket then s.(active := NO_SOCKET) else s
  }

  function Initial(): State { State({}, 0, map[], [], Empty, NO_SOCKET, false, [], [], [], [], []) }

  /** The trace is a run: every step was enabled where it was taken. */
  predicate IsRun(steps: seq<Step>)
    decreases |steps|, 0
  {
    steps == [] || (IsRun(steps[..|steps| - 1]) && Enabled(After(steps[..|steps| - 1]), steps[|steps| - 1]))
  }

  function After(steps: seq<Step>): State
    requires IsRun(steps)
    decreases |steps|, 1
  {
    if steps == [] then Initial() else Next(After(steps[..|steps| - 1]), steps[|steps| - 1])
  }

  // ---- payload ownership ------------------------------------------------------------------------

  /** Live payloads are exactly those of in-flight producers, of the queue and of the dispatcher's hand,
      all different; every address handed out is live or was freed, and was freed at most once. */
  ghost predicate Owned(s: State) { Held(s) && Distinct(s) && |s.queue| <= QUEUE_SIZE }

  ghost predicate Held(s: State) {
    && (forall t :: t in s.inFlight ==> s.inFlight[t].payload in s.live)
    && (forall i :: 0 <= i < |s.queue| ==> s.queue[i].payload in s.live)
    && (!s.hand.Empty? ==> s.hand.msg.payload in s.live)
    && (forall a :: a in s.live ==> HasOwner(s, a))
  }

  ghost predicate Distinct(s: State) {
    && (forall t, u :: t in s.inFlight && u in s.inFlight && t != u ==> s.inFlight[t].payload != s.inFlight[u].payload)
    && (forall i, j :: 0 <= i < j < |s.queue| ==> s.queue[i].payload != s.queue[j].payload)
    && (forall t, i :: t in s.inFlight && 0 <= i < |s.queue| ==> s.inFlight[t].payload != s.queue[i].payload)
    && (!s.hand.Empty? ==> forall t :: t in s.inFlight ==> s.inFlight[t].payload != s.hand.msg.payload)
    && (!s.hand.Empty? ==> forall i :: 0 <= i < |s.queue| ==> s.queue[i].payload != s.hand.msg.payload)
  }

  ghost predicate HasOwner(s: State, a: Address) {
    || (exists t :: t in s.inFlight && s.inFlight[t].payload == a)
    || (exists i :: 0 <= i < |s.queue| && s.queue[i].payload == a)
    || (!s.hand.Empty? && s.hand.msg.payload == a)
  }

  ghost predicate FreedOnce(s: State) {
    && (forall a :: a in s.live ==> a < s.next)
    && (forall i :: 0 <= i < |s.freed| ==> s.freed[i] < s.next && s.freed[i] !in s.live)
    && (forall i, j :: 0 <= i < j < |s.freed| ==> s.freed[i] != s.freed[j])
    && (forall a: Address :: a < s.next ==> a in s.live || a in s.freed)
  }

  lemma AcceptKeepsOwner(s: State, task: Task, a: Address)
    requires task in s.inFlight && |s.queue| < QUEUE_SIZE && HasOwner(s, a)
    ensures HasOwner(Next(s, Enqueue(task)), a)
  {
    var r := Next(s, Enqueue(task));
    if t :| t in s.inFlight && s.inFlight[t].payload == a {
      if t == task {
        assert r.queue[|s.queue|].payload == a;
      } else {
        assert t in r.inFlight && r.inFlight[t].payload == a;
      }
    } else if i :| 0 <= i < |s.queue| && s.queue[i].payload == a {
      assert r.queue[i].payload == a;
    }
  }

  lemma HeldAccept(s: State, task: Task)
    requires Held(s) && task in s.inFlight && |s.queue| < QUEUE_SIZE
    ensures Held(Next(s, Enqueue(task)))
  {
    forall a | a in s.live ensures HasOwner(Next(s, Enqueue(task)), a) { AcceptKeepsOwner(s, task, a); }
  }

  lemma DistinctAccept(s: State, task: Task)
    requires Distinct(s) && task in s.inFlight && |s.queue| < QUEUE_SIZE
    ensures Distinct(Next(s, Enqueue(task)))
  {
  }

  lemma OwnedAccept(s: State, task: Task)
    requires Owned(s) && task in s.inFlight && |s.queue| < QUEUE_SIZE
    ensures Owned(Next(s, Enqueue(task)))
  {
    DistinctAccept(s, task);
    HeldAccept(s, task);
  }

  lemma OwnedDrop(s: State, task: Task)
    requires Owned(s) && task in s.inFlight && |s.queue| >= QUEUE_SIZE
    ensures Owned(Next(s, Enqueue(task)))
  {
    var r := Next(s, Enqueue(task));
    forall a | a in r.live ensures HasOwner(r, a) {
      assert HasOwner(s, a);
      if t :| t in s.inFlight && s.inFlight[t].payload == a {
        assert t in r.inFlight && r.inFlight[t].payload == a;
      }
    }
  }

  lemma OwnedReceive(s: State)
    requires Owned(s) && Enabled(s, Receive)
    ensures Owned(Next(s, Receive))
  {
    var r := Next(s, Receive);
    assert forall i :: 0 <= i < |r.queue| ==> r.queue[i] == s.queue[i + 1];
    forall a | a in r.live ensures HasOwner(r, a) {
      assert HasOwner(s, a);
      if i :| 0 <= i < |s.queue| && s.queue[i].payload == a {
        if i > 0 { assert r.queue[i - 1].payload == a; }
      }
    }
  }

  lemma OwnedAllocate(s: State, task: Task, body: Body)
    requires Owned(s) && FreedOnce(s) && task !in s.inFlight
    ensures Owned(Next(s, Allocate(task, body, true)))
  {
    var r := Next(s, Allocate(task, body, true));
    forall a | a in r.live ensures HasOwner(r, a) {
      if a == s.next {
        assert r.inFlight[task].payload == a;
      } else {
        assert HasOwner(s, a);
        if t :| t in s.inFlight && s.inFlight[t].payload == a {
          assert t in r.inFlight && r.inFlight[t].payload == a;
        }
      }
    }
  }

  lemma OwnedFree(s: State)
    requires Owned(s) && Enabled(s, Free)
    ensures Owned(Next(s, Free))
  {
    var r := Next(s, Free);
    forall a | a in r.live ensures HasOwner(r, a) {
      assert HasOwner(s, a);
    }
  }

  lemma OwnedElsewhere(s: State, step: Step)
    requires Owned(s) && Enabled(s, step)
    requires match step
             case Allocate(_, _, memory) => !memory
             case Enqueue(_) => false
             case Receive => false
             case Free => false
             case _ => true
    ensures Owned(Next(s, step))
  {
    var r := Next(s, step);
    forall a | a in r.live ensures HasOwner(r, a) {
      assert HasOwner(s, a);
    }
  }

  lemma OwnedStep(s: State, step: Step)
    requires Owned(s) && FreedOnce(s) && Enabled(s, step)
    ensures Owned(Next(s, step))
  {
    match step {
      case Allocate(task, body, memory) =>
        if memory { OwnedAllocate(s, task, body); } else { OwnedElsewhere(s, step); }
      case Enqueue(task) => if |s.queue| < QUEUE_SIZE { OwnedAccept(s, task); } else { OwnedDrop(s, task); }
      case Receive => OwnedReceive(s);
      case Free => OwnedFree(s);
      case _ => OwnedElsewhere(s, step);
    }
  }

  lemma FreedOne(s: State, r: State, a: Address)
    requires FreedOnce(s) && a in s.live
    requires r.live == s.live - {a} && r.next == s.next && r.freed == s.freed + [a]
    ensures FreedOnce(r)
  {
    forall x: Address | x < r.next ensures x in r.live || x in r.freed {
      if x == a {
        assert r.freed[|s.freed|] == x;
      } else if x in s.freed {
        var i :| 0 <= i < |s.freed| && s.freed[i] == x;
        assert r.freed[i] == x;
      }
    }
  }

  lemma FreedNone(s: State, r: State)
    requires FreedOnce(s) && r.freed == s.freed
    requires (r.live == s.live && r.next == s.next) || (r.live == s.live + {s.next} && r.next == s.next + 1)
    ensures FreedOnce(r)
  {
  }

  lemma FreedOnceStep(s: State, step: Step)
    requires Held(s) && FreedOnce(s) && Enabled(s, step)
    ensures FreedOnce(Next(s, step))
  {
    var r := Next(s, step);
    if step.Free? {
      FreedOne(s, r, s.hand.msg.payload);
    } else if step.Enqueue? && |s.queue| >= QUEUE_SIZE {
      FreedOne(s, r, s.inFlight[step.task].payload);
    } else {
      FreedNone(s, r);
    }
  }

  // ---- order ------------------------------------------------------------------------------------

  /** What was accepted is what was consumed, then what the dispatcher holds, then the queue. */
  ghost predicate Fifo(s: State) { s.accepted == s.consumed + InHand(s) + s.queue }

  lemma FifoStep(s: State, step: Step)
    requires Fifo(s) && Enabled(s, step)
    ensures Fifo(Next(s, step))
  {
    if step.Receive? {
      assert s.queue == [s.queue[0]] + s.queue[1..];
    }
  }

  /** In every run, under every interleaving: payloads are owned by exactly one holder, the queue never
      exceeds its size, no payload leaks or is freed twice, and accepted messages leave in FIFO order. */
  lemma {:induction false} EveryRunIsSafe(steps: seq<Step>)
    requires IsRun(steps)
    ensures Owned(After(steps)) && FreedOnce(After(steps)) && Fifo(After(steps))
    decreases |steps|
  {
    if steps != [] {
      var init := steps[..|steps| - 1];
      EveryRunIsSafe(init);
      OwnedStep(After(init), steps[|steps| - 1]);
      FreedOnceStep(After(init), steps[|steps| - 1]);
      FifoStep(After(init), steps[|steps| - 1]);
    }
  }

  /** Nothing leaks: once all tasks are idle and the queue is empty, every payload has been freed. */
  lemma QuiescentMeansFreed(steps: seq<Step>)
    requires IsRun(steps)
    requires var s := After(steps); s.inFlight == map[] && s.queue == [] && s.hand.Empty?
    ensures var s := After(steps); s.live == {} && |s.freed| == s.next
  {
    EveryRunIsSafe(steps);
    var s := After(steps);
    forall a ensures a !in s.live { assert a in s.live ==> HasOwner(s, a); }
    FreedCount(s.freed, s.next);
  }

  /** A duplicate-free list of exactly the addresses below `n` has length `n`. */
  lemma {:induction false} FreedCount(freed: seq<Address>, n: nat)
    requires forall i :: 0 <= i < |freed| ==> freed[i] < n
    requires forall i, j :: 0 <= i < j < |freed| ==> freed[i] != freed[j]
    requires forall a: Address :: a < n ==> a in freed
    ensures |freed| == n
  {
    if n > 0 {
      assert n - 1 in freed;
      var k :| 0 <= k < |freed| && freed[k] == n - 1;
      var rest := freed[..k] + freed[k + 1..];
      forall a: Address | a < n - 1 ensures a in rest {
        assert a in freed;
        var i :| 0 <= i < |freed| && freed[i] == a;
        assert rest[if i < k then i else i - 1] == a;
      }
      FreedCount(rest, n - 1);
    }
  }

  // ---- progress seen by a client ------------------------------------------------------------------

  /** `a` is `b` with some elements left out. */
  ghost predicate Subsequence<T>(a: seq<T>, b: seq<T>)
    decreases |b|
  {
    if a == [] then true
    else if b == [] then false
    else
      || Subsequence(a, b[..|b| - 1])
      || (a[|a| - 1] == b[|b| - 1] && Subsequence(a[..|a| - 1], b[..|b| - 1]))
  }

  lemma {:induction false} SubsequenceRefl<T>(a: seq<T>)
    ensures Subsequence(a, a)
    decreases |a|
  {
    if a != [] { SubsequenceRefl(a[..|a| - 1]); }
  }

  lemma SubsequenceSnoc<T>(a: seq<T>, b: seq<T>, x: T)
    requires Subsequence(a, b)
    ensures Subsequence(a, b + [x]) && Subsequence(a + [x], b + [x])
  {
    assert (b + [x])[..|b|] == b && (a + [x])[..|a|] == a;
  }

  lemma {:induction false} SubsequenceTrans<T>(a: seq<T>, b: seq<T>, c: seq<T>)
    requires Subsequence(a, b) && Subsequence(b, c)
    ensures Subsequence(a, c)
    decreases |c|
  {
    if a != [] {
      var b', c' := b[..|b| - 1], c[..|c| - 1];
      if Subsequence(b, c') {
        SubsequenceTrans(a, b, c');
      } else if Subsequence(a, b') {
        SubsequenceTrans(a, b', c');
      } else {
        SubsequenceTrans(a[..|a| - 1], b', c');
      }
    }
  }

  /** Each element left is a later or equal position of the full list, so order is inherited. */
  lemma {:induction false} SubsequenceKeepsOrder(a: seq<int>, b: seq<int>)
    requires Subsequence(a, b)
    requires forall i, j :: 0 <= i < j < |b| ==> b[i] <= b[j]
    ensures forall i, j :: 0 <= i < j < |a| ==> a[i] <= a[j]
    ensures forall i :: 0 <= i < |a| ==> a[i] in b
    decreases |b|
  {
    if a != [] {
      var b' := b[..|b| - 1];
      if Subsequence(a, b') {
        SubsequenceKeepsOrder(a, b');
      } else {
        var a' := a[..|a| - 1];
        SubsequenceKeepsOrder(a', b');
        assert forall x :: x in b' ==> x <= b[|b| - 1];
        forall i, j | 0 <= i < j < |a|
          ensures a[i] <= a[j]
        {
          assert a[i] == a'[i] && a'[i] in b';
          assert j < |a| - 1 ==> a[j] == a'[j];
        }
        forall i | 0 <= i < |a|
          ensures a[i] in b
        {
          assert i < |a| - 1 ==> a[i] == a'[i] && a'[i] in b';
        }
      }
    }
  }

  function Percents(bodies: seq<Body>): seq<int> {
    if bodies == [] then []
    else
      Percents(bodies[..|bodies| - 1])
      + if bodies[|bodies| - 1].Progress? then [bodies[|bodies| - 1].percent] else []
  }

  lemma PercentsSnoc(bodies: seq<Body>, b: Body)
    ensures Percents(bodies + [b]) == Percents(bodies) + if b.Progress? then [b.percent] else []
  {
    assert (bodies + [b])[..|bodies|] == bodies;
  }

  function Bodies(ms: seq<Msg>): seq<Body> { seq(|ms|, i requires 0 <= i < |ms| => ms[i].body) }

  function Received(sent: seq<Sent>, sockets: set<int>): seq<Body> {
    if sent == [] then []
    else
      Received(sent[..|sent| - 1], sockets)
      + if sent[|sent| - 1].socket in sockets then [sent[|sent| - 1].body] else []
  }

  /** The only task that offers progress is the OTA task, and it makes one call at a time. */
  predicate OneOtaTask(steps: seq<Step>, ota: Task) {
    forall i :: 0 <= i < |steps| && steps[i].Allocate? && steps[i].body.Progress? ==> steps[i].task == ota
  }

  /** Progress accepted so far, without the message the OTA task still holds, is part of what it offered. */
  ghost predicate AcceptedFromOffered(s: State, ota: Task) {
    && (forall t :: t in s.inFlight && s.inFlight[t].body.Progress? ==> t == ota)
    && (if ota in s.inFlight && s.inFlight[ota].body.Progress? then
          var offered := Percents(s.offered);
          offered != [] && offered[|offered| - 1] == s.inFlight[ota].body.percent
          && Subsequence(Percents(Bodies(s.accepted)), offered[..|offered| - 1])
        else Subsequence(Percents(Bodies(s.accepted)), Percents(s.offered)))
  }

  /** The bodies whose frame may have been sent already. */
  function Handled(s: State): seq<Body> { Bodies(s.consumed) + if s.hand.Done? then [s.hand.msg.body] else [] }

  /** What the clients in `sockets` received is part of what was handled. */
  ghost predicate SentFromAccepted(s: State, sockets: set<int>) {
    Subsequence(Received(s.sent, sockets), Handled(s))
  }

  lemma AcceptedAfterAllocate(s: State, task: Task, body: Body, memory: bool, ota: Task)
    requires AcceptedFromOffered(s, ota) && task !in s.inFlight && (body.Progress? ==> task == ota)
    ensures AcceptedFromOffered(Next(s, Allocate(task, body, memory)), ota)
  {
    var o := Percents(s.offered);
    PercentsSnoc(s.offered, body);
    if body.Progress? {
      assert (o + [body.percent])[..|o|] == o;
      SubsequenceSnoc(Percents(Bodies(s.accepted)), o, body.percent);
    } else {
      assert o + [] == o;
    }
  }

  lemma AcceptedGrows(acc: seq<Body>, body: Body, offered: seq<int>)
    requires if body.Progress? then offered != [] && offered[|offered| - 1] == body.percent
                                    && Subsequence(Percents(acc), offered[..|offered| - 1])
             else Subsequence(Percents(acc), offered)
    ensures Subsequence(Percents(acc), offered) && Subsequence(Percents(acc + [body]), offered)
  {
    PercentsSnoc(acc, body);
    if body.Progress? {
      assert offered == offered[..|offered| - 1] + [body.percent];
      SubsequenceSnoc(Percents(acc), offered[..|offered| - 1], body.percent);
    } else {
      assert Percents(acc) + [] == Percents(acc);
    }
  }

  lemma AcceptedAfterEnqueue(s: State, task: Task, ota: Task)
    requires AcceptedFromOffered(s, ota) && task in s.inFlight
    ensures AcceptedFromOffered(Next(s, Enqueue(task)), ota)
  {
    var m, acc, o := s.inFlight[task], Bodies(s.accepted), Percents(s.offered);
    assert Bodies(s.accepted + [m]) == acc + [m.body];
    if task == ota || !(ota in s.inFlight && s.inFlight[ota].body.Progress?) {
      AcceptedGrows(acc, m.body, o);
    } else {
      AcceptedGrows(acc, m.body, o[..|o| - 1]);
    }
  }

  lemma AcceptedFromOfferedStep(s: State, step: Step, ota: Task)
    requires AcceptedFromOffered(s, ota) && Enabled(s, step)
    requires step.Allocate? && step.body.Progress? ==> step.task == ota
    ensures AcceptedFromOffered(Next(s, step), ota)
  {
    match step {
      case Allocate(task, body, memory) => AcceptedAfterAllocate(s, task, body, memory, ota);
      case Enqueue(task) => AcceptedAfterEnqueue(s, task, ota);
      case _ =>
    }
  }

  lemma HandledStep(s: State, step: Step)
    requires Enabled(s, step)
    ensures var r := Next(s, step);
            if r.hand.Done? && !s.hand.Done? then Handled(r) == Handled(s) + [s.hand.msg.body]
            else Handled(r) == Handled(s)
  {
    var r := Next(s, step);
    if step.Free? {
      assert Bodies(r.consumed) == Bodies(s.consumed) + [s.hand.msg.body];
      assert Bodies(r.consumed) + [] == Bodies(r.consumed);
    } else {
      assert r.consumed == s.consumed;
      assert Bodies(s.consumed) + [] == Bodies(s.consumed);
      assert r.hand.Done? && s.hand.Done? ==> r.hand == s.hand;
    }
  }

  lemma ReceivedSnoc(sent: seq<Sent>, f: Sent, sockets: set<int>)
    ensures Received(sent + [f], sockets) == Received(sent, sockets) + if f.socket in sockets then [f.body] else []
  {
    assert (sent + [f])[..|sent|] == sent;
  }

  lemma OneMoreReceived(sent: seq<Sent>, x: Sent, sockets: set<int>, handled: seq<Body>)
    requires Subsequence(Received(sent, sockets), handled)
    ensures Subsequence(Received(sent + [x], sockets), handled + [x.body])
  {
    var got := Received(sent, sockets);
    ReceivedSnoc(sent, x, sockets);
    SubsequenceSnoc(got, handled, x.body);
    assert got + [] == got;
  }

  lemma SentFromAcceptedStep(s: State, step: Step, sockets: set<int>)
    requires SentFromAccepted(s, sockets) && Enabled(s, step)
    ensures SentFromAccepted(Next(s, step), sockets)
  {
    var r := Next(s, step);
    HandledStep(s, step);
    if r.hand.Done? && !s.hand.Done? {
      var m := s.hand.msg.body;
      SubsequenceSnoc(Received(s.sent, sockets), Handled(s), m);
      if step.SendFrame? && r.sent != s.sent {
        assert r.sent == s.sent + [Sent(s.hand.socket, m)];
        OneMoreReceived(s.sent, Sent(s.hand.socket, m), sockets, Handled(s));
      } else {
        assert r.sent == s.sent;
      }
    } else {
      assert r.sent == s.sent;
    }
  }

  lemma {:induction false} PercentsOfSubsequence(a: seq<Body>, b: seq<Body>)
    requires Subsequence(a, b)
    ensures Subsequence(Percents(a), Percents(b))
    decreases |b|
  {
    if a != [] {
      var b', y := b[..|b| - 1], b[|b| - 1];
      assert b == b' + [y];
      PercentsSnoc(b', y);
      assert Percents(b') + [] == Percents(b');
      if Subsequence(a, b') {
        PercentsOfSubsequence(a, b');
        if y.Progress? { SubsequenceSnoc(Percents(a), Percents(b'), y.percent); }
      } else {
        var a' := a[..|a| - 1];
        assert a == a' + [y];
        PercentsSnoc(a', y);
        assert Percents(a') + [] == Percents(a');
        PercentsOfSubsequence(a', b');
        if y.Progress? { SubsequenceSnoc(Percents(a'), Percents(b'), y.percent); }
      }
    }
  }

  lemma {:induction false} SubsequencePrefix<T>(a: seq<T>, b: seq<T>)
    ensures Subsequence(a, a + b)
    decreases |b|
  {
    if b == [] {
      assert a + b == a;
      SubsequenceRefl(a);
    } else {
      SubsequencePrefix(a, b[..|b| - 1]);
      assert a + b == a + b[..|b| - 1] + [b[|b| - 1]];
      SubsequenceSnoc(a, a + b[..|b| - 1], b[|b| - 1]);
    }
  }

  lemma {:induction false} ProgressInvariants(steps: seq<Step>, ota: Task, sockets: set<int>)
    requires IsRun(steps) && OneOtaTask(steps, ota)
    ensures AcceptedFromOffered(After(steps), ota) && SentFromAccepted(After(steps), sockets)
    decreases |steps|
  {
    if steps != [] {
      var init := steps[..|steps| - 1];
      ProgressInvariants(init, ota, sockets);
      AcceptedFromOfferedStep(After(init), steps[|steps| - 1], ota);
      SentFromAcceptedStep(After(init), steps[|steps| - 1], sockets);
    }
  }

  lemma AcceptedIsPartOfOffered(s: State, ota: Task)
    requires AcceptedFromOffered(s, ota)
    ensures Subsequence(Percents(Bodies(s.accepted)), Percents(s.offered))
  {
    var o := Percents(s.offered);
    if ota in s.inFlight && s.inFlight[ota].body.Progress? {
      assert o == o[..|o| - 1] + [o[|o| - 1]];
      SubsequenceSnoc(Percents(Bodies(s.accepted)), o[..|o| - 1], o[|o| - 1]);
    }
  }

  lemma ReceivedIsPartOfAccepted(s: State, sockets: set<int>)
    requires Fifo(s) && SentFromAccepted(s, sockets)
    ensures Subsequence(Received(s.sent, sockets), Bodies(s.accepted))
  {
    var rest := (if s.hand.Done? then [] else Bodies(InHand(s))) + Bodies(s.queue);
    assert Bodies(s.accepted) == Handled(s) + rest;
    SubsequencePrefix(Handled(s), rest);
    SubsequenceTrans(Received(s.sent, sockets), Handled(s), Bodies(s.accepted));
  }

  /** Whatever other producers, full-queue drops, failed sends and client switches do, the percentages any
      set of sockets received are a subsequence of those the OTA task offered. */
  lemma ReceivedIsSubsequenceOfOffered(steps: seq<Step>, ota: Task, sockets: set<int>)
    requires IsRun(steps) && OneOtaTask(steps, ota)
    ensures var s := After(steps);
            Subsequence(Percents(Received(s.sent, sockets)), Percents(s.offered))
  {
    var s := After(steps);
    EveryRunIsSafe(steps);
    ProgressInvariants(steps, ota, sockets);
    AcceptedIsPartOfOffered(s, ota);
    ReceivedIsPartOfAccepted(s, sockets);
    PercentsOfSubsequence(Received(s.sent, sockets), Bodies(s.accepted));
    SubsequenceTrans(Percents(Received(s.sent, sockets)), Percents(Bodies(s.accepted)), Percents(s.offered));
  }

  // ---- the active client --------------------------------------------------------------------------

  /** The sockets some client was registered on. */
  function Registered(steps: seq<Step>): set<int> {
    if steps == [] then {}
    else
      var last := steps[|steps| - 1];
      Registered(steps[..|steps| - 1]) + if last.AddClient? then {last.socket} else {}
  }

  ghost predicate OnlyTo(s: State, sockets: set<int>) {
    && (s.active != NO_SOCKET ==> s.active in sockets)
    && (s.hand.Checked? && s.hand.socket != NO_SOCKET ==> s.hand.socket in sockets)
    && (forall i :: 0 <= i < |s.sent| ==> s.sent[i].socket in sockets)
  }

  lemma OnlyToStep(s: State, step: Step, sockets: set<int>)
    requires OnlyTo(s, sockets) && Enabled(s, step)
    ensures OnlyTo(Next(s, step), sockets + if step.AddClient? then {step.socket} else {})
  {
  }

  /** In every run frames go only to sockets that some client registered. */
  lemma {:induction false} FramesGoToRegisteredClients(steps: seq<Step>)
    requires IsRun(steps)
    ensures OnlyTo(After(steps), Registered(steps))
    decreases |steps|
  {
    if steps != [] {
      var init := steps[..|steps| - 1];
      FramesGoToRegisteredClients(init);
      OnlyToStep(After(init), steps[|steps| - 1], Registered(init));
    }
  }

  /** One turn of the dispatcher loop with no other step in between. */
  function Turn(s: State, isClient: bool, buffer: bool, ok: bool): State
    requires s.hand.Empty? && s.queue != []
  {
    var seen := Next(Next(s, Receive), CheckSocket);
    var passed := if seen.hand.Seen? then Next(seen, CheckServer) else seen;
    var done := if passed.hand.Passed? then Next(Next(passed, ReadSocket), SendFrame(isClient, buffer, ok)) else passed;
    Next(done, Free)
  }

  /** What such a turn amounts to: one message leaves, freed, and the client is reached if there is one. */
  lemma TurnResult(s: State, isClient: bool, buffer: bool, ok: bool)
    requires s.hand.Empty? && s.queue != []
    ensures var m := s.queue[0];
            var reached := s.active != NO_SOCKET && s.server;
            Turn(s, isClient, buffer, ok) == s.(
            queue := s.queue[1..], live := s.live - {m.payload},
            freed := s.freed + [m.payload], consumed := s.consumed + [m],
            active := if reached && (!isClient || (buffer && !ok)) then NO_SOCKET else s.active,
            sent := if reached && isClient && buffer && ok then s.sent + [Sent(s.active, m.body)] else s.sent)
  {
  }

  /** Left alone, a dispatcher turn sends the oldest message to the active client and frees it. */
  lemma UndisturbedTurnDelivers(s: State)
    requires s.hand.Empty? && s.queue != [] && s.active != NO_SOCKET && s.server
    ensures var r := Turn(s, true, true, true);
            && r.sent == s.sent + [Sent(s.active, s.queue[0].body)] && r.queue == s.queue[1..]
            && r.freed == s.freed + [s.queue[0].payload] && r.hand.Empty? && r.active == s.active
  {
    TurnResult(s, true, true, true);
  }

  // ---- the race on the active socket --------------------------------------------------------------

  /** The send found no websocket, or lost its frame, on whichever socket it was for. */
  predicate FailedSend(step: Step) { step.SendFrame? && (!step.isClient || (step.buffer && !step.ok)) }

  predicate NoAddAfter(steps: seq<Step>, k: nat) { forall i :: k < i < |steps| ==> !steps[i].AddClient? }

  /** Since step `k` no send has failed and the client on `socket` has not been removed. */
  predicate Untouched(steps: seq<Step>, k: nat, socket: int) {
    forall i :: k < i < |steps| ==> !FailedSend(steps[i]) && steps[i] != RemoveClient(socket)
  }

  lemma ActiveStep(s: State, step: Step, socket: int)
    requires Enabled(s, step) && !step.AddClient? && (s.active == socket || s.active == NO_SOCKET)
    ensures Next(s, step).active ==
            if s.active == socket && !FailedSend(step) && step != RemoveClient(socket) then socket else NO_SOCKET
  {
  }

  lemma UntouchedSnoc(steps: seq<Step>, k: nat, socket: int)
    requires k + 1 < |steps|
    ensures var init, last := steps[..|steps| - 1], steps[|steps| - 1];
            Untouched(steps, k, socket)
            <==> Untouched(init, k, socket) && !FailedSend(last) && last != RemoveClient(socket)
  {
    var init := steps[..|steps| - 1];
    assert forall i :: 0 <= i < |init| ==> init[i] == steps[i];
  }

  /** In every run the client registered last is still the active one exactly when, since then, it has not
      been removed and no send has failed, to it or to any other socket; otherwise none is active. */
  lemma {:induction false} LatestClientSurvives(steps: seq<Step>, k: nat)
    requires IsRun(steps) && k < |steps| && steps[k].AddClient? && NoAddAfter(steps, k)
    ensures steps[k].socket != NO_SOCKET
    ensures After(steps).active == if Untouched(steps, k, steps[k].socket) then steps[k].socket else NO_SOCKET
    decreases |steps|
  {
    var init := steps[..|steps| - 1];
    if k < |init| {
      LatestClientSurvives(init, k);
      UntouchedSnoc(steps, k, steps[k].socket);
      ActiveStep(After(init), steps[|steps| - 1], steps[k].socket);
    }
  }

  lemma Extend(steps: seq<Step>, step: Step) returns (r: seq<Step>)
    requires IsRun(steps) && Enabled(After(steps), step)
    ensures r == steps + [step] && IsRun(r) && After(r) == Next(After(steps), step)
  {
    r := steps + [step];
    assert r[..|steps|] == steps;
  }

  /** A message for client 5 has reached the dispatcher, which has found it registered. */
  lemma MessageForFive() returns (steps: seq<Step>)
    ensures IsRun(steps) && After(steps).active == 5 && After(steps).hand.Passed?
  {
    steps := Extend([], AddClient(5));
    steps := Extend(steps, SetServer);
    steps := Extend(steps, Allocate(0, Progress(2), true));
    steps := Extend(steps, Enqueue(0));
    steps := Extend(steps, Receive);
    steps := Extend(steps, CheckSocket);
    steps := Extend(steps, CheckServer);
  }

  /** The healthy new client 6 is forgotten because the frame to the old client 5 was lost. */
  lemma NewClientCanBeLost() returns (steps: seq<Step>)
    ensures IsRun(steps) && After(steps).active == 6 && After(steps).hand.Checked? && After(steps).hand.socket == 5
    ensures var lost := steps + [SendFrame(true, true, false)]; IsRun(lost) && After(lost).active == NO_SOCKET
  {
    steps := MessageForFive();
    steps := Extend(steps, ReadSocket);
    steps := Extend(steps, AddClient(6));
    var lost := Extend(steps, SendFrame(true, true, false));
    assert FailedSend(lost[|steps|]);
    LatestClientSurvives(lost, |steps| - 1);
  }

  /** No frame need be lost: client 5 leaves between the two reads of the socket, so the send is for no
      socket at all, and its failure forgets client 6. */
  lemma NewClientCanBeLostUnsent() returns (steps: seq<Step>)
    ensures IsRun(steps) && After(steps).active == 6 && After(steps).hand.Checked?
            && After(steps).hand.socket == NO_SOCKET
    ensures var lost := steps + [SendFrame(false, true, true)]; IsRun(lost) && After(lost).active == NO_SOCKET
  {
    steps := MessageForFive();
    steps := Extend(steps, RemoveClient(5));
    steps := Extend(steps, ReadSocket);
    steps := Extend(steps, AddClient(6));
    var lost := Extend(steps, SendFrame(false, true, true));
    assert FailedSend(lost[|steps|]);
    LatestClientSurvives(lost, |steps| - 1);
  }
}
