/** The functions of ws_queue.c and ws_dispatcher.c as code over the shared queue, heap and client
    registration. Each call is tied to the indivisible steps it takes when nothing interleaves; the
    interleavings themselves are the runs of WsPipeline. */
module WsTasks {
  import opened WsPipeline

  class Events {
    var created: bool               // s_ws_queue != NULL
    var queue: seq<Msg>
    var live: set<Address>
    var nextAddress: Address
    var activeSocket: int
    var serverHandle: bool
    ghost var inFlight: map<Task, Msg>
    ghost var freed: seq<Address>
    ghost var offered: seq<Body>
    ghost var accepted: seq<Msg>
    ghost var consumed: seq<Msg>
    ghost var sent: seq<Sent>

    constructor ()
      ensures View() == Initial() && !created
    {
      created, queue, live, nextAddress, activeSocket, serverHandle := false, [], {}, 0, NO_SOCKET, false;
      inFlight, freed, offered, accepted, consumed, sent := map[], [], [], [], [], [];
    }

    /** The state between two turns of the dispatcher loop. */
    ghost function View(): State
      reads this
    {
      State(live, nextAddress, inFlight, queue, Empty, activeSocket, serverHandle,
            freed, offered, accepted, consumed, sent)
    }

    method Init()
      modifies this`created
      ensures created
    {
      created := true;
    }

    /** ws_queue_send: copies the text, then queues it or frees the copy. `memory` is strdup's outcome. */
    method Send(ghost task: Task, body: Body, memory: bool) returns (ok: bool)
      requires task !in inFlight
      modifies this
      ensures created == old(created) && ok == (created && memory && old(|queue|) < QUEUE_SIZE)
      ensures !created ==> View() == old(View())
      ensures created && !memory ==> View() == Next(old(View()), Allocate(task, body, false))
      ensures created && memory ==>
                var copied := Next(old(View()), Allocate(task, body, true));
                View() == Next(copied, Enqueue(task))
    {
      if !created { return false; }
      offered := offered + [body];
      if !memory { return false; }
      var m := Msg(body, nextAddress);
      live := live + {m.payload};
      nextAddress := nextAddress + 1;
      assert inFlight[task := m] - {task} == inFlight;
      if |queue| >= QUEUE_SIZE {
        live := live - {m.payload};
        freed := freed + [m.payload];
        return false;
      }
      queue := queue + [m];
      accepted := accepted + [m];
      ok := true;
    }

    /** One turn of ws_task_entry with a message waiting; the three flags are what the socket lookup,
        malloc and the frame send answer. */
    method DispatcherTurn(isClient: bool, buffer: bool, sendOk: bool) returns (handled: bool)
      modifies this
      ensures created == old(created) && handled == (created && old(queue) != [])
      ensures !handled ==> View() == old(View())
      ensures handled ==> View() == Turn(old(View()), isClient, buffer, sendOk)
    {
      if !created || queue == [] { return false; }
      TurnResult(View(), isClient, buffer, sendOk);
      var m := queue[0];
      queue := queue[1..];
      if activeSocket != NO_SOCKET && serverHandle {
        SendJson(activeSocket, m, isClient, buffer, sendOk);
      }
      live := live - {m.payload};
      freed := freed + [m.payload];
      consumed := consumed + [m];
      handled := true;
    }

    /** send_ws_json. Its own frame buffer is allocated and freed inside the call. */
    method SendJson(socket: int, m: Msg, isClient: bool, buffer: bool, sendOk: bool)
      modifies this`activeSocket, this`sent
      ensures activeSocket == if !isClient || (buffer && !sendOk) then NO_SOCKET else old(activeSocket)
      ensures sent == if isClient && buffer && sendOk then old(sent) + [Sent(socket, m.body)] else old(sent)
    {
      if !isClient {
        activeSocket := NO_SOCKET;
        return;
      }
      if !buffer { return; }
      if sendOk { sent := sent + [Sent(socket, m.body)]; } else { activeSocket := NO_SOCKET; }
    }

    /** The session the server is asked to close is the previous client, if it was another one. */
    method AddClient(socket: int) returns (kicked: int)
      requires socket >= 0
      modifies this`activeSocket, this`serverHandle
      ensures View() == Next(Next(old(View()), WsPipeline.AddClient(socket)), SetServer)
      ensures activeSocket == socket && serverHandle
      ensures kicked == if old(activeSocket) != socket then old(activeSocket) else NO_SOCKET
    {
      kicked := NO_SOCKET;
      if activeSocket != NO_SOCKET && activeSocket != socket { kicked := activeSocket; }
      activeSocket := socket;
      serverHandle := true;
    }

    method RemoveClient(socket: int)
      modifies this`activeSocket
      ensures View() == Next(old(View()), WsPipeline.RemoveClient(socket))
      ensures activeSocket == if socket == old(activeSocket) then NO_SOCKET else old(activeSocket)
    {
      if activeSocket == socket { activeSocket := NO_SOCKET; }
    }
  }
}
