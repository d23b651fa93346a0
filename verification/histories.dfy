/**
 What the endpoints promise over whole runs: calls are delivered once, in the order they were made, each with the
 bytes its sender passed; and when the owners receive and reply in turn, as the servers' loops do
 (user/programs/console/src/main.rs, user/programs/fs-server/src/main.rs), each is answered once.
 */
module Histories {
  import opened Wrappers
  import opened Words
  import opened Tasks
  import opened Sched
  import opened Ipc
  import opened Traps

  /**
   What has happened at an endpoint: calls accepted, calls delivered, clients answered, and the client being served.
   */
  datatype Log = Log(calls: seq<Parcel>, delivered: seq<Parcel>, answered: seq<nat>, serving: Option<nat>)

  datatype Event = Nothing | Enqueued(e: nat, parcel: Parcel) | Handoff(e: nat, parcel: Parcel)
                 | Popped(e: nat, parcel: Parcel) | Answered(e: nat, client: nat)

  function Record(log: Log, ev: Event, e: nat): Log {
    match ev
    case Nothing => log
    case Enqueued(d, parcel) => if d == e then log.(calls := log.calls + [parcel]) else log
    case Handoff(d, parcel) =>
      if d == e then log.(calls := log.calls + [parcel], delivered := log.delivered + [parcel],
          serving := Some(parcel.sender)) else log
    case Popped(d, parcel) =>
      if d == e then log.(delivered := log.delivered + [parcel], serving := Some(parcel.sender)) else log
    case Answered(d, client) =>
      if d == e then log.(answered := log.answered + [client], serving := None) else log
  }

  /** The queue of endpoint e; empty while the endpoint is not registered. */
  ghost function QueueAt(s: State, e: nat): seq<Parcel>
    requires e < |s.endpoints|
  {
    if s.endpoints[e].Some? then Queue(s.endpoints[e].value) else []
  }

  ghost function Passed(s: State, e: nat, parcel: Parcel): Event
    requires EndpointOf(s, e).Some?
  {
    if ReceiverWaits(EndpointOf(s, e).value) then Handoff(e, parcel) else Enqueued(e, parcel)
  }

  ghost function Taking(s: State, e: nat): Event {
    if RecvRefused(s, e) || EndpointOf(s, e).value.pending == [] then Nothing
    else Popped(e, Queue(EndpointOf(s, e).value)[0])
  }

  ghost function Answering(s: State, client: nat, done: bool): Event {
    if done && MayReply(s, client) then Answered(s.tasks[client].waiting.value.endpoint, client) else Nothing
  }

  /** What a trap does at an endpoint. */
  ghost function EventOf(s: State, trap: Trap): Event
    requires Inv(s)
  {
    InvCore(s);
    match trap
    case Call(e, words) =>
      if CallRefused(s, e) then Nothing else Passed(s, e, Parcel(s.current.value, words, []))
    case CallBuf(e, words, userBuf, bufLen) =>
      var mem := s.tasks[s.current.value].mem;
      if CallBufRefused(s, e, bufLen) || MappedPrefix(mem, userBuf, bufLen) < bufLen then Nothing
      else Passed(s, e, Parcel(s.current.value, words, Load(mem, userBuf, bufLen)))
    case Recv(e) => Taking(s, e)
    case RecvBuf(e, _, _) => Taking(s, e)
    case Reply(client, words) => Answering(s, client, Replied(s, client, words).1)
    case ReplyBuf(client, words, userBuf, bufLen) => Answering(s, client,
        RepliedBuf(s, client, words, userBuf, bufLen).1)
    case _ => Nothing
  }

  // ---- What traps do to the queues ----

  ghost function QueueAfter(q: seq<Parcel>, ev: Event, e: nat): seq<Parcel> {
    match ev
    case Enqueued(d, parcel) => if d == e then q + [parcel] else q
    case Popped(d, _) => if d == e && q != [] then q[1..] else q
    case _ => q
  }

  lemma ScheduledEndpoints(s: State, tf: Frame)
    ensures Scheduled(s, tf).endpoints == s.endpoints
  {
  }

  lemma SentQueue(s: State, e: nat, words: Words4, tf: Frame, d: nat)
    requires Inv(s) && !CallRefused(s, e) && d < MAX_ENDPOINTS
    requires s.current.value in s.tasks
    requires (ReceiverWaits(EndpointOf(s, e).value) ==> EndpointOf(s, e).value.owner in s.tasks)
    ensures |s.endpoints| == MAX_ENDPOINTS == |Sent(s, e, words, tf).endpoints|
    ensures QueueAt(Sent(s, e, words, tf), d) ==
              QueueAfter(QueueAt(s, d), Passed(s, e, Parcel(s.current.value, words, [])), d)
    ensures ReceiverWaits(EndpointOf(s, e).value) ==> QueueAt(s, e) == []
  {
    hide Inv, Core;
    InvCore(s);
    CoreEndpoints(s);
    EndpointFacts(s, e);
  }

  /** With no buffered message queued, what the copy buffer holds makes no difference to the queue. */
  lemma QueueUnbuffered(ep: Endpoint, copyBuf: seq<byte>, copyLen: nat)
    requires Buffered(ep.pending) == 0
    ensures Queue(ep.(copyBuf := copyBuf, copyLen := copyLen)) == Queue(ep)
  {
    forall i | 0 <= i < |ep.pending|
      ensures ep.pending[i].bufLen == 0
    {
      BufferedNone(ep.pending, i);
    }
  }

  lemma LoadedQueue(s: State, e: nat, userBuf: nat, bufLen: nat, d: nat)
    requires Inv(s) && !CallBufRefused(s, e, bufLen) && d < MAX_ENDPOINTS
    requires s.current.value in s.tasks && bufLen <= |EndpointOf(s, e).value.copyBuf|
    ensures |s.endpoints| == MAX_ENDPOINTS == |Loaded(s, e, userBuf, bufLen).endpoints|
    ensures QueueAt(Loaded(s, e, userBuf, bufLen), d) == QueueAt(s, d)
  {
    hide Inv, Core, Overlaid, Queue;
    InvCore(s);
    CoreEndpoints(s);
    EndpointFacts(s, e);
    var ep, mem := EndpointOf(s, e).value, s.tasks[s.current.value].mem;
    QueueUnbuffered(ep, Overlaid(ep.copyBuf, mem, userBuf, bufLen),
                    if MappedPrefix(mem, userBuf, bufLen) == bufLen then bufLen else ep.copyLen);
  }

  lemma SentBufQueue(s: State, e: nat, words: Words4, bufLen: nat, tf: Frame, d: nat)
    requires Inv(s) && !CallBufRefused(s, e, bufLen) && d < MAX_ENDPOINTS
    requires s.current.value in s.tasks && bufLen <= |EndpointOf(s, e).value.copyBuf|
    requires ReceiverWaits(EndpointOf(s, e).value) ==> EndpointOf(s, e).value.owner in s.tasks
    ensures |s.endpoints| == MAX_ENDPOINTS == |SentBuf(s, e, words, bufLen, tf).endpoints|
    ensures QueueAt(SentBuf(s, e, words, bufLen, tf), d) ==
              QueueAfter(QueueAt(s, d),
                  Passed(s, e, Parcel(s.current.value, words, EndpointOf(s, e).value.copyBuf[..bufLen])), d)
    ensures ReceiverWaits(EndpointOf(s, e).value) ==> QueueAt(s, e) == []
  {
    hide Inv, Core, Handed;
    InvCore(s);
    CoreEndpoints(s);
    EndpointFacts(s, e);
  }

  /** A call with a buffer puts its sender, words and the sender's bytes behind the others, or hands them over. */
  lemma CalledBufQueue(s: State, e: nat, words: Words4, userBuf: nat, bufLen: nat, tf: Frame, d: nat)
    requires Inv(s) && d < MAX_ENDPOINTS
    ensures |s.endpoints| == MAX_ENDPOINTS == |CalledBuf(s, e, words, userBuf, bufLen, tf).0.endpoints|
    ensures QueueAt(CalledBuf(s, e, words, userBuf, bufLen, tf).0, d) ==
              QueueAfter(QueueAt(s, d), EventOf(s, CallBuf(e, words, userBuf, bufLen)), d)
    ensures EventOf(s, CallBuf(e, words, userBuf, bufLen)).Handoff? ==> QueueAt(s, e) == []
  {
    hide Inv, Core, Scheduled, SentBuf, Loaded, CallBufRefused, QueueAt;
    InvCore(s);
    CoreEndpoints(s);
    CallReady(s, e);
    CallBufReady(s, e);
    if !CallBufRefused(s, e, bufLen) {
      RefusedEndpoint(s, e, bufLen);
      var s1, mem := Loaded(s, e, userBuf, bufLen), s.tasks[s.current.value].mem;
      LoadedQueue(s, e, userBuf, bufLen, d);
      if MappedPrefix(mem, userBuf, bufLen) == bufLen {
        LoadedKeeps(s, e, userBuf, bufLen);
        LoadedSame(s, e, userBuf, bufLen);
        LoadedBytes(s, e, userBuf, bufLen);
        SentBufQueue(s1, e, words, bufLen, tf, d);
        ScheduledEndpoints(SentBuf(s1, e, words, bufLen, tf), tf);
        QueueAtSame(SentBuf(s1, e, words, bufLen, tf), Scheduled(SentBuf(s1, e, words, bufLen, tf), tf), d);
        LoadedQueue(s, e, userBuf, bufLen, e);
      }
    }
  }

  lemma RefusedEndpoint(s: State, e: nat, bufLen: nat)
    requires !CallBufRefused(s, e, bufLen)
    ensures e < |s.endpoints| && EndpointOf(s, e).Some? && bufLen <= IPC_BUF_SIZE
  {
  }

  lemma QueueAtSame(s: State, s': State, d: nat)
    requires s'.endpoints == s.endpoints && d < |s.endpoints|
    ensures QueueAt(s', d) == QueueAt(s, d)
  {
  }

  lemma LoadedBytes(s: State, e: nat, userBuf: nat, bufLen: nat)
    requires !CallBufRefused(s, e, bufLen) && s.current.value in s.tasks && bufLen <= |EndpointOf(s, e).value.copyBuf|
    requires MappedPrefix(s.tasks[s.current.value].mem, userBuf, bufLen) == bufLen
    ensures EndpointOf(Loaded(s, e, userBuf, bufLen), e).Some?
    ensures bufLen <= |EndpointOf(Loaded(s, e, userBuf, bufLen), e).value.copyBuf|
    ensures EndpointOf(Loaded(s, e, userBuf, bufLen), e).value.copyBuf[..bufLen] ==
              Load(s.tasks[s.current.value].mem, userBuf, bufLen)
  {
    hide Overlaid, Load;
  }

  lemma CalledQueue(s: State, e: nat, words: Words4, tf: Frame, d: nat)
    requires Inv(s) && d < MAX_ENDPOINTS
    ensures |s.endpoints| == MAX_ENDPOINTS == |Called(s, e, words, tf).0.endpoints|
    ensures QueueAt(Called(s, e, words, tf).0, d) == QueueAfter(QueueAt(s, d), EventOf(s, Call(e, words)), d)
    ensures EventOf(s, Call(e, words)).Handoff? ==> e < MAX_ENDPOINTS && QueueAt(s, e) == []
  {
    hide Inv, Core, Scheduled, Sent, QueueAt;
    InvCore(s);
    CoreEndpoints(s);
    CallReady(s, e);
    if !CallRefused(s, e) {
      SentQueue(s, e, words, tf, d);
      ScheduledEndpoints(Sent(s, e, words, tf), tf);
      QueueAtSame(Sent(s, e, words, tf), Scheduled(Sent(s, e, words, tf), tf), d);
    }
  }

  lemma QueuePop(ep: Endpoint, hasBuffered: bool)
    requires ep.pending != []
    ensures Queue(ep.(pending := ep.pending[1..], hasBuffered := hasBuffered)) == Queue(ep)[1..]
  {
  }

  lemma ReceivedQueue(s: State, e: nat, tf: Frame, d: nat)
    requires Inv(s) && d < MAX_ENDPOINTS
    ensures |s.endpoints| == MAX_ENDPOINTS == |Received(s, e, tf).0.endpoints|
    ensures QueueAt(Received(s, e, tf).0, d) == QueueAfter(QueueAt(s, d), Taking(s, e), d)
  {
    hide Inv, Core, Scheduled;
    InvCore(s);
    CoreEndpoints(s);
    if !RecvRefused(s, e) {
      var ep := EndpointOf(s, e).value;
      if ep.pending != [] {
        QueuePop(ep, ep.hasBuffered);
        assert ep.(pending := ep.pending[1..]) == ep.(pending := ep.pending[1..], hasBuffered := ep.hasBuffered);
      } else {
        ScheduledEndpoints(RecvSleeps(s, e, ep.(waitingReceiver := s.current), tf), tf);
      }
    }
  }

  lemma ReceivedBufQueue(s: State, e: nat, userBuf: nat, cap: nat, tf: Frame, d: nat)
    requires Inv(s) && d < MAX_ENDPOINTS
    ensures |s.endpoints| == MAX_ENDPOINTS == |ReceivedBuf(s, e, userBuf, cap, tf).0.endpoints|
    ensures QueueAt(ReceivedBuf(s, e, userBuf, cap, tf).0, d) == QueueAfter(QueueAt(s, d), Taking(s, e), d)
  {
    hide Inv, Core, Scheduled, TakenBuf;
    InvCore(s);
    CoreEndpoints(s);
    RecvReady(s, e);
    if !RecvRefused(s, e) {
      var ep := EndpointOf(s, e).value;
      if ep.pending != [] {
        QueuePop(ep, Taken(ep).hasBuffered);
      } else {
        ScheduledEndpoints(RecvSleeps(s, e, ep.(waitingReceiver := s.current, recvAddr := userBuf, recvCap := cap),
            tf), tf);
      }
    }
  }

  /** Traps that are no calls, receptions or replies leave the endpoints alone. */
  lemma OtherQueue(s: State, trap: Trap, tf: Frame, d: nat)
    requires Inv(s) && Possible(s, trap) && d < MAX_ENDPOINTS
    requires !trap.Call? && !trap.CallBuf? && !trap.Recv? && !trap.RecvBuf?
    ensures |s.endpoints| == MAX_ENDPOINTS && After(s, trap, tf).endpoints == s.endpoints
  {
    hide Inv, Core, Drop, Pick, Store, Load;
    InvCore(s);
    CoreEndpoints(s);
    hide Scheduled;
    ScheduledEndpoints(s, tf);
    ScheduledEndpoints(s, tf.(a0 := 0));
    ScheduledEndpoints(UartWoken(s), tf);
    match trap
    case WaitPid(pid) =>
      ScheduledEndpoints(Sleep(s, s.current.value, Child(pid), tf), tf);
      DropEndpoints(s, {pid});
    case IrqWait => ScheduledEndpoints(Sleep(s, s.current.value, UartRx, tf), tf);
    case _ =>
  }

  lemma DropEndpoints(s: State, gone: set<nat>)
    ensures Drop(s, gone).endpoints == s.endpoints
  {
  }

  /** What a trap does to each queue is what its event says. */
  lemma QueueStep(s: State, trap: Trap, tf: Frame, d: nat)
    requires Inv(s) && Possible(s, trap) && d < MAX_ENDPOINTS
    ensures |s.endpoints| == MAX_ENDPOINTS == |After(s, trap, tf).endpoints|
    ensures QueueAt(After(s, trap, tf), d) == QueueAfter(QueueAt(s, d), EventOf(s, trap), d)
    ensures EventOf(s, trap).Handoff? ==> EventOf(s, trap).e < MAX_ENDPOINTS && QueueAt(s, EventOf(s, trap).e) == []
    ensures EventOf(s, trap).Popped? ==>
              EventOf(s, trap).e < MAX_ENDPOINTS && QueueAt(s, EventOf(s, trap).e) != []
                  && EventOf(s, trap).parcel == QueueAt(s, EventOf(s, trap).e)[0]
  {
    hide Inv, Core, Called, CalledBuf, Received, ReceivedBuf, Passed;
    InvCore(s);
    CoreEndpoints(s);
    match trap
    case Call(e, words) => CalledQueue(s, e, words, tf, d); CallKind(s, e, words);
    case CallBuf(e, words, userBuf, bufLen) => CalledBufQueue(s, e, words, userBuf, bufLen, tf, d); CallBufKind(s, e,
        words, userBuf, bufLen);
    case Recv(e) => ReceivedQueue(s, e, tf, d);
    case RecvBuf(e, userBuf, cap) => ReceivedBufQueue(s, e, userBuf, cap, tf, d);
    case _ =>
      OtherQueue(s, trap, tf, d);
      QueueAtSame(s, After(s, trap, tf), d);
  }

  lemma CallKind(s: State, e: nat, words: Words4)
    requires Inv(s)
    ensures !EventOf(s, Call(e, words)).Popped?
    ensures EventOf(s, Call(e, words)).Handoff? ==> EventOf(s, Call(e, words)).e == e
  {
    InvCore(s);
  }

  lemma CallBufKind(s: State, e: nat, words: Words4, userBuf: nat, bufLen: nat)
    requires Inv(s)
    ensures !EventOf(s, CallBuf(e, words, userBuf, bufLen)).Popped?
    ensures EventOf(s, CallBuf(e, words, userBuf, bufLen)).Handoff? ==>
              EventOf(s, CallBuf(e, words, userBuf, bufLen)).e == e && e < MAX_ENDPOINTS
  {
    InvCore(s);
    CoreEndpoints(s);
  }

  // ---- Delivery in order, with payload ----

  /** All calls accepted at an endpoint are those delivered and those still queued, in order. */
  ghost predicate InOrder(s: State, logs: seq<Log>) {
    |s.endpoints| == |logs| == MAX_ENDPOINTS
    && forall e {:trigger logs[e]} :: 0 <= e < MAX_ENDPOINTS ==> logs[e].calls == logs[e].delivered + QueueAt(s, e)
  }

  ghost function Recorded(s: State, trap: Trap, logs: seq<Log>): (r: seq<Log>)
    requires Inv(s)
    ensures |r| == |logs|
  {
    seq(|logs|, e requires 0 <= e < |logs| => Record(logs[e], EventOf(s, trap), e))
  }

  lemma InOrderStep(s: State, trap: Trap, tf: Frame, logs: seq<Log>)
    requires Inv(s) && Possible(s, trap) && InOrder(s, logs)
    ensures InOrder(After(s, trap, tf), Recorded(s, trap, logs))
  {
    hide Inv, Core, After, EventOf, QueueAt;
    forall e | 0 <= e < MAX_ENDPOINTS
      ensures |s.endpoints| == MAX_ENDPOINTS == |After(s, trap, tf).endpoints|
      ensures Recorded(s, trap, logs)[e].calls == Recorded(s, trap, logs)[e].delivered + QueueAt(After(s, trap, tf), e)
    {
      QueueStep(s, trap, tf, e);
      RecordInOrder(logs[e], EventOf(s, trap), e, QueueAt(s, e));
    }
    QueueStep(s, trap, tf, 0);
  }

  lemma RecordInOrder(log: Log, ev: Event, e: nat, q: seq<Parcel>)
    requires log.calls == log.delivered + q
    requires ev.Handoff? && ev.e == e ==> q == []
    requires ev.Popped? && ev.e == e ==> q != [] && ev.parcel == q[0]
    ensures Record(log, ev, e).calls == Record(log, ev, e).delivered + QueueAfter(q, ev, e)
  {
  }

  // ---- Who is asleep in a call ----

  /** The tasks asleep in a call to endpoint e. */
  ghost function Callers(s: State, e: nat): set<nat> {
    set p | p in s.tasks && s.tasks[p].waiting == Some(IpcCall(e))
  }

  ghost function CallersAfter(callers: set<nat>, ev: Event, e: nat): set<nat> {
    match ev
    case Enqueued(d, parcel) => if d == e then callers + {parcel.sender} else callers
    case Handoff(d, parcel) => if d == e then callers + {parcel.sender} else callers
    case Answered(d, client) => if d == e then callers - {client} else callers
    case _ => callers
  }

  /** Scheduling wakes nobody. */
  lemma ScheduledCallers(s: State, tf: Frame, e: nat)
    requires Core(s) && s.current.Some? && s.current.value in s.tasks
    ensures Callers(Scheduled(s, tf), e) == Callers(s, e)
  {
    hide Core, Scheduled, Reapable;
    forall p
      ensures p in Callers(Scheduled(s, tf), e) <==> p in Callers(s, e)
    {
      if p in s.tasks && s.tasks[p].waiting == Some(IpcCall(e)) {
        TaskAt(s, p);
        NotReapable(s, p);
        ScheduledTask(s, tf, p);
      }
      if p in Scheduled(s, tf).tasks {
        ScheduledReaps(s, tf, p);
        ScheduledTask(s, tf, p);
      }
    }
  }

  lemma NotReapable(s: State, p: nat)
    requires p in s.tasks && TaskOk(s, p) && s.tasks[p].waiting.Some?
    ensures p !in Reapable(s)
  {
  }

  lemma SentCallers(s: State, e: nat, words: Words4, tf: Frame, d: nat)
    requires Inv(s) && !CallRefused(s, e) && s.current.value in s.tasks
    requires ReceiverWaits(EndpointOf(s, e).value) ==> EndpointOf(s, e).value.owner in s.tasks
    ensures Callers(Sent(s, e, words, tf), d) ==
              CallersAfter(Callers(s, d), Passed(s, e, Parcel(s.current.value, words, [])), d)
  {
    hide Inv, Core;
    CurrentAwake(s);
    CoreEndpoints(s) by { InvCore(s); }
    if ReceiverWaits(EndpointOf(s, e).value) { InvCore(s); ReceiverThere(s, e); }
  }

  lemma CurrentAwake(s: State)
    requires Inv(s)
    ensures s.current.Some? && s.current.value in s.tasks && s.tasks[s.current.value].waiting.None?
  {
    InvCore(s);
    TaskAt(s, s.current.value);
  }

  lemma SentBufCallers(s: State, e: nat, words: Words4, bufLen: nat, tf: Frame, payload: seq<byte>, d: nat)
    requires Inv(s) && !CallBufRefused(s, e, bufLen) && s.current.value in s.tasks
    requires bufLen <= |EndpointOf(s, e).value.copyBuf|
    requires ReceiverWaits(EndpointOf(s, e).value) ==> EndpointOf(s, e).value.owner in s.tasks
    ensures Callers(SentBuf(s, e, words, bufLen, tf), d) ==
              CallersAfter(Callers(s, d), Passed(s, e, Parcel(s.current.value, words, payload)), d)
  {
    hide Inv, Core, Handed;
    CurrentAwake(s);
    CoreEndpoints(s) by { InvCore(s); }
    if ReceiverWaits(EndpointOf(s, e).value) { InvCore(s); ReceiverThere(s, e); }
  }

  lemma CalledCallers(s: State, e: nat, words: Words4, tf: Frame, d: nat)
    requires Inv(s) && s.current != Some(IDLE)
    ensures Callers(Called(s, e, words, tf).0, d) == CallersAfter(Callers(s, d), EventOf(s, Call(e, words)), d)
  {
    hide Inv, Core, Scheduled, Sent, CallRefused, Callers;
    InvCore(s);
    CallReady(s, e);
    if !CallRefused(s, e) {
      CallAccepted(s, e);
      SentCallers(s, e, words, tf, d);
      SentKeeps(s, e, words, tf);
      SentCurrent(s, e, words, tf);
      ScheduledCallers(Sent(s, e, words, tf), tf, d);
    }
  }

  lemma CallAccepted(s: State, e: nat)
    requires !CallRefused(s, e)
    ensures EndpointOf(s, e).Some?
  {
  }

  lemma CalledBufCallers(s: State, e: nat, words: Words4, userBuf: nat, bufLen: nat, tf: Frame, d: nat)
    requires Inv(s) && s.current != Some(IDLE)
    ensures Callers(CalledBuf(s, e, words, userBuf, bufLen, tf).0, d) ==
              CallersAfter(Callers(s, d), EventOf(s, CallBuf(e, words, userBuf, bufLen)), d)
  {
    hide Inv, Core, Scheduled, SentBuf, Loaded, CallBufRefused, Callers;
    InvCore(s);
    CallReady(s, e);
    CallBufReady(s, e);
    if !CallBufRefused(s, e, bufLen) {
      RefusedEndpoint(s, e, bufLen);
      var s1, mem := Loaded(s, e, userBuf, bufLen), s.tasks[s.current.value].mem;
      LoadedSame(s, e, userBuf, bufLen);
      SameCallers(s, s1, d);
      if MappedPrefix(mem, userBuf, bufLen) == bufLen {
        LoadedKeeps(s, e, userBuf, bufLen);
        SentBufCallers(s1, e, words, bufLen, tf, Load(mem, userBuf, bufLen), d);
        SentBufKeeps(s1, e, words, bufLen, tf);
        SentBufCurrent(s1, e, words, bufLen, tf);
        ScheduledCallers(SentBuf(s1, e, words, bufLen, tf), tf, d);
      }
    }
  }

  lemma SameCallers(s: State, s': State, e: nat)
    requires s'.tasks == s.tasks
    ensures Callers(s', e) == Callers(s, e)
  {
  }

  lemma SleepCallers(s: State, p: nat, c: Channel, tf: Frame, e: nat)
    requires p in s.tasks && s.tasks[p].waiting.None? && !c.IpcCall?
    ensures Callers(Sleep(s, p, c, tf), e) == Callers(s, e)
  {
  }

  lemma FrameCallers(s: State, p: nat, frame: Frame, mem: Mem, e: nat)
    requires p in s.tasks
    ensures Callers(WithFrame(s, p, frame, mem), e) == Callers(s, e)
  {
  }

  lemma RecvSleepsCallers(s: State, e: nat, ep: Endpoint, tf: Frame, d: nat)
    requires Inv(s) && !RecvRefused(s, e) && s.current != Some(IDLE)
    requires var old_ := EndpointOf(s, e).value;
             old_.pending == []
                 && ep == old_.(waitingReceiver := s.current, recvAddr := ep.recvAddr, recvCap := ep.recvCap)
    ensures s.current.value in s.tasks && Callers(Scheduled(RecvSleeps(s, e, ep, tf), tf), d) == Callers(s, d)
  {
    hide TaskOk, SlotEndpointOk, Core, Inv, Scheduled, Callers;
    InvCore(s);
    RecvReady(s, e);
    CurrentAwake(s);
    SleepReceiverKeeps(s, s.current.value, e, ep, tf);
    SleepCallers(s, s.current.value, IpcRecv(e), tf, d);
    SameCallers(Sleep(s, s.current.value, IpcRecv(e), tf), RecvSleeps(s, e, ep, tf), d);
    ScheduledCallers(RecvSleeps(s, e, ep, tf), tf, d);
  }

  lemma ReceivedCallers(s: State, e: nat, tf: Frame, d: nat)
    requires Inv(s) && s.current != Some(IDLE)
    ensures Callers(Received(s, e, tf).0, d) == Callers(s, d)
  {
    hide Core, Inv, RecvSleeps, Scheduled, Callers;
    InvCore(s);
    if !RecvRefused(s, e) {
      var ep := EndpointOf(s, e).value;
      if ep.pending != [] {
        SameCallers(s, Received(s, e, tf).0, d);
      } else {
        RecvSleepsCallers(s, e, ep.(waitingReceiver := s.current), tf, d);
      }
    }
  }

  lemma ReceivedBufCallers(s: State, e: nat, userBuf: nat, cap: nat, tf: Frame, d: nat)
    requires Inv(s) && s.current != Some(IDLE)
    ensures Callers(ReceivedBuf(s, e, userBuf, cap, tf).0, d) == Callers(s, d)
  {
    hide Core, Inv, RecvSleeps, Scheduled, Callers, TakenBuf, WithFrame;
    InvCore(s);
    RecvReady(s, e);
    if !RecvRefused(s, e) {
      var ep, p := EndpointOf(s, e).value, s.current.value;
      if ep.pending != [] {
        SameCallers(s, WithEndpoint(s, e, Taken(ep)), d);
        FrameCallers(WithEndpoint(s, e, Taken(ep)), p, s.tasks[p].frame, TakenBuf(ep, s.tasks[p].mem, userBuf, cap).0,
            d);
      } else {
        RecvSleepsCallers(s, e, ep.(waitingReceiver := s.current, recvAddr := userBuf, recvCap := cap), tf, d);
      }
    }
  }

  lemma RepliedCallers(s: State, client: nat, words: Words4, d: nat)
    ensures Callers(Replied(s, client, words).0, d) ==
              CallersAfter(Callers(s, d), Answering(s, client, Replied(s, client, words).1), d)
  {
  }

  lemma RepliedBufCallers(s: State, client: nat, words: Words4, userBuf: nat, bufLen: nat, d: nat)
    requires s.current.Some? ==> s.current.value in s.tasks
    ensures var r := RepliedBuf(s, client, words, userBuf, bufLen);
            Callers(r.0, d) == CallersAfter(Callers(s, d), Answering(s, client, r.1), d)
  {
    hide Store, Load, Min;
  }

  lemma OtherCallers(s: State, trap: Trap, tf: Frame, d: nat)
    requires Inv(s) && Possible(s, trap)
    requires trap.Timer? || trap.External? || trap.Yield? || trap.IrqWait? || trap.WaitPid? || trap.Local?
    ensures Callers(After(s, trap, tf), d) == Callers(s, d)
  {
    hide Inv, Core, Scheduled, Drop, Callers, UartWoken, WithFrame;
    InvCore(s);
    CurrentAwake(s);
    match trap
    case Timer => ScheduledCallers(s, tf, d);
    case Yield => ScheduledCallers(s, tf.(a0 := 0), d);
    case External(uart) =>
      UartWokenKeeps(s);
      UartCurrent(s);
      UartCallers(s, d);
      ScheduledCallers(if uart then UartWoken(s) else s, tf, d);
    case WaitPid(pid) =>
      if IsChild(s, pid) && s.tasks[pid].status == Zombie {
        DropCallers(s, pid, d);
      } else if s.current != Some(IDLE) && IsChild(s, pid) {
        SleepKeeps(s, s.current.value, Child(pid), tf);
        SleepCallers(s, s.current.value, Child(pid), tf, d);
        ScheduledCallers(Sleep(s, s.current.value, Child(pid), tf), tf, d);
      }
    case IrqWait =>
      if UartWaited(s, tf).Some? {
        SleepKeeps(s, s.current.value, UartRx, tf);
        SleepCallers(s, s.current.value, UartRx, tf, d);
        ScheduledCallers(Sleep(s, s.current.value, UartRx, tf), tf, d);
      }
    case Local(mem) => FrameCallers(s, s.current.value, s.tasks[s.current.value].frame, mem, d);
  }

  lemma UartCallers(s: State, d: nat)
    ensures Callers(UartWoken(s), d) == Callers(s, d)
  {
  }

  lemma DropCallers(s: State, pid: nat, d: nat)
    requires Core(s) && pid in s.tasks && s.tasks[pid].status == Zombie
    ensures Callers(Drop(s, {pid}), d) == Callers(s, d)
  {
    TaskAt(s, pid);
  }

  lemma ForkCallers(s: State, tf: Frame, d: nat)
    requires Inv(s)
    ensures s.current.Some? && s.current.value in s.tasks && Callers(Forked(s, tf).0, d) == Callers(s, d)
  {
    InvCore(s);
    NewPid(s);
  }

  lemma ExitCallers(s: State, code: int, d: nat)
    requires Inv(s) && s.current != Some(IDLE) && -0x8000_0000 <= code < 0x8000_0000
    ensures s.current.value in s.tasks && Callers(Exited(s, code), d) == Callers(s, d)
  {
    hide Inv, Core, Pick;
    InvCore(s);
    CurrentAwake(s);
    ExitedInv(s, code);
    var s1 := Zombied(s, s.current.value, code);
    forall p
      ensures p in Callers(Exited(s, code), d) <==> p in Callers(s, d)
    {
      RunNextOnly(s1, 0, p);
    }
  }

  /** What a trap does to the tasks asleep in calls is what its event says. */
  lemma CallersStep(s: State, trap: Trap, tf: Frame, d: nat)
    requires Inv(s) && Possible(s, trap)
    ensures Callers(After(s, trap, tf), d) == CallersAfter(Callers(s, d), EventOf(s, trap), d)
  {
    hide Inv, Core, Callers, Called, CalledBuf, Received, ReceivedBuf, Replied, RepliedBuf, Exited, Forked, Waited,
         Scheduled, UartWaited,
         UartWoken, WithFrame, RecvRefused, CallRefused, CallBufRefused, MayReply, Passed;
    InvCore(s);
    match trap
    case Call(e, words) => CalledCallers(s, e, words, tf, d);
    case CallBuf(e, words, userBuf, bufLen) => CalledBufCallers(s, e, words, userBuf, bufLen, tf, d);
    case Recv(e) => ReceivedCallers(s, e, tf, d);
    case RecvBuf(e, userBuf, cap) => ReceivedBufCallers(s, e, userBuf, cap, tf, d);
    case Reply(client, words) => RepliedCallers(s, client, words, d);
    case ReplyBuf(client, words, userBuf, bufLen) => RepliedBufCallers(s, client, words, userBuf, bufLen, d);
    case Exit(code) => ExitCallers(s, code, d);
    case Fork(memory) => ForkCallers(s, tf, d);
    case _ => OtherCallers(s, trap, tf, d);
  }

  // ---- Servers that receive and reply in turn ----

  function Senders(parcels: seq<Parcel>): (r: seq<nat>)
    ensures |r| == |parcels|
  {
    seq(|parcels|, i requires 0 <= i < |parcels| => parcels[i].sender)
  }

  function Served(serving: Option<nat>): seq<nat> {
    if serving.Some? then [serving.value] else []
  }

  /**
   The owner keeps to its loop: it receives only when it is serving nobody, and the clients it answers are those
   whose call it received last. A reply that fails answers nobody.
   */
  ghost predicate Disciplined(s: State, trap: Trap, logs: seq<Log>)
    requires Inv(s) && |logs| == MAX_ENDPOINTS
  {
    InvCore(s);
    match trap
    case Recv(e) => e < MAX_ENDPOINTS && !RecvRefused(s, e) ==> logs[e].serving.None?
    case RecvBuf(e, _, _) => e < MAX_ENDPOINTS && !RecvRefused(s, e) ==> logs[e].serving.None?
    case Reply(client, _) => ServesOnly(s, client, logs)
    case ReplyBuf(client, words, userBuf, bufLen) =>
      RepliedBuf(s, client, words, userBuf, bufLen).1 ==> ServesOnly(s, client, logs)
    case _ => true
  }

  ghost predicate ServesOnly(s: State, client: nat, logs: seq<Log>)
    requires |logs| == MAX_ENDPOINTS
  {
    MayReply(s, client) ==>
      var e := s.tasks[client].waiting.value.endpoint;
      e < MAX_ENDPOINTS ==> logs[e].serving == Some(client)
  }

  /**
   At endpoint e: the tasks asleep in a call are, each once, the senders in the queue and the client being served;
   every call delivered has been answered, in order, but for the one being served; nobody waits to receive while
   serving.
   */
  ghost predicate ExactlyOnce(callers: set<nat>, q: seq<Parcel>, log: Log, idle: bool) {
    && (forall p :: p in callers <==> p in Senders(q) || log.serving == Some(p))
    && (forall i, j :: 0 <= i < j < |q| ==> q[i].sender != q[j].sender)
    && (log.serving.Some? ==> log.serving.value !in Senders(q))
    && Senders(log.delivered) == log.answered + Served(log.serving)
    && (idle ==> log.serving.None?)
  }

  /** Is the owner of endpoint e asleep waiting for a message? */
  ghost predicate Idling(s: State, e: nat)
    requires e < |s.endpoints|
  {
    s.endpoints[e].Some? && s.endpoints[e].value.waitingReceiver.Some?
  }

  ghost predicate AllOnce(s: State, logs: seq<Log>) {
    |s.endpoints| == |logs| == MAX_ENDPOINTS
    && forall e {:trigger logs[e]} :: 0 <= e < MAX_ENDPOINTS ==>
        ExactlyOnce(Callers(s, e), QueueAt(s, e), logs[e], Idling(s, e))
  }

  /** The condition of `ExactlyOnce` at one endpoint, from its parts. */
  lemma OnceStep(callers: set<nat>, q: seq<Parcel>, log: Log, idle: bool, idle': bool, ev: Event, e: nat)
    requires ExactlyOnce(callers, q, log, idle)
    requires (ev.Enqueued? || ev.Handoff?) && ev.e == e ==> ev.parcel.sender !in callers
    requires ev.Handoff? && ev.e == e ==> q == [] && idle
    requires ev.Popped? && ev.e == e ==> q != [] && ev.parcel == q[0] && log.serving.None?
    requires ev.Answered? && ev.e == e ==> log.serving == Some(ev.client)
    requires idle' ==> (idle && !((ev.Handoff? || ev.Popped?) && ev.e == e)) || (log.serving.None? && ev.Nothing?)
    ensures ExactlyOnce(CallersAfter(callers, ev, e), QueueAfter(q, ev, e), Record(log, ev, e), idle')
  {
    if !ev.Nothing? && ev.e == e {
      match ev
      case Enqueued(_, parcel) => SendersMore(q, parcel);
      case Handoff(_, parcel) =>
        SendersMore(log.delivered, parcel);
      case Popped(_, parcel) =>
        SendersMore(log.delivered, parcel);
        SendersLess(q);
      case Answered(_, client) =>
        assert log.answered + [client] + Served(None) == log.answered + Served(Some(client));
    }
  }

  lemma SendersMore(q: seq<Parcel>, parcel: Parcel)
    ensures Senders(q + [parcel]) == Senders(q) + [parcel.sender]
    ensures forall p :: p in Senders(q + [parcel]) <==> p in Senders(q) || p == parcel.sender
    ensures forall i :: 0 <= i < |q| ==> q[i].sender in Senders(q)
  {
    assert Senders(q + [parcel]) == Senders(q) + [parcel.sender];
    assert forall i :: 0 <= i < |q| ==> Senders(q)[i] == q[i].sender;
  }

  lemma SendersLess(q: seq<Parcel>)
    requires q != []
    ensures Senders(q) == [q[0].sender] + Senders(q[1..])
    ensures forall p :: p in Senders(q) <==> p == q[0].sender || p in Senders(q[1..])
    ensures (forall i, j :: 0 <= i < j < |q| ==> q[i].sender != q[j].sender) ==> q[0].sender !in Senders(q[1..])
  {
    assert Senders(q) == [q[0].sender] + Senders(q[1..]);
    if q[0].sender in Senders(q[1..]) {
      var i :| 0 <= i < |q| - 1 && Senders(q[1..])[i] == q[0].sender;
      assert q[i + 1].sender == q[0].sender;
    }
  }

  /** An owner waits after a trap only if it did before and was not handed a message, or has just begun to receive. */
  ghost predicate IdleOk(s: State, s': State, ev: Event, d: nat, receiving: bool)
    requires d < |s.endpoints| && d < |s'.endpoints|
  {
    Idling(s', d) ==> (Idling(s, d) && !((ev.Handoff? || ev.Popped?) && ev.e == d)) || (ev.Nothing? && receiving)
  }

  predicate Receiving(s: State, trap: Trap, d: nat) {
    match trap
    case Recv(e) => e == d && !RecvRefused(s, e)
    case RecvBuf(e, _, _) => e == d && !RecvRefused(s, e)
    case _ => false
  }

  lemma IdlingSame(s: State, s': State, ev: Event, d: nat, receiving: bool)
    requires d < |s.endpoints| && s'.endpoints == s.endpoints && !ev.Handoff? && !ev.Popped?
    ensures IdleOk(s, s', ev, d, receiving)
  {
  }

  lemma SentIdle(s: State, e: nat, words: Words4, tf: Frame, d: nat)
    requires Inv(s) && !CallRefused(s, e) && d < |s.endpoints| && s.current.value in s.tasks
    requires ReceiverWaits(EndpointOf(s, e).value) ==> EndpointOf(s, e).value.owner in s.tasks
    ensures d < |Sent(s, e, words, tf).endpoints|
    ensures Idling(Sent(s, e, words, tf), d) ==> Idling(s, d) && !(ReceiverWaits(EndpointOf(s, e).value) && d == e)
  {
    hide Inv;
  }

  lemma SentBufIdle(s: State, e: nat, words: Words4, bufLen: nat, tf: Frame, d: nat)
    requires Inv(s) && !CallBufRefused(s, e, bufLen) && d < |s.endpoints| && s.current.value in s.tasks
    requires ReceiverWaits(EndpointOf(s, e).value) ==> EndpointOf(s, e).value.owner in s.tasks
    requires bufLen <= |EndpointOf(s, e).value.copyBuf|
    ensures d < |SentBuf(s, e, words, bufLen, tf).endpoints|
    ensures Idling(SentBuf(s, e, words, bufLen, tf), d) ==> Idling(s, d)
    ensures Idling(SentBuf(s, e, words, bufLen, tf), d) ==> !(ReceiverWaits(EndpointOf(s, e).value) && d == e)
  {
    hide Inv, Handed;
  }

  lemma LoadedIdle(s: State, e: nat, userBuf: nat, bufLen: nat, d: nat)
    requires !CallBufRefused(s, e, bufLen) && s.current.value in s.tasks && bufLen <= |EndpointOf(s, e).value.copyBuf|
    requires d < |s.endpoints|
    ensures d < |Loaded(s, e, userBuf, bufLen).endpoints| && Idling(Loaded(s, e, userBuf, bufLen), d) == Idling(s, d)
  {
    hide Overlaid;
  }

  lemma CalledIdle(s: State, e: nat, words: Words4, tf: Frame, d: nat)
    requires Inv(s) && d < MAX_ENDPOINTS
    ensures |s.endpoints| == MAX_ENDPOINTS && |Called(s, e, words, tf).0.endpoints| == MAX_ENDPOINTS
    ensures IdleOk(s, Called(s, e, words, tf).0, EventOf(s, Call(e, words)), d, false)
  {
    hide Inv, Core, Scheduled, Sent, CallRefused, QueueAt;
    CalledQueue(s, e, words, tf, d);
    InvCore(s);
    CallReady(s, e);
    if !CallRefused(s, e) {
      CallAccepted(s, e);
      SentIdle(s, e, words, tf, d);
      ScheduledEndpoints(Sent(s, e, words, tf), tf);
    }
  }

  lemma CalledBufIdle(s: State, e: nat, words: Words4, userBuf: nat, bufLen: nat, tf: Frame, d: nat)
    requires Inv(s) && d < MAX_ENDPOINTS
    ensures |s.endpoints| == MAX_ENDPOINTS && |CalledBuf(s, e, words, userBuf, bufLen, tf).0.endpoints| == MAX_ENDPOINTS
    ensures IdleOk(s, CalledBuf(s, e, words, userBuf, bufLen, tf).0, EventOf(s, CallBuf(e, words, userBuf, bufLen)), d,
              false)
  {
    hide Inv, Core, Scheduled, SentBuf, Loaded, CallBufRefused, QueueAt, Idling, Load;
    CalledBufQueue(s, e, words, userBuf, bufLen, tf, d);
    InvCore(s);
    CallReady(s, e);
    CallBufReady(s, e);
    if !CallBufRefused(s, e, bufLen) {
      RefusedEndpoint(s, e, bufLen);
      var s1, mem := Loaded(s, e, userBuf, bufLen), s.tasks[s.current.value].mem;
      LoadedIdle(s, e, userBuf, bufLen, d);
      LoadedSame(s, e, userBuf, bufLen);
      if MappedPrefix(mem, userBuf, bufLen) == bufLen {
        LoadedKeeps(s, e, userBuf, bufLen);
        SentBufIdle(s1, e, words, bufLen, tf, d);
        ScheduledEndpoints(SentBuf(s1, e, words, bufLen, tf), tf);
        IdlingEqual(SentBuf(s1, e, words, bufLen, tf), Scheduled(SentBuf(s1, e, words, bufLen, tf), tf), d);
      }
    }
  }

  lemma IdlingEqual(s: State, s': State, d: nat)
    requires d < |s.endpoints| && s'.endpoints == s.endpoints
    ensures Idling(s', d) == Idling(s, d)
  {
  }

  lemma ReceivedIdle(s: State, e: nat, tf: Frame, d: nat)
    requires Inv(s) && d < MAX_ENDPOINTS
    ensures |s.endpoints| == MAX_ENDPOINTS && |Received(s, e, tf).0.endpoints| == MAX_ENDPOINTS
    ensures IdleOk(s, Received(s, e, tf).0, Taking(s, e), d, e == d && !RecvRefused(s, e))
  {
    hide Inv, Core, Scheduled, Queue;
    InvCore(s);
    RecvReady(s, e);
    if !RecvRefused(s, e) {
      var ep := EndpointOf(s, e).value;
      if ep.pending == [] {
        ScheduledEndpoints(RecvSleeps(s, e, ep.(waitingReceiver := s.current), tf), tf);
      }
    }
  }

  lemma ReceivedBufIdle(s: State, e: nat, userBuf: nat, cap: nat, tf: Frame, d: nat)
    requires Inv(s) && d < MAX_ENDPOINTS
    ensures |s.endpoints| == MAX_ENDPOINTS && |ReceivedBuf(s, e, userBuf, cap, tf).0.endpoints| == MAX_ENDPOINTS
    ensures IdleOk(s, ReceivedBuf(s, e, userBuf, cap, tf).0, Taking(s, e), d, e == d && !RecvRefused(s, e))
  {
    hide Inv, Core, Scheduled, Queue, TakenBuf;
    InvCore(s);
    RecvReady(s, e);
    if !RecvRefused(s, e) {
      var ep := EndpointOf(s, e).value;
      if ep.pending == [] {
        ScheduledEndpoints(RecvSleeps(s, e, ep.(waitingReceiver := s.current, recvAddr := userBuf, recvCap := cap),
            tf), tf);
      }
    }
  }

  lemma IdlingStep(s: State, trap: Trap, tf: Frame, d: nat)
    requires Inv(s) && Possible(s, trap) && d < MAX_ENDPOINTS
    ensures |s.endpoints| == MAX_ENDPOINTS == |After(s, trap, tf).endpoints|
    ensures IdleOk(s, After(s, trap, tf), EventOf(s, trap), d, Receiving(s, trap, d))
  {
    hide Inv, Core, Called, CalledBuf, Received, ReceivedBuf, Passed, Idling;
    InvCore(s);
    CoreEndpoints(s);
    match trap
    case Call(e, words) => CalledIdle(s, e, words, tf, d);
    case CallBuf(e, words, userBuf, bufLen) => CalledBufIdle(s, e, words, userBuf, bufLen, tf, d);
    case Recv(e) => ReceivedIdle(s, e, tf, d);
    case RecvBuf(e, userBuf, cap) => ReceivedBufIdle(s, e, userBuf, cap, tf, d);
    case _ =>
      OtherQueue(s, trap, tf, d);
      IdlingSame(s, After(s, trap, tf), EventOf(s, trap), d, false);
  }

  /**
   The sender of a message is the current task, which was not asleep; a handed-over message goes to an owner that
   waited.
   */
  lemma SenderAwake(s: State, trap: Trap, d: nat)
    requires Inv(s) && d < MAX_ENDPOINTS
    ensures var ev := EventOf(s, trap);
            && |s.endpoints| == MAX_ENDPOINTS
            && (ev.Enqueued? || ev.Handoff? ==> ev.parcel.sender !in Callers(s, d))
            && (ev.Handoff? ==> ev.e < MAX_ENDPOINTS && Idling(s, ev.e))
  {
    hide Inv, Core, Load;
    InvCore(s);
    CurrentAwake(s);
    CoreEndpoints(s);
  }

  /** One trap keeps `ExactlyOnce` at every endpoint if and only if the owners keep to their loops in it. */
  lemma OnceExactly(s: State, trap: Trap, tf: Frame, logs: seq<Log>)
    requires Inv(s) && Possible(s, trap) && AllOnce(s, logs)
    ensures AllOnce(After(s, trap, tf), Recorded(s, trap, logs)) <==> Disciplined(s, trap, logs)
  {
    hide Inv, Core, After, EventOf, AllOnce, Disciplined;
    OnceParts(s, logs);
    if Disciplined(s, trap, logs) {
      OnceKept(s, trap, tf, logs);
    } else {
      var e := Undisciplined(s, trap, logs);
      OnceLost(s, trap, tf, logs, e);
      if AllOnce(After(s, trap, tf), Recorded(s, trap, logs)) {
        OnceParts(After(s, trap, tf), Recorded(s, trap, logs));
        OnceAtEach(After(s, trap, tf), Recorded(s, trap, logs), e);
      }
    }
  }

  lemma OnceParts(s: State, logs: seq<Log>)
    requires AllOnce(s, logs)
    ensures |s.endpoints| == |logs| == MAX_ENDPOINTS
  {
  }

  lemma OnceAtEach(s: State, logs: seq<Log>, e: nat)
    requires AllOnce(s, logs) && e < MAX_ENDPOINTS
    ensures |s.endpoints| == |logs| == MAX_ENDPOINTS
    ensures ExactlyOnce(Callers(s, e), QueueAt(s, e), logs[e], Idling(s, e))
  {
  }

  /** Where the owner does not keep to its loop. */
  ghost predicate Breaks(s: State, trap: Trap, logs: seq<Log>, e: nat)
    requires Inv(s) && |logs| == MAX_ENDPOINTS && e < MAX_ENDPOINTS
  {
    || (Receiving(s, trap, e) && logs[e].serving.Some?)
    || (EventOf(s, trap).Answered? && EventOf(s, trap).e == e && logs[e].serving != Some(EventOf(s, trap).client))
  }

  lemma Undisciplined(s: State, trap: Trap, logs: seq<Log>) returns (e: nat)
    requires Inv(s) && |logs| == MAX_ENDPOINTS && !Disciplined(s, trap, logs)
    ensures e < MAX_ENDPOINTS && Breaks(s, trap, logs, e)
  {
    hide Inv, Core, RepliedBuf;
    InvCore(s);
    CoreEndpoints(s);
    match trap
    case Recv(d) => e := d;
    case RecvBuf(d, _, _) => e := d;
    case Reply(client, _) => e := s.tasks[client].waiting.value.endpoint;
    case ReplyBuf(client, _, _, _) => e := s.tasks[client].waiting.value.endpoint;
  }

  /** There the condition is lost: a client is forgotten or answered twice, or the owner waits with one to serve. */
  lemma OnceLost(s: State, trap: Trap, tf: Frame, logs: seq<Log>, e: nat)
    requires Inv(s) && Possible(s, trap) && |s.endpoints| == |logs| == MAX_ENDPOINTS && e < MAX_ENDPOINTS
    requires AllOnce(s, logs) && Breaks(s, trap, logs, e)
    ensures |After(s, trap, tf).endpoints| == MAX_ENDPOINTS
    ensures !ExactlyOnce(Callers(After(s, trap, tf), e), QueueAt(After(s, trap, tf), e),
              Record(logs[e], EventOf(s, trap), e), Idling(After(s, trap, tf), e))
  {
    hide Inv, Core, After, AllOnce, QueueAt, Callers, Idling, ExactlyOnce, EventOf, QueueAfter, CallersAfter, Record,
         Receiving;
    OnceAtEach(s, logs, e);
    QueueStep(s, trap, tf, e);
    CallersStep(s, trap, tf, e);
    if Receiving(s, trap, e) {
      ReceivingStep(s, trap, tf, e);
      if EventOf(s, trap).Nothing? {
        IdleLost(CallersAfter(Callers(s, e), EventOf(s, trap), e), QueueAfter(QueueAt(s, e), EventOf(s, trap), e),
                 logs[e], EventOf(s, trap), e);
      } else {
        PoppedLost(Callers(s, e), QueueAt(s, e), logs[e], Idling(s, e), Idling(After(s, trap, tf), e),
                   EventOf(s, trap), e);
      }
    } else {
      AnsweredLost(Callers(s, e), QueueAt(s, e), logs[e], Idling(s, e), Idling(After(s, trap, tf), e),
                   EventOf(s, trap), e);
    }
  }

  /** A reception takes the first message, or the owner waits. */
  lemma ReceivingStep(s: State, trap: Trap, tf: Frame, e: nat)
    requires Inv(s) && Possible(s, trap) && e < MAX_ENDPOINTS && Receiving(s, trap, e)
    ensures |After(s, trap, tf).endpoints| == MAX_ENDPOINTS
    ensures EventOf(s, trap).Nothing? ==> Idling(After(s, trap, tf), e)
    ensures !EventOf(s, trap).Nothing? ==> EventOf(s, trap).Popped? && EventOf(s, trap).e == e
  {
    hide Inv, Core, Scheduled, Queue;
    InvCore(s);
    RecvReady(s, e);
    var ep := EndpointOf(s, e).value;
    if ep.pending == [] {
      ScheduledEndpoints(RecvSleeps(s, e, ep.(waitingReceiver := s.current), tf), tf);
      match trap {
        case RecvBuf(_, userBuf, cap) =>
          ScheduledEndpoints(RecvSleeps(s, e, ep.(waitingReceiver := s.current, recvAddr := userBuf, recvCap := cap),
                                        tf), tf);
        case _ =>
      }
    }
    QueueStep(s, trap, tf, e);
  }

  lemma IdleLost(callers: set<nat>, q: seq<Parcel>, log: Log, ev: Event, e: nat)
    requires ev.Nothing? && log.serving.Some?
    ensures !ExactlyOnce(callers, q, Record(log, ev, e), true)
  {
  }

  lemma PoppedLost(callers: set<nat>, q: seq<Parcel>, log: Log, idle: bool, idle': bool, ev: Event, e: nat)
    requires ExactlyOnce(callers, q, log, idle) && log.serving.Some?
    requires ev.Popped? && ev.e == e && q != [] && ev.parcel == q[0]
    ensures !ExactlyOnce(CallersAfter(callers, ev, e), QueueAfter(q, ev, e), Record(log, ev, e), idle')
  {
    SendersLess(q);
    assert log.serving.value in callers;
  }

  lemma AnsweredLost(callers: set<nat>, q: seq<Parcel>, log: Log, idle: bool, idle': bool, ev: Event, e: nat)
    requires ExactlyOnce(callers, q, log, idle)
    requires ev.Answered? && ev.e == e && log.serving != Some(ev.client)
    ensures !ExactlyOnce(CallersAfter(callers, ev, e), QueueAfter(q, ev, e), Record(log, ev, e), idle')
  {
    assert log.answered + [ev.client] != log.answered + Served(log.serving) by {
      assert (log.answered + [ev.client])[|log.answered|..] == [ev.client];
      assert (log.answered + Served(log.serving))[|log.answered|..] == Served(log.serving);
    }
  }

  lemma OnceKept(s: State, trap: Trap, tf: Frame, logs: seq<Log>)
    requires Inv(s) && Possible(s, trap) && AllOnce(s, logs) && Disciplined(s, trap, logs)
    ensures AllOnce(After(s, trap, tf), Recorded(s, trap, logs))
  {
    hide Inv, Core, After, QueueAt, Callers, Idling, ExactlyOnce;
    forall e | 0 <= e < MAX_ENDPOINTS
      ensures |s.endpoints| == MAX_ENDPOINTS == |After(s, trap, tf).endpoints|
      ensures ExactlyOnce(Callers(After(s, trap, tf), e), QueueAt(After(s, trap, tf), e), Recorded(s, trap, logs)[e],
                Idling(After(s, trap, tf), e))
    {
      OnceAt(s, trap, tf, logs, e);
    }
    QueueStep(s, trap, tf, 0);
  }

  lemma OnceAt(s: State, trap: Trap, tf: Frame, logs: seq<Log>, e: nat)
    requires Inv(s) && Possible(s, trap) && |s.endpoints| == |logs| == MAX_ENDPOINTS && e < MAX_ENDPOINTS
    requires ExactlyOnce(Callers(s, e), QueueAt(s, e), logs[e], Idling(s, e)) && Disciplined(s, trap, logs)
    ensures |After(s, trap, tf).endpoints| == MAX_ENDPOINTS
    ensures ExactlyOnce(Callers(After(s, trap, tf), e), QueueAt(After(s, trap, tf), e),
              Record(logs[e], EventOf(s, trap), e), Idling(After(s, trap, tf), e))
  {
    hide Inv, Core, After, QueueAt, Callers, Idling, ExactlyOnce, EventOf, Disciplined, Receiving, QueueAfter,
         CallersAfter, Record;
    QueueStep(s, trap, tf, e);
    CallersStep(s, trap, tf, e);
    IdlingStep(s, trap, tf, e);
    SenderAwake(s, trap, e);
    DisciplineSays(s, trap, logs, e);
    OnceStep(Callers(s, e), QueueAt(s, e), logs[e], Idling(s, e), Idling(After(s, trap, tf), e), EventOf(s, trap), e);
  }

  lemma DisciplineSays(s: State, trap: Trap, logs: seq<Log>, e: nat)
    requires Inv(s) && |logs| == MAX_ENDPOINTS && e < MAX_ENDPOINTS && Disciplined(s, trap, logs)
    ensures var ev := EventOf(s, trap);
            && (ev.Popped? && ev.e == e ==> logs[e].serving.None?)
            && (ev.Answered? && ev.e == e ==> logs[e].serving == Some(ev.client))
            && (Receiving(s, trap, e) ==> logs[e].serving.None?)
  {
    hide Inv, Core, Queue, Load, RepliedBuf;
    InvCore(s);
  }

  // ---- Whole runs ----

  ghost function LogsAfter(s: State, run: History, logs: seq<Log>): (r: seq<Log>)
    requires Inv(s) && CanRun(s, run)
    ensures |r| == |logs|
    decreases |run|
  {
    if run == [] then logs
    else
      AfterInv(s, run[0].0, run[0].1);
      LogsAfter(After(s, run[0].0, run[0].1), run[1..], Recorded(s, run[0].0, logs))
  }

  ghost predicate DisciplinedRun(s: State, run: History, logs: seq<Log>)
    requires Inv(s) && CanRun(s, run) && |logs| == MAX_ENDPOINTS
    decreases |run|
  {
    run == [] ||
    (Disciplined(s, run[0].0, logs) &&
     (AfterInv(s, run[0].0, run[0].1); DisciplinedRun(After(s, run[0].0, run[0].1), run[1..],
         Recorded(s, run[0].0, logs))))
  }

  /**
   In every run, whatever the tasks do, each endpoint delivers its calls in order, each with the bytes its sender
   passed.
   */
  lemma {:induction false} AlwaysInOrder(s: State, run: History, logs: seq<Log>)
    requires Inv(s) && CanRun(s, run) && InOrder(s, logs)
    ensures InOrder(AfterRun(s, run), LogsAfter(s, run, logs))
    decreases |run|
  {
    if run != [] {
      hide Inv, InOrder, After, Recorded;
      AfterInv(s, run[0].0, run[0].1);
      InOrderStep(s, run[0].0, run[0].1, logs);
      AlwaysInOrder(After(s, run[0].0, run[0].1), run[1..], Recorded(s, run[0].0, logs));
    }
  }

  /** `AllOnce` holds at the start of the run and after each of its traps. */
  ghost predicate OnceThroughout(s: State, run: History, logs: seq<Log>)
    requires Inv(s) && CanRun(s, run)
    decreases |run|
  {
    AllOnce(s, logs) &&
    (run == [] ||
     (AfterInv(s, run[0].0, run[0].1); OnceThroughout(After(s, run[0].0, run[0].1), run[1..],
         Recorded(s, run[0].0, logs))))
  }

  /**
   In a run each call is answered once and no caller is ever forgotten if and only if the owners keep to their loops
   in it.
   */
  lemma {:induction false} AlwaysOnce(s: State, run: History, logs: seq<Log>)
    requires Inv(s) && CanRun(s, run) && |logs| == MAX_ENDPOINTS && AllOnce(s, logs)
    ensures OnceThroughout(s, run, logs) <==> DisciplinedRun(s, run, logs)
    ensures DisciplinedRun(s, run, logs) ==> AllOnce(AfterRun(s, run), LogsAfter(s, run, logs))
    decreases |run|
  {
    if run != [] {
      hide Inv, AllOnce, After, Recorded, Disciplined;
      AfterInv(s, run[0].0, run[0].1);
      OnceExactly(s, run[0].0, run[0].1, logs);
      if Disciplined(s, run[0].0, logs) {
        AlwaysOnce(After(s, run[0].0, run[0].1), run[1..], Recorded(s, run[0].0, logs));
      } else {
        NotThroughout(After(s, run[0].0, run[0].1), run[1..], Recorded(s, run[0].0, logs));
      }
    }
  }

  lemma NotThroughout(s: State, run: History, logs: seq<Log>)
    requires Inv(s) && CanRun(s, run) && !AllOnce(s, logs)
    ensures !OnceThroughout(s, run, logs)
  {
  }

  /** Histories begin empty where no message is queued and nobody is asleep in a call. */
  lemma HistoriesBegin(s: State)
    requires Inv(s) && forall e :: 0 <= e < MAX_ENDPOINTS ==> QueueAt(s, e) == [] && Callers(s, e) == {}
    ensures var logs := seq(MAX_ENDPOINTS, _ => Log([], [], [], None)); InOrder(s, logs) && AllOnce(s, logs)
  {
    hide Inv, Callers, QueueAt;
    InvCore(s);
    CoreEndpoints(s);
  }

  /**
   Without that discipline a reply can come too early: it reaches a client whose message is still queued, which
   then goes on while the owner has yet to receive the message.
   */
  lemma ReplyToQueued(s: State, e: nat, i: nat, words: Words4)
    requires Inv(s) && e < MAX_ENDPOINTS && s.endpoints[e].Some? && i < |s.endpoints[e].value.pending|
    requires s.current == Some(s.endpoints[e].value.owner)
    requires var c := s.endpoints[e].value.pending[i].sender; c in s.tasks && s.tasks[c].waiting == Some(IpcCall(e))
    ensures var c, r := s.endpoints[e].value.pending[i].sender,
              Replied(s, s.endpoints[e].value.pending[i].sender, words);
            && r.1 && c in r.0.tasks && r.0.tasks[c].status == Ready && |r.0.endpoints| == MAX_ENDPOINTS
            && ShowsAnswer(s.tasks[c].frame, r.0.tasks[c].frame, words, s.tasks[c].frame.a5)
            && r.0.endpoints[e] == s.endpoints[e]
  {
    InvCore(s);
    CoreEndpoints(s);
    TaskAt(s, s.endpoints[e].value.pending[i].sender);
  }

  /**
   A plain `ipc_recv` that takes the buffered message leaves the flag set, though no buffered message is queued any
   more.
   */
  lemma FlagLeftSet(s: State, e: nat, tf: Frame)
    requires Inv(s) && !RecvRefused(s, e) && EndpointOf(s, e).value.pending != []
    requires EndpointOf(s, e).value.pending[0].bufLen > 0
    ensures var ep' := EndpointOf(Received(s, e, tf).0, e).value;
            ep'.hasBuffered && Buffered(ep'.pending) == 0
  {
    InvCore(s);
    RecvReady(s, e);
    BufferedPop(EndpointOf(s, e).value.pending);
  }

  /** The flag of endpoint d, which says that a message with a buffer is queued. */
  ghost predicate Flagged(s: State, d: nat) {
    d < |s.endpoints| && s.endpoints[d].Some? && s.endpoints[d].value.hasBuffered
  }

  /** What a trap makes of the flag: a queued call with a buffer sets it, taking its message with a buffer clears it. */
  ghost predicate FlagAfter(s: State, trap: Trap, d: nat)
    requires Inv(s)
  {
    InvCore(s);
    match trap
    case CallBuf(e, _, _, bufLen) => Flagged(s, d) || (EventOf(s, trap).Enqueued? && e == d && bufLen > 0)
    case RecvBuf(e, _, _) =>
      Flagged(s, d) && !(EventOf(s, trap).Popped? && e == d && EndpointOf(s, e).value.pending[0].bufLen > 0)
    case _ => Flagged(s, d)
  }

  lemma SameFlag(s: State, s': State, d: nat)
    requires s'.endpoints == s.endpoints
    ensures Flagged(s', d) <==> Flagged(s, d)
  {
  }

  lemma SentFlag(s: State, e: nat, words: Words4, tf: Frame, d: nat)
    requires !CallRefused(s, e) && s.current.value in s.tasks
    requires ReceiverWaits(EndpointOf(s, e).value) ==> EndpointOf(s, e).value.owner in s.tasks
    ensures Flagged(Sent(s, e, words, tf), d) <==> Flagged(s, d)
  {
  }

  lemma SentBufFlag(s: State, e: nat, words: Words4, bufLen: nat, tf: Frame, d: nat)
    requires !CallBufRefused(s, e, bufLen) && s.current.value in s.tasks && bufLen <= |EndpointOf(s, e).value.copyBuf|
    requires ReceiverWaits(EndpointOf(s, e).value) ==> EndpointOf(s, e).value.owner in s.tasks
    ensures Flagged(SentBuf(s, e, words, bufLen, tf), d) <==>
              Flagged(s, d) || (!ReceiverWaits(EndpointOf(s, e).value) && e == d && bufLen > 0)
  {
    hide Handed;
  }

  lemma LoadedFlag(s: State, e: nat, userBuf: nat, bufLen: nat, d: nat)
    requires !CallBufRefused(s, e, bufLen) && s.current.value in s.tasks && bufLen <= |EndpointOf(s, e).value.copyBuf|
    ensures Flagged(Loaded(s, e, userBuf, bufLen), d) <==> Flagged(s, d)
  {
    hide Overlaid;
  }

  lemma CalledFlag(s: State, e: nat, words: Words4, tf: Frame, d: nat)
    requires Inv(s)
    ensures Flagged(Called(s, e, words, tf).0, d) <==> Flagged(s, d)
  {
    hide Inv, Core, Scheduled, Sent, Flagged;
    InvCore(s);
    CallReady(s, e);
    if !CallRefused(s, e) {
      SentFlag(s, e, words, tf, d);
      ScheduledEndpoints(Sent(s, e, words, tf), tf);
      SameFlag(Sent(s, e, words, tf), Scheduled(Sent(s, e, words, tf), tf), d);
    }
  }

  lemma CalledBufFlag(s: State, e: nat, words: Words4, userBuf: nat, bufLen: nat, tf: Frame, d: nat)
    requires Inv(s)
    ensures Flagged(CalledBuf(s, e, words, userBuf, bufLen, tf).0, d) <==>
              FlagAfter(s, CallBuf(e, words, userBuf, bufLen), d)
  {
    hide Inv, Core, Scheduled, SentBuf, Loaded, CallBufRefused, Flagged, Load, MappedPrefix;
    InvCore(s);
    CoreEndpoints(s);
    CallReady(s, e);
    CallBufReady(s, e);
    if !CallBufRefused(s, e, bufLen) {
      RefusedEndpoint(s, e, bufLen);
      var s1, mem := Loaded(s, e, userBuf, bufLen), s.tasks[s.current.value].mem;
      LoadedFlag(s, e, userBuf, bufLen, d);
      if MappedPrefix(mem, userBuf, bufLen) == bufLen {
        LoadedKeeps(s, e, userBuf, bufLen);
        LoadedSame(s, e, userBuf, bufLen);
        CallReady(s1, e);
        SentBufFlag(s1, e, words, bufLen, tf, d);
        ScheduledEndpoints(SentBuf(s1, e, words, bufLen, tf), tf);
        SameFlag(SentBuf(s1, e, words, bufLen, tf), Scheduled(SentBuf(s1, e, words, bufLen, tf), tf), d);
      }
    }
  }

  lemma ReceivedFlag(s: State, e: nat, tf: Frame, d: nat)
    requires Inv(s)
    ensures Flagged(Received(s, e, tf).0, d) <==> Flagged(s, d)
  {
    hide Inv, Core, Scheduled;
    InvCore(s);
    if !RecvRefused(s, e) && EndpointOf(s, e).value.pending == [] {
      ScheduledEndpoints(RecvSleeps(s, e, EndpointOf(s, e).value.(waitingReceiver := s.current), tf), tf);
    }
  }

  lemma ReceivedBufFlag(s: State, e: nat, userBuf: nat, cap: nat, tf: Frame, d: nat)
    requires Inv(s)
    ensures Flagged(ReceivedBuf(s, e, userBuf, cap, tf).0, d) <==> FlagAfter(s, RecvBuf(e, userBuf, cap), d)
  {
    hide Inv, Core, Scheduled, TakenBuf;
    InvCore(s);
    RecvReady(s, e);
    if !RecvRefused(s, e) && EndpointOf(s, e).value.pending == [] {
      var ep := EndpointOf(s, e).value.(waitingReceiver := s.current, recvAddr := userBuf, recvCap := cap);
      ScheduledEndpoints(RecvSleeps(s, e, ep, tf), tf);
    }
  }

  /** Every trap leaves the flag of every endpoint as `FlagAfter` says. */
  lemma FlagStep(s: State, trap: Trap, tf: Frame, d: nat)
    requires Inv(s) && Possible(s, trap) && d < MAX_ENDPOINTS
    ensures Flagged(After(s, trap, tf), d) <==> FlagAfter(s, trap, d)
  {
    hide Inv, Core, Called, CalledBuf, Received, ReceivedBuf, Flagged, EventOf;
    InvCore(s);
    match trap
    case Call(e, words) => CalledFlag(s, e, words, tf, d);
    case CallBuf(e, words, userBuf, bufLen) => CalledBufFlag(s, e, words, userBuf, bufLen, tf, d);
    case Recv(e) => ReceivedFlag(s, e, tf, d);
    case RecvBuf(e, userBuf, cap) => ReceivedBufFlag(s, e, userBuf, cap, tf, d);
    case _ =>
      OtherQueue(s, trap, tf, d);
      SameFlag(s, After(s, trap, tf), d);
  }

  /** From then on every call with the buffer variant is refused, unless the owner is waiting when it is made. */
  lemma FlagRefuses(s: State, e: nat, bufLen: nat)
    requires Inv(s) && EndpointOf(s, e).Some? && EndpointOf(s, e).value.hasBuffered
    requires Buffered(EndpointOf(s, e).value.pending) == 0
    ensures !CallBufRefused(s, e, bufLen) <==>
              !CallRefused(s, e) && bufLen <= IPC_BUF_SIZE && ReceiverWaits(EndpointOf(s, e).value)
  {
  }

  /**
   A plain `ipc_call` wakes an owner that waits in `ipc_recv_buf` without saying how much has come, and leaves the
   address it gave: the owner's a5 is what it was, and the endpoint keeps the address for a later call.
   */
  lemma CallLeavesAddress(s: State, e: nat, words: Words4, tf: Frame)
    requires Inv(s) && s.current != Some(IDLE) && !CallRefused(s, e) && ReceiverWaits(EndpointOf(s, e).value)
    ensures var ep, s' := EndpointOf(s, e).value, Called(s, e, words, tf).0;
            && ep.owner in s.tasks && ep.owner in s'.tasks && s'.tasks[ep.owner].waiting.None?
            && ShowsMessage(s.tasks[ep.owner].frame, s'.tasks[ep.owner].frame, s.current.value, words,
                            s.tasks[ep.owner].frame.a5)
            && EndpointOf(s', e).Some? && EndpointOf(s', e).value.recvAddr == ep.recvAddr
  {
    hide Scheduled, Inv, Core, Reapable;
    InvCore(s);
    CallReady(s, e);
    CoreEndpoints(s);
    var ep, s1 := EndpointOf(s, e).value, Sent(s, e, words, tf);
    ScheduledEndpoints(s1, tf);
    SentKeeps(s, e, words, tf);
    SentCurrent(s, e, words, tf);
    OwnerReady(s, e, words, tf);
    ScheduledTask(s1, tf, ep.owner);
  }

  lemma OwnerReady(s: State, e: nat, words: Words4, tf: Frame)
    requires Inv(s) && !CallRefused(s, e) && s.current.value in s.tasks && ReceiverWaits(EndpointOf(s, e).value)
    requires EndpointOf(s, e).value.owner in s.tasks
    ensures var ep, s1 := EndpointOf(s, e).value, Sent(s, e, words, tf);
            ep.owner in s1.tasks && ep.owner !in Reapable(s1) && s1.current != Some(ep.owner)
                && s1.tasks[ep.owner].waiting.None?
            && s1.tasks[ep.owner].frame == SetMessage(s.tasks[ep.owner].frame, s.current.value, words)
  {
    hide Inv, Core;
  }
}
