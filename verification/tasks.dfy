/**
 The kernel's tasks and endpoints as values (src/kernel/task.rs, src/kernel/ipc.rs): what the task manager holds,
 what it must satisfy between traps, and scheduling. Module Ipc says what the system calls do to it; module Kernel
 is the manager itself.
 */
module Tasks {
  import opened Wrappers
  import opened Words

  const MAX_TASKS: nat := 16
  const MAX_ENDPOINTS: nat := 8
  const MSG_QUEUE_SIZE: nat := 8
  const IPC_BUF_SIZE: nat := 4096
  const IDLE: nat := 0

  datatype Status = Ready | Running | Sleeping | Zombie
  datatype Channel = Child(pid: nat) | UartRx | IpcCall(endpoint: nat) | IpcRecv(endpoint: nat)

  /** The registers of a trap frame that system calls read or write; `rest` stands for all others. */
  datatype Frame = Frame(a0: nat, a1: nat, a2: nat, a3: nat, a4: nat, a5: nat, a6: nat, sp: nat, sepc: nat, rest: nat)

  type Mem = map<nat, byte>      // user memory: the mapped virtual addresses and what they hold

  datatype Task = Task(pid: nat, status: Status, frame: Frame, mem: Mem, exitCode: int,
                       parent: Option<nat>, waiting: Option<Channel>)

  datatype Words4 = Words4(w0: nat, w1: nat, w2: nat, w3: nat)
  datatype Message = Message(sender: nat, words: Words4, bufLen: nat)

  datatype Endpoint = Endpoint(owner: nat, waitingReceiver: Option<nat>, pending: seq<Message>,
                               copyBuf: seq<byte>, copyLen: nat, recvAddr: nat, recvCap: nat, hasBuffered: bool)

  /** `order` says which task is in each slot of the task table, and `slot` where each task is. */
  datatype State = State(tasks: map<nat, Task>, order: seq<Option<nat>>, slot: map<nat, nat>,
                         endpoints: seq<Option<Endpoint>>, current: Option<nat>, nextPid: nat, runnable: nat,
                         uartOwner: Option<nat>)

  // ---- Registers, one by one ----

  /** A result in a0; every other register is as it was. */
  predicate Returns(was: Frame, now: Frame, a0: nat) {
    && now.a0 == a0
    && now.a1 == was.a1 && now.a2 == was.a2 && now.a3 == was.a3 && now.a4 == was.a4 && now.a5 == was.a5
    && now.a6 == was.a6 && now.sp == was.sp && now.sepc == was.sepc && now.rest == was.rest
  }

  /** The sender in a0, the words in a1 to a4, a length in a5; every other register is as it was. */
  predicate ShowsMessage(was: Frame, now: Frame, sender: nat, words: Words4, a5: nat) {
    && now.a0 == sender && now.a1 == words.w0 && now.a2 == words.w1 && now.a3 == words.w2 && now.a4 == words.w3
    && now.a5 == a5
    && now.a6 == was.a6 && now.sp == was.sp && now.sepc == was.sepc && now.rest == was.rest
  }

  /** The words in a0 to a3, a length in a5; every other register is as it was. */
  predicate ShowsAnswer(was: Frame, now: Frame, words: Words4, a5: nat) {
    && now.a0 == words.w0 && now.a1 == words.w1 && now.a2 == words.w2 && now.a3 == words.w3 && now.a5 == a5
    && now.a4 == was.a4 && now.a6 == was.a6 && now.sp == was.sp && now.sepc == was.sepc && now.rest == was.rest
  }

  // ---- Invariants ----

  ghost predicate OrderOk(s: State) {
    && |s.order| == MAX_TASKS && s.slot.Keys == s.tasks.Keys
    && (forall p {:trigger s.slot[p]} :: p in s.slot ==> s.slot[p] < MAX_TASKS && s.order[s.slot[p]] == Some(p))
    && (forall i {:trigger s.order[i]} :: 0 <= i < MAX_TASKS && s.order[i].Some? ==>
          s.order[i].value in s.tasks && s.slot[s.order[i].value] == i)
  }

  /** The tasks that count as runnable: all but idle, ready or running. */
  ghost function Active(tasks: map<nat, Task>): set<nat> {
    set p | p in tasks && p != IDLE && (tasks[p].status == Ready || tasks[p].status == Running)
  }

  ghost predicate Alive(s: State, p: nat) {
    p in s.tasks && s.tasks[p].status != Zombie
  }

  /**
   What task p waits for is there: a child of its own that has not exited, its serial port, an endpoint of another
   owner, an endpoint of its own that has noted that it waits. An owner may have exited; see module Wakeups.
   */
  ghost predicate WaitOk(s: State, p: nat, c: Channel) {
    match c
    case Child(pid) => Alive(s, pid) && s.tasks[pid].parent == Some(p)
    case UartRx => s.uartOwner == Some(p)
    case IpcCall(e) => e < |s.endpoints| && s.endpoints[e].Some? && s.endpoints[e].value.owner != p
    case IpcRecv(e) => e < |s.endpoints| && s.endpoints[e].Some? && s.endpoints[e].value.owner == p
                       && s.endpoints[e].value.waitingReceiver == Some(p)
  }

  ghost predicate TaskOk(s: State, p: nat)
    requires p in s.tasks
  {
    var t := s.tasks[p];
    && t.pid == p && p < s.nextPid && -0x8000_0000 <= t.exitCode < 0x8000_0000
    && (t.status == Running ==> s.current == Some(p))
    && (t.status == Sleeping <==> t.waiting.Some?)
    && (p == IDLE ==> (t.status == Ready || t.status == Running) && t.parent == None)
    && (t.parent.Some? ==> t.parent.value != p && Alive(s, t.parent.value))
    && (t.waiting.Some? ==> WaitOk(s, p, t.waiting.value))
  }

  /** The messages in the queue that carry a buffer. */
  function Buffered(q: seq<Message>): nat {
    if q == [] then 0 else Buffered(q[..|q| - 1]) + if q[|q| - 1].bufLen > 0 then 1 else 0
  }

  ghost predicate EndpointOk(s: State, ep: Endpoint, e: nat) {
    && |ep.pending| <= MSG_QUEUE_SIZE && |ep.copyBuf| == IPC_BUF_SIZE && ep.owner < s.nextPid
    && (forall i {:trigger ep.pending[i]} :: 0 <= i < |ep.pending| ==> ep.pending[i].bufLen <= IPC_BUF_SIZE)
    && Buffered(ep.pending) <= 1 && (Buffered(ep.pending) == 1 ==> ep.hasBuffered)
    && (ep.waitingReceiver.Some? ==>
         && ep.waitingReceiver.value == ep.owner && ep.pending == []
         && ep.owner in s.tasks && s.tasks[ep.owner].waiting == Some(IpcRecv(e)))
  }

  ghost predicate SlotEndpointOk(s: State, e: nat)
    requires e < |s.endpoints|
  {
    s.endpoints[e].Some? ==> EndpointOk(s, s.endpoints[e].value, e)
  }

  /** What holds of the manager's state at every point inside a trap where it is consistent. */
  ghost predicate Core(s: State) {
    && OrderOk(s) && |s.endpoints| == MAX_ENDPOINTS && IDLE in s.tasks
    && (forall p {:trigger TaskOk(s, p)} :: p in s.tasks ==> TaskOk(s, p))
    && (forall e {:trigger SlotEndpointOk(s, e)} :: 0 <= e < MAX_ENDPOINTS ==> SlotEndpointOk(s, e))
    && s.runnable == |Active(s.tasks)|
  }

  /** What holds whenever the processor goes back to a task: that task is the running one, and idle runs only alone. */
  ghost predicate Inv(s: State) {
    && Core(s) && s.current.Some? && s.current.value in s.tasks && s.tasks[s.current.value].status == Running
    && (s.current == Some(IDLE) <==> s.runnable == 0)
  }

  ghost predicate NoneRunning(s: State) {
    forall p {:trigger s.tasks[p]} :: p in s.tasks ==> s.tasks[p].status != Running
  }

  /** Exactly one task is running: the current one. */
  lemma OneRunning(s: State, p: nat)
    requires Inv(s) && p in s.tasks
    ensures s.tasks[p].status == Running <==> s.current == Some(p)
  {
    assert TaskOk(s, p);
  }

  // ---- Primitive changes ----

  function Dec(n: nat): nat {
    if n == 0 then 0 else n - 1     // saturating_sub(1)
  }

  /** Task p goes to sleep on a channel, with its registers saved. */
  function Sleep(s: State, p: nat, c: Channel, tf: Frame): State
    requires p in s.tasks
  {
    s.(tasks := s.tasks[p := s.tasks[p].(status := Sleeping, waiting := Some(c), frame := tf)],
        runnable := Dec(s.runnable))
  }

  /** Task p is woken with new registers and memory. */
  function Wake(s: State, p: nat, frame: Frame, mem: Mem): State
    requires p in s.tasks
  {
    s.(tasks := s.tasks[p := s.tasks[p].(status := Ready, waiting := None, frame := frame, mem := mem)],
        runnable := s.runnable + 1)
  }

  function WithEndpoint(s: State, e: nat, ep: Endpoint): State
    requires e < |s.endpoints|
  {
    s.(endpoints := s.endpoints[e := Some(ep)])
  }

  /** Task p gets new registers and memory and is otherwise left alone. */
  function WithFrame(s: State, p: nat, frame: Frame, mem: Mem): State
    requires p in s.tasks
  {
    s.(tasks := s.tasks[p := s.tasks[p].(frame := frame, mem := mem)])
  }

  lemma IdleThere(s: State)
    requires Inv(s)
    ensures IDLE in s.tasks
  {
  }

  lemma TaskAt(s: State, p: nat)
    requires Core(s) && p in s.tasks
    ensures TaskOk(s, p)
  {
  }

  lemma EndpointAt(s: State, e: nat)
    requires Core(s) && e < MAX_ENDPOINTS
    ensures |s.endpoints| == MAX_ENDPOINTS && SlotEndpointOk(s, e)
  {
  }

  lemma FrameTask(s: State, p: nat, frame: Frame, mem: Mem, q: nat)
    requires p in s.tasks && q in s.tasks && TaskOk(s, q)
    ensures TaskOk(WithFrame(s, p, frame, mem), q)
  {
  }

  lemma FrameEndpoint(s: State, p: nat, frame: Frame, mem: Mem, e: nat)
    requires p in s.tasks && e < |s.endpoints| && SlotEndpointOk(s, e)
    ensures SlotEndpointOk(WithFrame(s, p, frame, mem), e)
  {
  }

  lemma FrameKeeps(s: State, p: nat, frame: Frame, mem: Mem)
    requires Core(s) && p in s.tasks
    ensures Core(WithFrame(s, p, frame, mem))
    ensures Inv(s) ==> Inv(WithFrame(s, p, frame, mem))
  {
    hide TaskOk, SlotEndpointOk;
    var s' := WithFrame(s, p, frame, mem);
    assert Active(s'.tasks) == Active(s.tasks);
    forall q | q in s'.tasks
      ensures TaskOk(s', q)
    {
      FrameTask(s, p, frame, mem, q);
    }
    forall e | 0 <= e < MAX_ENDPOINTS
      ensures SlotEndpointOk(s', e)
    {
      FrameEndpoint(s, p, frame, mem, e);
    }
  }

  /** A running task goes to sleep on something that is still to come. */
  lemma SleepKeeps(s: State, p: nat, c: Channel, tf: Frame)
    requires Core(s) && p in s.tasks && s.tasks[p].status == Running && p != IDLE
    requires WaitOk(s, p, c)
    ensures Core(Sleep(s, p, c, tf)) && NoneRunning(Sleep(s, p, c, tf)) && s.runnable > 0
  {
    hide TaskOk, SlotEndpointOk;
    var s' := Sleep(s, p, c, tf);
    SleepActive(s, p, c, tf);
    forall q | q in s'.tasks
      ensures TaskOk(s', q) && s'.tasks[q].status != Running
    {
      TaskAt(s, p);
      TaskAt(s, q);
      SleepTask(s, p, c, tf, q);
    }
    forall e | 0 <= e < MAX_ENDPOINTS
      ensures SlotEndpointOk(s', e)
    {
      TaskAt(s, p);
      SleepEndpoint(s, p, c, tf, e);
    }
  }

  lemma SleepActive(s: State, p: nat, c: Channel, tf: Frame)
    requires p in s.tasks && s.tasks[p].status == Running && p != IDLE
    ensures |Active(s.tasks)| == |Active(Sleep(s, p, c, tf).tasks)| + 1
  {
    assert Active(s.tasks) == Active(Sleep(s, p, c, tf).tasks) + {p};
  }

  lemma SleepTask(s: State, p: nat, c: Channel, tf: Frame, q: nat)
    requires p in s.tasks && s.tasks[p].status == Running && p != IDLE && q in s.tasks
    requires TaskOk(s, p) && TaskOk(s, q) && WaitOk(s, p, c)
    ensures TaskOk(Sleep(s, p, c, tf), q) && Sleep(s, p, c, tf).tasks[q].status != Running
  {
  }

  lemma SleepEndpoint(s: State, p: nat, c: Channel, tf: Frame, e: nat)
    requires p in s.tasks && s.tasks[p].status == Running && e < |s.endpoints|
    requires TaskOk(s, p) && SlotEndpointOk(s, e)
    ensures SlotEndpointOk(Sleep(s, p, c, tf), e)
  {
  }

  /** The owner of an endpoint with an empty queue goes to sleep on it, and the endpoint notes that it waits. */
  lemma SleepReceiverKeeps(s: State, p: nat, e: nat, ep: Endpoint, tf: Frame)
    requires Core(s) && p in s.tasks && s.tasks[p].status == Running && p != IDLE && e < MAX_ENDPOINTS
    requires s.endpoints[e].Some? && s.endpoints[e].value.owner == p && ep.owner == p && ep.waitingReceiver == Some(p)
    requires ep.pending == [] && |ep.copyBuf| == IPC_BUF_SIZE
    ensures var s' := WithEndpoint(Sleep(s, p, IpcRecv(e), tf), e, ep);
            Core(s') && NoneRunning(s') && s.runnable > 0
  {
    hide TaskOk, SlotEndpointOk;
    var s' := WithEndpoint(Sleep(s, p, IpcRecv(e), tf), e, ep);
    SleepActive(s, p, IpcRecv(e), tf);
    forall q | q in s'.tasks
      ensures TaskOk(s', q) && s'.tasks[q].status != Running
    {
      TaskAt(s, p);
      TaskAt(s, q);
      SleepReceiverTask(s, p, e, ep, tf, q);
    }
    forall d | 0 <= d < MAX_ENDPOINTS
      ensures SlotEndpointOk(s', d)
    {
      TaskAt(s, p);
      EndpointAt(s, d);
      SleepReceiverEndpoint(s, p, e, ep, tf, d);
    }
  }

  lemma SleepReceiverTask(s: State, p: nat, e: nat, ep: Endpoint, tf: Frame, q: nat)
    requires p in s.tasks && s.tasks[p].status == Running && p != IDLE && q in s.tasks && e < |s.endpoints|
    requires TaskOk(s, p) && TaskOk(s, q)
    requires s.endpoints[e].Some? && s.endpoints[e].value.owner == p && ep.owner == p && ep.waitingReceiver == Some(p)
    ensures var s' := WithEndpoint(Sleep(s, p, IpcRecv(e), tf), e, ep);
            TaskOk(s', q) && s'.tasks[q].status != Running
  {
  }

  lemma SleepReceiverEndpoint(s: State, p: nat, e: nat, ep: Endpoint, tf: Frame, d: nat)
    requires p in s.tasks && s.tasks[p].status == Running && e < |s.endpoints| && d < |s.endpoints|
    requires TaskOk(s, p) && SlotEndpointOk(s, d) && ep.owner == p && ep.waitingReceiver == Some(p)
    requires ep.pending == [] && |ep.copyBuf| == IPC_BUF_SIZE
    ensures SlotEndpointOk(WithEndpoint(Sleep(s, p, IpcRecv(e), tf), e, ep), d)
  {
  }

  lemma WakeActive(s: State, p: nat, frame: Frame, mem: Mem)
    requires p in s.tasks && s.tasks[p].status == Sleeping && p != IDLE
    ensures |Active(Wake(s, p, frame, mem).tasks)| == |Active(s.tasks)| + 1
  {
    assert Active(Wake(s, p, frame, mem).tasks) == Active(s.tasks) + {p};
  }

  /** A task asleep on anything but its own endpoint is woken. */
  lemma WakeKeeps(s: State, p: nat, frame: Frame, mem: Mem)
    requires Core(s) && p in s.tasks && s.tasks[p].status == Sleeping
    requires s.tasks[p].waiting.Some? && !s.tasks[p].waiting.value.IpcRecv?
    ensures Core(Wake(s, p, frame, mem)) && p != IDLE
    ensures NoneRunning(s) ==> NoneRunning(Wake(s, p, frame, mem))
    ensures Inv(s) && s.current != Some(IDLE) ==> Inv(Wake(s, p, frame, mem))
  {
    hide TaskOk, SlotEndpointOk;
    assert p != IDLE by { TaskAt(s, p); IdleAwake(s, p); }
    var s' := Wake(s, p, frame, mem);
    WakeActive(s, p, frame, mem);
    forall q | q in s'.tasks
      ensures TaskOk(s', q)
    {
      TaskAt(s, p);
      TaskAt(s, q);
      WakeTask(s, p, frame, mem, q);
    }
    forall e | 0 <= e < MAX_ENDPOINTS
      ensures SlotEndpointOk(s', e)
    {
      EndpointAt(s, e);
      WakeEndpoint(s, p, frame, mem, e);
    }
  }

  lemma IdleAwake(s: State, p: nat)
    requires p in s.tasks && TaskOk(s, p) && s.tasks[p].status == Sleeping
    ensures p != IDLE
  {
  }

  lemma WakeTask(s: State, p: nat, frame: Frame, mem: Mem, q: nat)
    requires p in s.tasks && s.tasks[p].status == Sleeping && q in s.tasks
    requires TaskOk(s, p) && TaskOk(s, q)
    ensures TaskOk(Wake(s, p, frame, mem), q)
  {
  }

  lemma WakeEndpoint(s: State, p: nat, frame: Frame, mem: Mem, e: nat)
    requires p in s.tasks && e < |s.endpoints| && SlotEndpointOk(s, e)
    requires s.tasks[p].waiting.Some? && !s.tasks[p].waiting.value.IpcRecv?
    ensures SlotEndpointOk(Wake(s, p, frame, mem), e)
  {
  }

  /** A change to an endpoint that leaves its owner and its waiting receiver alone. */
  lemma EndpointKeeps(s: State, e: nat, ep: Endpoint)
    requires Core(s) && e < MAX_ENDPOINTS && s.endpoints[e].Some?
    requires ep.owner == s.endpoints[e].value.owner && ep.waitingReceiver == s.endpoints[e].value.waitingReceiver
    requires EndpointOk(s, ep, e)
    ensures Core(WithEndpoint(s, e, ep)) && (NoneRunning(s) ==> NoneRunning(WithEndpoint(s, e, ep)))
    ensures Inv(s) ==> Inv(WithEndpoint(s, e, ep))
  {
    hide TaskOk, SlotEndpointOk, EndpointOk;
    var s' := WithEndpoint(s, e, ep);
    forall q | q in s'.tasks
      ensures TaskOk(s', q)
    {
      TaskAt(s, q);
      EndpointTask(s, e, ep, q);
    }
    forall d | 0 <= d < MAX_ENDPOINTS
      ensures SlotEndpointOk(s', d)
    {
      EndpointAt(s, d);
      EndpointOther(s, e, ep, d);
    }
  }

  lemma EndpointTask(s: State, e: nat, ep: Endpoint, q: nat)
    requires q in s.tasks && TaskOk(s, q) && e < |s.endpoints| && s.endpoints[e].Some?
    requires ep.owner == s.endpoints[e].value.owner && ep.waitingReceiver == s.endpoints[e].value.waitingReceiver
    ensures TaskOk(WithEndpoint(s, e, ep), q)
  {
  }

  lemma EndpointOther(s: State, e: nat, ep: Endpoint, d: nat)
    requires e < |s.endpoints| && d < |s.endpoints| && SlotEndpointOk(s, d) && EndpointOk(s, ep, e)
    ensures SlotEndpointOk(WithEndpoint(s, e, ep), d)
  {
  }

  /** The receiver that an endpoint has waiting is there, asleep on it: looking it up cannot fail. */
  lemma ReceiverThere(s: State, e: nat)
    requires Core(s) && e < MAX_ENDPOINTS && s.endpoints[e].Some? && s.endpoints[e].value.waitingReceiver.Some?
    ensures var owner := s.endpoints[e].value.owner;
            && s.endpoints[e].value.waitingReceiver == Some(owner) && s.endpoints[e].value.pending == []
            && owner in s.tasks && owner != IDLE && s.tasks[owner].status == Sleeping
                && s.tasks[owner].waiting == Some(IpcRecv(e))
  {
    EndpointAt(s, e);
    TaskAt(s, s.endpoints[e].value.owner);
  }

  /** An endpoint has a receiver waiting exactly when its owner sleeps in a reception of it. */
  lemma ReceiverIff(s: State, e: nat)
    requires Core(s) && e < MAX_ENDPOINTS && s.endpoints[e].Some?
    ensures var ep := s.endpoints[e].value;
            ep.waitingReceiver.Some? <==> ep.owner in s.tasks && s.tasks[ep.owner].waiting == Some(IpcRecv(e))
  {
    EndpointAt(s, e);
    if s.endpoints[e].value.owner in s.tasks { TaskAt(s, s.endpoints[e].value.owner); }
  }

  /**
   A task sleeps exactly when it waits for something; a child that it waits for is there, is its own, and has not
   exited.
   */
  lemma SleeperWaits(s: State, p: nat)
    requires Core(s) && p in s.tasks
    ensures s.tasks[p].status == Sleeping <==> s.tasks[p].waiting.Some?
    ensures forall c :: s.tasks[p].waiting == Some(Child(c)) ==> Alive(s, c) && s.tasks[c].parent == Some(p)
    ensures s.tasks[p].parent.Some? ==> Alive(s, s.tasks[p].parent.value)
  {
    TaskAt(s, p);
  }

  /** The waiting receiver is woken and the endpoint forgets it. */
  lemma WakeReceiverKeeps(s: State, e: nat, ep: Endpoint, frame: Frame, mem: Mem)
    requires Core(s) && e < MAX_ENDPOINTS && s.endpoints[e].Some? && s.endpoints[e].value.waitingReceiver.Some?
    requires s.endpoints[e].value.owner in s.tasks
    requires ep.owner == s.endpoints[e].value.owner && ep.waitingReceiver.None? && ep.pending == []
    requires |ep.copyBuf| == IPC_BUF_SIZE
    ensures var s' := WithEndpoint(Wake(s, ep.owner, frame, mem), e, ep);
            Core(s') && (NoneRunning(s) ==> NoneRunning(s'))
  {
    hide TaskOk, SlotEndpointOk;
    ReceiverThere(s, e);
    var s' := WithEndpoint(Wake(s, ep.owner, frame, mem), e, ep);
    WakeActive(s, ep.owner, frame, mem);
    forall q | q in s'.tasks
      ensures TaskOk(s', q)
    {
      TaskAt(s, ep.owner);
      TaskAt(s, q);
      WakeReceiverTask(s, e, ep, frame, mem, q);
    }
    forall d | 0 <= d < MAX_ENDPOINTS
      ensures SlotEndpointOk(s', d)
    {
      TaskAt(s, ep.owner);
      EndpointAt(s, d);
      WakeReceiverEndpoint(s, e, ep, frame, mem, d);
    }
  }

  lemma WakeReceiverTask(s: State, e: nat, ep: Endpoint, frame: Frame, mem: Mem, q: nat)
    requires e < |s.endpoints| && s.endpoints[e].Some? && ep.owner == s.endpoints[e].value.owner && ep.owner in s.tasks
    requires q in s.tasks
    requires s.tasks[ep.owner].waiting == Some(IpcRecv(e)) && TaskOk(s, ep.owner) && TaskOk(s, q)
    ensures TaskOk(WithEndpoint(Wake(s, ep.owner, frame, mem), e, ep), q)
  {
  }

  lemma WakeReceiverEndpoint(s: State, e: nat, ep: Endpoint, frame: Frame, mem: Mem, d: nat)
    requires e < |s.endpoints| && d < |s.endpoints| && ep.owner in s.tasks
    requires s.tasks[ep.owner].waiting == Some(IpcRecv(e)) && TaskOk(s, ep.owner)
    requires SlotEndpointOk(s, d) && ep.waitingReceiver.None? && ep.pending == [] && |ep.copyBuf| == IPC_BUF_SIZE
    ensures SlotEndpointOk(WithEndpoint(Wake(s, ep.owner, frame, mem), e, ep), d)
  {
  }

  // ---- Tasks that go ----

  /** The tasks of a set are taken out of the table. */
  function Drop(s: State, gone: set<nat>): State {
    s.(tasks := s.tasks - gone, slot := s.slot - gone,
       order := seq(|s.order|, i requires 0 <= i < |s.order| => if s.order[i].Some?
           && s.order[i].value in gone then None else s.order[i]))
  }

  lemma DropKeeps(s: State, gone: set<nat>)
    requires Core(s) && forall p :: p in gone && p in s.tasks ==> s.tasks[p].status == Zombie
    ensures Core(Drop(s, gone)) && (NoneRunning(s) ==> NoneRunning(Drop(s, gone)))
    ensures Inv(s) ==> Inv(Drop(s, gone))
  {
    hide TaskOk, SlotEndpointOk, OrderOk, Drop, Active;
    var s' := Drop(s, gone);
    DropParts(s, gone);
    forall q | q in s'.tasks
      ensures TaskOk(s', q)
    {
      TaskAt(s, q);
      DropTask(s, gone, q);
    }
    forall e | 0 <= e < MAX_ENDPOINTS
      ensures SlotEndpointOk(s', e)
    {
      EndpointAt(s, e);
      DropEndpoint(s, gone, e);
    }
    TaskAt(s, IDLE);
    IdleNoZombie(s);
  }

  lemma DropParts(s: State, gone: set<nat>)
    requires OrderOk(s) && forall p :: p in gone && p in s.tasks ==> s.tasks[p].status == Zombie
    ensures var s' := Drop(s, gone);
            && OrderOk(s') && Active(s'.tasks) == Active(s.tasks) && s'.tasks == s.tasks - gone
            && s'.endpoints == s.endpoints && s'.current == s.current && s'.runnable == s.runnable
  {
    hide TaskOk;
  }

  lemma IdleNoZombie(s: State)
    requires IDLE in s.tasks && TaskOk(s, IDLE)
    ensures s.tasks[IDLE].status == Ready || s.tasks[IDLE].status == Running
  {
  }

  lemma DropTask(s: State, gone: set<nat>, q: nat)
    requires q in s.tasks && q !in gone && TaskOk(s, q)
    requires forall p :: p in gone && p in s.tasks ==> s.tasks[p].status == Zombie
    ensures TaskOk(Drop(s, gone), q)
  {
  }

  lemma DropEndpoint(s: State, gone: set<nat>, e: nat)
    requires Core(s) && e < |s.endpoints| && SlotEndpointOk(s, e)
    requires forall p :: p in gone && p in s.tasks ==> s.tasks[p].status == Zombie
    ensures SlotEndpointOk(Drop(s, gone), e)
  {
    if s.endpoints[e].Some? && s.endpoints[e].value.waitingReceiver.Some? {
      TaskAt(s, s.endpoints[e].value.owner);
    }
  }
}
