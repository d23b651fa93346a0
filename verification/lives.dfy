/**
 What becomes of tasks over whole runs (src/kernel/task.rs): pids are not used twice, a task that has gone does not
 come back, a zombie stays one, and each exit code is delivered at most once.
 */
module Lives {
  import opened Wrappers
  import opened Words
  import opened Tasks
  import opened Sched
  import opened Ipc
  import opened Traps
  import opened Histories

  /** What time does to a task: it can lose its parent, and a zombie stays a zombie with its exit code. */
  predicate Ages(t: Task, t': Task) {
    && (t'.parent == t.parent || t'.parent.None?)
    && (t.status == Zombie ==> t'.status == Zombie && t'.exitCode == t.exitCode)
  }

  ghost predicate SameOwner(s: State, s': State, e: nat)
    requires e < |s.endpoints| && e < |s'.endpoints|
  {
    s.endpoints[e].Some? ==> s'.endpoints[e].Some? && s'.endpoints[e].value.owner == s.endpoints[e].value.owner
  }

  /** State s' comes after s: new tasks have new pids, the others have aged, endpoints keep their owners. */
  ghost predicate Follows(s: State, s': State) {
    && s.nextPid <= s'.nextPid && |s.endpoints| == |s'.endpoints|
    && (forall p {:trigger p in s'.tasks} :: p in s'.tasks ==>
          (p in s.tasks && Ages(s.tasks[p], s'.tasks[p])) || s.nextPid <= p)
    && (forall e {:trigger SameOwner(s, s', e)} :: 0 <= e < |s.endpoints| ==> SameOwner(s, s', e))
  }

  /** Nobody but `gone` has exited from s to s'. */
  ghost predicate Lasts(s: State, s': State, gone: Option<nat>) {
    forall p: nat {:trigger Alive(s', p)} :: Alive(s, p) && gone != Some(p) ==> Alive(s', p)
  }

  ghost predicate Goes(s: State, s': State) {
    Follows(s, s') && Lasts(s, s', None)
  }

  lemma GoesOn(s: State, s1: State, s2: State)
    requires Goes(s, s1) && Goes(s1, s2)
    ensures Goes(s, s2)
  {
    forall e | 0 <= e < |s.endpoints|
      ensures SameOwner(s, s2, e)
    {
      assert SameOwner(s, s1, e) && SameOwner(s1, s2, e);
    }
    forall p | Alive(s, p)
      ensures Alive(s2, p)
    {
      assert Alive(s1, p);
    }
  }

  lemma FollowsOn(s: State, s1: State, s2: State)
    requires Follows(s, s1) && Follows(s1, s2)
    ensures Follows(s, s2)
  {
    forall e | 0 <= e < |s.endpoints|
      ensures SameOwner(s, s2, e)
    {
      assert SameOwner(s, s1, e) && SameOwner(s1, s2, e);
    }
  }

  // ---- Every trap goes on from the state before it ----

  lemma ScheduledGoes(s: State, s1: State, tf: Frame)
    requires Goes(s, s1) && Core(s1) && s1.current.Some? && s1.current.value in s1.tasks
    ensures Goes(s, Scheduled(s1, tf))
  {
    hide Core, Scheduled, Reapable, Goes;
    var s2 := Scheduled(s1, tf);
    forall p | p in s2.tasks
      ensures p in s1.tasks && Ages(s1.tasks[p], s2.tasks[p])
    {
      ScheduledReaps(s1, tf, p);
      ScheduledTask(s1, tf, p);
      ScheduledStatus(s1, tf, p);
    }
    forall p | Alive(s1, p)
      ensures Alive(s2, p)
    {
      AliveStays(s1, p);
      ScheduledTask(s1, tf, p);
      ScheduledStatus(s1, tf, p);
    }
    ScheduledEndpoints(s1, tf);
    ScheduledPid(s1, tf);
    SameEndpoints(s1, s2);
    assert Goes(s1, s2) by { GoesParts(s1, s2); }
    GoesOn(s, s1, s2);
  }

  lemma GoesParts(s: State, s': State)
    requires Follows(s, s') && Lasts(s, s', None)
    ensures Goes(s, s')
  {
  }

  lemma AliveStays(s: State, p: nat)
    requires Alive(s, p)
    ensures p in s.tasks && p !in Reapable(s)
  {
  }

  lemma SameEndpoints(s: State, s': State)
    requires s'.endpoints == s.endpoints
    ensures forall e {:trigger SameOwner(s, s', e)} :: 0 <= e < |s.endpoints| ==> SameOwner(s, s', e)
  {
  }

  lemma ScheduledPid(s: State, tf: Frame)
    ensures Scheduled(s, tf).nextPid == s.nextPid
  {
    hide Pick;
  }

  /** Scheduling wakes nobody, puts nobody to sleep and ends nobody. */
  lemma ScheduledStatus(s: State, tf: Frame, p: nat)
    requires Core(s) && s.current.Some? && s.current.value in s.tasks && p in s.tasks && p !in Reapable(s)
    ensures p in Scheduled(s, tf).tasks
    ensures var now := Scheduled(s, tf).tasks[p].status;
            && (s.tasks[p].status == Zombie <==> now == Zombie)
            && (s.tasks[p].status == Sleeping <==> now == Sleeping)
  {
    hide Core, RunNext, Reap, Reapable, Pick;
    ReapKeeps(s);
    SaveKeeps(Reap(s), tf);
    var s1, start := Save(Reap(s), tf), StartSlot(Reap(s));
    RunNextOnly(s1, start, p);
    IdleReady(s1);
    RunNextReady(s1, start, p);
  }

  lemma RunNextReady(s: State, start: nat, p: nat)
    requires p in s.tasks && IDLE in s.tasks && s.tasks[IDLE].status == Ready
    ensures p in RunNext(s, start).tasks
    ensures RunNext(s, start).tasks[p].status == s.tasks[p].status
            || (s.tasks[p].status == Ready && RunNext(s, start).tasks[p].status == Running)
  {
  }

  lemma SleepGoes(s: State, p: nat, c: Channel, tf: Frame)
    requires p in s.tasks && s.tasks[p].status != Zombie
    ensures Goes(s, Sleep(s, p, c, tf))
  {
  }

  lemma FrameGoes(s: State, p: nat, frame: Frame, mem: Mem)
    requires p in s.tasks
    ensures Goes(s, WithFrame(s, p, frame, mem))
  {
  }

  lemma WakeGoes(s: State, p: nat, frame: Frame, mem: Mem)
    requires p in s.tasks && s.tasks[p].status != Zombie
    ensures Goes(s, Wake(s, p, frame, mem))
  {
  }

  lemma EndpointGoes(s: State, e: nat, ep: Endpoint)
    requires e < |s.endpoints| && s.endpoints[e].Some? && s.endpoints[e].value.owner == ep.owner
    ensures Goes(s, WithEndpoint(s, e, ep))
  {
  }

  lemma SameGoes(s: State)
    ensures Goes(s, s)
  {
  }

  lemma SentGoes(s: State, e: nat, words: Words4, tf: Frame)
    requires Inv(s) && !CallRefused(s, e) && s.current.value in s.tasks
    requires ReceiverWaits(EndpointOf(s, e).value) ==> EndpointOf(s, e).value.owner in s.tasks
    ensures Goes(s, Sent(s, e, words, tf))
  {
    hide Inv, Core, Goes;
    InvCore(s);
    CoreEndpoints(s);
    var ep, p := EndpointOf(s, e).value, s.current.value;
    SleepGoes(s, p, IpcCall(e), tf);
    var s1 := Sleep(s, p, IpcCall(e), tf);
    if ReceiverWaits(ep) {
      ReceiverThere(s, e);
      var r := s1.tasks[ep.owner];
      var s2 := Wake(s1, ep.owner, SetMessage(r.frame, p, words), r.mem);
      WakeGoes(s1, ep.owner, SetMessage(r.frame, p, words), r.mem);
      GoesOn(s, s1, s2);
      EndpointGoes(s2, e, ep.(waitingReceiver := None));
      GoesOn(s, s2, Sent(s, e, words, tf));
    } else {
      EndpointGoes(s1, e, ep.(pending := ep.pending + [Message(p, words, 0)]));
      GoesOn(s, s1, Sent(s, e, words, tf));
    }
  }

  lemma SentBufGoes(s: State, e: nat, words: Words4, bufLen: nat, tf: Frame)
    requires Inv(s) && !CallBufRefused(s, e, bufLen) && s.current.value in s.tasks
    requires bufLen <= |EndpointOf(s, e).value.copyBuf|
    requires ReceiverWaits(EndpointOf(s, e).value) ==> EndpointOf(s, e).value.owner in s.tasks
    ensures Goes(s, SentBuf(s, e, words, bufLen, tf))
  {
    hide Inv, Core, Goes, Handed;
    InvCore(s);
    CoreEndpoints(s);
    var ep, p := EndpointOf(s, e).value, s.current.value;
    SleepGoes(s, p, IpcCall(e), tf);
    var s1 := Sleep(s, p, IpcCall(e), tf);
    if ReceiverWaits(ep) {
      ReceiverThere(s, e);
      var r := s1.tasks[ep.owner];
      var (mem, a5) := Handed(ep, r.mem, bufLen);
      var frame := SetMessage(r.frame, p, words).(a5 := a5);
      var s2 := Wake(s1, ep.owner, frame, mem);
      WakeGoes(s1, ep.owner, frame, mem);
      GoesOn(s, s1, s2);
      EndpointGoes(s2, e, ep.(waitingReceiver := None, recvAddr := 0, recvCap := 0));
      GoesOn(s, s2, SentBuf(s, e, words, bufLen, tf));
    } else {
      EndpointGoes(s1, e,
          ep.(pending := ep.pending + [Message(p, words, bufLen)], hasBuffered := ep.hasBuffered || bufLen > 0));
      GoesOn(s, s1, SentBuf(s, e, words, bufLen, tf));
    }
  }

  lemma LoadedGoes(s: State, e: nat, userBuf: nat, bufLen: nat)
    requires !CallBufRefused(s, e, bufLen) && s.current.value in s.tasks && bufLen <= |EndpointOf(s, e).value.copyBuf|
    ensures Goes(s, Loaded(s, e, userBuf, bufLen))
  {
    hide Overlaid, Goes;
    var ep, mem := EndpointOf(s, e).value, s.tasks[s.current.value].mem;
    EndpointGoes(s, e, ep.(copyBuf := Overlaid(ep.copyBuf, mem, userBuf, bufLen),
                           copyLen := if MappedPrefix(mem, userBuf, bufLen) == bufLen then bufLen else ep.copyLen));
  }

  lemma CalledGoes(s: State, e: nat, words: Words4, tf: Frame)
    requires Inv(s) && s.current != Some(IDLE)
    ensures Goes(s, Called(s, e, words, tf).0)
  {
    hide Core, Inv, Sent, CallRefused, Goes, Scheduled;
    InvCore(s);
    CallReady(s, e);
    SameGoes(s);
    if !CallRefused(s, e) {
      CallAccepted(s, e);
      SentGoes(s, e, words, tf);
      SentKeeps(s, e, words, tf);
      SentCurrent(s, e, words, tf);
      ScheduledGoes(s, Sent(s, e, words, tf), tf);
    }
  }

  lemma CalledBufGoes(s: State, e: nat, words: Words4, userBuf: nat, bufLen: nat, tf: Frame)
    requires Inv(s) && s.current != Some(IDLE)
    ensures Goes(s, CalledBuf(s, e, words, userBuf, bufLen, tf).0)
  {
    hide Core, Inv, SentBuf, CallBufRefused, Loaded, Goes, Scheduled;
    InvCore(s);
    CallReady(s, e);
    CallBufReady(s, e);
    SameGoes(s);
    if !CallBufRefused(s, e, bufLen) {
      RefusedEndpoint(s, e, bufLen);
      var s1 := Loaded(s, e, userBuf, bufLen);
      LoadedGoes(s, e, userBuf, bufLen);
      LoadedKeeps(s, e, userBuf, bufLen);
      LoadedSame(s, e, userBuf, bufLen);
      if MappedPrefix(s.tasks[s.current.value].mem, userBuf, bufLen) == bufLen {
        SentBufGoes(s1, e, words, bufLen, tf);
        SentBufKeeps(s1, e, words, bufLen, tf);
        SentBufCurrent(s1, e, words, bufLen, tf);
        GoesOn(s, s1, SentBuf(s1, e, words, bufLen, tf));
        ScheduledGoes(s, SentBuf(s1, e, words, bufLen, tf), tf);
      }
    }
  }

  lemma RecvSleepsGoes(s: State, e: nat, ep: Endpoint, tf: Frame)
    requires Inv(s) && !RecvRefused(s, e) && s.current != Some(IDLE)
    requires var was := EndpointOf(s, e).value;
             was.pending == []
                 && ep == was.(waitingReceiver := s.current, recvAddr := ep.recvAddr, recvCap := ep.recvCap)
    ensures s.current.value in s.tasks && Goes(s, Scheduled(RecvSleeps(s, e, ep, tf), tf))
  {
    hide TaskOk, SlotEndpointOk, Core, Inv, Scheduled, Goes;
    InvCore(s);
    RecvReady(s, e);
    SleepReceiverKeeps(s, s.current.value, e, ep, tf);
    SleepGoes(s, s.current.value, IpcRecv(e), tf);
    EndpointGoes(Sleep(s, s.current.value, IpcRecv(e), tf), e, ep);
    GoesOn(s, Sleep(s, s.current.value, IpcRecv(e), tf), RecvSleeps(s, e, ep, tf));
    ScheduledGoes(s, RecvSleeps(s, e, ep, tf), tf);
  }

  lemma ReceivedGoes(s: State, e: nat, tf: Frame)
    requires Inv(s) && s.current != Some(IDLE)
    ensures Goes(s, Received(s, e, tf).0)
  {
    hide Core, Inv, RecvSleeps, Scheduled, Goes;
    InvCore(s);
    SameGoes(s);
    if !RecvRefused(s, e) {
      var ep := EndpointOf(s, e).value;
      if ep.pending != [] {
        EndpointGoes(s, e, ep.(pending := ep.pending[1..]));
      } else {
        RecvSleepsGoes(s, e, ep.(waitingReceiver := s.current), tf);
      }
    }
  }

  lemma ReceivedBufGoes(s: State, e: nat, userBuf: nat, cap: nat, tf: Frame)
    requires Inv(s) && s.current != Some(IDLE)
    ensures Goes(s, ReceivedBuf(s, e, userBuf, cap, tf).0)
  {
    hide Core, Inv, RecvSleeps, Scheduled, TakenBuf, Goes, WithFrame;
    InvCore(s);
    RecvReady(s, e);
    SameGoes(s);
    if !RecvRefused(s, e) {
      var ep, p := EndpointOf(s, e).value, s.current.value;
      if ep.pending != [] {
        var s1, mem := WithEndpoint(s, e, Taken(ep)), TakenBuf(ep, s.tasks[p].mem, userBuf, cap).0;
        EndpointGoes(s, e, Taken(ep));
        FrameGoes(s1, p, s.tasks[p].frame, mem);
        GoesOn(s, s1, WithFrame(s1, p, s.tasks[p].frame, mem));
      } else {
        RecvSleepsGoes(s, e, ep.(waitingReceiver := s.current, recvAddr := userBuf, recvCap := cap), tf);
      }
    }
  }

  lemma RepliedGoes(s: State, client: nat, words: Words4, userBuf: nat, bufLen: nat)
    requires s.current.Some? ==> s.current.value in s.tasks
    ensures Goes(s, Replied(s, client, words).0) && Goes(s, RepliedBuf(s, client, words, userBuf, bufLen).0)
  {
    hide Store, Load, Min, Goes, MappedPrefix;
    SameGoes(s);
    if MayReply(s, client) {
      var t, from := s.tasks[client], s.tasks[s.current.value].mem;
      var n := ReplyLen(t.frame, bufLen);
      var k := Min(MappedPrefix(from, userBuf, n), MappedPrefix(t.mem, t.frame.a5, n));
      WakeGoes(s, client, Answer(t.frame, words), t.mem);
      ReplyLeast(from, t.mem, userBuf, t.frame.a5, n);
      var frame, mem := Answer(t.frame, words).(a5 := n), Store(t.mem, t.frame.a5, Load(from, userBuf, k));
      WakeGoes(s, client, frame, mem);
      FrameGoes(s, client, frame, mem);
    }
  }

  lemma ReplyLeast(from: Mem, to: Mem, src: nat, dst: nat, n: nat)
    ensures var k := Min(MappedPrefix(from, src, n), MappedPrefix(to, dst, n));
            forall a {:trigger a in from} :: src <= a < src + k ==> a in from
  {
  }

  lemma ForkedGoes(s: State, tf: Frame)
    requires Inv(s)
    ensures s.current.Some? && s.current.value in s.tasks && Goes(s, Forked(s, tf).0)
  {
    InvCore(s);
    NewPid(s);
  }

  lemma DropGoes(s: State, pid: nat)
    requires pid in s.tasks && s.tasks[pid].status == Zombie
    ensures Goes(s, Drop(s, {pid}))
  {
  }

  lemma UartGoes(s: State)
    ensures Goes(s, UartWoken(s))
  {
  }

  lemma WaitedGoes(s: State, pid: nat, tf: Frame)
    requires Inv(s)
    ensures s.current.Some? && s.current.value in s.tasks && Goes(s, Waited(s, pid, tf).0)
  {
    hide Core, Inv, Scheduled, Drop, Goes;
    InvCore(s);
    SameGoes(s);
    if s.current == Some(IDLE) || !IsChild(s, pid) {
    } else if s.tasks[pid].status == Zombie {
      DropGoes(s, pid);
    } else {
      SleepKeeps(s, s.current.value, Child(pid), tf);
      SleepGoes(s, s.current.value, Child(pid), tf);
      ScheduledGoes(s, Sleep(s, s.current.value, Child(pid), tf), tf);
    }
  }

  /** Every trap but an exit goes on from the state before it, and nobody is lost. */
  lemma AfterGoes(s: State, trap: Trap, tf: Frame)
    requires Inv(s) && Possible(s, trap) && !trap.Exit?
    ensures Goes(s, After(s, trap, tf))
  {
    hide Core, Inv, Scheduled, Forked, Waited, Called, Received, Replied, CalledBuf, ReceivedBuf, RepliedBuf,
         UartWoken, WithFrame, Goes;
    InvCore(s);
    SameGoes(s);
    match trap
    case Timer => ScheduledGoes(s, s, tf);
    case External(uart) =>
      UartWokenKeeps(s);
      UartCurrent(s);
      UartGoes(s);
      ScheduledGoes(s, if uart then UartWoken(s) else s, tf);
    case Yield => ScheduledGoes(s, s, tf.(a0 := 0));
    case Fork(memory) => ForkedGoes(s, tf);
    case WaitPid(pid) => WaitedGoes(s, pid, tf);
    case Call(e, words) => CalledGoes(s, e, words, tf);
    case Recv(e) => ReceivedGoes(s, e, tf);
    case Reply(client, words) => RepliedGoes(s, client, words, 0, 0);
    case CallBuf(e, words, userBuf, bufLen) => CalledBufGoes(s, e, words, userBuf, bufLen, tf);
    case RecvBuf(e, userBuf, cap) => ReceivedBufGoes(s, e, userBuf, cap, tf);
    case ReplyBuf(client, words, userBuf, bufLen) => RepliedGoes(s, client, words, userBuf, bufLen);
    case IrqWait =>
      if UartWaited(s, tf).Some? {
        SleepKeeps(s, s.current.value, UartRx, tf);
        SleepGoes(s, s.current.value, UartRx, tf);
        ScheduledGoes(s, Sleep(s, s.current.value, UartRx, tf), tf);
      }
    case Local(mem) => FrameGoes(s, s.current.value, s.tasks[s.current.value].frame, mem);
  }

  /** The task that exits becomes a zombie; everybody else lives on. */
  lemma ExitGoes(s: State, code: int)
    requires Inv(s) && s.current != Some(IDLE) && -0x8000_0000 <= code < 0x8000_0000
    ensures s.current.Some? && s.current.value in s.tasks
    ensures Follows(s, Exited(s, code)) && Lasts(s, Exited(s, code), s.current)
    ensures !Alive(Exited(s, code), s.current.value)
  {
    hide Inv, Core, Pick;
    InvCore(s);
    ExitedInv(s, code);
    var p, s' := s.current.value, Exited(s, code);
    var s1 := Zombied(s, p, code);
    ZombiedKeeps(s, p, code);
    IdleReady(s1);
    forall q | q in s.tasks
      ensures q in s'.tasks && Ages(s.tasks[q], s'.tasks[q])
      ensures q == p <==> s.tasks[q].status != Zombie && s'.tasks[q].status == Zombie
    {
      RunNextOnly(s1, 0, q);
      RunNextReady(s1, 0, q);
    }
    forall q | q in s'.tasks
      ensures q in s.tasks
    {
      RunNextOnly(s1, 0, q);
    }
    SameEndpoints(s, s');
  }

  /** No trap uses a pid again, brings a task back or gives an endpoint away, and none but an exit ends a task. */
  lemma AfterFollows(s: State, trap: Trap, tf: Frame)
    requires Inv(s) && Possible(s, trap)
    ensures Follows(s, After(s, trap, tf))
    ensures Lasts(s, After(s, trap, tf), if trap.Exit? then s.current else None)
  {
    hide Core, Inv, After, Follows, Lasts;
    InvCore(s);
    match trap
    case Exit(code) => ExitGoes(s, code); ExitAfter(s, code, tf);
    case _ => AfterGoes(s, trap, tf);
  }

  lemma ExitAfter(s: State, code: int, tf: Frame)
    requires Inv(s) && Possible(s, Exit(code))
    ensures s.current.Some? && s.current.value in s.tasks && After(s, Exit(code), tf) == Exited(s, code)
  {
    InvCore(s);
  }

  /** A task that was there and is no more, or is a zombie, is never alive again. */
  lemma {:induction false} DeadForever(s: State, run: History, p: nat)
    requires Inv(s) && CanRun(s, run) && p < s.nextPid && !Alive(s, p)
    ensures p < AfterRun(s, run).nextPid && !Alive(AfterRun(s, run), p)
    decreases |run|
  {
    if run != [] {
      hide Inv, After, Possible;
      AfterInv(s, run[0].0, run[0].1);
      AfterFollows(s, run[0].0, run[0].1);
      DeadForever(After(s, run[0].0, run[0].1), run[1..], p);
    }
  }

  // ---- Each exit code is delivered at most once ----

  /** Whose exit code the trap gives to the parent: to one that is woken, or to one that waits for a zombie. */
  ghost function Delivery(s: State, trap: Trap, tf: Frame): seq<nat>
    requires Inv(s) && Possible(s, trap)
  {
    InvCore(s);
    match trap
    case Exit(_) => if ParentWoken(s, s.current.value) then [s.current.value] else []
    case WaitPid(pid) => if Waited(s, pid, tf).1.Reaped? then [pid] else []
    case _ => []
  }

  ghost function Deliveries(s: State, run: History): seq<nat>
    requires Inv(s) && CanRun(s, run)
    decreases |run|
  {
    if run == [] then []
    else
      AfterInv(s, run[0].0, run[0].1);
      Delivery(s, run[0].0, run[0].1) + Deliveries(After(s, run[0].0, run[0].1), run[1..])
  }

  /** Nobody can wait for task p any more: it has gone, or is a zombie without a parent. */
  ghost predicate Settled(s: State, p: nat) {
    p < s.nextPid && (p in s.tasks ==> s.tasks[p].status == Zombie && s.tasks[p].parent.None?)
  }

  /** A delivery settles the task, and a task that is settled stays so. */
  lemma DeliverySettles(s: State, trap: Trap, tf: Frame, p: nat)
    requires Inv(s) && Possible(s, trap) && (p in Delivery(s, trap, tf) || Settled(s, p))
    ensures Settled(After(s, trap, tf), p)
    ensures Settled(s, p) ==> p !in Delivery(s, trap, tf)
  {
    hide Core, Inv, After, Exited, Scheduled;
    InvCore(s);
    AfterFollows(s, trap, tf);
    if p in Delivery(s, trap, tf) {
      TaskAt(s, p);
      match trap
      case Exit(code) => ExitDelivers(s, code); ExitAfter(s, code, tf);
      case WaitPid(pid) => WaitReaps(s, pid, tf); WaitAfter(s, pid, tf);
    }
  }

  lemma WaitAfter(s: State, pid: nat, tf: Frame)
    requires Inv(s) && Possible(s, WaitPid(pid))
    ensures s.current.Some? && s.current.value in s.tasks && After(s, WaitPid(pid), tf) == Waited(s, pid, tf).0
  {
    InvCore(s);
  }

  lemma {:induction false} SettledForever(s: State, run: History, p: nat)
    requires Inv(s) && CanRun(s, run) && Settled(s, p)
    ensures p !in Deliveries(s, run)
    decreases |run|
  {
    if run != [] {
      hide Inv, After, Possible, Settled, Delivery;
      AfterInv(s, run[0].0, run[0].1);
      DeliverySettles(s, run[0].0, run[0].1, p);
      SettledForever(After(s, run[0].0, run[0].1), run[1..], p);
    }
  }

  /** In every run each task's exit code is delivered at most once, to a woken parent or to a wait. */
  lemma {:induction false} DeliveredOnce(s: State, run: History)
    requires Inv(s) && CanRun(s, run)
    ensures forall i, j :: 0 <= i < j < |Deliveries(s, run)| ==> Deliveries(s, run)[i] != Deliveries(s, run)[j]
    decreases |run|
  {
    if run != [] {
      var first, s' := Delivery(s, run[0].0, run[0].1), After(s, run[0].0, run[0].1);
      hide Inv, After, Possible, Settled, Delivery;
      AfterInv(s, run[0].0, run[0].1);
      DeliveredOnce(s', run[1..]);
      DeliverySingle(s, run[0].0, run[0].1);
      if first != [] {
        DeliverySettles(s, run[0].0, run[0].1, first[0]);
        SettledForever(s', run[1..], first[0]);
      }
    }
  }

  lemma DeliverySingle(s: State, trap: Trap, tf: Frame)
    requires Inv(s) && Possible(s, trap)
    ensures |Delivery(s, trap, tf)| <= 1
  {
  }
}
