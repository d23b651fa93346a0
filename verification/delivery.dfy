/**
 What arrives with a message (src/kernel/task.rs): the receiver's registers and buffer hold what the sender passed.
 And how long a ready task waits for the processor.
 */
module Delivery {
  import opened Wrappers
  import opened Words
  import opened Tasks
  import opened Sched
  import opened Ipc
  import opened Traps
  import opened Histories

  /** Memory after n bytes of data were copied to `addr`. */
  ghost predicate Copied(was: Mem, now: Mem, addr: nat, data: seq<byte>, n: nat)
    requires n <= |data|
  {
    && now.Keys == was.Keys
    && (forall a {:trigger now[a]} :: a in now ==> now[a] == if addr <= a < addr + n then data[a - addr] else was[a])
    && (forall a {:trigger a in now} :: addr <= a < addr + n ==> a in now)
  }

  lemma StoreCopies(mem: Mem, addr: nat, cap: nat, data: seq<byte>)
    requires MappedPrefix(mem, addr, Min(|data|, cap)) == Min(|data|, cap)
    ensures Delivered(mem, addr, cap, data).1 == Min(|data|, cap)
    ensures Copied(mem, Delivered(mem, addr, cap, data).0, addr, data, Min(|data|, cap))
  {
  }

  /**
   `ipc_recv_buf` on a queue that is not empty: the first message of the queue, and as much of its own payload as
   the buffer holds.
   */
  lemma RecvBufGets(s: State, e: nat, userBuf: nat, cap: nat, tf: Frame)
    requires Inv(s) && !RecvRefused(s, e) && EndpointOf(s, e).value.pending != []
    requires s.current.value in s.tasks
    requires var m := Queue(EndpointOf(s, e).value)[0];
             MappedPrefix(s.tasks[s.current.value].mem, userBuf, Min(|m.payload|, cap)) == Min(|m.payload|, cap)
    ensures var m, r, p := Queue(EndpointOf(s, e).value)[0], ReceivedBuf(s, e, userBuf, cap, tf), s.current.value;
            && r.1.Continue? && ShowsMessage(tf, r.1.frame, m.sender, m.words, Min(|m.payload|, cap))
            && p in r.0.tasks && Copied(s.tasks[p].mem, r.0.tasks[p].mem, userBuf, m.payload, Min(|m.payload|, cap))
  {
    hide Inv, Delivered, MappedPrefix;
    InvCore(s);
    RecvReady(s, e);
    var ep := EndpointOf(s, e).value;
    var m := Queue(ep)[0];
    StoreCopies(s.tasks[s.current.value].mem, userBuf, cap, m.payload);
  }

  ghost predicate ReadableBuf(mem: Mem, addr: nat, len: nat): (mapped: bool)
    ensures mapped ==> forall a {:trigger a in mem} :: addr <= a < addr + len ==> a in mem
  {
    MappedPrefix(mem, addr, len) == len
  }

  /** The owner of the endpoint waits in `ipc_recv_buf`, with a buffer whose used part is mapped. */
  ghost predicate WaitsWithBuffer(s: State, ep: Endpoint, bufLen: nat) {
    && ReceiverWaits(ep) && ep.owner in s.tasks && ep.recvAddr != 0
    && MappedPrefix(s.tasks[ep.owner].mem, ep.recvAddr, Min(bufLen, ep.recvCap)) == Min(bufLen, ep.recvCap)
  }

  /**
   In s' the owner, which waited in s, is awake and has the current task's message, with what its buffer holds of the
   payload.
   */
  ghost predicate HasMessage(s: State, s': State, ep: Endpoint, words: Words4, bufLen: nat, payload: seq<byte>) {
    && ep.owner in s.tasks && ep.owner in s'.tasks && s'.tasks[ep.owner].waiting.None? && s.current.Some?
        && |payload| == bufLen
    && ShowsMessage(s.tasks[ep.owner].frame, s'.tasks[ep.owner].frame, s.current.value, words, Min(bufLen, ep.recvCap))
    && Copied(s.tasks[ep.owner].mem, s'.tasks[ep.owner].mem, ep.recvAddr, payload, Min(bufLen, ep.recvCap))
  }

  /** A call with a buffer to an owner that waits in `ipc_recv_buf`: the owner has the message when it goes on. */
  lemma HandoffGets(s: State, e: nat, words: Words4, userBuf: nat, bufLen: nat, tf: Frame)
    requires Inv(s) && s.current != Some(IDLE) && !CallBufRefused(s, e, bufLen) && bufLen > 0
    requires s.current.value in s.tasks && ReadableBuf(s.tasks[s.current.value].mem, userBuf, bufLen)
    requires WaitsWithBuffer(s, EndpointOf(s, e).value, bufLen)
    ensures HasMessage(s, CalledBuf(s, e, words, userBuf, bufLen, tf).0, EndpointOf(s, e).value, words, bufLen,
                       Load(s.tasks[s.current.value].mem, userBuf, bufLen))
    ensures var now := EndpointOf(CalledBuf(s, e, words, userBuf, bufLen, tf).0, e);
            now.Some? && now.value.waitingReceiver.None? && now.value.recvAddr == 0 && now.value.recvCap == 0
  {
    hide Inv, Core, Delivered, Scheduled, Loaded, Load, MappedPrefix, Reapable, Copied;
    InvCore(s);
    CallReady(s, e);
    CallBufReady(s, e);
    var ep, p, s1 := EndpointOf(s, e).value, s.current.value, Loaded(s, e, userBuf, bufLen);
    LoadedKeeps(s, e, userBuf, bufLen);
    LoadedSame(s, e, userBuf, bufLen);
    LoadedBytes(s, e, userBuf, bufLen);
    LoadedRecv(s, e, userBuf, bufLen);
    SentBufKeeps(s1, e, words, bufLen, tf);
    SentBufCurrent(s1, e, words, bufLen, tf);
    var data := Load(s.tasks[p].mem, userBuf, bufLen);
    StoreCopies(s.tasks[ep.owner].mem, ep.recvAddr, ep.recvCap, data);
    SentBufOwner(s1, e, words, bufLen, tf, data);
    var s2 := SentBuf(s1, e, words, bufLen, tf);
    NotZombieStays(s2, ep.owner);
    ScheduledTask(s2, tf, ep.owner);
    ScheduledEndpoints(s2, tf);
  }

  lemma LoadedRecv(s: State, e: nat, userBuf: nat, bufLen: nat)
    requires !CallBufRefused(s, e, bufLen) && s.current.value in s.tasks && bufLen <= |EndpointOf(s, e).value.copyBuf|
    ensures EndpointOf(Loaded(s, e, userBuf, bufLen), e).Some?
    ensures EndpointOf(Loaded(s, e, userBuf, bufLen), e).value.recvAddr == EndpointOf(s, e).value.recvAddr
    ensures EndpointOf(Loaded(s, e, userBuf, bufLen), e).value.recvCap == EndpointOf(s, e).value.recvCap
  {
    hide Overlaid;
  }

  lemma NotZombieStays(s: State, p: nat)
    requires p in s.tasks && s.tasks[p].status == Ready
    ensures p !in Reapable(s)
  {
  }

  lemma SentBufOwner(s: State, e: nat, words: Words4, bufLen: nat, tf: Frame, data: seq<byte>)
    requires !CallBufRefused(s, e, bufLen) && s.current.value in s.tasks && bufLen <= |EndpointOf(s, e).value.copyBuf|
    requires ReceiverWaits(EndpointOf(s, e).value) && EndpointOf(s, e).value.owner in s.tasks
    requires EndpointOf(s, e).value.recvAddr != 0 && bufLen > 0 && EndpointOf(s, e).value.copyBuf[..bufLen] == data
    ensures var ep, s' := EndpointOf(s, e).value, SentBuf(s, e, words, bufLen, tf);
            var r := Delivered(s.tasks[ep.owner].mem, ep.recvAddr, ep.recvCap, data);
            && ep.owner in s'.tasks && s'.tasks[ep.owner].status == Ready && s'.tasks[ep.owner].waiting.None?
            && s'.tasks[ep.owner].frame == SetMessage(s.tasks[ep.owner].frame, s.current.value, words).(a5 := r.1)
            && s'.tasks[ep.owner].mem == r.0 && s'.current == s.current && s.current != Some(ep.owner)
            && EndpointOf(s', e).Some? && EndpointOf(s', e).value.waitingReceiver.None?
            && EndpointOf(s', e).value.recvAddr == 0 && EndpointOf(s', e).value.recvCap == 0
  {
    hide Delivered;
  }

  // ---- Bounded waiting over runs ----

  /** Does the trap end in a call of the scheduler? */
  ghost predicate Schedules(s: State, trap: Trap, tf: Frame)
    requires Inv(s) && Possible(s, trap)
  {
    match trap
    case Timer => true
    case External(_) => true
    case Yield => true
    case WaitPid(pid) => Waited(s, pid, tf).1 == Asleep
    case Call(e, words) => Called(s, e, words, tf).1 == Blocked
    case Recv(e) => Received(s, e, tf).1 == Blocked
    case CallBuf(e, words, userBuf, bufLen) => CalledBuf(s, e, words, userBuf, bufLen, tf).1 == Blocked
    case RecvBuf(e, userBuf, cap) => ReceivedBuf(s, e, userBuf, cap, tf).1 == Blocked
    case IrqWait => UartWaited(s, tf).Some?
    case _ => false
  }

  /** Task p is ready, and not the one that runs. */
  ghost predicate Queued(s: State, p: nat) {
    p in s.tasks && p != IDLE && s.tasks[p].status == Ready && s.current != Some(p)
  }

  ghost predicate Seated(s: State, p: nat) {
    s.current.Some? && s.current.value in s.tasks && InSlot(s, s.current.value) && InSlot(s, p)
  }

  /** From s to s', before the scheduler is called, p is still ready and everyone is where they were. */
  ghost predicate StillQueued(s: State, s': State, p: nat) {
    && s'.current == s.current && Queued(s', p) && (forall q :: q in s.slot ==> q in s'.slot && s'.slot[q] == s.slot[q])
    && s.tasks.Keys <= s'.tasks.Keys
  }

  /**
   What one trap means for a ready task: it is chosen, or it is ready still and nearer if the scheduler was called.
   */
  ghost predicate Nearer(s: State, s': State, p: nat, scheduled: bool)
    requires Seated(s, p)
  {
    s'.current == Some(p)
        || (Queued(s', p) && Seated(s', p) && if scheduled then Behind(s', p) < Behind(s, p)
        else Behind(s', p) == Behind(s, p))
  }

  lemma ScheduledNearer(s: State, s1: State, tf: Frame, p: nat)
    requires Seated(s, p) && Core(s1) && StillQueued(s, s1, p)
    ensures Nearer(s, Scheduled(s1, tf), p, true)
  {
    hide Scheduled, Core, Distance;
    HasSlot(s1, s1.current.value);
    HasSlot(s1, p);
    BoundedWaiting(s1, tf, p);
    ReapKeeps(s1);
    if Scheduled(s1, tf).current != Some(p) { assert Queued(Scheduled(s1, tf), p); }
  }

  lemma StayedNearer(s: State, s1: State, p: nat)
    requires Seated(s, p) && Core(s1) && StillQueued(s, s1, p)
    ensures Nearer(s, s1, p, false)
  {
    hide Core, Distance;
    HasSlot(s1, s1.current.value);
    HasSlot(s1, p);
  }

  lemma InvSeated(s: State, p: nat)
    requires Inv(s) && p in s.tasks
    ensures Seated(s, p)
  {
    HasSlot(s, p);
    HasSlot(s, s.current.value);
  }

  lemma SleepQueued(s: State, c: Channel, tf: Frame, p: nat)
    requires s.current.Some? && s.current.value in s.tasks && Queued(s, p)
    ensures StillQueued(s, Sleep(s, s.current.value, c, tf), p)
  {
  }

  lemma SentQueued(s: State, e: nat, words: Words4, tf: Frame, p: nat)
    requires Inv(s) && !CallRefused(s, e) && s.current.value in s.tasks && Queued(s, p)
    requires ReceiverWaits(EndpointOf(s, e).value) ==> EndpointOf(s, e).value.owner in s.tasks
    ensures StillQueued(s, Sent(s, e, words, tf), p)
  {
    hide Inv;
    if ReceiverWaits(EndpointOf(s, e).value) { InvCore(s); CoreEndpoints(s); ReceiverThere(s, e); }
  }

  lemma SentBufQueued(s: State, e: nat, words: Words4, bufLen: nat, tf: Frame, p: nat)
    requires Inv(s) && !CallBufRefused(s, e, bufLen) && s.current.value in s.tasks && Queued(s, p)
    requires bufLen <= |EndpointOf(s, e).value.copyBuf|
    requires ReceiverWaits(EndpointOf(s, e).value) ==> EndpointOf(s, e).value.owner in s.tasks
    ensures StillQueued(s, SentBuf(s, e, words, bufLen, tf), p)
  {
    hide Inv, Handed;
    if ReceiverWaits(EndpointOf(s, e).value) { InvCore(s); CoreEndpoints(s); ReceiverThere(s, e); }
  }

  lemma CalledNearer(s: State, e: nat, words: Words4, tf: Frame, p: nat)
    requires Inv(s) && s.current != Some(IDLE) && Queued(s, p) && Seated(s, p)
    ensures Nearer(s, Called(s, e, words, tf).0, p, Called(s, e, words, tf).1 == Blocked)
  {
    hide Core, Inv, Scheduled, Sent, CallRefused, Behind;
    InvCore(s);
    CallReady(s, e);
    if CallRefused(s, e) {
      StayedNearer(s, s, p);
    } else {
      CallAccepted(s, e);
      SentKeeps(s, e, words, tf);
      SentQueued(s, e, words, tf, p);
      ScheduledNearer(s, Sent(s, e, words, tf), tf, p);
    }
  }

  lemma CalledBufNearer(s: State, e: nat, words: Words4, userBuf: nat, bufLen: nat, tf: Frame, p: nat)
    requires Inv(s) && s.current != Some(IDLE) && Queued(s, p) && Seated(s, p)
    ensures var r := CalledBuf(s, e, words, userBuf, bufLen, tf); Nearer(s, r.0, p, r.1 == Blocked)
  {
    hide Core, Inv, Scheduled, SentBuf, CallBufRefused, Loaded, Behind, StillQueued;
    InvCore(s);
    CallReady(s, e);
    CallBufReady(s, e);
    if CallBufRefused(s, e, bufLen) {
      SameQueued(s, s, p);
      StayedNearer(s, s, p);
    } else {
      RefusedEndpoint(s, e, bufLen);
      var s1 := Loaded(s, e, userBuf, bufLen);
      LoadedKeeps(s, e, userBuf, bufLen);
      LoadedSame(s, e, userBuf, bufLen);
      LoadedSlots(s, e, userBuf, bufLen);
      SameQueued(s, s1, p);
      InvCore(s1);
      if MappedPrefix(s.tasks[s.current.value].mem, userBuf, bufLen) < bufLen {
        StayedNearer(s, s1, p);
      } else {
        SentBufKeeps(s1, e, words, bufLen, tf);
        SentBufQueued(s1, e, words, bufLen, tf, p);
        BothQueued(s, s1, SentBuf(s1, e, words, bufLen, tf), p);
        ScheduledNearer(s, SentBuf(s1, e, words, bufLen, tf), tf, p);
      }
    }
  }

  lemma LoadedSlots(s: State, e: nat, userBuf: nat, bufLen: nat)
    requires !CallBufRefused(s, e, bufLen) && s.current.value in s.tasks && bufLen <= |EndpointOf(s, e).value.copyBuf|
    ensures Loaded(s, e, userBuf, bufLen).slot == s.slot
  {
    hide Overlaid;
  }

  lemma SameQueued(s: State, s': State, p: nat)
    requires Queued(s, p) && s'.tasks == s.tasks && s'.slot == s.slot && s'.current == s.current
    ensures StillQueued(s, s', p)
  {
  }

  lemma BothQueued(s: State, s1: State, s2: State, p: nat)
    requires StillQueued(s, s1, p) && StillQueued(s1, s2, p)
    ensures StillQueued(s, s2, p)
  {
  }

  lemma RecvSleepsNearer(s: State, e: nat, ep: Endpoint, tf: Frame, p: nat)
    requires Inv(s) && !RecvRefused(s, e) && s.current != Some(IDLE) && Queued(s, p) && Seated(s, p)
    requires var old_ := EndpointOf(s, e).value;
             old_.pending == []
                 && ep == old_.(waitingReceiver := s.current, recvAddr := ep.recvAddr, recvCap := ep.recvCap)
    ensures Nearer(s, Scheduled(RecvSleeps(s, e, ep, tf), tf), p, true)
  {
    hide Core, Inv, Scheduled, Behind;
    InvCore(s);
    RecvReady(s, e);
    SleepReceiverKeeps(s, s.current.value, e, ep, tf);
    SleepQueued(s, IpcRecv(e), tf, p);
    ScheduledNearer(s, RecvSleeps(s, e, ep, tf), tf, p);
  }

  lemma ReceivedNearer(s: State, e: nat, tf: Frame, p: nat)
    requires Inv(s) && s.current != Some(IDLE) && Queued(s, p) && Seated(s, p)
    ensures Nearer(s, Received(s, e, tf).0, p, Received(s, e, tf).1 == Blocked)
  {
    hide Core, Inv, RecvSleeps, Scheduled, Behind;
    ReceivedInv(s, e, tf);
    InvCore(s);
    InvCore(Received(s, e, tf).0);
    if RecvRefused(s, e) || EndpointOf(s, e).value.pending != [] {
      SameQueued(s, Received(s, e, tf).0, p);
      StayedNearer(s, Received(s, e, tf).0, p);
    } else {
      RecvSleepsNearer(s, e, EndpointOf(s, e).value.(waitingReceiver := s.current), tf, p);
    }
  }

  lemma FrameQueued(s: State, q: nat, frame: Frame, mem: Mem, p: nat)
    requires q in s.tasks && Queued(s, p)
    ensures StillQueued(s, WithFrame(s, q, frame, mem), p)
  {
  }

  lemma ReceivedBufNearer(s: State, e: nat, userBuf: nat, cap: nat, tf: Frame, p: nat)
    requires Inv(s) && s.current != Some(IDLE) && Queued(s, p) && Seated(s, p)
    ensures var r := ReceivedBuf(s, e, userBuf, cap, tf); Nearer(s, r.0, p, r.1 == Blocked)
  {
    hide Core, Inv, RecvSleeps, Scheduled, Behind, TakenBuf, WithFrame, StillQueued;
    ReceivedBufInv(s, e, userBuf, cap, tf);
    InvCore(s);
    RecvReady(s, e);
    InvCore(ReceivedBuf(s, e, userBuf, cap, tf).0);
    if RecvRefused(s, e) {
      SameQueued(s, s, p);
      StayedNearer(s, s, p);
    } else {
      var ep, q := EndpointOf(s, e).value, s.current.value;
      if ep.pending != [] {
        var s1 := WithEndpoint(s, e, Taken(ep));
        SameQueued(s, s1, p);
        FrameQueued(s1, q, s.tasks[q].frame, TakenBuf(ep, s.tasks[q].mem, userBuf, cap).0, p);
        BothQueued(s, s1, ReceivedBuf(s, e, userBuf, cap, tf).0, p);
        StayedNearer(s, ReceivedBuf(s, e, userBuf, cap, tf).0, p);
      } else {
        RecvSleepsNearer(s, e, ep.(waitingReceiver := s.current, recvAddr := userBuf, recvCap := cap), tf, p);
      }
    }
  }

  lemma RepliedQueued(s: State, client: nat, words: Words4, userBuf: nat, bufLen: nat, p: nat)
    requires Queued(s, p) && (s.current.Some? ==> s.current.value in s.tasks)
    ensures StillQueued(s, Replied(s, client, words).0, p)
    ensures StillQueued(s, RepliedBuf(s, client, words, userBuf, bufLen).0, p)
  {
    hide Store, Load, Min;
  }

  lemma ForkedQueued(s: State, tf: Frame, p: nat)
    requires Inv(s) && Queued(s, p)
    ensures s.current.Some? && s.current.value in s.tasks && StillQueued(s, Forked(s, tf).0, p)
  {
    InvCore(s);
    NewPid(s);
  }

  lemma UartQueued(s: State, p: nat)
    requires Queued(s, p)
    ensures StillQueued(s, UartWoken(s), p)
  {
  }

  lemma WaitedNearer(s: State, pid: nat, tf: Frame, p: nat)
    requires Inv(s) && s.current != Some(IDLE) && Queued(s, p) && Seated(s, p)
    ensures Nearer(s, Waited(s, pid, tf).0, p, Waited(s, pid, tf).1 == Asleep)
  {
    hide Core, Inv, Scheduled, Behind, Drop;
    InvCore(s);
    if !IsChild(s, pid) {
      StayedNearer(s, s, p);
    } else if s.tasks[pid].status == Zombie {
      DropKeeps(s, {pid});
      DropSeats(s, pid, p);
    } else {
      SleepKeeps(s, s.current.value, Child(pid), tf);
      SleepQueued(s, Child(pid), tf, p);
      ScheduledNearer(s, Sleep(s, s.current.value, Child(pid), tf), tf, p);
    }
  }

  lemma DropSeats(s: State, pid: nat, p: nat)
    requires Inv(s) && Queued(s, p) && Seated(s, p) && pid in s.tasks && s.tasks[pid].status == Zombie
    ensures Nearer(s, Drop(s, {pid}), p, false)
  {
    InvCore(s);
  }

  /** Every trap but an exit leaves a ready task nearer to the processor, or at least no further. */
  lemma WaitStep(s: State, trap: Trap, tf: Frame, p: nat)
    requires Inv(s) && Possible(s, trap) && !trap.Exit? && Queued(s, p) && Seated(s, p)
    ensures Nearer(s, After(s, trap, tf), p, Schedules(s, trap, tf))
  {
    hide Core, Inv, Scheduled, Behind, StillQueued, Called, CalledBuf, Received, ReceivedBuf, Replied, RepliedBuf,
         Waited, Forked, UartWoken,
         WithFrame, Nearer;
    InvCore(s);
    AfterInv(s, trap, tf);
    InvCore(After(s, trap, tf));
    SameQueued(s, s, p);
    StayedNearer(s, s, p);
    match trap
    case Timer => ScheduledNearer(s, s, tf, p);
    case Yield => ScheduledNearer(s, s, tf.(a0 := 0), p);
    case External(uart) =>
      UartWokenKeeps(s);
      UartQueued(s, p);
      ScheduledNearer(s, if uart then UartWoken(s) else s, tf, p);
    case WaitPid(pid) => WaitedNearer(s, pid, tf, p);
    case Call(e, words) => CalledNearer(s, e, words, tf, p);
    case Recv(e) => ReceivedNearer(s, e, tf, p);
    case CallBuf(e, words, userBuf, bufLen) => CalledBufNearer(s, e, words, userBuf, bufLen, tf, p);
    case RecvBuf(e, userBuf, cap) => ReceivedBufNearer(s, e, userBuf, cap, tf, p);
    case Reply(client, words) => RepliedQueued(s, client, words, 0, 0, p); StayedNearer(s, After(s, trap, tf), p);
    case ReplyBuf(client, words, userBuf, bufLen) =>
      RepliedQueued(s, client, words, userBuf, bufLen, p); StayedNearer(s, After(s, trap, tf), p);
    case Fork(memory) => ForkedQueued(s, tf, p); StayedNearer(s, After(s, trap, tf), p);
    case Local(mem) =>
      FrameQueued(s, s.current.value, s.tasks[s.current.value].frame, mem, p);
      StayedNearer(s, After(s, trap, tf), p);
    case IrqWait =>
      if UartWaited(s, tf).Some? {
        SleepKeeps(s, s.current.value, UartRx, tf);
        SleepQueued(s, UartRx, tf, p);
        ScheduledNearer(s, Sleep(s, s.current.value, UartRx, tf), tf, p);
      }
  }

  /** How often the scheduler is called in a run before task p is first chosen. */
  ghost function CallsUntil(s: State, run: History, p: nat): nat
    requires Inv(s) && CanRun(s, run)
    decreases |run|
  {
    if run == [] || s.current == Some(p) then 0
    else
      AfterInv(s, run[0].0, run[0].1);
      (if Schedules(s, run[0].0, run[0].1) then 1 else 0) + CallsUntil(After(s, run[0].0, run[0].1), run[1..], p)
  }

  /**
   An exit scans from slot 0. A ready task is chosen by it if and only if no ready task stands in a lower slot; if it
   is not chosen, it is set back if and only if the one chosen stands below the task that exits, and that one below it.
   */
  lemma ExitStep(s: State, code: int, p: nat)
    requires Inv(s) && s.current != Some(IDLE) && -0x8000_0000 <= code < 0x8000_0000 && Queued(s, p) && Seated(s, p)
    ensures s.runnable > 0
    ensures var s1, s' := Zombied(s, s.current.value, code), Exited(s, code);
            && (s'.current == Some(p) <==>
                 forall q :: q in s1.tasks && q != IDLE && s1.tasks[q].status == Ready ==>
                     q in s.slot && s.slot[p] <= s.slot[q])
            && (s'.current != Some(p) ==>
                 && Queued(s', p) && Seated(s', p)
                 && (Behind(s', p) > Behind(s, p) <==>
                      s.slot[s'.current.value] < s.slot[s.current.value] < s.slot[p]))
  {
    hide Inv, Core, Offset, Pick, At, AfterExit;
    InvCore(s);
    ExitedInv(s, code);
    var c := s.current.value;
    var s1, s' := Zombied(s, c, code), Exited(s, code);
    ZombiedKeeps(s, c, code);
    ZombiedReady(s, c, code, p);
    CoreOrder(s1);
    AtValue(0, s.slot[p]);
    PickNear(s1, 0, s.slot[p], p);
    var k := Offset(s1, 0, 0);
    AtValue(0, k);
    RunNextOnly(s1, 0, p);
    PickOther(s1, c);
    forall q | q in s1.tasks && q != IDLE && s1.tasks[q].status == Ready
      ensures q in s.slot && k <= s.slot[q]
    {
      HasSlot(s1, q);
      AtValue(0, s.slot[q]);
      PickNear(s1, 0, s.slot[q], q);
    }
    FirstPicked(s1, p, k);
  }

  lemma ZombiedReady(s: State, c: nat, code: int, p: nat)
    requires c in s.tasks && -0x8000_0000 <= code < 0x8000_0000 && s.runnable > 0 && p != c
    requires p in s.tasks && s.tasks[p].status == Ready
    ensures var s1 := Zombied(s, c, code);
            && p in s1.tasks && s1.tasks[p].status == Ready && s1.slot == s.slot && c in s1.tasks
            && s1.tasks[c].status == Zombie
  {
  }

  lemma PickOther(s: State, c: nat)
    requires c in s.tasks && s.tasks[c].status == Zombie && c != IDLE
    ensures Pick(s, 0) != Some(c)
  {
    PickNotZombie(s, 0, c);
  }

  lemma FirstPicked(s: State, p: nat, k: nat)
    requires k == Offset(s, 0, 0) && k < MAX_TASKS && InSlot(s, p) && OrderOk(s)
    ensures Pick(s, 0).Some? ==> Pick(s, 0).value in s.tasks && Pick(s, 0).value != IDLE
    ensures Pick(s, 0).Some? ==> s.tasks[Pick(s, 0).value].status == Ready
    ensures s.slot[p] == At(0, k) ==> Pick(s, 0) == Some(p)
  {
    hide At;
  }

  function Exits(run: History): nat {
    if run == [] then 0 else (if run[0].0.Exit? then 1 else 0) + Exits(run[1..])
  }

  /** In every run a ready task is chosen within MAX_TASKS calls of the scheduler, and as many again for each exit. */
  lemma {:induction false} ChosenInTime(s: State, run: History, p: nat)
    requires Inv(s) && CanRun(s, run) && Queued(s, p)
    ensures CallsUntil(s, run, p) <= (Exits(run) + 1) * MAX_TASKS
    ensures Seated(s, p) && CallsUntil(s, run, p) <= Behind(s, p) + 1 + Exits(run) * MAX_TASKS
    decreases |run|
  {
    InvSeated(s, p);
    if run != [] {
      hide Inv, After, Behind, Possible, Schedules, Seated;
      var s' := After(s, run[0].0, run[0].1);
      AfterInv(s, run[0].0, run[0].1);
      if run[0].0.Exit? {
        ExitQueued(s, run[0].0, run[0].1, p);
      } else {
        WaitStep(s, run[0].0, run[0].1, p);
      }
      if s'.current != Some(p) {
        ChosenInTime(s', run[1..], p);
      }
    }
  }

  lemma ExitQueued(s: State, trap: Trap, tf: Frame, p: nat)
    requires Inv(s) && Possible(s, trap) && trap.Exit? && Queued(s, p) && Seated(s, p)
    ensures !Schedules(s, trap, tf)
    ensures After(s, trap, tf).current == Some(p) || Queued(After(s, trap, tf), p)
  {
    hide Inv;
    InvCore(s);
    ExitStep(s, trap.code, p);
  }
}
