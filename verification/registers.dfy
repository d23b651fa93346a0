/**
 Registers and memory across one trap (src/kernel/task.rs, src/kernel/syscall.rs, src/kernel/trap.rs), field by field:
 what the processor goes on with, what each system call returns, and what a trap puts into the registers and the memory
 of the other tasks.
 */
module Registers {
  import opened Wrappers
  import opened Words
  import opened Tasks
  import opened Sched
  import opened Ipc
  import opened Traps
  import opened Histories
  import opened Delivery
  import opened Lives
  import opened Wakeups

  // ---- Memory, byte by byte ----

  /** Bytes `to` to `to + n` of `now` are bytes `at` to `at + n` of `from`; every other byte is what it was. */
  ghost predicate CopiedFrom(was: Mem, now: Mem, to: nat, from: Mem, at: nat, n: nat) {
    && now.Keys == was.Keys
    && (forall a {:trigger a in now} :: to <= a < to + n ==> a in now && at + (a - to) in from)
    && (forall a {:trigger now[a]} :: a in now ==> now[a] == if to <= a < to + n then from[at + (a - to)] else was[a])
  }

  /** The longest part of `len` bytes that is mapped from `addr` on. */
  ghost predicate MappedPart(mem: Mem, addr: nat, len: nat, k: nat) {
    k <= len && (forall a {:trigger a in mem} :: addr <= a < addr + k ==> a in mem) && (k < len ==> addr + k !in mem)
  }

  // ---- After scheduling ----

  lemma CalledGoesOn(s: State, e: nat, words: Words4, tf: Frame)
    requires Inv(s) && s.current != Some(IDLE) && Called(s, e, words, tf).1 == Blocked
    ensures GoesOnWith(Called(s, e, words, tf).0, AfterFrame(s, Call(e, words), tf))
  {
    hide Core, Inv, Sent, CallRefused, Scheduled, ScheduledFrame, GoesOnWith;
    InvCore(s);
    CallReady(s, e);
    SentKeeps(s, e, words, tf);
    SentCurrent(s, e, words, tf);
    ScheduledGoesOn(Sent(s, e, words, tf), tf);
  }

  lemma CalledBufGoesOn(s: State, e: nat, words: Words4, userBuf: nat, bufLen: nat, tf: Frame)
    requires Inv(s) && s.current != Some(IDLE) && CalledBuf(s, e, words, userBuf, bufLen, tf).1 == Blocked
    ensures GoesOnWith(CalledBuf(s, e, words, userBuf, bufLen, tf).0,
                       AfterFrame(s, CallBuf(e, words, userBuf, bufLen), tf))
  {
    hide Core, Inv, SentBuf, CallBufRefused, Loaded, Scheduled, ScheduledFrame, GoesOnWith;
    InvCore(s);
    CallReady(s, e);
    CallBufReady(s, e);
    RefusedEndpoint(s, e, bufLen);
    var s1 := Loaded(s, e, userBuf, bufLen);
    LoadedKeeps(s, e, userBuf, bufLen);
    LoadedSame(s, e, userBuf, bufLen);
    SentBufKeeps(s1, e, words, bufLen, tf);
    SentBufCurrent(s1, e, words, bufLen, tf);
    ScheduledGoesOn(SentBuf(s1, e, words, bufLen, tf), tf);
  }

  lemma RecvSleepsGoesOn(s: State, e: nat, ep: Endpoint, tf: Frame)
    requires Inv(s) && !RecvRefused(s, e) && s.current != Some(IDLE)
    requires var was := EndpointOf(s, e).value;
             was.pending == []
                 && ep == was.(waitingReceiver := s.current, recvAddr := ep.recvAddr, recvCap := ep.recvCap)
    ensures s.current.value in s.tasks
    ensures GoesOnWith(Scheduled(RecvSleeps(s, e, ep, tf), tf), ScheduledFrame(RecvSleeps(s, e, ep, tf), tf))
  {
    hide TaskOk, SlotEndpointOk, Core, Inv, Scheduled, ScheduledFrame, GoesOnWith;
    InvCore(s);
    RecvReady(s, e);
    SleepReceiverKeeps(s, s.current.value, e, ep, tf);
    ScheduledGoesOn(RecvSleeps(s, e, ep, tf), tf);
  }

  lemma ReceivedGoesOn(s: State, e: nat, tf: Frame)
    requires Inv(s) && s.current != Some(IDLE) && Received(s, e, tf).1 == Blocked
    ensures GoesOnWith(Received(s, e, tf).0, AfterFrame(s, Recv(e), tf))
  {
    hide Core, Inv, RecvSleeps, Scheduled, ScheduledFrame, GoesOnWith;
    InvCore(s);
    RecvSleepsGoesOn(s, e, EndpointOf(s, e).value.(waitingReceiver := s.current), tf);
  }

  lemma ReceivedBufGoesOn(s: State, e: nat, userBuf: nat, cap: nat, tf: Frame)
    requires Inv(s) && s.current != Some(IDLE) && ReceivedBuf(s, e, userBuf, cap, tf).1 == Blocked
    ensures GoesOnWith(ReceivedBuf(s, e, userBuf, cap, tf).0, AfterFrame(s, RecvBuf(e, userBuf, cap), tf))
  {
    hide Core, Inv, RecvSleeps, Scheduled, ScheduledFrame, TakenBuf, GoesOnWith;
    InvCore(s);
    RecvReady(s, e);
    var ep := EndpointOf(s, e).value.(waitingReceiver := s.current);
    RecvSleepsGoesOn(s, e, ep.(recvAddr := userBuf, recvCap := cap), tf);
    assert ep.(recvAddr := userBuf, recvCap := cap) ==
           EndpointOf(s, e).value.(waitingReceiver := s.current, recvAddr := userBuf, recvCap := cap);
  }

  lemma SleepGoesOn(s: State, c: Channel, tf: Frame)
    requires Inv(s) && s.current != Some(IDLE) && WaitOk(s, s.current.value, c)
    ensures s.current.value in s.tasks
    ensures var s1 := Sleep(s, s.current.value, c, tf); GoesOnWith(Scheduled(s1, tf), ScheduledFrame(s1, tf))
  {
    hide Core, Inv, Scheduled, ScheduledFrame, GoesOnWith;
    InvCore(s);
    SleepKeeps(s, s.current.value, c, tf);
    ScheduledGoesOn(Sleep(s, s.current.value, c, tf), tf);
  }

  /** After every trap that ends in a choice of the scheduler, the processor goes on with that task's own registers. */
  lemma ChosenGoesOn(s: State, trap: Trap, tf: Frame)
    requires Inv(s) && Possible(s, trap) && (Schedules(s, trap, tf) || trap.Exit?)
    ensures GoesOnWith(After(s, trap, tf), AfterFrame(s, trap, tf))
  {
    hide Core, Inv, Scheduled, ScheduledFrame, Exited, RunFrame, Zombied, Called, Received, CalledBuf, ReceivedBuf,
         UartWoken, RecvFrame, GoesOnWith;
    InvCore(s);
    match trap
    case Timer => ScheduledGoesOn(s, tf);
    case External(uart) =>
      UartWokenKeeps(s);
      UartCurrent(s);
      ScheduledGoesOn(if uart then UartWoken(s) else s, tf);
    case Yield => ScheduledGoesOn(s, tf.(a0 := 0));
    case Exit(code) => ExitGoesOn(s, code, tf);
    case WaitPid(pid) => SleepGoesOn(s, Child(pid), tf);
    case Call(e, words) => CalledGoesOn(s, e, words, tf);
    case Recv(e) => ReceivedGoesOn(s, e, tf);
    case CallBuf(e, words, userBuf, bufLen) => CalledBufGoesOn(s, e, words, userBuf, bufLen, tf);
    case RecvBuf(e, userBuf, cap) => ReceivedBufGoesOn(s, e, userBuf, cap, tf);
    case IrqWait => SleepGoesOn(s, UartRx, tf);
  }

  // ---- What a system call returns to its caller ----

  /** The endpoint is registered, and the current task is its owner. */
  ghost predicate Owns(s: State, e: nat) {
    e < |s.endpoints| && s.endpoints[e].Some? && s.current == Some(s.endpoints[e].value.owner)
  }

  /** A fork returns the child's pid to the parent and 0 to the child, and fails when memory or slots are used up. */
  lemma ForkReturns(s: State, memory: bool, tf: Frame)
    requires Inv(s) && Possible(s, Fork(memory))
    ensures var s', next := After(s, Fork(memory), tf), AfterFrame(s, Fork(memory), tf);
            && s'.current == s.current && s.current.Some? && s.current.value in s.tasks
            && (memory && (exists i :: 0 <= i < |s.order| && s.order[i].None?) ==>
                 && s.nextPid !in s.tasks && s.nextPid in s'.tasks && Returns(tf, next, s.nextPid)
                 && Returns(tf, s'.tasks[s.nextPid].frame, 0)
                 && s'.tasks[s.nextPid].mem == s.tasks[s.current.value].mem)
            && (!(memory && exists i :: 0 <= i < |s.order| && s.order[i].None?) ==> Returns(tf, next, NOTHING))
  {
    hide Core, Inv, FreeSlot;
    InvCore(s);
    NewPid(s);
    var i := FreeSlot(s.order, 0);
    if i < |s.order| { assert s.order[i].None?; }
  }

  /** `waitpid` returns the exit code of a child that has exited, with its sign extended, and fails for no child. */
  lemma WaitReturns(s: State, pid: nat, tf: Frame)
    requires Inv(s) && Possible(s, WaitPid(pid))
    ensures var s', next := After(s, WaitPid(pid), tf), AfterFrame(s, WaitPid(pid), tf);
            var child := pid in s.tasks && s.tasks[pid].parent == s.current;
            && (child && s.tasks[pid].status == Zombie ==>
                 var code := s.tasks[pid].exitCode;
                 && -0x8000_0000 <= code < 0x8000_0000
                 && Returns(tf, next, if code >= 0 then code else code + 0x1_0000_0000_0000_0000)
                 && s'.current == s.current && pid !in s'.tasks)
            && (!child ==> Returns(tf, next, NOTHING) && s' == s)
            && (child && s.tasks[pid].status != Zombie ==> Schedules(s, WaitPid(pid), tf))
  {
    hide Core, Inv, Scheduled, ScheduledFrame;
    InvCore(s);
    if pid in s.tasks { TaskAt(s, pid); }
  }

  /** `irq_wait` is for the port's owner; all others are told that it failed. */
  lemma IrqReturns(s: State, tf: Frame)
    requires Inv(s) && Possible(s, IrqWait)
    ensures s.current == s.uartOwner <==> Schedules(s, IrqWait, tf)
    ensures s.current != s.uartOwner ==> After(s, IrqWait, tf) == s && Returns(tf, AfterFrame(s, IrqWait, tf), NOTHING)
  {
    hide Core, Inv, Scheduled, ScheduledFrame;
    InvCore(s);
  }

  /** A call is refused exactly for want of an endpoint of somebody else with room in its queue. */
  lemma CallReturns(s: State, e: nat, words: Words4, tf: Frame)
    requires Inv(s) && Possible(s, Call(e, words))
    ensures var taken := && e < |s.endpoints| && s.endpoints[e].Some? && !Owns(s, e)
                         && |s.endpoints[e].value.pending| < 8;
            && (taken <==> Schedules(s, Call(e, words), tf))
            && (!taken ==> After(s, Call(e, words), tf) == s && Returns(tf, AfterFrame(s, Call(e, words), tf), NOTHING))
  {
    hide Core, Inv, Scheduled, ScheduledFrame, Sent;
    InvCore(s);
    if EndpointOf(s, e).Some? { EndpointAt(s, e); }
  }

  /**
   A call with a buffer is refused exactly when a call without one would be, when the buffer is too long or not all
   mapped, and when the flag is set and nobody waits.
   */
  lemma CallBufReturns(s: State, e: nat, words: Words4, userBuf: nat, bufLen: nat, tf: Frame)
    requires Inv(s) && Possible(s, CallBuf(e, words, userBuf, bufLen))
    ensures var trap := CallBuf(e, words, userBuf, bufLen);
            var taken := && e < |s.endpoints| && s.endpoints[e].Some? && !Owns(s, e)
                         && |s.endpoints[e].value.pending| < 8 && bufLen <= 4096
                         && (s.endpoints[e].value.hasBuffered ==> s.endpoints[e].value.waitingReceiver.Some?)
                         && s.current.Some? && s.current.value in s.tasks
                         && (forall a :: userBuf <= a < userBuf + bufLen ==> a in s.tasks[s.current.value].mem);
            && (taken <==> Schedules(s, trap, tf))
            && (!taken ==>
                 && After(s, trap, tf).tasks == s.tasks && After(s, trap, tf).current == s.current
                 && Returns(tf, AfterFrame(s, trap, tf), NOTHING))
  {
    hide Core, Inv, Scheduled, ScheduledFrame, SentBuf, Overlaid, MappedPrefix;
    InvCore(s);
    CallReady(s, e);
    CallBufReady(s, e);
    if EndpointOf(s, e).Some? { EndpointAt(s, e); }
    PrefixMapped(s.tasks[s.current.value].mem, userBuf, bufLen);
  }

  lemma PrefixMapped(mem: Mem, addr: nat, len: nat)
    ensures MappedPrefix(mem, addr, len) == len <==> forall a :: addr <= a < addr + len ==> a in mem
  {
    hide MappedPrefix;
    if MappedPrefix(mem, addr, len) < len { assert addr <= addr + MappedPrefix(mem, addr, len) < addr + len; }
  }

  /**
   `ipc_recv` returns the first message of the queue to the owner: the sender in a0, its words in a1 to a4. It fails
   for everybody else, and waits when the queue is empty.
   */
  lemma RecvReturns(s: State, e: nat, tf: Frame)
    requires Inv(s) && Possible(s, Recv(e))
    ensures var s', next := After(s, Recv(e), tf), AfterFrame(s, Recv(e), tf);
            && (Owns(s, e) && s.endpoints[e].value.pending != [] ==>
                 var m := s.endpoints[e].value.pending[0];
                 s'.tasks == s.tasks && s'.current == s.current
                     && ShowsMessage(tf, next, m.sender, m.words, tf.a5))
            && (!Owns(s, e) ==> s' == s && Returns(tf, next, NOTHING))
            && (Owns(s, e) && s.endpoints[e].value.pending == [] <==> Schedules(s, Recv(e), tf))
  {
    hide Core, Inv, Scheduled, ScheduledFrame, RecvSleeps;
    InvCore(s);
  }

  /**
   `ipc_recv_buf` returns the same, and besides as many of the message's own bytes as the buffer holds and pages are
   mapped; a5 says how many, and 0 if a page is missing.
   */
  lemma RecvBufReturns(s: State, e: nat, userBuf: nat, cap: nat, tf: Frame, k: nat)
    requires Inv(s) && Possible(s, RecvBuf(e, userBuf, cap)) && Owns(s, e)
    requires s.endpoints[e].value.pending != [] && s.current.value in s.tasks
    requires MappedPart(s.tasks[s.current.value].mem, userBuf, Min(s.endpoints[e].value.pending[0].bufLen, cap), k)
    ensures var trap, p := RecvBuf(e, userBuf, cap), s.current.value;
            var s', m := After(s, trap, tf), s.endpoints[e].value.pending[0];
            var n, was := Min(m.bufLen, cap), s.tasks[p].mem;
            && s'.current == s.current && s'.tasks.Keys == s.tasks.Keys
            && (forall q :: q in s.tasks && q != p ==> s'.tasks[q] == s.tasks[q])
            && ShowsMessage(tf, AfterFrame(s, trap, tf), m.sender, m.words, if k == n then n else 0)
            && s'.tasks[p].mem.Keys == was.Keys && |Queue(s.endpoints[e].value)[0].payload| == m.bufLen
            && (forall a :: a in was ==>
                 s'.tasks[p].mem[a] ==
                     if userBuf <= a < userBuf + k then Queue(s.endpoints[e].value)[0].payload[a - userBuf] else was[a])
  {
    hide Core, Inv, Scheduled, ScheduledFrame, RecvSleeps, MappedPrefix;
    InvCore(s);
    RecvReady(s, e);
    var ep := s.endpoints[e].value;
    PartIs(s.tasks[s.current.value].mem, userBuf, Min(ep.pending[0].bufLen, cap), k);
  }

  lemma PartIs(mem: Mem, addr: nat, len: nat, k: nat)
    requires MappedPart(mem, addr, len, k)
    ensures k == MappedPrefix(mem, addr, len)
  {
    hide MappedPrefix;
  }

  // ---- What a trap puts into the registers and the memory of the others ----

  predicate Untouched(was: Task, now: Task) {
    now.frame == was.frame && now.mem == was.mem
  }

  /** Task q waits in a reception of endpoint e. */
  ghost predicate WaitsAt(s: State, e: nat, q: nat) {
    e < |s.endpoints| && s.endpoints[e].Some? && s.endpoints[e].value.owner == q
    && s.endpoints[e].value.waitingReceiver.Some?
  }

  /** Task q is asleep in a call to an endpoint of the current task. */
  ghost predicate MayAnswer(s: State, q: nat) {
    q in s.tasks && s.tasks[q].waiting.Some? && s.tasks[q].waiting.value.IpcCall?
    && Owns(s, s.tasks[q].waiting.value.endpoint)
  }

  /**
   The message is in the registers of the owner that waited with a buffer at `addr` for `cap` bytes, and as much of the
   sender's buffer as fits in its memory, up to the first page that is missing; a5 says how much, 0 if one is missing.
   */
  ghost predicate HandedOver(was: Task, now: Task, addr: nat, cap: nat, sender: nat, words: Words4, from: Mem, at: nat,
                             bufLen: nat) {
    var n := if bufLen > 0 && addr != 0 then Min(bufLen, cap) else 0;
    exists k: nat ::
      && MappedPart(was.mem, addr, n, k) && CopiedFrom(was.mem, now.mem, addr, from, at, k)
      && ShowsMessage(was.frame, now.frame, sender, words, if k == n then n else 0)
  }

  /**
   The answer is in the caller's registers, and the bytes up to the first page that is missing on either side in its
   memory. Nobody gets more than the caller has room for, as a6 says, nor more than 4096 bytes.
   */
  ghost predicate AnsweredWith(was: Task, now: Task, words: Words4, from: Mem, at: nat, n: nat, k: nat) {
    && ShowsAnswer(was.frame, now.frame, words, n) && CopiedFrom(was.mem, now.mem, was.frame.a5, from, at, k)
    && k <= n && (k < n ==> at + k !in from || was.frame.a5 + k !in was.mem)
  }

  /** What a trap does to the registers and the memory of task q, which did not take it. */
  ghost predicate Told(s: State, trap: Trap, q: nat, was: Task, now: Task)
    requires s.current.Some? && s.current.value in s.tasks
  {
    var p := s.current.value;
    match trap
    case Call(e, words) =>
      if WaitsAt(s, e, q) then ShowsMessage(was.frame, now.frame, p, words, was.frame.a5) && now.mem == was.mem
      else Untouched(was, now)
    case CallBuf(e, words, userBuf, bufLen) =>
      if WaitsAt(s, e, q) && bufLen <= 4096
          && (forall a :: userBuf <= a < userBuf + bufLen ==> a in s.tasks[p].mem) then
        HandedOver(was, now, s.endpoints[e].value.recvAddr, s.endpoints[e].value.recvCap, p, words, s.tasks[p].mem,
                   userBuf, bufLen)
      else Untouched(was, now)
    case Reply(client, words) =>
      if client == q && MayAnswer(s, q) then
        ShowsAnswer(was.frame, now.frame, words, was.frame.a5) && now.mem == was.mem
      else Untouched(was, now)
    case ReplyBuf(client, words, userBuf, bufLen) =>
      if client == q && MayAnswer(s, q) then
        exists k: nat ::
          AnsweredWith(was, now, words, s.tasks[p].mem, userBuf, Min(Min(bufLen, was.frame.a6), 4096), k)
      else Untouched(was, now)
    case External(uart) =>
      if uart && was.waiting == Some(UartRx) then Returns(was.frame, now.frame, 0) && now.mem == was.mem
      else Untouched(was, now)
    case Exit(code) =>
      if was.waiting == Some(Child(p)) then
        code + 0x1_0000_0000_0000_0000 >= 0
            && Returns(was.frame, now.frame, if code >= 0 then code else code + 0x1_0000_0000_0000_0000)
            && now.mem == was.mem
      else Untouched(was, now)
    case _ => Untouched(was, now)
  }

  lemma ScheduledUntouched(s: State, tf: Frame, q: nat)
    requires Core(s) && s.current.Some? && s.current.value in s.tasks && s.current != Some(q)
    requires q in Scheduled(s, tf).tasks
    ensures q in s.tasks && Untouched(s.tasks[q], Scheduled(s, tf).tasks[q])
  {
    hide Core, Scheduled, Reapable;
    ScheduledReaps(s, tf, q);
    ScheduledTask(s, tf, q);
  }

  lemma SentTold(s: State, e: nat, words: Words4, tf: Frame, q: nat)
    requires Inv(s) && !CallRefused(s, e) && s.current.value in s.tasks && q in s.tasks && s.current != Some(q)
    requires ReceiverWaits(EndpointOf(s, e).value) ==> EndpointOf(s, e).value.owner in s.tasks
    ensures q in Sent(s, e, words, tf).tasks
    ensures Told(s, Call(e, words), q, s.tasks[q], Sent(s, e, words, tf).tasks[q])
  {
    hide Inv, Core;
    InvCore(s);
    CoreEndpoints(s);
    if EndpointOf(s, e).value.waitingReceiver.Some? { ReceiverThere(s, e); }
  }

  lemma NobodyWaits(s: State, e: nat, q: nat)
    requires Inv(s) && s.current != Some(q) && CallRefused(s, e)
    ensures !WaitsAt(s, e, q)
  {
    hide Inv, Core;
    InvCore(s);
    CoreEndpoints(s);
    if WaitsAt(s, e, q) { ReceiverThere(s, e); }
  }

  lemma CalledTold(s: State, e: nat, words: Words4, tf: Frame, q: nat)
    requires Inv(s) && s.current != Some(IDLE) && q in s.tasks && s.current != Some(q)
    requires q in Called(s, e, words, tf).0.tasks
    ensures s.current.Some? && s.current.value in s.tasks
    ensures Told(s, Call(e, words), q, s.tasks[q], Called(s, e, words, tf).0.tasks[q])
  {
    hide Core, Inv, Sent, CallRefused, Scheduled, WaitsAt;
    InvCore(s);
    CallReady(s, e);
    if CallRefused(s, e) {
      NobodyWaits(s, e, q);
    } else {
      CallAccepted(s, e);
      SentTold(s, e, words, tf, q);
      SentKeeps(s, e, words, tf);
      SentCurrent(s, e, words, tf);
      ScheduledUntouched(Sent(s, e, words, tf), tf, q);
    }
  }

  /** Storing what was loaded copies from one memory to another. */
  lemma StoredFrom(was: Mem, to: nat, from: Mem, at: nat, k: nat)
    requires MappedPart(was, to, k, k) && MappedPart(from, at, k, k)
    ensures forall a {:trigger a in from} :: at <= a < at + k ==> a in from
    ensures CopiedFrom(was, Store(was, to, Load(from, at, k)), to, from, at, k)
  {
    forall a | to <= a < to + k
      ensures a in was && at + (a - to) in from
    {
      assert at <= at + (a - to) < at + k;
    }
  }

  lemma MappedAll(mem: Mem, addr: nat, len: nat)
    ensures MappedPart(mem, addr, len, MappedPrefix(mem, addr, len))
    ensures MappedPart(mem, addr, MappedPrefix(mem, addr, len), MappedPrefix(mem, addr, len))
  {
    hide MappedPrefix;
  }

  lemma LoadLess(mem: Mem, addr: nat, len: nat, k: nat)
    requires MappedPart(mem, addr, len, len) && k <= len
    ensures MappedPart(mem, addr, k, k)
    ensures forall a {:trigger a in mem} :: addr <= a < addr + len ==> a in mem
    ensures Load(mem, addr, len)[..k] == Load(mem, addr, k)
  {
  }

  lemma MappedAt(mem: Mem, addr: nat, len: nat)
    requires MappedPart(mem, addr, len, len)
    ensures forall a {:trigger a in mem} :: addr <= a < addr + len ==> a in mem
  {
  }

  /** What the waiting owner gets when the endpoint's copy buffer holds the sender's bytes. */
  lemma HandedTold(ep: Endpoint, was: Mem, from: Mem, at: nat, bufLen: nat, n: nat)
    requires bufLen <= |ep.copyBuf| && MappedPart(from, at, bufLen, bufLen)
    requires (MappedAt(from, at, bufLen); ep.copyBuf[..bufLen] == Load(from, at, bufLen))
    requires n == if bufLen > 0 && ep.recvAddr != 0 then Min(bufLen, ep.recvCap) else 0
    ensures var k := MappedPrefix(was, ep.recvAddr, n);
            && CopiedFrom(was, Handed(ep, was, bufLen).0, ep.recvAddr, from, at, k)
            && Handed(ep, was, bufLen).1 == if k == n then n else 0
  {
    hide MappedPrefix, Store, Load, CopiedFrom, MappedPart;
    var k := MappedPrefix(was, ep.recvAddr, n);
    MappedAll(was, ep.recvAddr, n);
    LoadLess(from, at, bufLen, k);
    StoredFrom(was, ep.recvAddr, from, at, k);
    if n == 0 { StoreEmpty(was, ep.recvAddr); }
  }

  lemma StoreEmpty(mem: Mem, addr: nat)
    ensures forall bytes :: bytes == [] ==> Store(mem, addr, bytes) == mem
  {
  }

  lemma SentBufTold(s: State, e: nat, words: Words4, bufLen: nat, tf: Frame, from: Mem, at: nat, q: nat)
    requires Inv(s) && !CallBufRefused(s, e, bufLen) && s.current.value in s.tasks && q in s.tasks
    requires s.current != Some(q) && bufLen <= |EndpointOf(s, e).value.copyBuf|
    requires ReceiverWaits(EndpointOf(s, e).value) ==> EndpointOf(s, e).value.owner in s.tasks
    requires MappedPart(from, at, bufLen, bufLen)
    requires (MappedAt(from, at, bufLen); EndpointOf(s, e).value.copyBuf[..bufLen] == Load(from, at, bufLen))
    ensures q in SentBuf(s, e, words, bufLen, tf).tasks
    ensures var ep, was, now := EndpointOf(s, e).value, s.tasks[q], SentBuf(s, e, words, bufLen, tf).tasks[q];
            if WaitsAt(s, e, q) then
              HandedOver(was, now, ep.recvAddr, ep.recvCap, s.current.value, words, from, at, bufLen)
            else Untouched(was, now)
  {
    hide Inv, Core, Handed, CopiedFrom, MappedPrefix, MappedPart, Load;
    InvCore(s);
    CoreEndpoints(s);
    var ep := EndpointOf(s, e).value;
    if ep.waitingReceiver.Some? { ReceiverThere(s, e); }
    if WaitsAt(s, e, q) {
      var n := if bufLen > 0 && ep.recvAddr != 0 then Min(bufLen, ep.recvCap) else 0;
      HandedTold(ep, s.tasks[q].mem, from, at, bufLen, n);
      MappedAll(s.tasks[q].mem, ep.recvAddr, n);
    }
  }

  lemma CalledBufTold(s: State, e: nat, words: Words4, userBuf: nat, bufLen: nat, tf: Frame, q: nat)
    requires Inv(s) && s.current != Some(IDLE) && q in s.tasks && s.current != Some(q)
    requires q in CalledBuf(s, e, words, userBuf, bufLen, tf).0.tasks
    ensures s.current.Some? && s.current.value in s.tasks
    ensures Told(s, CallBuf(e, words, userBuf, bufLen), q, s.tasks[q],
                 CalledBuf(s, e, words, userBuf, bufLen, tf).0.tasks[q])
  {
    hide Core, Inv, SentBuf, CallBufRefused, Loaded, Scheduled, WaitsAt, HandedOver, MappedPrefix, Load;
    InvCore(s);
    CallReady(s, e);
    CallBufReady(s, e);
    var mem := s.tasks[s.current.value].mem;
    PrefixMapped(mem, userBuf, bufLen);
    if CallBufRefused(s, e, bufLen) {
      if bufLen <= 4096 { NobodyWaitsBuf(s, e, bufLen, q); }
    } else {
      RefusedEndpoint(s, e, bufLen);
      var s1 := Loaded(s, e, userBuf, bufLen);
      LoadedKeeps(s, e, userBuf, bufLen);
      LoadedSame(s, e, userBuf, bufLen);
      if MappedPrefix(mem, userBuf, bufLen) == bufLen {
        LoadedBytes(s, e, userBuf, bufLen);
        LoadedRecv(s, e, userBuf, bufLen);
        LoadedWaits(s, e, userBuf, bufLen, q);
        MappedAll(mem, userBuf, bufLen);
        SentBufTold(s1, e, words, bufLen, tf, mem, userBuf, q);
        SentBufKeeps(s1, e, words, bufLen, tf);
        SentBufCurrent(s1, e, words, bufLen, tf);
        var s2 := SentBuf(s1, e, words, bufLen, tf);
        ScheduledUntouched(s2, tf, q);
        if WaitsAt(s, e, q) {
          var ep := s.endpoints[e].value;
          HandedOn(s.tasks[q], s2.tasks[q], Scheduled(s2, tf).tasks[q], ep.recvAddr, ep.recvCap, s.current.value, words,
                   mem, userBuf, bufLen);
        }
      }
    }
  }

  lemma HandedOn(was: Task, mid: Task, now: Task, addr: nat, cap: nat, sender: nat, words: Words4, from: Mem, at: nat,
                 bufLen: nat)
    requires HandedOver(was, mid, addr, cap, sender, words, from, at, bufLen) && Untouched(mid, now)
    ensures HandedOver(was, now, addr, cap, sender, words, from, at, bufLen)
  {
  }

  lemma NobodyWaitsBuf(s: State, e: nat, bufLen: nat, q: nat)
    requires Inv(s) && s.current != Some(q) && CallBufRefused(s, e, bufLen) && bufLen <= 4096
    ensures !WaitsAt(s, e, q)
  {
    hide Inv, Core;
    InvCore(s);
    CoreEndpoints(s);
    if WaitsAt(s, e, q) { ReceiverThere(s, e); }
  }

  lemma LoadedWaits(s: State, e: nat, userBuf: nat, bufLen: nat, q: nat)
    requires !CallBufRefused(s, e, bufLen) && s.current.value in s.tasks && bufLen <= |EndpointOf(s, e).value.copyBuf|
    ensures WaitsAt(Loaded(s, e, userBuf, bufLen), e, q) <==> WaitsAt(s, e, q)
  {
    hide Overlaid;
  }

  /** A reply wakes the caller with the words in a0 to a3, and changes no other task. */
  lemma ReplyReturns(s: State, client: nat, words: Words4, tf: Frame)
    requires Inv(s) && Possible(s, Reply(client, words))
    ensures var s', next := After(s, Reply(client, words), tf), AfterFrame(s, Reply(client, words), tf);
            && s'.current == s.current
            && (MayAnswer(s, client) ==>
                 && client in s'.tasks && s'.tasks - {client} == s.tasks - {client} && Awake(s', client)
                 && ShowsAnswer(s.tasks[client].frame, s'.tasks[client].frame, words, s.tasks[client].frame.a5)
                 && s'.tasks[client].mem == s.tasks[client].mem && Returns(tf, next, 0))
            && (!MayAnswer(s, client) ==> s' == s && Returns(tf, next, NOTHING))
  {
    hide Core, Inv;
    InvCore(s);
    if client in s.tasks { TaskAt(s, client); }
  }

  /** The caller after `ipc_reply_buf`, when k bytes could be copied out of n. */
  lemma RepliedBufIs(s: State, client: nat, words: Words4, userBuf: nat, bufLen: nat, n: nat, k: nat)
    requires Inv(s) && MayAnswer(s, client) && s.current.value in s.tasks
    requires n == Min(Min(bufLen, s.tasks[client].frame.a6), 4096)
    requires k == Min(MappedPrefix(s.tasks[s.current.value].mem, userBuf, n),
                      MappedPrefix(s.tasks[client].mem, s.tasks[client].frame.a5, n))
    requires MappedPart(s.tasks[s.current.value].mem, userBuf, k, k)
    ensures var (s', ok) := RepliedBuf(s, client, words, userBuf, bufLen);
            var was := s.tasks[client];
            && client in s'.tasks && s'.tasks - {client} == s.tasks - {client} && s'.current == s.current
            && ok == (k == n)
            && s'.tasks[client].status == (if k == n then Ready else Sleeping)
            && s'.tasks[client].waiting == (if k == n then None else was.waiting)
            && ShowsAnswer(was.frame, s'.tasks[client].frame, words, n)
            && (MappedAt(s.tasks[s.current.value].mem, userBuf, k);
                s'.tasks[client].mem == Store(was.mem, was.frame.a5, Load(s.tasks[s.current.value].mem, userBuf, k)))
  {
    hide Core, Inv, Store, Load, MappedPrefix;
    InvCore(s);
    TaskAt(s, client);
    MappedAt(s.tasks[s.current.value].mem, userBuf, k);
  }

  /**
   A reply with a buffer, where the first i of the bytes to copy are mapped in the replier and the first j in the
   caller: the caller has the words in a0 to a3, the length in a5, and the replier's first bytes at the address that it
   gave. It is woken exactly when these are all the bytes; otherwise it sleeps on, and the replier is told that the
   reply failed.
   */
  lemma ReplyBufReturns(s: State, client: nat, words: Words4, userBuf: nat, bufLen: nat, tf: Frame, i: nat, j: nat)
    requires Inv(s) && Possible(s, ReplyBuf(client, words, userBuf, bufLen)) && MayAnswer(s, client)
    requires s.current.value in s.tasks
    requires var n := Min(Min(bufLen, s.tasks[client].frame.a6), 4096);
             && MappedPart(s.tasks[s.current.value].mem, userBuf, n, i)
             && MappedPart(s.tasks[client].mem, s.tasks[client].frame.a5, n, j)
    ensures var trap, was := ReplyBuf(client, words, userBuf, bufLen), s.tasks[client];
            var s', next := After(s, trap, tf), AfterFrame(s, trap, tf);
            var n, k := Min(Min(bufLen, was.frame.a6), 4096), Min(i, j);
            && client in s'.tasks && s'.tasks - {client} == s.tasks - {client} && s'.current == s.current
            && ShowsAnswer(was.frame, s'.tasks[client].frame, words, n)
            && CopiedFrom(was.mem, s'.tasks[client].mem, was.frame.a5, s.tasks[s.current.value].mem, userBuf, k)
            && (k == n ==> Awake(s', client) && Returns(tf, next, 0))
            && (k < n ==> StillAsleep(s, s', client) && Returns(tf, next, NOTHING))
  {
    hide Core, Inv, Store, Load, MappedPrefix, CopiedFrom, RepliedBuf;
    InvCore(s);
    TaskAt(s, client);
    var was, from := s.tasks[client], s.tasks[s.current.value].mem;
    var n, k := Min(Min(bufLen, was.frame.a6), 4096), Min(i, j);
    PartIs(from, userBuf, n, i);
    PartIs(was.mem, was.frame.a5, n, j);
    RepliedBufIs(s, client, words, userBuf, bufLen, n, k);
    StoredFrom(was.mem, was.frame.a5, from, userBuf, k);
  }

  /** The same of the reply as a function of the state, for any state in which it succeeds. */
  lemma RepliedBufShows(s: State, client: nat, words: Words4, userBuf: nat, bufLen: nat)
    requires (s.current.Some? ==> s.current.value in s.tasks) && RepliedBuf(s, client, words, userBuf, bufLen).1
    ensures s.current.Some? && client in s.tasks
    ensures var s', was := RepliedBuf(s, client, words, userBuf, bufLen).0, s.tasks[client];
            var n := Min(Min(bufLen, was.frame.a6), 4096);
            && client in s'.tasks && s'.current == s.current && ShowsAnswer(was.frame, s'.tasks[client].frame, words, n)
            && CopiedFrom(was.mem, s'.tasks[client].mem, was.frame.a5, s.tasks[s.current.value].mem, userBuf, n)
  {
    hide Store, Load, MappedPrefix, CopiedFrom;
    var was, from := s.tasks[client], s.tasks[s.current.value].mem;
    var n := Min(Min(bufLen, was.frame.a6), 4096);
    MappedAll(from, userBuf, n);
    MappedAll(was.mem, was.frame.a5, n);
    StoredFrom(was.mem, was.frame.a5, from, userBuf, n);
  }

  lemma ReplyBufRefused(s: State, client: nat, words: Words4, userBuf: nat, bufLen: nat, tf: Frame)
    requires Inv(s) && Possible(s, ReplyBuf(client, words, userBuf, bufLen)) && !MayAnswer(s, client)
    ensures var trap := ReplyBuf(client, words, userBuf, bufLen);
            After(s, trap, tf) == s && Returns(tf, AfterFrame(s, trap, tf), NOTHING)
  {
    hide Core, Inv;
    InvCore(s);
  }

  lemma RepliedBufTold(s: State, client: nat, words: Words4, userBuf: nat, bufLen: nat, tf: Frame, q: nat)
    requires Inv(s) && Possible(s, ReplyBuf(client, words, userBuf, bufLen)) && q in s.tasks
    ensures s.current.Some? && s.current.value in s.tasks
    ensures var trap := ReplyBuf(client, words, userBuf, bufLen);
            q in After(s, trap, tf).tasks && Told(s, trap, q, s.tasks[q], After(s, trap, tf).tasks[q])
  {
    hide Core, Inv, MappedPrefix, CopiedFrom, After, AfterFrame, ShowsAnswer, Returns;
    InvCore(s);
    var trap := ReplyBuf(client, words, userBuf, bufLen);
    if MayAnswer(s, client) {
      var was, from := s.tasks[client], s.tasks[s.current.value].mem;
      var n := Min(Min(bufLen, was.frame.a6), 4096);
      var i, j := MappedPrefix(from, userBuf, n), MappedPrefix(was.mem, was.frame.a5, n);
      MappedAll(from, userBuf, n);
      MappedAll(was.mem, was.frame.a5, n);
      ReplyBufReturns(s, client, words, userBuf, bufLen, tf, i, j);
      if q == client {
        assert AnsweredWith(was, After(s, trap, tf).tasks[q], words, from, userBuf, n, Min(i, j));
      } else {
        assert q in s.tasks - {client};
      }
    } else {
      ReplyBufRefused(s, client, words, userBuf, bufLen, tf);
    }
  }

  lemma SleepTold(s: State, c: Channel, tf: Frame, q: nat)
    requires Inv(s) && s.current != Some(IDLE) && s.current != Some(q) && WaitOk(s, s.current.value, c)
    requires s.current.value in s.tasks && q in Scheduled(Sleep(s, s.current.value, c, tf), tf).tasks
    ensures q in s.tasks && Untouched(s.tasks[q], Scheduled(Sleep(s, s.current.value, c, tf), tf).tasks[q])
  {
    hide Core, Inv, Scheduled;
    InvCore(s);
    SleepKeeps(s, s.current.value, c, tf);
    ScheduledUntouched(Sleep(s, s.current.value, c, tf), tf, q);
  }

  lemma RecvSleepsTold(s: State, e: nat, ep: Endpoint, tf: Frame, q: nat)
    requires Inv(s) && !RecvRefused(s, e) && s.current != Some(IDLE) && s.current != Some(q)
    requires var was := EndpointOf(s, e).value;
             was.pending == []
                 && ep == was.(waitingReceiver := s.current, recvAddr := ep.recvAddr, recvCap := ep.recvCap)
    requires s.current.value in s.tasks && q in Scheduled(RecvSleeps(s, e, ep, tf), tf).tasks
    ensures q in s.tasks && Untouched(s.tasks[q], Scheduled(RecvSleeps(s, e, ep, tf), tf).tasks[q])
  {
    hide TaskOk, SlotEndpointOk, Core, Inv, Scheduled;
    InvCore(s);
    RecvReady(s, e);
    SleepReceiverKeeps(s, s.current.value, e, ep, tf);
    ScheduledUntouched(RecvSleeps(s, e, ep, tf), tf, q);
  }

  lemma ReceivedTold(s: State, e: nat, tf: Frame, q: nat)
    requires Inv(s) && s.current != Some(IDLE) && s.current != Some(q) && q in Received(s, e, tf).0.tasks
    ensures q in s.tasks && Untouched(s.tasks[q], Received(s, e, tf).0.tasks[q])
  {
    hide Core, Inv, RecvSleeps, Scheduled;
    InvCore(s);
    if !RecvRefused(s, e) && EndpointOf(s, e).value.pending == [] {
      RecvSleepsTold(s, e, EndpointOf(s, e).value.(waitingReceiver := s.current), tf, q);
    }
  }

  lemma ReceivedBufTold(s: State, e: nat, userBuf: nat, cap: nat, tf: Frame, q: nat)
    requires Inv(s) && s.current != Some(IDLE) && s.current != Some(q)
    requires q in ReceivedBuf(s, e, userBuf, cap, tf).0.tasks
    ensures q in s.tasks && Untouched(s.tasks[q], ReceivedBuf(s, e, userBuf, cap, tf).0.tasks[q])
  {
    hide Core, Inv, RecvSleeps, Scheduled, TakenBuf;
    InvCore(s);
    RecvReady(s, e);
    if !RecvRefused(s, e) && EndpointOf(s, e).value.pending == [] {
      var ep := EndpointOf(s, e).value.(waitingReceiver := s.current, recvAddr := userBuf, recvCap := cap);
      RecvSleepsTold(s, e, ep, tf, q);
    }
  }

  lemma WaitedTold(s: State, pid: nat, tf: Frame, q: nat)
    requires Inv(s) && s.current != Some(q)
    requires s.current.Some? && s.current.value in s.tasks && q in Waited(s, pid, tf).0.tasks
    ensures q in s.tasks && Untouched(s.tasks[q], Waited(s, pid, tf).0.tasks[q])
  {
    hide Core, Inv, Scheduled;
    InvCore(s);
    if s.current != Some(IDLE) && IsChild(s, pid) && s.tasks[pid].status != Zombie {
      SleepTold(s, Child(pid), tf, q);
    }
  }

  lemma ForkedTold(s: State, tf: Frame, q: nat)
    requires Inv(s) && q in s.tasks
    ensures s.current.Some? && s.current.value in s.tasks
    ensures q in Forked(s, tf).0.tasks && Untouched(s.tasks[q], Forked(s, tf).0.tasks[q])
  {
    hide Core, Inv;
    InvCore(s);
    NewPid(s);
  }

  lemma UartTold(s: State, q: nat)
    requires Core(s) && q in s.tasks
    ensures q in UartWoken(s).tasks
    ensures if s.tasks[q].waiting == Some(UartRx)
            then
              && Returns(s.tasks[q].frame, UartWoken(s).tasks[q].frame, 0)
              && UartWoken(s).tasks[q].mem == s.tasks[q].mem
            else Untouched(s.tasks[q], UartWoken(s).tasks[q])
  {
    hide Core;
    TaskAt(s, q);
  }

  lemma ExitTold(s: State, code: int, tf: Frame, q: nat)
    requires Inv(s) && Possible(s, Exit(code)) && q in s.tasks && s.current != Some(q)
    ensures s.current.Some? && s.current.value in s.tasks
    ensures q in Exited(s, code).tasks && Told(s, Exit(code), q, s.tasks[q], Exited(s, code).tasks[q])
  {
    hide Inv, Core, Pick;
    InvCore(s);
    ExitedInv(s, code);
    TaskAt(s, q);
    RunNextOnly(Zombied(s, s.current.value, code), 0, q);
  }

  /** What every trap does to the registers and the memory of every task but the one that took it. */
  lemma OthersTold(s: State, trap: Trap, tf: Frame, q: nat)
    requires Inv(s) && Possible(s, trap) && q in s.tasks && s.current != Some(q) && q in After(s, trap, tf).tasks
    ensures s.current.Some? && s.current.value in s.tasks
    ensures Told(s, trap, q, s.tasks[q], After(s, trap, tf).tasks[q])
  {
    hide Core, Inv, Scheduled, Forked, Waited, Called, Received, CalledBuf, ReceivedBuf, RepliedBuf, UartWoken,
         Exited, WaitsAt, HandedOver, AnsweredWith, ShowsAnswer, ShowsMessage;
    InvCore(s);
    match trap
    case Timer => ScheduledUntouched(s, tf, q);
    case External(uart) =>
      UartWokenKeeps(s);
      UartCurrent(s);
      UartTold(s, q);
      ScheduledUntouched(if uart then UartWoken(s) else s, tf, q);
    case Yield => ScheduledUntouched(s, tf.(a0 := 0), q);
    case Exit(code) => ExitTold(s, code, tf, q);
    case Fork(memory) => ForkedTold(s, tf, q);
    case WaitPid(pid) => WaitedTold(s, pid, tf, q);
    case Call(e, words) => CalledTold(s, e, words, tf, q);
    case Recv(e) => ReceivedTold(s, e, tf, q);
    case Reply(client, words) => ReplyTold(s, client, words, tf, q);
    case CallBuf(e, words, userBuf, bufLen) => CalledBufTold(s, e, words, userBuf, bufLen, tf, q);
    case RecvBuf(e, userBuf, cap) => ReceivedBufTold(s, e, userBuf, cap, tf, q);
    case ReplyBuf(client, words, userBuf, bufLen) => RepliedBufTold(s, client, words, userBuf, bufLen, tf, q);
    case IrqWait => if UartWaited(s, tf).Some? { SleepTold(s, UartRx, tf, q); }
    case Local(mem) =>
  }

  lemma ReplyTold(s: State, client: nat, words: Words4, tf: Frame, q: nat)
    requires Inv(s) && Possible(s, Reply(client, words)) && q in s.tasks
    ensures s.current.Some? && s.current.value in s.tasks
    ensures var s' := After(s, Reply(client, words), tf);
            q in s'.tasks && Told(s, Reply(client, words), q, s.tasks[q], s'.tasks[q])
  {
    hide Core, Inv, After, AfterFrame, ShowsAnswer, Returns;
    InvCore(s);
    ReplyReturns(s, client, words, tf);
    if q != client { assert q in s.tasks - {client}; }
  }

  // ---- What the task that took the trap leaves behind ----

  /** The task that was current in s is there in s' with registers `frame` and the memory it had. */
  ghost predicate Left(s: State, s': State, frame: Frame) {
    s.current.Some? && s.current.value in s.tasks && s.current.value in s'.tasks
    && s'.tasks[s.current.value].frame == frame && s'.tasks[s.current.value].mem == s.tasks[s.current.value].mem
  }

  lemma ScheduledLeft(s: State, s1: State, tf: Frame)
    requires Core(s1) && s1.current == s.current && s.current.Some? && s.current.value in s.tasks
    requires s.current.value in s1.tasks && s1.tasks[s.current.value].mem == s.tasks[s.current.value].mem
    ensures Left(s, Scheduled(s1, tf), tf)
  {
    hide Core, Scheduled;
    ScheduledTask(s1, tf, s.current.value);
  }

  lemma SentLeft(s: State, e: nat, words: Words4, tf: Frame)
    requires !CallRefused(s, e) && s.current.value in s.tasks
    requires ReceiverWaits(EndpointOf(s, e).value) ==> EndpointOf(s, e).value.owner in s.tasks
    ensures s.current.value in Sent(s, e, words, tf).tasks
    ensures Sent(s, e, words, tf).tasks[s.current.value].mem == s.tasks[s.current.value].mem
  {
  }

  lemma SentBufLeft(s: State, e: nat, words: Words4, bufLen: nat, tf: Frame)
    requires !CallBufRefused(s, e, bufLen) && s.current.value in s.tasks && bufLen <= |EndpointOf(s, e).value.copyBuf|
    requires ReceiverWaits(EndpointOf(s, e).value) ==> EndpointOf(s, e).value.owner in s.tasks
    ensures s.current.value in SentBuf(s, e, words, bufLen, tf).tasks
    ensures SentBuf(s, e, words, bufLen, tf).tasks[s.current.value].mem == s.tasks[s.current.value].mem
  {
    hide Handed;
  }

  lemma CalledLeft(s: State, e: nat, words: Words4, tf: Frame)
    requires Inv(s) && s.current != Some(IDLE) && Called(s, e, words, tf).1 == Blocked
    ensures Left(s, Called(s, e, words, tf).0, tf)
  {
    hide Core, Inv, Sent, CallRefused, Scheduled, Left;
    InvCore(s);
    CallReady(s, e);
    CallAccepted(s, e);
    SentLeft(s, e, words, tf);
    SentKeeps(s, e, words, tf);
    SentCurrent(s, e, words, tf);
    ScheduledLeft(s, Sent(s, e, words, tf), tf);
  }

  lemma CalledBufLeft(s: State, e: nat, words: Words4, userBuf: nat, bufLen: nat, tf: Frame)
    requires Inv(s) && s.current != Some(IDLE) && CalledBuf(s, e, words, userBuf, bufLen, tf).1 == Blocked
    ensures Left(s, CalledBuf(s, e, words, userBuf, bufLen, tf).0, tf)
  {
    hide Core, Inv, SentBuf, CallBufRefused, Loaded, Scheduled, Left;
    InvCore(s);
    CallReady(s, e);
    CallBufReady(s, e);
    RefusedEndpoint(s, e, bufLen);
    var s1 := Loaded(s, e, userBuf, bufLen);
    LoadedKeeps(s, e, userBuf, bufLen);
    LoadedSame(s, e, userBuf, bufLen);
    SentBufKeeps(s1, e, words, bufLen, tf);
    SentBufLeft(s1, e, words, bufLen, tf);
    SentBufCurrent(s1, e, words, bufLen, tf);
    ScheduledLeft(s, SentBuf(s1, e, words, bufLen, tf), tf);
  }

  lemma RecvSleepsLeft(s: State, e: nat, ep: Endpoint, tf: Frame)
    requires Inv(s) && !RecvRefused(s, e) && s.current != Some(IDLE)
    requires var was := EndpointOf(s, e).value;
             was.pending == []
                 && ep == was.(waitingReceiver := s.current, recvAddr := ep.recvAddr, recvCap := ep.recvCap)
    ensures s.current.value in s.tasks && Left(s, Scheduled(RecvSleeps(s, e, ep, tf), tf), tf)
  {
    hide TaskOk, SlotEndpointOk, Core, Inv, Scheduled, Left;
    InvCore(s);
    RecvReady(s, e);
    SleepReceiverKeeps(s, s.current.value, e, ep, tf);
    ScheduledLeft(s, RecvSleeps(s, e, ep, tf), tf);
  }

  lemma SleepLeft(s: State, c: Channel, tf: Frame)
    requires Inv(s) && s.current != Some(IDLE) && WaitOk(s, s.current.value, c)
    ensures s.current.value in s.tasks && Left(s, Scheduled(Sleep(s, s.current.value, c, tf), tf), tf)
  {
    hide Core, Inv, Scheduled, Left;
    InvCore(s);
    SleepKeeps(s, s.current.value, c, tf);
    ScheduledLeft(s, Sleep(s, s.current.value, c, tf), tf);
  }

  lemma UartLeft(s: State)
    requires Inv(s)
    ensures s.current.Some? && s.current.value in s.tasks && s.current.value in UartWoken(s).tasks
    ensures UartWoken(s).tasks[s.current.value] == s.tasks[s.current.value]
  {
    hide Core;
    InvCore(s);
    CurrentAwake(s);
  }

  /** A task that has to wait for the processor is kept with the registers it came with, 0 in a0 after a yield. */
  lemma TrapLeaves(s: State, trap: Trap, tf: Frame)
    requires Inv(s) && Possible(s, trap) && Schedules(s, trap, tf)
    ensures Left(s, After(s, trap, tf), if trap.Yield? then tf.(a0 := 0) else tf)
  {
    hide Core, Inv, Scheduled, Called, Received, CalledBuf, ReceivedBuf, UartWoken, RecvFrame, Left;
    InvCore(s);
    match trap
    case Timer => ScheduledLeft(s, s, tf);
    case External(uart) =>
      UartWokenKeeps(s);
      UartCurrent(s);
      UartLeft(s);
      ScheduledLeft(s, if uart then UartWoken(s) else s, tf);
    case Yield => ScheduledLeft(s, s, tf.(a0 := 0));
    case WaitPid(pid) => SleepLeft(s, Child(pid), tf);
    case Call(e, words) => CalledLeft(s, e, words, tf);
    case Recv(e) => ReceivedLeft(s, e, tf);
    case CallBuf(e, words, userBuf, bufLen) => CalledBufLeft(s, e, words, userBuf, bufLen, tf);
    case RecvBuf(e, userBuf, cap) => ReceivedBufLeft(s, e, userBuf, cap, tf);
    case IrqWait => SleepLeft(s, UartRx, tf);
  }

  lemma ReceivedLeft(s: State, e: nat, tf: Frame)
    requires Inv(s) && s.current != Some(IDLE) && Received(s, e, tf).1 == Blocked
    ensures Left(s, Received(s, e, tf).0, tf)
  {
    hide Core, Inv, RecvSleeps, Scheduled, Left;
    InvCore(s);
    RecvSleepsLeft(s, e, EndpointOf(s, e).value.(waitingReceiver := s.current), tf);
  }

  lemma ReceivedBufLeft(s: State, e: nat, userBuf: nat, cap: nat, tf: Frame)
    requires Inv(s) && s.current != Some(IDLE) && ReceivedBuf(s, e, userBuf, cap, tf).1 == Blocked
    ensures Left(s, ReceivedBuf(s, e, userBuf, cap, tf).0, tf)
  {
    hide Core, Inv, RecvSleeps, Scheduled, TakenBuf, Left;
    InvCore(s);
    RecvReady(s, e);
    var ep := EndpointOf(s, e).value.(waitingReceiver := s.current, recvAddr := userBuf, recvCap := cap);
    RecvSleepsLeft(s, e, ep, tf);
  }

  // ---- What ends a sleep, in the registers ----

  /** What the registers of a sleeping task keep from trap to trap: all, but in a call those that an answer uses. */
  predicate Keeps(c: Channel, was: Frame, now: Frame) {
    if c.IpcCall? then
      now.a4 == was.a4 && now.a6 == was.a6 && now.sp == was.sp && now.sepc == was.sepc && now.rest == was.rest
    else now == was
  }

  /**
   What a task finds in its registers when a trap has ended its sleep: the answer to its call, the message that came,
   the exit code of its child, or 0 for an interrupt.
   */
  ghost predicate WokenWith(s: State, trap: Trap, p: nat, was: Frame, now: Frame)
    requires Inv(s) && p in s.tasks && s.tasks[p].waiting.Some? && Ends(s, trap, p)
  {
    match s.tasks[p].waiting.value
    case Child(_) =>
      trap.Exit? && trap.code + 0x1_0000_0000_0000_0000 >= 0
          && Returns(was, now, if trap.code >= 0 then trap.code else trap.code + 0x1_0000_0000_0000_0000)
    case UartRx => Returns(was, now, 0)
    case IpcCall(e) =>
      (trap.Reply? || trap.ReplyBuf?) && exists a5: nat :: ShowsAnswer(was, now, trap.words, a5)
    case IpcRecv(e) =>
      var parcel := EventOf(s, trap).parcel;
      exists a5: nat :: ShowsMessage(was, now, parcel.sender, parcel.words, a5)
  }

  /** A task that waits at an endpoint is handed a message exactly when a call to that endpoint is taken. */
  lemma HandoffIs(s: State, d: nat, words: Words4, p: nat)
    requires Inv(s) && p in s.tasks && s.tasks[p].waiting.Some? && s.tasks[p].waiting.value.IpcRecv?
    requires s.current.Some? && s.current != Some(p)
    ensures var e, ev := s.tasks[p].waiting.value.endpoint, EventOf(s, Call(d, words));
            && (ev.Handoff? && ev.e == e <==> WaitsAt(s, d, p))
            && (ev.Handoff? ==> ev.parcel.sender == s.current.value && ev.parcel.words == words)
  {
    hide Core, Inv;
    InvCore(s);
    CoreEndpoints(s);
    TaskAt(s, p);
    if WaitsAt(s, d, p) { ReceiverThere(s, d); }
  }

  lemma HandoffBufIs(s: State, d: nat, words: Words4, userBuf: nat, bufLen: nat, p: nat)
    requires Inv(s) && p in s.tasks && s.tasks[p].waiting.Some? && s.tasks[p].waiting.value.IpcRecv?
    requires s.current.Some? && s.current.value in s.tasks && s.current != Some(p)
    ensures var e, ev := s.tasks[p].waiting.value.endpoint, EventOf(s, CallBuf(d, words, userBuf, bufLen));
            && (ev.Handoff? && ev.e == e <==>
                 WaitsAt(s, d, p) && bufLen <= 4096
                 && forall a :: userBuf <= a < userBuf + bufLen ==> a in s.tasks[s.current.value].mem)
            && (ev.Handoff? ==> ev.parcel.sender == s.current.value && ev.parcel.words == words)
  {
    hide Core, Inv, MappedPrefix, Load;
    InvCore(s);
    CoreEndpoints(s);
    TaskAt(s, p);
    PrefixMapped(s.tasks[s.current.value].mem, userBuf, bufLen);
    if WaitsAt(s, d, p) { ReceiverThere(s, d); }
  }

  lemma ToldReceiver(s: State, trap: Trap, p: nat, was: Task, now: Task)
    requires Inv(s) && Possible(s, trap) && p in s.tasks && was == s.tasks[p]
    requires was.waiting.Some? && was.waiting.value.IpcRecv?
    requires s.current.Some? && s.current.value in s.tasks && s.current != Some(p) && Told(s, trap, p, was, now)
    ensures Ends(s, trap, p) ==> WokenWith(s, trap, p, was.frame, now.frame)
    ensures !Ends(s, trap, p) ==> now.frame == was.frame && now.mem == was.mem
  {
    hide Core, Inv, CopiedFrom, MappedPart, ShowsMessage, EventOf, WaitsAt;
    match trap
    case Call(d, words) => HandoffIs(s, d, words, p);
    case CallBuf(d, words, userBuf, bufLen) => HandoffBufIs(s, d, words, userBuf, bufLen, p);
    case _ => if Ends(s, trap, p) { HandoffByCall(s, trap); }
  }

  lemma WaitsNowhere(s: State, d: nat, p: nat)
    requires Inv(s) && p in s.tasks && !(s.tasks[p].waiting.Some? && s.tasks[p].waiting.value.IpcRecv?)
    ensures !WaitsAt(s, d, p)
  {
    hide Core, Inv;
    InvCore(s);
    CoreEndpoints(s);
    if WaitsAt(s, d, p) { ReceiverThere(s, d); }
  }

  lemma ToldCaller(s: State, trap: Trap, p: nat, was: Task, now: Task)
    requires Inv(s) && Possible(s, trap) && p in s.tasks && was == s.tasks[p]
    requires was.waiting.Some? && was.waiting.value.IpcCall?
    requires s.current.Some? && s.current.value in s.tasks && s.current != Some(p) && Told(s, trap, p, was, now)
    ensures Ends(s, trap, p) ==> WokenWith(s, trap, p, was.frame, now.frame)
    ensures !Ends(s, trap, p) ==> Keeps(was.waiting.value, was.frame, now.frame)
  {
    hide Core, Inv, CopiedFrom, EventOf, WaitsAt, MayAnswer;
    match trap
    case Call(d, _) => WaitsNowhere(s, d, p); PassedKind(s, trap);
    case CallBuf(d, _, _, _) => WaitsNowhere(s, d, p); PassedKind(s, trap);
    case Reply(client, words) => AnswerIs(s, trap, p);
    case ReplyBuf(client, words, userBuf, bufLen) => AnswerIs(s, trap, p);
    case _ => if Ends(s, trap, p) { AnswererOwns(s, trap, was.waiting.value.endpoint, p); }
  }

  /** Only a reply to the caller, by a task that may answer it, ends its sleep. */
  lemma AnswerIs(s: State, trap: Trap, p: nat)
    requires Inv(s) && p in s.tasks && s.tasks[p].waiting.Some? && s.tasks[p].waiting.value.IpcCall?
    requires trap.Reply? || trap.ReplyBuf?
    ensures Ends(s, trap, p) ==> trap.client == p && MayAnswer(s, p)
    ensures !Ends(s, trap, p) && trap.Reply? && trap.client == p ==> !MayAnswer(s, p)
  {
    hide Core, Inv, RepliedBuf;
    InvCore(s);
    TaskAt(s, p);
  }

  lemma ToldWoken(s: State, trap: Trap, p: nat, was: Task, now: Task)
    requires Inv(s) && Possible(s, trap) && p in s.tasks && s.tasks[p].waiting.Some? && was == s.tasks[p]
    requires s.current.Some? && s.current.value in s.tasks && s.current != Some(p) && Told(s, trap, p, was, now)
    ensures Ends(s, trap, p) ==> WokenWith(s, trap, p, was.frame, now.frame)
    ensures !Ends(s, trap, p) ==> Keeps(was.waiting.value, was.frame, now.frame)
    ensures !Ends(s, trap, p) && !was.waiting.value.IpcCall? ==> now.mem == was.mem
  {
    hide Core, Inv, HandedOver, AnsweredWith, ShowsAnswer, ShowsMessage, EventOf, WaitsAt, MayAnswer;
    match was.waiting.value
    case IpcCall(_) => ToldCaller(s, trap, p, was, now);
    case IpcRecv(_) => ToldReceiver(s, trap, p, was, now);
    case _ =>
      if trap.Call? || trap.CallBuf? { WaitsNowhere(s, trap.endpoint, p); }
      NoCaller(s, p);
  }

  lemma NoCaller(s: State, p: nat)
    requires p in s.tasks && !(s.tasks[p].waiting.Some? && s.tasks[p].waiting.value.IpcCall?)
    ensures !MayAnswer(s, p)
  {
  }

  // ---- The histories are of what the registers show ----

  /**
   What the history of an endpoint says was delivered or answered is what registers show: a message taken from the queue
   in those that the owner goes on with, one handed over in those of the waiting owner, an answer in the client's.
   */
  lemma EventShown(s: State, trap: Trap, tf: Frame)
    requires Inv(s) && Possible(s, trap)
    ensures var s', ev := After(s, trap, tf), EventOf(s, trap);
            && (ev.Popped? ==>
                 && Owns(s, ev.e) && s'.current == s.current
                 && exists a5: nat ::
                   ShowsMessage(tf, AfterFrame(s, trap, tf), ev.parcel.sender, ev.parcel.words, a5))
            && (ev.Handoff? ==>
                 && ev.e < |s.endpoints| && s.endpoints[ev.e].Some?
                 && var q := s.endpoints[ev.e].value.owner;
                    && q in s.tasks && q in s'.tasks && Awake(s', q)
                    && exists a5: nat ::
                      ShowsMessage(s.tasks[q].frame, s'.tasks[q].frame, ev.parcel.sender, ev.parcel.words, a5))
            && (ev.Answered? ==>
                 && (trap.Reply? || trap.ReplyBuf?) && ev.client in s.tasks && ev.client in s'.tasks
                 && Awake(s', ev.client)
                 && exists a5: nat ::
                   ShowsAnswer(s.tasks[ev.client].frame, s'.tasks[ev.client].frame, trap.words, a5))
  {
    hide Core, Inv, After, AfterFrame, EventOf;
    var ev := EventOf(s, trap);
    if ev.Popped? { PoppedShown(s, trap, tf); }
    if ev.Handoff? { HandoffShown(s, trap, tf); }
    if ev.Answered? { AnsweredShown(s, trap, tf); }
  }

  lemma PoppedShown(s: State, trap: Trap, tf: Frame)
    requires Inv(s) && Possible(s, trap) && EventOf(s, trap).Popped?
    ensures var s', ev := After(s, trap, tf), EventOf(s, trap);
            && Owns(s, ev.e) && s'.current == s.current
            && exists a5: nat :: ShowsMessage(tf, AfterFrame(s, trap, tf), ev.parcel.sender, ev.parcel.words, a5)
  {
    hide Core, Inv, Scheduled, ScheduledFrame, RecvSleeps, TakenBuf, Load, MappedPrefix, RepliedBuf;
    InvCore(s);
    RecvReady(s, EventOf(s, trap).e);
    match trap
    case Recv(e) => assert ShowsMessage(tf, AfterFrame(s, trap, tf), EventOf(s, trap).parcel.sender,
                                        EventOf(s, trap).parcel.words, tf.a5);
    case RecvBuf(e, userBuf, cap) =>
      var ep := s.endpoints[e].value;
      var a5 := TakenBuf(ep, s.tasks[s.current.value].mem, userBuf, cap).1;
      assert ShowsMessage(tf, AfterFrame(s, trap, tf), EventOf(s, trap).parcel.sender, EventOf(s, trap).parcel.words,
                          a5);
  }

  lemma HandoffTo(s: State, trap: Trap)
    requires Inv(s) && EventOf(s, trap).Handoff?
    ensures var e := EventOf(s, trap).e;
            && e < |s.endpoints| && s.endpoints[e].Some?
            && var q := s.endpoints[e].value.owner;
               q in s.tasks && s.tasks[q].waiting == Some(IpcRecv(e)) && WaitsAt(s, e, q)
  {
    hide Core, Inv, Load, MappedPrefix, RepliedBuf;
    HandoffByCall(s, trap);
    InvCore(s);
    CoreEndpoints(s);
    ReceiverThere(s, EventOf(s, trap).e);
  }

  lemma HandoffShown(s: State, trap: Trap, tf: Frame)
    requires Inv(s) && Possible(s, trap) && EventOf(s, trap).Handoff?
    ensures var s', ev := After(s, trap, tf), EventOf(s, trap);
            && ev.e < |s.endpoints| && s.endpoints[ev.e].Some?
            && var q := s.endpoints[ev.e].value.owner;
               && q in s.tasks && q in s'.tasks && Awake(s', q)
               && exists a5: nat ::
                 ShowsMessage(s.tasks[q].frame, s'.tasks[q].frame, ev.parcel.sender, ev.parcel.words, a5)
  {
    hide Core, Inv, After, EventOf, Told, ShowsMessage, Ends;
    InvCore(s);
    HandoffTo(s, trap);
    var q := s.endpoints[EventOf(s, trap).e].value.owner;
    SleeperAsleep(s, q);
    WakeExactly(s, trap, tf, q);
    OthersTold(s, trap, tf, q);
    ToldWoken(s, trap, q, s.tasks[q], After(s, trap, tf).tasks[q]);
    EndsByHandoff(s, trap, q);
  }

  lemma EndsByHandoff(s: State, trap: Trap, q: nat)
    requires Inv(s) && EventOf(s, trap).Handoff? && q in s.tasks
    requires s.tasks[q].waiting == Some(IpcRecv(EventOf(s, trap).e))
    ensures Ends(s, trap, q)
  {
  }

  lemma AnsweredShown(s: State, trap: Trap, tf: Frame)
    requires Inv(s) && Possible(s, trap) && EventOf(s, trap).Answered?
    ensures var s', c := After(s, trap, tf), EventOf(s, trap).client;
            && (trap.Reply? || trap.ReplyBuf?) && c in s.tasks && c in s'.tasks && Awake(s', c)
            && exists a5: nat :: ShowsAnswer(s.tasks[c].frame, s'.tasks[c].frame, trap.words, a5)
  {
    hide Core, Inv, After, EventOf, Told, ShowsAnswer, Ends;
    InvCore(s);
    var c := EventOf(s, trap).client;
    AnsweredCaller(s, trap);
    SleeperAsleep(s, c);
    WakeExactly(s, trap, tf, c);
    OthersTold(s, trap, tf, c);
    ToldWoken(s, trap, c, s.tasks[c], After(s, trap, tf).tasks[c]);
  }

  lemma AnsweredCaller(s: State, trap: Trap)
    requires Inv(s) && EventOf(s, trap).Answered?
    ensures var c := EventOf(s, trap).client;
            c in s.tasks && s.tasks[c].waiting.Some? && s.tasks[c].waiting.value.IpcCall? && Ends(s, trap, c)
  {
    hide Core, Inv, Load, MappedPrefix, RepliedBuf;
    InvCore(s);
  }

  // ---- Where a receiver wants its bytes ----

  /** A reception that has to wait notes the owner, and with a buffer, where it is and how long. */
  lemma RecvWaits(s: State, trap: Trap, tf: Frame)
    requires Inv(s) && Possible(s, trap) && (trap.Recv? || trap.RecvBuf?) && Schedules(s, trap, tf)
    ensures var e, s' := trap.endpoint, After(s, trap, tf);
            && Owns(s, e) && e < |s'.endpoints| && s'.endpoints[e].Some? && s.current.Some?
            && s.current.value in s'.tasks && s'.tasks[s.current.value].waiting == Some(IpcRecv(e))
            && var ep, now := s.endpoints[e].value, s'.endpoints[e].value;
               && WaitsAt(s', e, s.current.value)
               && now.recvAddr == (if trap.RecvBuf? then trap.userBuf else ep.recvAddr)
               && now.recvCap == (if trap.RecvBuf? then trap.cap else ep.recvCap)
  {
    hide Core, Inv, Scheduled, TakenBuf;
    InvCore(s);
    RecvReady(s, trap.endpoint);
    var e := trap.endpoint;
    var ep := EndpointOf(s, e).value.(waitingReceiver := s.current);
    var ep' := if trap.RecvBuf? then ep.(recvAddr := trap.userBuf, recvCap := trap.cap) else ep;
    var s1 := RecvSleeps(s, e, ep', tf);
    SleepReceiverKeeps(s, s.current.value, e, ep', tf);
    assert After(s, trap, tf) == Scheduled(s1, tf);
    ScheduledEndpoints(s1, tf);
    ScheduledTask(s1, tf, s.current.value);
  }

  /** Endpoint e has a receiver that waits, with the same address and length in s and s'. */
  ghost predicate StillWaits(s: State, s': State, e: nat) {
    && e < |s.endpoints| && e < |s'.endpoints| && s.endpoints[e].Some? && s'.endpoints[e].Some?
    && s'.endpoints[e].value.owner == s.endpoints[e].value.owner
    && s'.endpoints[e].value.waitingReceiver.Some?
    && s'.endpoints[e].value.recvAddr == s.endpoints[e].value.recvAddr
    && s'.endpoints[e].value.recvCap == s.endpoints[e].value.recvCap
  }

  lemma SentWaits(s: State, e: nat, words: Words4, tf: Frame, d: nat)
    requires !CallRefused(s, e) && s.current.value in s.tasks && StillWaits(s, s, d)
    requires ReceiverWaits(EndpointOf(s, e).value) ==> EndpointOf(s, e).value.owner in s.tasks
    requires !(d == e && ReceiverWaits(EndpointOf(s, e).value))
    ensures StillWaits(s, Sent(s, e, words, tf), d)
  {
  }

  lemma SentBufWaits(s: State, e: nat, words: Words4, bufLen: nat, tf: Frame, d: nat)
    requires !CallBufRefused(s, e, bufLen) && s.current.value in s.tasks && bufLen <= |EndpointOf(s, e).value.copyBuf|
    requires ReceiverWaits(EndpointOf(s, e).value) ==> EndpointOf(s, e).value.owner in s.tasks
    requires StillWaits(s, s, d) && !(d == e && ReceiverWaits(EndpointOf(s, e).value))
    ensures StillWaits(s, SentBuf(s, e, words, bufLen, tf), d)
  {
    hide Handed;
  }

  lemma LoadedStays(s: State, e: nat, userBuf: nat, bufLen: nat, d: nat)
    requires !CallBufRefused(s, e, bufLen) && s.current.value in s.tasks && bufLen <= |EndpointOf(s, e).value.copyBuf|
    requires StillWaits(s, s, d)
    ensures StillWaits(s, Loaded(s, e, userBuf, bufLen), d)
  {
    hide Overlaid;
  }

  lemma BothWait(s: State, s1: State, s2: State, d: nat)
    requires StillWaits(s, s1, d) && StillWaits(s1, s2, d)
    ensures StillWaits(s, s2, d)
  {
  }

  lemma SameWaits(s: State, s': State, d: nat)
    requires StillWaits(s, s, d) && s'.endpoints == s.endpoints
    ensures StillWaits(s, s', d)
  {
  }

  lemma CalledWaits(s: State, e: nat, words: Words4, tf: Frame, d: nat)
    requires Inv(s) && s.current != Some(IDLE) && StillWaits(s, s, d)
    requires !(EventOf(s, Call(e, words)).Handoff? && e == d)
    ensures StillWaits(s, Called(s, e, words, tf).0, d)
  {
    hide Core, Inv, Sent, CallRefused, Scheduled, StillWaits;
    InvCore(s);
    CallReady(s, e);
    if !CallRefused(s, e) {
      CallAccepted(s, e);
      SentWaits(s, e, words, tf, d);
      ScheduledEndpoints(Sent(s, e, words, tf), tf);
      WaitsThere(s, Sent(s, e, words, tf), d);
      SameWaits(Sent(s, e, words, tf), Called(s, e, words, tf).0, d);
      BothWait(s, Sent(s, e, words, tf), Called(s, e, words, tf).0, d);
    }
  }

  lemma WaitsThere(s: State, s': State, d: nat)
    requires StillWaits(s, s', d)
    ensures StillWaits(s', s', d)
  {
  }

  lemma CalledBufWaits(s: State, e: nat, words: Words4, userBuf: nat, bufLen: nat, tf: Frame, d: nat)
    requires Inv(s) && s.current != Some(IDLE) && StillWaits(s, s, d)
    requires !(EventOf(s, CallBuf(e, words, userBuf, bufLen)).Handoff? && e == d)
    ensures StillWaits(s, CalledBuf(s, e, words, userBuf, bufLen, tf).0, d)
  {
    hide Core, Inv, SentBuf, CallBufRefused, Loaded, Scheduled, StillWaits, MappedPrefix, Load;
    InvCore(s);
    CallReady(s, e);
    CallBufReady(s, e);
    if !CallBufRefused(s, e, bufLen) {
      RefusedEndpoint(s, e, bufLen);
      var s1 := Loaded(s, e, userBuf, bufLen);
      LoadedKeeps(s, e, userBuf, bufLen);
      LoadedSame(s, e, userBuf, bufLen);
      LoadedStays(s, e, userBuf, bufLen, d);
      WaitsThere(s, s1, d);
      PrefixBounded(s.tasks[s.current.value].mem, userBuf, bufLen);
      if MappedPrefix(s.tasks[s.current.value].mem, userBuf, bufLen) == bufLen {
        var s2 := SentBuf(s1, e, words, bufLen, tf);
        CallReady(s1, e);
        SentBufWaits(s1, e, words, bufLen, tf, d);
        BothWait(s, s1, s2, d);
        ScheduledEndpoints(s2, tf);
        WaitsThere(s, s2, d);
        SameWaits(s2, Scheduled(s2, tf), d);
        BothWait(s, s2, Scheduled(s2, tf), d);
      }
    }
  }

  lemma PrefixBounded(mem: Mem, addr: nat, len: nat)
    ensures MappedPrefix(mem, addr, len) <= len
  {
  }

  lemma RecvOther(s: State, e: nat, d: nat)
    requires Inv(s) && StillWaits(s, s, d) && !RecvRefused(s, e)
    ensures d != e && e < |s.endpoints|
  {
    InvCore(s);
    CoreEndpoints(s);
    ReceiverThere(s, d);
  }

  lemma ReceivedWaits(s: State, e: nat, tf: Frame, d: nat)
    requires Inv(s) && s.current != Some(IDLE) && StillWaits(s, s, d)
    ensures StillWaits(s, Received(s, e, tf).0, d)
  {
    hide Core, Inv, Scheduled;
    InvCore(s);
    if !RecvRefused(s, e) {
      RecvOther(s, e, d);
      if EndpointOf(s, e).value.pending == [] {
        ScheduledEndpoints(RecvSleeps(s, e, EndpointOf(s, e).value.(waitingReceiver := s.current), tf), tf);
      }
    }
  }

  lemma ReceivedBufWaits(s: State, e: nat, userBuf: nat, cap: nat, tf: Frame, d: nat)
    requires Inv(s) && s.current != Some(IDLE) && StillWaits(s, s, d)
    ensures StillWaits(s, ReceivedBuf(s, e, userBuf, cap, tf).0, d)
  {
    hide Core, Inv, Scheduled, TakenBuf;
    InvCore(s);
    RecvReady(s, e);
    if !RecvRefused(s, e) {
      RecvOther(s, e, d);
      var ep := EndpointOf(s, e).value;
      if ep.pending == [] {
        ScheduledEndpoints(
          RecvSleeps(s, e, ep.(waitingReceiver := s.current, recvAddr := userBuf, recvCap := cap), tf), tf);
      }
    }
  }

  /** What an endpoint has noted for the receiver that waits stays until a message is handed over. */
  lemma AddressStays(s: State, trap: Trap, tf: Frame, d: nat)
    requires Inv(s) && Possible(s, trap) && StillWaits(s, s, d)
    requires !(EventOf(s, trap).Handoff? && EventOf(s, trap).e == d)
    ensures StillWaits(s, After(s, trap, tf), d)
  {
    hide Core, Inv, Called, CalledBuf, Received, ReceivedBuf, StillWaits, CallRefused, CallBufRefused, Load;
    InvCore(s);
    WaitsIndex(s, d);
    match trap
    case Call(e, words) => CallKind(s, e, words); CalledWaits(s, e, words, tf, d);
    case CallBuf(e, words, userBuf, bufLen) => 
      CallBufKind(s, e, words, userBuf, bufLen);
      CalledBufWaits(s, e, words, userBuf, bufLen, tf, d);
    case Recv(e) => ReceivedWaits(s, e, tf, d);
    case RecvBuf(e, userBuf, cap) => ReceivedBufWaits(s, e, userBuf, cap, tf, d);
    case _ =>
      OtherQueue(s, trap, tf, d);
      SameWaits(s, After(s, trap, tf), d);
  }

  lemma WaitsIndex(s: State, d: nat)
    requires Inv(s) && StillWaits(s, s, d)
    ensures d < MAX_ENDPOINTS
  {
    InvCore(s);
    CoreEndpoints(s);
  }
}
