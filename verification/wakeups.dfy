/**
 Which sleeping tasks can run again (src/kernel/task.rs). What ends each kind of sleep, exactly; and the exact
 condition under which some run of traps brings a task back: it is not in a set of tasks that all wait for one
 another or for owners that have gone.
 */
module Wakeups {
  import opened Wrappers
  import opened Words
  import opened Tasks
  import opened Sched
  import opened Ipc
  import opened Traps
  import opened Histories
  import opened Delivery
  import opened Lives

  // ---- What ends a sleep ----

  /** The trap ends the sleep of task p. */
  ghost predicate Ends(s: State, trap: Trap, p: nat)
    requires Inv(s) && p in s.tasks && s.tasks[p].waiting.Some?
  {
    match s.tasks[p].waiting.value
    case Child(pid) => trap.Exit? && s.current == Some(pid)
    case UartRx => trap.External? && trap.uart
    case IpcCall(e) => EventOf(s, trap) == Answered(e, p)
    case IpcRecv(e) => EventOf(s, trap).Handoff? && EventOf(s, trap).e == e
  }

  ghost predicate StillAsleep(s: State, s': State, p: nat)
    requires p in s.tasks
  {
    p in s'.tasks && s'.tasks[p].status == Sleeping && s'.tasks[p].waiting == s.tasks[p].waiting
  }

  ghost predicate Awake(s: State, p: nat) {
    p in s.tasks && (s.tasks[p].status == Ready || s.tasks[p].status == Running)
  }

  /** Task p, asleep in s, is awake in s' if `woken`, and sleeps on for the same thing if not. */
  ghost predicate Wakes(s: State, s': State, p: nat, woken: bool)
    requires p in s.tasks
  {
    if woken then Awake(s', p) else StillAsleep(s, s', p)
  }

  ghost predicate Asleep(s: State, p: nat) {
    p in s.tasks && s.tasks[p].status == Sleeping && s.tasks[p].waiting.Some? && s.current != Some(p)
  }

  lemma SleeperAsleep(s: State, p: nat)
    requires Inv(s) && p in s.tasks && s.tasks[p].waiting.Some?
    ensures Asleep(s, p) && p != IDLE
  {
    TaskAt(s, p);
  }

  lemma ScheduledWakes(s: State, s1: State, tf: Frame, p: nat, woken: bool)
    requires Core(s1) && s1.current.Some? && s1.current.value in s1.tasks
    requires p in s.tasks && Wakes(s, s1, p, woken)
    ensures Wakes(s, Scheduled(s1, tf), p, woken)
  {
    hide Core, Scheduled, Reapable;
    AliveStays(s1, p);
    ScheduledTask(s1, tf, p);
    ScheduledStatus(s1, tf, p);
  }

  lemma SleepWakes(s: State, q: nat, c: Channel, tf: Frame, p: nat)
    requires Asleep(s, p) && s.current == Some(q) && q in s.tasks
    ensures Wakes(s, Sleep(s, q, c, tf), p, false)
  {
  }

  lemma SentWakes(s: State, e: nat, words: Words4, tf: Frame, p: nat)
    requires Inv(s) && !CallRefused(s, e) && s.current.value in s.tasks && Asleep(s, p)
    requires ReceiverWaits(EndpointOf(s, e).value) ==> EndpointOf(s, e).value.owner in s.tasks
    ensures Wakes(s, Sent(s, e, words, tf), p,
                  ReceiverWaits(EndpointOf(s, e).value) && s.tasks[p].waiting == Some(IpcRecv(e)))
  {
    hide Inv, Core;
    InvCore(s);
    CoreEndpoints(s);
    TaskAt(s, p);
    if ReceiverWaits(EndpointOf(s, e).value) { ReceiverThere(s, e); }
  }

  lemma SentBufWakes(s: State, e: nat, words: Words4, bufLen: nat, tf: Frame, p: nat)
    requires Inv(s) && !CallBufRefused(s, e, bufLen) && s.current.value in s.tasks && Asleep(s, p)
    requires bufLen <= |EndpointOf(s, e).value.copyBuf|
    requires ReceiverWaits(EndpointOf(s, e).value) ==> EndpointOf(s, e).value.owner in s.tasks
    ensures Wakes(s, SentBuf(s, e, words, bufLen, tf), p,
                  ReceiverWaits(EndpointOf(s, e).value) && s.tasks[p].waiting == Some(IpcRecv(e)))
  {
    hide Inv, Core, Handed;
    InvCore(s);
    CoreEndpoints(s);
    TaskAt(s, p);
    if ReceiverWaits(EndpointOf(s, e).value) { ReceiverThere(s, e); }
  }

  lemma CalledWakes(s: State, e: nat, words: Words4, tf: Frame, p: nat)
    requires Inv(s) && s.current != Some(IDLE) && Asleep(s, p)
    ensures var ev := EventOf(s, Call(e, words));
            Wakes(s, Called(s, e, words, tf).0, p, ev.Handoff? && s.tasks[p].waiting == Some(IpcRecv(ev.e)))
  {
    hide Core, Inv, Sent, CallRefused, Scheduled, Wakes;
    InvCore(s);
    CallReady(s, e);
    SameWakes(s, s, p);
    if !CallRefused(s, e) {
      CallAccepted(s, e);
      SentWakes(s, e, words, tf, p);
      SentKeeps(s, e, words, tf);
      SentCurrent(s, e, words, tf);
      ScheduledWakes(s, Sent(s, e, words, tf), tf, p,
                     ReceiverWaits(EndpointOf(s, e).value) && s.tasks[p].waiting == Some(IpcRecv(e)));
    }
  }

  lemma SameWakes(s: State, s': State, p: nat)
    requires Asleep(s, p) && s'.tasks == s.tasks
    ensures Wakes(s, s', p, false)
  {
  }

  lemma CalledBufWakes(s: State, e: nat, words: Words4, userBuf: nat, bufLen: nat, tf: Frame, p: nat)
    requires Inv(s) && s.current != Some(IDLE) && Asleep(s, p)
    ensures var ev := EventOf(s, CallBuf(e, words, userBuf, bufLen));
            Wakes(s, CalledBuf(s, e, words, userBuf, bufLen, tf).0, p,
                  ev.Handoff? && s.tasks[p].waiting == Some(IpcRecv(ev.e)))
  {
    hide Core, Inv, SentBuf, CallBufRefused, Loaded, Scheduled, Wakes;
    InvCore(s);
    CallReady(s, e);
    CallBufReady(s, e);
    SameWakes(s, s, p);
    if !CallBufRefused(s, e, bufLen) {
      RefusedEndpoint(s, e, bufLen);
      var s1 := Loaded(s, e, userBuf, bufLen);
      LoadedKeeps(s, e, userBuf, bufLen);
      LoadedSame(s, e, userBuf, bufLen);
      SameWakes(s, s1, p);
      if MappedPrefix(s.tasks[s.current.value].mem, userBuf, bufLen) == bufLen {
        RefusedEndpoint(s1, e, bufLen);
        var woken := ReceiverWaits(EndpointOf(s1, e).value) && s.tasks[p].waiting == Some(IpcRecv(e));
        SentBufWakes(s1, e, words, bufLen, tf, p);
        WakesFrom(s, s1, SentBuf(s1, e, words, bufLen, tf), p, woken);
        SentBufKeeps(s1, e, words, bufLen, tf);
        SentBufCurrent(s1, e, words, bufLen, tf);
        ScheduledWakes(s, SentBuf(s1, e, words, bufLen, tf), tf, p, woken);
      }
    }
  }

  lemma WakesFrom(s: State, s1: State, s2: State, p: nat, woken: bool)
    requires p in s.tasks && s1.tasks == s.tasks && Wakes(s1, s2, p, woken)
    ensures Wakes(s, s2, p, woken)
  {
  }

  lemma RecvSleepsWakes(s: State, e: nat, ep: Endpoint, tf: Frame, p: nat)
    requires Inv(s) && !RecvRefused(s, e) && s.current != Some(IDLE) && Asleep(s, p)
    requires var was := EndpointOf(s, e).value;
             was.pending == []
                 && ep == was.(waitingReceiver := s.current, recvAddr := ep.recvAddr, recvCap := ep.recvCap)
    ensures s.current.value in s.tasks && Wakes(s, Scheduled(RecvSleeps(s, e, ep, tf), tf), p, false)
  {
    hide TaskOk, SlotEndpointOk, Core, Inv, Scheduled, Wakes;
    InvCore(s);
    RecvReady(s, e);
    SleepReceiverKeeps(s, s.current.value, e, ep, tf);
    RecvSleepsStill(s, e, ep, tf, p);
    ScheduledWakes(s, RecvSleeps(s, e, ep, tf), tf, p, false);
  }

  lemma RecvSleepsStill(s: State, e: nat, ep: Endpoint, tf: Frame, p: nat)
    requires Asleep(s, p) && s.current.Some? && s.current.value in s.tasks && e < |s.endpoints|
    ensures Wakes(s, RecvSleeps(s, e, ep, tf), p, false)
  {
  }

  lemma ReceivedWakes(s: State, e: nat, tf: Frame, p: nat)
    requires Inv(s) && s.current != Some(IDLE) && Asleep(s, p)
    ensures Wakes(s, Received(s, e, tf).0, p, false)
  {
    hide Core, Inv, RecvSleeps, Scheduled, Wakes;
    InvCore(s);
    SameWakes(s, s, p);
    if !RecvRefused(s, e) {
      var ep := EndpointOf(s, e).value;
      if ep.pending != [] {
        SameWakes(s, Received(s, e, tf).0, p);
      } else {
        RecvSleepsWakes(s, e, ep.(waitingReceiver := s.current), tf, p);
      }
    }
  }

  lemma FrameWakes(s: State, q: nat, frame: Frame, mem: Mem, p: nat)
    requires q in s.tasks && Asleep(s, p)
    ensures Wakes(s, WithFrame(s, q, frame, mem), p, false)
  {
  }

  lemma ReceivedBufWakes(s: State, e: nat, userBuf: nat, cap: nat, tf: Frame, p: nat)
    requires Inv(s) && s.current != Some(IDLE) && Asleep(s, p)
    ensures Wakes(s, ReceivedBuf(s, e, userBuf, cap, tf).0, p, false)
  {
    hide Core, Inv, RecvSleeps, Scheduled, TakenBuf, WithFrame, Wakes;
    InvCore(s);
    RecvReady(s, e);
    SameWakes(s, s, p);
    if !RecvRefused(s, e) {
      var ep, q := EndpointOf(s, e).value, s.current.value;
      if ep.pending != [] {
        var s1 := WithEndpoint(s, e, Taken(ep));
        FrameWakes(s1, q, s.tasks[q].frame, TakenBuf(ep, s.tasks[q].mem, userBuf, cap).0, p);
        WakesFrom(s, s1, ReceivedBuf(s, e, userBuf, cap, tf).0, p, false);
      } else {
        RecvSleepsWakes(s, e, ep.(waitingReceiver := s.current, recvAddr := userBuf, recvCap := cap), tf, p);
      }
    }
  }

  lemma RepliedWakes(s: State, client: nat, words: Words4, userBuf: nat, bufLen: nat, p: nat)
    requires Asleep(s, p) && (s.current.Some? ==> s.current.value in s.tasks)
    ensures var r := Replied(s, client, words); Wakes(s, r.0, p, client == p && r.1)
    ensures var r := RepliedBuf(s, client, words, userBuf, bufLen); Wakes(s, r.0, p, client == p && r.1)
  {
    hide Store, Load, Min;
  }

  lemma ForkedWakes(s: State, tf: Frame, p: nat)
    requires Inv(s) && Asleep(s, p)
    ensures s.current.Some? && s.current.value in s.tasks && Wakes(s, Forked(s, tf).0, p, false)
  {
    InvCore(s);
    NewPid(s);
  }

  lemma WaitedWakes(s: State, pid: nat, tf: Frame, p: nat)
    requires Inv(s) && Asleep(s, p)
    ensures s.current.Some? && s.current.value in s.tasks && Wakes(s, Waited(s, pid, tf).0, p, false)
  {
    hide Core, Inv, Scheduled, Wakes, Drop;
    InvCore(s);
    SameWakes(s, s, p);
    if s.current == Some(IDLE) || !IsChild(s, pid) {
    } else if s.tasks[pid].status == Zombie {
      DropWakes(s, pid, p);
    } else {
      SleepKeeps(s, s.current.value, Child(pid), tf);
      SleepWakes(s, s.current.value, Child(pid), tf, p);
      ScheduledWakes(s, Sleep(s, s.current.value, Child(pid), tf), tf, p, false);
    }
  }

  lemma DropWakes(s: State, pid: nat, p: nat)
    requires Asleep(s, p) && pid in s.tasks && s.tasks[pid].status == Zombie
    ensures Wakes(s, Drop(s, {pid}), p, false)
  {
  }

  lemma UartWakes(s: State, p: nat)
    requires Asleep(s, p)
    ensures Wakes(s, UartWoken(s), p, s.tasks[p].waiting == Some(UartRx))
  {
  }

  lemma ExitWakes(s: State, code: int, p: nat)
    requires Inv(s) && s.current != Some(IDLE) && -0x8000_0000 <= code < 0x8000_0000 && Asleep(s, p)
    ensures s.current.Some? && s.current.value in s.tasks
    ensures Wakes(s, Exited(s, code), p, s.tasks[p].waiting == Some(Child(s.current.value)))
  {
    hide Inv, Core, Pick;
    InvCore(s);
    ExitedInv(s, code);
    TaskAt(s, p);
    var s1 := Zombied(s, s.current.value, code);
    ZombiedKeeps(s, s.current.value, code);
    IdleReady(s1);
    RunNextOnly(s1, 0, p);
    RunNextReady(s1, 0, p);
  }

  /** A sleeping task is woken by exactly the traps that end what it waits for, and sleeps on otherwise. */
  lemma WakeExactly(s: State, trap: Trap, tf: Frame, p: nat)
    requires Inv(s) && Possible(s, trap) && p in s.tasks && s.tasks[p].waiting.Some?
    ensures Wakes(s, After(s, trap, tf), p, Ends(s, trap, p))
  {
    hide Core, Inv, Scheduled, Forked, Waited, Called, Received, Replied, CalledBuf, ReceivedBuf, RepliedBuf,
         UartWoken, WithFrame, Wakes, Exited, Passed, Taking, CallRefused, CallBufRefused, Load;
    InvCore(s);
    SleeperAsleep(s, p);
    SameWakes(s, s, p);
    match trap
    case Timer => ScheduledWakes(s, s, tf, p, false);
    case External(uart) =>
      UartWokenKeeps(s);
      UartCurrent(s);
      UartWakes(s, p);
      ScheduledWakes(s, if uart then UartWoken(s) else s, tf, p, Ends(s, trap, p));
    case Yield => ScheduledWakes(s, s, tf.(a0 := 0), p, false);
    case Exit(code) => ExitWakes(s, code, p);
    case Fork(memory) => ForkedWakes(s, tf, p);
    case WaitPid(pid) => WaitedWakes(s, pid, tf, p);
    case Call(e, words) => CalledWakes(s, e, words, tf, p); PassedKind(s, trap);
    case Recv(e) => ReceivedWakes(s, e, tf, p); TakingKind(s, e);
    case Reply(client, words) => RepliedWakes(s, client, words, 0, 0, p); ReplyKind(s, client, words, 0, 0);
    case CallBuf(e, words, userBuf, bufLen) =>
      CalledBufWakes(s, e, words, userBuf, bufLen, tf, p);
      PassedKind(s, trap);
    case RecvBuf(e, userBuf, cap) => ReceivedBufWakes(s, e, userBuf, cap, tf, p); TakingKind(s, e);
    case ReplyBuf(client, words, userBuf, bufLen) =>
      RepliedWakes(s, client, words, userBuf, bufLen, p);
      ReplyKind(s, client, words, userBuf, bufLen);
    case IrqWait =>
      if UartWaited(s, tf).Some? {
        SleepKeeps(s, s.current.value, UartRx, tf);
        SleepWakes(s, s.current.value, UartRx, tf, p);
        ScheduledWakes(s, Sleep(s, s.current.value, UartRx, tf), tf, p, false);
      }
    case Local(mem) => FrameWakes(s, s.current.value, s.tasks[s.current.value].frame, mem, p);
  }

  lemma PassedKind(s: State, trap: Trap)
    requires Inv(s) && (trap.Call? || trap.CallBuf?)
    ensures !EventOf(s, trap).Answered?
  {
    InvCore(s);
  }

  lemma TakingKind(s: State, e: nat)
    ensures !Taking(s, e).Answered? && !Taking(s, e).Handoff?
  {
  }

  lemma ReplyKind(s: State, client: nat, words: Words4, userBuf: nat, bufLen: nat)
    requires s.current.Some? ==> s.current.value in s.tasks
    ensures Replied(s, client, words).1 ==> MayReply(s, client)
    ensures RepliedBuf(s, client, words, userBuf, bufLen).1 ==> MayReply(s, client)
  {
  }

  // ---- Who can run again ----

  /** The tasks that are there and have not exited, but for idle. */
  ghost function Live(s: State): set<nat> {
    set p | p in s.tasks && p != IDLE && s.tasks[p].status != Zombie
  }

  /** Some run of traps brings task p back to the processor. */
  ghost predicate CanReturn(s: State, p: nat)
    requires Inv(s)
  {
    exists run :: CanRun(s, run) && AfterRun(s, run).current == Some(p)
  }

  /** A wait that only tasks of d could end: the child, the endpoint's owner, or anybody who could call. */
  ghost predicate HangsOn(s: State, d: set<nat>, c: Channel) {
    match c
    case Child(pid) => pid in d
    case UartRx => false
    case IpcCall(e) =>
      e < |s.endpoints| && s.endpoints[e].Some?
      && (s.endpoints[e].value.owner in Live(s) ==> s.endpoints[e].value.owner in d)
    case IpcRecv(_) => Live(s) <= d
  }

  /** Every task of d waits for tasks of d, or for an owner that has gone. */
  ghost predicate Stuck(s: State, d: set<nat>) {
    forall p :: p in d ==> p in s.tasks && s.tasks[p].waiting.Some? && HangsOn(s, d, s.tasks[p].waiting.value)
  }

  lemma CurrentLive(s: State)
    requires Inv(s)
    ensures s.current.Some? && s.current.value in s.tasks && s.tasks[s.current.value].waiting.None?
    ensures s.current != Some(IDLE) ==> s.current.value in Live(s)
  {
    CurrentAwake(s);
    InvCore(s);
  }

  lemma AnswererOwns(s: State, trap: Trap, e: nat, p: nat)
    requires Inv(s) && EventOf(s, trap) == Answered(e, p)
    ensures e < |s.endpoints| && s.endpoints[e].Some? && s.current == Some(s.endpoints[e].value.owner)
    ensures trap.Reply? || trap.ReplyBuf?
  {
    hide Inv, Core, RepliedBuf, Load, Queue;
    InvCore(s);
  }

  lemma HandoffByCall(s: State, trap: Trap)
    requires Inv(s) && EventOf(s, trap).Handoff?
    ensures trap.Call? || trap.CallBuf?
  {
    InvCore(s);
  }

  lemma StuckNotEnded(s: State, trap: Trap, d: set<nat>, p: nat)
    requires Inv(s) && Possible(s, trap) && Stuck(s, d) && p in d
    ensures !Ends(s, trap, p)
  {
    hide Inv, Core, EventOf;
    CurrentLive(s);
    if Ends(s, trap, p) {
      match s.tasks[p].waiting.value
      case Child(pid) =>
      case UartRx =>
      case IpcCall(e) => AnswererOwns(s, trap, e, p);
      case IpcRecv(e) => HandoffByCall(s, trap);
    }
  }

  /** While idle runs, nobody new comes. */
  lemma IdleAdds(s: State, trap: Trap, tf: Frame)
    requires Inv(s) && Possible(s, trap) && s.current == Some(IDLE)
    ensures After(s, trap, tf).tasks.Keys <= s.tasks.Keys
  {
    hide Inv, Core, Scheduled;
    InvCore(s);
    UartWokenKeeps(s);
    UartCurrent(s);
    var s1, s' := if trap.External? && trap.uart then UartWoken(s) else s, After(s, trap, tf);
    forall p | p in s'.tasks
      ensures p in s.tasks
    {
      ScheduledReaps(s1, tf, p);
    }
  }

  lemma LiveShrinks(s: State, trap: Trap, tf: Frame, p: nat)
    requires Inv(s) && Possible(s, trap) && p in Live(After(s, trap, tf))
    requires p < s.nextPid || s.current == Some(IDLE)
    ensures p in Live(s)
  {
    hide Inv, Core, After;
    AfterFollows(s, trap, tf);
    if s.current == Some(IDLE) { IdleAdds(s, trap, tf); }
    if p in s.tasks { InvCore(s); TaskAt(s, p); }
  }

  lemma OwnerOld(s: State, e: nat)
    requires Inv(s) && e < |s.endpoints| && s.endpoints[e].Some?
    ensures e < MAX_ENDPOINTS && s.endpoints[e].value.owner < s.nextPid
  {
    InvCore(s);
    CoreEndpoints(s);
    EndpointFacts(s, e);
  }

  /** Tasks that all wait for one another go on doing so, whatever the others do. */
  lemma StuckStep(s: State, trap: Trap, tf: Frame, d: set<nat>)
    requires Inv(s) && Possible(s, trap) && Stuck(s, d)
    ensures Stuck(After(s, trap, tf), d)
  {
    hide Inv, Core, After, Ends, Possible, Live;
    var s' := After(s, trap, tf);
    AfterFollows(s, trap, tf);
    forall p | p in d
      ensures p in s'.tasks && s'.tasks[p].waiting.Some? && HangsOn(s', d, s'.tasks[p].waiting.value)
    {
      StuckNotEnded(s, trap, d, p);
      WakeExactly(s, trap, tf, p);
      match s.tasks[p].waiting.value
      case Child(_) =>
      case UartRx =>
      case IpcCall(e) =>
        assert SameOwner(s, s', e);
        OwnerOld(s, e);
        if s'.endpoints[e].value.owner in Live(s') { LiveShrinks(s, trap, tf, s'.endpoints[e].value.owner); }
      case IpcRecv(_) =>
        CurrentLive(s);
        forall q | q in Live(s')
          ensures q in d
        {
          LiveShrinks(s, trap, tf, q);
        }
    }
  }

  /** No run brings such a task back. */
  lemma {:induction false} StuckForever(s: State, run: History, d: set<nat>, p: nat)
    requires Inv(s) && CanRun(s, run) && Stuck(s, d) && p in d
    ensures Stuck(AfterRun(s, run), d) && AfterRun(s, run).current != Some(p)
    decreases |run|
  {
    if run == [] {
      CurrentLive(s);
    } else {
      hide Inv, After, Possible, Stuck;
      AfterInv(s, run[0].0, run[0].1);
      StuckStep(s, run[0].0, run[0].1, d);
      StuckForever(After(s, run[0].0, run[0].1), run[1..], d, p);
    }
  }

  // ---- Building runs ----

  /** The run can be made from s and ends in s'. */
  ghost predicate Leads(s: State, run: History, s': State) {
    Inv(s) && CanRun(s, run) && AfterRun(s, run) == s'
  }

  lemma {:induction false} RunsJoin(s: State, a: History, s1: State, b: History, s2: State)
    requires Leads(s, a, s1) && Leads(s1, b, s2)
    ensures Leads(s, a + b, s2)
    decreases |a|
  {
    hide Leads, After, Inv, Possible;
    LeadsStep(s, a, s1);
    if a == [] {
      assert a + b == b;
    } else {
      RunsJoin(After(s, a[0].0, a[0].1), a[1..], s1, b, s2);
      assert (a + b)[1..] == a[1..] + b;
      LeadsFrom(s, a + b, s2);
    }
  }

  lemma LeadsStep(s: State, run: History, s': State)
    requires Leads(s, run, s')
    ensures run == [] ==> s' == s
    ensures run != [] ==> Inv(s) && Possible(s, run[0].0) && Leads(After(s, run[0].0, run[0].1), run[1..], s')
  {
    hide Inv, After, Possible;
    if run != [] { AfterInv(s, run[0].0, run[0].1); }
  }

  lemma LeadsFrom(s: State, run: History, s': State)
    requires Inv(s) && run != [] && Possible(s, run[0].0) && Leads(After(s, run[0].0, run[0].1), run[1..], s')
    ensures Leads(s, run, s')
  {
    hide Inv, After, Possible;
  }

  lemma {:induction false} RunFollows(s: State, run: History)
    requires Inv(s) && CanRun(s, run)
    ensures Follows(s, AfterRun(s, run))
    decreases |run|
  {
    if run == [] {
      SameGoes(s);
    } else {
      hide Inv, After, Possible, Follows, Lasts;
      AfterInv(s, run[0].0, run[0].1);
      AfterFollows(s, run[0].0, run[0].1);
      RunFollows(After(s, run[0].0, run[0].1), run[1..]);
      FollowsOn(s, After(s, run[0].0, run[0].1), AfterRun(s, run));
    }
  }

  const ANY_FRAME := Frame(0, 0, 0, 0, 0, 0, 0, 0, 0, 0)

  lemma OneTrap(s: State, trap: Trap)
    requires Inv(s) && Possible(s, trap)
    ensures Leads(s, [(trap, ANY_FRAME)], After(s, trap, ANY_FRAME)) && Inv(After(s, trap, ANY_FRAME))
  {
    hide Inv, After, Possible;
    var run := [(trap, ANY_FRAME)];
    AfterInv(s, trap, ANY_FRAME);
    LeadsNowhere(After(s, trap, ANY_FRAME));
    assert run[1..] == [];
    LeadsFrom(s, run, After(s, trap, ANY_FRAME));
  }

  lemma LeadsInv(s: State, run: History, s': State)
    requires Leads(s, run, s')
    ensures Inv(s) && Inv(s')
  {
    hide Inv;
    AlwaysInv(s, run);
  }

  /** A ready task is brought back by timer interrupts alone. */
  lemma {:induction false} TimersReach(s: State, p: nat) returns (run: History, s': State)
    requires Inv(s) && Awake(s, p) && p != IDLE
    ensures Leads(s, run, s') && s'.current == Some(p)
    decreases if s.current == Some(p) then 0 else (InvSeated(s, p); Behind(s, p) + 1)
  {
    if s.current == Some(p) {
      run, s' := [], s;
    } else {
      hide Inv, After, Behind, Possible, Leads;
      InvSeated(s, p);
      AwakeQueued(s, p);
      TimerStep(s, p);
      var s1 := After(s, Timer, ANY_FRAME);
      OneTrap(s, Timer);
      var rest;
      rest, s' := TimersReach(s1, p);
      run := [(Timer, ANY_FRAME)] + rest;
      RunsJoin(s, [(Timer, ANY_FRAME)], s1, rest, s');
    }
  }

  lemma AwakeQueued(s: State, p: nat)
    requires Inv(s) && Awake(s, p) && p != IDLE && s.current != Some(p)
    ensures Queued(s, p)
  {
    TaskAt(s, p);
  }

  lemma TimerStep(s: State, p: nat)
    requires Inv(s) && Queued(s, p) && Seated(s, p)
    ensures Possible(s, Timer) && Inv(After(s, Timer, ANY_FRAME))
    ensures var s' := After(s, Timer, ANY_FRAME);
            Awake(s', p) && (s'.current == Some(p) || (Seated(s', p) && Behind(s', p) < Behind(s, p)))
  {
    hide Inv, After, Behind;
    WaitStep(s, Timer, ANY_FRAME, p);
    AfterInv(s, Timer, ANY_FRAME);
    var s' := After(s, Timer, ANY_FRAME);
    if s'.current == Some(p) { InvCore(s'); }
  }

  /** Along a run a sleeping task is woken at some point, or sleeps to the end. */
  lemma {:induction false} WokenOnTheWay(s: State, run: History, s': State, p: nat) returns (way: History, s1: State)
    requires Leads(s, run, s') && p in s.tasks && s.tasks[p].waiting.Some?
    ensures Leads(s, way, s1) && (Awake(s1, p) || (s1 == s' && StillAsleep(s, s1, p)))
    decreases |run|
  {
    hide Inv, After, Possible, Ends, Leads;
    LeadsInv(s, run, s');
    LeadsStep(s, run, s');
    SleeperAsleep(s, p);
    if run == [] {
      way, s1 := run, s';
    } else {
      var t := After(s, run[0].0, run[0].1);
      LeadsInv(t, run[1..], s');
      WakeExactly(s, run[0].0, run[0].1, p);
      var rest;
      if Ends(s, run[0].0, p) {
        rest, s1 := [], t;
        LeadsNowhere(t);
      } else {
        rest, s1 := WokenOnTheWay(t, run[1..], s', p);
      }
      way := [run[0]] + rest;
      assert way[1..] == rest;
      LeadsFrom(s, way, s1);
    }
  }

  lemma LeadsNowhere(s: State)
    requires Inv(s)
    ensures Leads(s, [], s)
  {
  }

  /** Task q, once it runs, can end the sleep of p. */
  ghost predicate Helps(s: State, q: nat, p: nat)
    requires p in s.tasks && s.tasks[p].waiting.Some?
  {
    q != IDLE &&
    match s.tasks[p].waiting.value
    case Child(pid) => q == pid
    case UartRx => true
    case IpcCall(e) => e < |s.endpoints| && s.endpoints[e].Some? && s.endpoints[e].value.owner == q
    case IpcRecv(_) => true
  }

  /** The system call with which it does so: it exits, replies or calls. */
  lemma HelpingTrap(s: State, q: nat, p: nat) returns (trap: Trap)
    requires Inv(s) && p in s.tasks && s.tasks[p].waiting.Some? && Helps(s, q, p) && s.current == Some(q)
    ensures Possible(s, trap) && Ends(s, trap, p)
  {
    hide Core, Inv;
    InvCore(s);
    CoreEndpoints(s);
    TaskAt(s, p);
    SleeperAsleep(s, p);
    match s.tasks[p].waiting.value
    case Child(_) => trap := Exit(0);
    case UartRx => trap := External(true);
    case IpcCall(e) => trap := Reply(p, Words4(0, 0, 0, 0));
    case IpcRecv(e) =>
      trap := Call(e, Words4(0, 0, 0, 0));
      ReceiverThere(s, e);
  }

  lemma HelpLasts(s: State, s1: State, q: nat, p: nat)
    requires Follows(s, s1) && p in s.tasks && s.tasks[p].waiting.Some? && Helps(s, q, p) && StillAsleep(s, s1, p)
    ensures Helps(s1, q, p)
  {
    if s.tasks[p].waiting.value.IpcCall? { assert SameOwner(s, s1, s.tasks[p].waiting.value.endpoint); }
  }

  /** If a helper can run again, so can the task it helps. */
  lemma HelperBrings(s: State, q: nat, p: nat)
    requires Inv(s) && p in s.tasks && s.tasks[p].waiting.Some? && Helps(s, q, p) && CanReturn(s, q)
    ensures CanReturn(s, p)
  {
    hide Inv, Helps, Ends, Possible, After, Follows, Leads, CanReturn;
    var run, s1 := RunTo(s, q);
    var way, t := WokenOnTheWay(s, run, s1, p);
    SleeperAsleep(s, p);
    LeadsInv(s, way, t);
    if !Awake(t, p) {
      LeadsFollows(s, way, t);
      HelpLasts(s, t, q, p);
      var trap := HelpingTrap(t, q, p);
      WakeExactly(t, trap, ANY_FRAME, p);
      OneTrap(t, trap);
      RunsJoin(s, way, t, [(trap, ANY_FRAME)], After(t, trap, ANY_FRAME));
      way, t := way + [(trap, ANY_FRAME)], After(t, trap, ANY_FRAME);
    }
    WayReturns(s, way, t, p);
  }

  lemma RunTo(s: State, p: nat) returns (run: History, s': State)
    requires Inv(s) && CanReturn(s, p)
    ensures Leads(s, run, s') && s'.current == Some(p)
  {
    hide Inv, CanRun, AfterRun;
    run :| CanRun(s, run) && AfterRun(s, run).current == Some(p);
    s' := AfterRun(s, run);
  }

  lemma LeadsFollows(s: State, run: History, s': State)
    requires Leads(s, run, s')
    ensures Follows(s, s')
  {
    hide Inv, Follows;
    RunFollows(s, run);
  }

  /** A task that is awake after some run can run again. */
  lemma WayReturns(s: State, way: History, t: State, p: nat)
    requires Leads(s, way, t) && Awake(t, p) && p != IDLE
    ensures Inv(s) && CanReturn(s, p)
  {
    hide Inv, CanRun, AfterRun;
    LeadsInv(s, way, t);
    var rest, t' := TimersReach(t, p);
    RunsJoin(s, way, t, rest, t');
    assert CanRun(s, way + rest);
  }

  lemma AwakeReturns(s: State, p: nat)
    requires Inv(s) && Awake(s, p) && p != IDLE
    ensures CanReturn(s, p)
  {
    hide Inv, CanReturn;
    LeadsNowhere(s);
    WayReturns(s, [], s, p);
  }

  /** The serial port can always interrupt. */
  lemma UartBrings(s: State, p: nat)
    requires Inv(s) && p in s.tasks && s.tasks[p].waiting == Some(UartRx)
    ensures CanReturn(s, p)
  {
    hide Inv, After, CanReturn, Leads;
    SleeperAsleep(s, p);
    WakeExactly(s, External(true), ANY_FRAME, p);
    OneTrap(s, External(true));
    WayReturns(s, [(External(true), ANY_FRAME)], After(s, External(true), ANY_FRAME), p);
  }

  /** The live tasks that no run brings back all wait for one another. */
  lemma LostAreStuck(s: State, d: set<nat>)
    requires Inv(s) && d == set p | p in Live(s) && !CanReturn(s, p)
    ensures Stuck(s, d)
  {
    hide Inv, CanReturn;
    forall p | p in d
      ensures p in s.tasks && s.tasks[p].waiting.Some? && HangsOn(s, d, s.tasks[p].waiting.value)
    {
      LostWaits(s, p);
      match s.tasks[p].waiting.value
      case Child(pid) => if pid !in d { HelperBrings(s, pid, p); }
      case UartRx => UartBrings(s, p);
      case IpcCall(e) =>
        var owner := s.endpoints[e].value.owner;
        if owner in Live(s) && owner !in d { HelperBrings(s, owner, p); }
      case IpcRecv(_) =>
        forall q | q in Live(s)
          ensures q in d
        {
          if q !in d { HelperBrings(s, q, p); }
        }
    }
  }

  lemma LostWaits(s: State, p: nat)
    requires Inv(s) && p in Live(s) && !CanReturn(s, p)
    ensures s.tasks[p].waiting.Some?
    ensures forall c: nat :: s.tasks[p].waiting == Some(Child(c)) ==> c in Live(s)
    ensures forall e: nat :: s.tasks[p].waiting == Some(IpcCall(e)) ==> e < |s.endpoints| && s.endpoints[e].Some?
  {
    hide CanReturn;
    InvCore(s);
    TaskAt(s, p);
    if s.tasks[p].status == Ready || s.tasks[p].status == Running { AwakeReturns(s, p); }
    TaskAt(s, IDLE);
  }

  /**
   A task that has not exited can run again if and only if it is in no set of tasks that all wait for one another: for
   a child in the set, for an answer of an owner that is in the set or has gone, or for a call when there is nobody
   else who could make it.
   */
  lemma ReturnsExactly(s: State, p: nat)
    requires Inv(s) && p in Live(s)
    ensures CanReturn(s, p) <==> !exists d :: Stuck(s, d) && p in d
  {
    hide Inv, CanRun, AfterRun, Stuck;
    if CanReturn(s, p) {
      forall d | Stuck(s, d) && p in d
        ensures false
      {
        var run :| CanRun(s, run) && AfterRun(s, run).current == Some(p);
        StuckForever(s, run, d, p);
      }
    } else {
      var d := set q | q in Live(s) && !CanReturn(s, q);
      LostAreStuck(s, d);
      assert p in d;
    }
  }

  /** In particular a caller whose endpoint's owner has exited never runs again. */
  lemma CallerOfDead(s: State, p: nat, e: nat, run: History)
    requires Inv(s) && CanRun(s, run) && p in s.tasks && s.tasks[p].waiting == Some(IpcCall(e))
    requires e < |s.endpoints| && s.endpoints[e].Some? && s.endpoints[e].value.owner !in Live(s)
    ensures p in AfterRun(s, run).tasks && AfterRun(s, run).tasks[p].waiting == Some(IpcCall(e))
    ensures AfterRun(s, run).current != Some(p) && !CanReturn(s, p)
  {
    hide Inv, CanRun, AfterRun, Live, CanReturn;
    assert Stuck(s, {p});
    StuckForever(s, run, {p}, p);
    StuckSame(s, run, {p}, p);
    NeverReturns(s, {p}, p);
  }

  /** A caller can run again if and only if the endpoint's owner is alive and can run again. */
  lemma CallerReturns(s: State, p: nat, e: nat)
    requires Inv(s) && p in s.tasks && s.tasks[p].waiting == Some(IpcCall(e))
    ensures e < |s.endpoints| && s.endpoints[e].Some?
    ensures var owner := s.endpoints[e].value.owner;
            CanReturn(s, p) <==> owner in Live(s) && CanReturn(s, owner)
  {
    hide Inv, CanReturn;
    InvCore(s);
    TaskAt(s, p);
    var owner := s.endpoints[e].value.owner;
    if owner in Live(s) && CanReturn(s, owner) {
      HelperBrings(s, owner, p);
    } else {
      var d := if owner in Live(s) then set q | q in Live(s) && !CanReturn(s, q) else {};
      if owner in Live(s) { LostAreStuck(s, d); }
      StuckMore(s, d, p);
      NeverReturns(s, d + {p}, p);
    }
  }

  lemma StuckMore(s: State, d: set<nat>, p: nat)
    requires Stuck(s, d) && p in s.tasks && s.tasks[p].waiting.Some? && HangsOn(s, d, s.tasks[p].waiting.value)
    ensures Stuck(s, d + {p})
  {
    hide Live;
  }

  /** A call to an endpoint whose owner has exited is accepted like any other, and its caller is lost. */
  lemma CallToDead(s: State, e: nat, words: Words4, tf: Frame)
    requires Inv(s) && s.current != Some(IDLE) && !CallRefused(s, e) && EndpointOf(s, e).value.owner !in Live(s)
    ensures Possible(s, Call(e, words)) && Inv(After(s, Call(e, words), tf)) && s.current.Some?
    ensures !CanReturn(After(s, Call(e, words), tf), s.current.value)
  {
    hide Inv, After, CanReturn, CanRun;
    var p, trap := s.current.value, Call(e, words);
    AfterInv(s, trap, tf);
    var s' := After(s, trap, tf);
    CallEvent(s, e, words);
    CallersStep(s, trap, tf, e);
    assert p in Callers(s', e);
    AfterFollows(s, trap, tf);
    assert SameOwner(s, s', e);
    OwnerOld(s, e);
    var owner := s.endpoints[e].value.owner;
    if owner in Live(s') { LiveShrinks(s, trap, tf, owner); }
    CallerReturns(s', p, e);
  }

  lemma CallEvent(s: State, e: nat, words: Words4)
    requires Inv(s) && s.current != Some(IDLE) && !CallRefused(s, e)
    ensures s.current.Some? && e < |s.endpoints| && s.endpoints[e].Some?
    ensures s.current.value in CallersAfter(Callers(s, e), EventOf(s, Call(e, words)), e)
  {
    hide Inv;
    InvCore(s);
  }

  lemma NeverReturns(s: State, d: set<nat>, p: nat)
    requires Inv(s) && Stuck(s, d) && p in d
    ensures !CanReturn(s, p)
  {
    hide Inv, CanRun, AfterRun, Stuck;
    if CanReturn(s, p) {
      var run :| CanRun(s, run) && AfterRun(s, run).current == Some(p);
      StuckForever(s, run, d, p);
    }
  }

  lemma {:induction false} StuckSame(s: State, run: History, d: set<nat>, p: nat)
    requires Inv(s) && CanRun(s, run) && Stuck(s, d) && p in d
    ensures StillAsleep(s, AfterRun(s, run), p)
    decreases |run|
  {
    if run == [] {
      SleeperAsleep(s, p);
    } else {
      hide Inv, After, Possible, HangsOn, Ends;
      AfterInv(s, run[0].0, run[0].1);
      StuckStep(s, run[0].0, run[0].1, d);
      StuckNotEnded(s, run[0].0, d, p);
      WakeExactly(s, run[0].0, run[0].1, p);
      StuckSame(After(s, run[0].0, run[0].1), run[1..], d, p);
    }
  }
}
