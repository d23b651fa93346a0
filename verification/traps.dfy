/**
 Whole runs of the kernel (src/kernel/trap.rs, src/kernel/syscall.rs): every trap is one step, and what the manager must
 satisfy holds after any number of them.
 */
module Traps {
  import opened Wrappers
  import opened Words
  import opened Tasks
  import opened Sched
  import opened Ipc

  const NOTHING: nat := 0xFFFF_FFFF_FFFF_FFFF      // usize::MAX in a0: the call failed

  /**
   What makes the processor enter the kernel; `Local` stands for what changes only the task's own registers and
   memory.
   */
  datatype Trap =
    | Timer
    | External(uart: bool)
    | Yield
    | Exit(code: int)
    | Fork(memory: bool)
    | WaitPid(pid: nat)
    | Call(endpoint: nat, words: Words4)
    | Recv(endpoint: nat)
    | Reply(client: nat, words: Words4)
    | CallBuf(endpoint: nat, words: Words4, userBuf: nat, bufLen: nat)
    | RecvBuf(endpoint: nat, userBuf: nat, cap: nat)
    | ReplyBuf(client: nat, words: Words4, userBuf: nat, bufLen: nat)
    | IrqWait
    | Local(mem: Mem)

  /** Idle makes no system calls; exit codes are 32-bit. */
  predicate Possible(s: State, trap: Trap) {
    && (s.current == Some(IDLE) ==> trap.Timer? || trap.External?)
    && (trap.Exit? ==> -0x8000_0000 <= trap.code < 0x8000_0000)
  }

  /** The state after a trap that was taken with registers tf. */
  ghost function After(s: State, trap: Trap, tf: Frame): State
    requires Inv(s) && Possible(s, trap)
  {
    InvCore(s);
    match trap
    case Timer => Scheduled(s, tf)
    case External(uart) => Scheduled(if uart then UartWoken(s) else s, tf)
    case Yield => Scheduled(s, tf.(a0 := 0))
    case Exit(code) => Exited(s, code)
    case Fork(memory) => if memory then Forked(s, tf).0 else s
    case WaitPid(pid) => Waited(s, pid, tf).0
    case Call(e, words) => Called(s, e, words, tf).0
    case Recv(e) => Received(s, e, tf).0
    case Reply(client, words) => Replied(s, client, words).0
    case CallBuf(e, words, userBuf, bufLen) => CalledBuf(s, e, words, userBuf, bufLen, tf).0
    case RecvBuf(e, userBuf, cap) => ReceivedBuf(s, e, userBuf, cap, tf).0
    case ReplyBuf(client, words, userBuf, bufLen) => RepliedBuf(s, client, words, userBuf, bufLen).0
    case IrqWait => if UartWaited(s, tf).Some? then UartWaited(s, tf).value else s
    case Local(mem) => WithFrame(s, s.current.value, s.tasks[s.current.value].frame, mem)
  }

  /** The registers the processor goes on with after the trap. */
  ghost function AfterFrame(s: State, trap: Trap, tf: Frame): Frame
    requires Inv(s) && Possible(s, trap)
  {
    InvCore(s);
    var failed := tf.(a0 := NOTHING);
    var p := s.current.value;
    match trap
    case Timer => ScheduledFrame(s, tf)
    case External(uart) => ScheduledFrame(if uart then UartWoken(s) else s, tf)
    case Yield => ScheduledFrame(s, tf.(a0 := 0))
    case Exit(code) => if s.runnable == 0 then failed else RunFrame(Zombied(s, p, code), 0, tf)
    case Fork(memory) => if memory && Forked(s, tf).1.Some? then tf.(a0 := Forked(s, tf).1.value) else failed
    case WaitPid(pid) =>
      (match Waited(s, pid, tf).1
       case Reaped(code) => tf.(a0 := AsWord(code))
       case NoChild => failed
       case Asleep => ScheduledFrame(Sleep(s, p, Child(pid), tf), tf))
    case Call(e, words) =>
      CallReady(s, e);
      if Called(s, e, words, tf).1 == Blocked && !CallRefused(s, e) then ScheduledFrame(Sent(s, e, words, tf), tf)
          else failed
    case Recv(e) => RecvFrame(s, e, Received(s, e, tf).1, 0, 0, false, tf)
    case Reply(client, words) => if Replied(s, client, words).1 then tf.(a0 := 0) else failed
    case CallBuf(e, words, userBuf, bufLen) =>
      CallReady(s, e);
      CallBufReady(s, e);
      if CalledBuf(s, e, words, userBuf, bufLen, tf).1 == Blocked && !CallBufRefused(s, e, bufLen) then
        ScheduledFrame(SentBuf(Loaded(s, e, userBuf, bufLen), e, words, bufLen, tf), tf)
      else failed
    case RecvBuf(e, userBuf, cap) => RecvFrame(s, e, ReceivedBuf(s, e, userBuf, cap, tf).1, userBuf, cap, true, tf)
    case ReplyBuf(client, words, userBuf, bufLen) =>
      if RepliedBuf(s, client, words, userBuf, bufLen).1 then tf.(a0 := 0) else failed
    case IrqWait => if UartWaited(s, tf).Some? then ScheduledFrame(Sleep(s, p, UartRx, tf), tf) else failed
    case Local(_) => tf
  }

  ghost function RecvFrame(s: State, e: nat, r: Outcome, userBuf: nat, cap: nat, buffered: bool, tf: Frame): Frame
    requires Inv(s)
  {
    InvCore(s);
    match r
    case Continue(frame) => frame
    case Failed => tf.(a0 := NOTHING)
    case Blocked =>
      if RecvRefused(s, e) then tf
      else
        var ep := EndpointOf(s, e).value.(waitingReceiver := s.current);
        ScheduledFrame(RecvSleeps(s, e, if buffered then ep.(recvAddr := userBuf, recvCap := cap) else ep, tf), tf)
  }

  lemma PidPositive(s: State)
    requires Core(s)
    ensures s.nextPid > 0
  {
    TaskAt(s, IDLE);
  }

  /** Every trap keeps what the manager must satisfy. */
  lemma AfterInv(s: State, trap: Trap, tf: Frame)
    requires Inv(s) && Possible(s, trap)
    ensures Inv(After(s, trap, tf))
  {
    hide Core, Inv, Scheduled, Exited, Forked, Waited, Called, Received, Replied, CalledBuf, ReceivedBuf, RepliedBuf,
         UartWaited,
         UartWoken, WithFrame;
    InvCore(s);
    match trap
    case Timer => ScheduledInv(s, tf);
    case External(uart) =>
      if uart {
        UartWokenKeeps(s);
        UartCurrent(s);
        ScheduledInv(UartWoken(s), tf);
      } else {
        ScheduledInv(s, tf);
      }
    case Yield => ScheduledInv(s, tf.(a0 := 0));
    case Exit(code) => ExitedInv(s, code);
    case Fork(memory) =>
      PidPositive(s);
      ForkedInv(s, tf);
    case WaitPid(pid) => WaitedInv(s, pid, tf);
    case Call(e, words) => CalledInv(s, e, words, tf);
    case Recv(e) => ReceivedInv(s, e, tf);
    case Reply(client, words) => RepliedInv(s, client, words);
    case CallBuf(e, words, userBuf, bufLen) => CalledBufInv(s, e, words, userBuf, bufLen, tf);
    case RecvBuf(e, userBuf, cap) => ReceivedBufInv(s, e, userBuf, cap, tf);
    case ReplyBuf(client, words, userBuf, bufLen) => RepliedBufInv(s, client, words, userBuf, bufLen);
    case IrqWait => if UartWaited(s, tf).Some? { UartWaitedInv(s, tf); }
    case Local(mem) => FrameKeeps(s, s.current.value, s.tasks[s.current.value].frame, mem);
  }

  lemma UartCurrent(s: State)
    ensures UartWoken(s).current == s.current && UartWoken(s).tasks.Keys == s.tasks.Keys
  {
  }

  /** A run: traps, each with the registers it was taken with. */
  type History = seq<(Trap, Frame)>

  ghost predicate CanRun(s: State, run: History)
    requires Inv(s)
    decreases |run|
  {
    run == [] || (Possible(s, run[0].0)
        && (AfterInv(s, run[0].0, run[0].1); CanRun(After(s, run[0].0, run[0].1), run[1..])))
  }

  ghost function AfterRun(s: State, run: History): State
    requires Inv(s) && CanRun(s, run)
    decreases |run|
  {
    if run == [] then s
    else
      AfterInv(s, run[0].0, run[0].1);
      AfterRun(After(s, run[0].0, run[0].1), run[1..])
  }

  /** After any number of traps the state is consistent. */
  lemma {:induction false} AlwaysInv(s: State, run: History)
    requires Inv(s) && CanRun(s, run)
    ensures Inv(AfterRun(s, run))
    decreases |run|
  {
    if run != [] {
      AfterInv(s, run[0].0, run[0].1);
      AlwaysInv(After(s, run[0].0, run[0].1), run[1..]);
    }
  }
}
