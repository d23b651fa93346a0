/**
 Registers across whole runs (src/kernel/task.rs, src/kernel/trap.rs): an interrupt is invisible to the task that it
 interrupts, a task that sleeps goes on with what it slept for, and a call comes back with the words of the reply.
 */
module Resuming {
  import opened Wrappers
  import opened Words
  import opened Tasks
  import opened Sched
  import opened Ipc
  import opened Traps
  import opened Histories
  import opened Delivery
  import opened Lives
  import opened Wakeups
  import opened Registers

  /** The state in which a run first chooses task p, and the registers with which the processor then goes on. */
  ghost function Return(s: State, run: History, p: nat): Option<(State, Frame)>
    requires Inv(s) && CanRun(s, run)
    decreases |run|
  {
    if run == [] then None
    else
      AfterInv(s, run[0].0, run[0].1);
      var s' := After(s, run[0].0, run[0].1);
      if s'.current == Some(p) then Some((s', AfterFrame(s, run[0].0, run[0].1))) else Return(s', run[1..], p)
  }

  lemma ReadyUntold(s: State, trap: Trap, q: nat, was: Task, now: Task)
    requires Inv(s) && Queued(s, q) && was == s.tasks[q] && s.current.Some? && s.current.value in s.tasks
    requires Told(s, trap, q, was, now)
    ensures Untouched(was, now)
  {
    hide Core, Inv, HandedOver, AnsweredWith, ShowsAnswer, ShowsMessage;
    InvCore(s);
    CoreEndpoints(s);
    TaskAt(s, q);
    if (trap.Call? || trap.CallBuf?) && WaitsAt(s, trap.endpoint, q) { ReceiverThere(s, trap.endpoint); }
  }

  /** A ready task that waits for the processor keeps its registers and memory, and is chosen or waits on. */
  lemma ReadyKeeps(s: State, trap: Trap, tf: Frame, p: nat)
    requires Inv(s) && Possible(s, trap) && Queued(s, p)
    ensures var s' := After(s, trap, tf);
            && (s'.current == Some(p) || Queued(s', p))
            && p in s'.tasks && Untouched(s.tasks[p], s'.tasks[p])
  {
    hide Core, Inv, After, Told, Schedules, Behind, Untouched;
    InvSeated(s, p);
    if trap.Exit? {
      ExitQueued(s, trap, tf, p);
    } else {
      WaitStep(s, trap, tf, p);
    }
    AfterInv(s, trap, tf);
    InvCore(After(s, trap, tf));
    OthersTold(s, trap, tf, p);
    ReadyUntold(s, trap, p, s.tasks[p], After(s, trap, tf).tasks[p]);
  }

  /** Which traps let the processor go on with another task than before: those that call the scheduler, and exits. */
  lemma StaysUnlessScheduled(s: State, trap: Trap, tf: Frame)
    requires Inv(s) && Possible(s, trap) && !Schedules(s, trap, tf) && !trap.Exit?
    ensures After(s, trap, tf).current == s.current
  {
    hide Core, Inv, Scheduled, Sent, SentBuf, RecvSleeps, Overlaid, MappedPrefix, Store, Load, TakenBuf, CallRefused,
         CallBufRefused;
    InvCore(s);
  }

  /** In every run, a ready task that is chosen goes on with the registers and the memory with which it became ready. */
  lemma {:induction false} ReadyResumes(s: State, run: History, p: nat)
    requires Inv(s) && CanRun(s, run) && Queued(s, p) && Return(s, run, p).Some?
    ensures var (s', next) := Return(s, run, p).value;
            p in s'.tasks && next == s.tasks[p].frame && s'.tasks[p].mem == s.tasks[p].mem
    decreases |run|
  {
    hide Core, Inv, After, AfterFrame, Possible, Schedules;
    var trap, tf := run[0].0, run[0].1;
    AfterInv(s, trap, tf);
    ReadyKeeps(s, trap, tf, p);
    if After(s, trap, tf).current == Some(p) {
      if !Schedules(s, trap, tf) && !trap.Exit? { StaysUnlessScheduled(s, trap, tf); }
      ChosenGoesOn(s, trap, tf);
    } else {
      ReadyResumes(After(s, trap, tf), run[1..], p);
    }
  }

  /**
   An interrupt is invisible to the task that it interrupts: in every run, when that task goes on, it has the registers
   and the memory it had. A task that yields finds 0 in a0 and nothing else changed.
   */
  lemma InterruptInvisible(s: State, run: History)
    requires Inv(s) && CanRun(s, run) && s.current.Some? && s.current != Some(IDLE)
    requires run != [] && (run[0].0.Timer? || run[0].0.External? || run[0].0.Yield?)
    requires Return(s, run, s.current.value).Some?
    ensures var c, tf, (s', next) := s.current.value, run[0].1, Return(s, run, s.current.value).value;
            && c in s.tasks && c in s'.tasks && s'.tasks[c].mem == s.tasks[c].mem
            && (if run[0].0.Yield? then Returns(tf, next, 0) else next == tf)
  {
    hide Core, Inv, After, AfterFrame;
    var c, trap, tf := s.current.value, run[0].0, run[0].1;
    AfterInv(s, trap, tf);
    TrapLeaves(s, trap, tf);
    ChosenGoesOn(s, trap, tf);
    if After(s, trap, tf).current != Some(c) {
      Preempted(s, trap, tf);
      ReadyResumes(After(s, trap, tf), run[1..], c);
    }
  }

  /** A task that is interrupted, or yields, is ready or goes on. */
  lemma Preempted(s: State, trap: Trap, tf: Frame)
    requires Inv(s) && Possible(s, trap) && s.current.Some? && s.current != Some(IDLE)
    requires trap.Timer? || trap.External? || trap.Yield?
    ensures After(s, trap, tf).current == s.current || Queued(After(s, trap, tf), s.current.value)
  {
    hide Core, Inv, Scheduled, UartWoken, Reapable;
    InvCore(s);
    var c, s' := s.current.value, After(s, trap, tf);
    var s1 := if trap.External? && trap.uart then UartWoken(s) else s;
    UartWokenKeeps(s);
    UartCurrent(s);
    UartLeft(s);
    AliveStays(s1, c);
    ScheduledStatus(s1, if trap.Yield? then tf.(a0 := 0) else tf, c);
    AfterInv(s, trap, tf);
    OneRunning(s', c);
  }

  lemma WokenOn(s: State, trap: Trap, p: nat, was: Frame, mid: Frame, now: Frame)
    requires Inv(s) && p in s.tasks && s.tasks[p].waiting.Some? && Ends(s, trap, p)
    requires Keeps(s.tasks[p].waiting.value, was, mid) && WokenWith(s, trap, p, mid, now)
    ensures WokenWith(s, trap, p, was, now)
  {
    hide Inv, EventOf, Ends;
    if s.tasks[p].waiting.value.IpcCall? {
      var a5: nat :| ShowsAnswer(mid, now, trap.words, a5);
      assert ShowsAnswer(was, now, trap.words, a5);
    }
  }

  /** A trap that ends a sleep, with the state and the registers in which it is taken. */
  datatype Ended = Ended(s: State, trap: Trap, tf: Frame)

  /** The first trap of a run that ends the sleep of task p. */
  ghost function Ending(s: State, run: History, p: nat): (r: Option<Ended>)
    requires Inv(s) && CanRun(s, run) && p in s.tasks && s.tasks[p].waiting.Some?
    ensures r.Some? ==> Inv(r.value.s) && Possible(r.value.s, r.value.trap) && p in r.value.s.tasks
    ensures r.Some? ==> r.value.s.tasks[p].waiting == s.tasks[p].waiting && Ends(r.value.s, r.value.trap, p)
    decreases |run|
  {
    if run == [] then None
    else if Ends(s, run[0].0, p) then Some(Ended(s, run[0].0, run[0].1))
    else
      AfterInv(s, run[0].0, run[0].1);
      WakeExactly(s, run[0].0, run[0].1, p);
      Ending(After(s, run[0].0, run[0].1), run[1..], p)
  }

  /**
   In every run, a task that sleeps goes on after a trap that ends its sleep, with what that trap brought: the words of
   the owner's reply to its call, the message of the caller, the exit code of its child. Nothing else in its registers
   has changed since it went to sleep; nor has anything in its memory, unless it called, before that trap, or after it.
   */
  lemma {:induction false} SleeperReturns(s: State, run: History, p: nat)
    requires Inv(s) && CanRun(s, run) && p in s.tasks && s.tasks[p].waiting.Some? && Return(s, run, p).Some?
    ensures Ending(s, run, p).Some?
    ensures var z := Ending(s, run, p).value;
            var (s2, next) := Return(s, run, p).value;
            var s1 := After(z.s, z.trap, z.tf);
            && WokenWith(z.s, z.trap, p, s.tasks[p].frame, next)
            && p in s1.tasks && p in s2.tasks && next == s1.tasks[p].frame && s2.tasks[p].mem == s1.tasks[p].mem
            && Keeps(s.tasks[p].waiting.value, s.tasks[p].frame, z.s.tasks[p].frame)
            && (!s.tasks[p].waiting.value.IpcCall? ==> Untouched(s.tasks[p], z.s.tasks[p]))
    decreases |run|
  {
    hide Core, Inv, After, AfterFrame, Possible, Schedules, Ends, Told, WokenWith;
    var trap, tf := run[0].0, run[0].1;
    var s' := After(s, trap, tf);
    AfterInv(s, trap, tf);
    SleeperStep(s, trap, tf, p);
    if Ends(s, trap, p) {
      if s'.current != Some(p) {
        ReadyResumes(s', run[1..], p);
      }
    } else {
      SleeperReturns(s', run[1..], p);
      var z := Ending(s', run[1..], p).value;
      WokenOn(z.s, z.trap, p, s.tasks[p].frame, s'.tasks[p].frame, Return(s, run, p).value.1);
    }
  }

  /** One trap, for a task that sleeps: it sleeps on, or it is woken and chosen at once, or ready. */
  lemma SleeperStep(s: State, trap: Trap, tf: Frame, p: nat)
    requires Inv(s) && Possible(s, trap) && p in s.tasks && s.tasks[p].waiting.Some?
    ensures p in After(s, trap, tf).tasks
    ensures var was, s' := s.tasks[p], After(s, trap, tf);
            var now := s'.tasks[p];
            if Ends(s, trap, p) then
              && WokenWith(s, trap, p, was.frame, now.frame)
              && (s'.current == Some(p) ==> AfterFrame(s, trap, tf) == now.frame)
              && (s'.current != Some(p) ==> Queued(s', p))
            else
              && now.waiting == was.waiting && Keeps(was.waiting.value, was.frame, now.frame) && s'.current != Some(p)
              && (!was.waiting.value.IpcCall? ==> Untouched(was, now))
  {
    hide Core, Inv, After, AfterFrame, Possible, Schedules, Ends, Told, WokenWith;
    var s' := After(s, trap, tf);
    SleeperAsleep(s, p);
    InvCore(s);
    AfterInv(s, trap, tf);
    InvCore(s');
    WakeExactly(s, trap, tf, p);
    OthersTold(s, trap, tf, p);
    ToldWoken(s, trap, p, s.tasks[p], s'.tasks[p]);
    OneRunning(s', p);
    if s'.current == Some(p) {
      if !Schedules(s, trap, tf) && !trap.Exit? { StaysUnlessScheduled(s, trap, tf); }
      ChosenGoesOn(s, trap, tf);
    }
  }

  lemma CallerSleeps(s: State, trap: Trap, tf: Frame)
    requires Inv(s) && Possible(s, trap) && (trap.Call? || trap.CallBuf?) && Schedules(s, trap, tf)
    ensures s.current.Some? && s.current.value in After(s, trap, tf).tasks
    ensures After(s, trap, tf).tasks[s.current.value].waiting == Some(IpcCall(trap.endpoint))
    ensures After(s, trap, tf).tasks[s.current.value].frame == tf && After(s, trap, tf).current != s.current
  {
    hide Core, Inv, After, Called, CalledBuf, CallRefused, CallBufRefused, Load;
    InvCore(s);
    var e, s' := trap.endpoint, After(s, trap, tf);
    CallKnown(s, trap, tf);
    CallersStep(s, trap, tf, e);
    assert s.current.value in Callers(s', e);
    TrapLeaves(s, trap, tf);
    AfterInv(s, trap, tf);
    CurrentAwake(s');
  }

  /** A call that is taken is in the log of its endpoint. */
  lemma CallKnown(s: State, trap: Trap, tf: Frame)
    requires Inv(s) && Possible(s, trap) && (trap.Call? || trap.CallBuf?) && Schedules(s, trap, tf)
    ensures var ev := EventOf(s, trap);
            (ev.Enqueued? || ev.Handoff?) && ev.e == trap.endpoint && s.current == Some(ev.parcel.sender)
                && trap.endpoint < MAX_ENDPOINTS
  {
    hide Core, Inv, Load, MappedPrefix, Scheduled, Sent, SentBuf, Loaded;
    InvCore(s);
    CoreEndpoints(s);
  }

  /** A reply that ends a call has brought all of its bytes. */
  lemma AnswerBytes(s: State, trap: Trap, tf: Frame, c: nat)
    requires Inv(s) && Possible(s, trap)
    requires c in s.tasks && s.tasks[c].waiting.Some? && s.tasks[c].waiting.value.IpcCall?
    requires Ends(s, trap, c) && (trap.Reply? || trap.ReplyBuf?) && s.current.Some? && s.current.value in s.tasks
    ensures c in After(s, trap, tf).tasks
    ensures var was, now := s.tasks[c], After(s, trap, tf).tasks[c];
            && (trap.Reply? ==> now.mem == was.mem)
            && (trap.ReplyBuf? ==>
                 var n := Min(Min(trap.bufLen, was.frame.a6), 4096);
                 && ShowsAnswer(was.frame, now.frame, trap.words, n)
                 && CopiedFrom(was.mem, now.mem, was.frame.a5, s.tasks[s.current.value].mem, trap.userBuf, n))
  {
    hide Core, Inv, After, AfterFrame, Ends, EventOf, ShowsAnswer, CopiedFrom, MappedPrefix, MappedPart, Returns;
    AnswerIs(s, trap, c);
    WakeExactly(s, trap, tf, c);
    if trap.Reply? {
      ReplyReturns(s, c, trap.words, tf);
    } else {
      var was, from := s.tasks[c], s.tasks[s.current.value].mem;
      var n := Min(Min(trap.bufLen, was.frame.a6), 4096);
      MappedAll(from, trap.userBuf, n);
      MappedAll(was.mem, was.frame.a5, n);
      var i, j := MappedPrefix(from, trap.userBuf, n), MappedPrefix(was.mem, was.frame.a5, n);
      ReplyBufReturns(s, c, trap.words, trap.userBuf, trap.bufLen, tf, i, j);
      PrefixBounded(from, trap.userBuf, n);
      PrefixBounded(was.mem, was.frame.a5, n);
    }
  }

  /**
   A call is answered as a procedure call is: in every run in which the caller goes on, the owner of the endpoint has
   replied to it, and the caller has the words of that reply in a0 to a3 and otherwise, but for a5, the registers with
   which it called; and of a reply with a buffer the replier's bytes, all of them, where its saved a5 said.
   */
  lemma CallComesBack(s: State, run: History)
    requires Inv(s) && CanRun(s, run) && run != [] && s.current.Some? && s.current.value in s.tasks
    requires (run[0].0.Call? || run[0].0.CallBuf?) && Schedules(s, run[0].0, run[0].1)
    requires Return(s, run, s.current.value).Some?
    ensures var c, e, tf, s' := s.current.value, run[0].0.endpoint, run[0].1, After(s, run[0].0, run[0].1);
            && Inv(s') && CanRun(s', run[1..]) && c in s'.tasks && s'.tasks[c].waiting == Some(IpcCall(e))
            && Ending(s', run[1..], c).Some?
            && var z := Ending(s', run[1..], c).value;
               && Owns(z.s, e) && (z.trap.Reply? || z.trap.ReplyBuf?) && z.trap.client == c
               && z.s.current.Some? && z.s.current.value in z.s.tasks && c in z.s.tasks
               && c in Return(s, run, c).value.0.tasks
               && var (s2, next) := Return(s, run, c).value;
                  && (exists a5: nat :: ShowsAnswer(tf, next, z.trap.words, a5))
                  && (z.trap.Reply? ==> s2.tasks[c].mem == z.s.tasks[c].mem)
                  && (z.trap.ReplyBuf? ==>
                       var n := Min(Min(z.trap.bufLen, tf.a6), 4096);
                       ShowsAnswer(tf, next, z.trap.words, n)
                       && CopiedFrom(z.s.tasks[c].mem, s2.tasks[c].mem, z.s.tasks[c].frame.a5,
                                     z.s.tasks[z.s.current.value].mem, z.trap.userBuf, n))
  {
    hide Core, Inv, After, AfterFrame, Schedules, EventOf;
    var c, e, trap, tf := s.current.value, run[0].0.endpoint, run[0].0, run[0].1;
    var s' := After(s, trap, tf);
    AfterInv(s, trap, tf);
    CallerSleeps(s, trap, tf);
    SleeperReturns(s', run[1..], c);
    var z := Ending(s', run[1..], c).value;
    AnswererOwns(z.s, z.trap, e, c);
    AnswerIs(z.s, z.trap, c);
    InvCore(z.s);
    SleeperAsleep(z.s, c);
    AnswerBytes(z.s, z.trap, z.tf, c);
  }

  /** When the sleep of a receiver ends, the endpoint has the address and the length that it had when it began. */
  lemma {:induction false} AddressAtEnd(s: State, run: History, p: nat, e: nat)
    requires Inv(s) && CanRun(s, run) && p in s.tasks && s.tasks[p].waiting == Some(IpcRecv(e)) && StillWaits(s, s, e)
    requires Ending(s, run, p).Some?
    ensures StillWaits(s, Ending(s, run, p).value.s, e)
    decreases |run|
  {
    hide Inv, After, Possible, StillWaits, EventOf;
    if !Ends(s, run[0].0, p) {
      var s' := After(s, run[0].0, run[0].1);
      AfterInv(s, run[0].0, run[0].1);
      WakeExactly(s, run[0].0, run[0].1, p);
      AddressStays(s, run[0].0, run[0].1, e);
      WaitsThere(s, s', e);
      AddressAtEnd(s', run[1..], p, e);
      BothWait(s, s', Ending(s', run[1..], p).value.s, e);
    }
  }

  /**
   A reception with a buffer that had to wait: in every run in which the receiver goes on, somebody has called it, and
   it has the caller and the words in its registers, and of the caller's buffer as much as fits at the address that it
   gave. A call without a buffer leaves its a5 and its memory as they were.
   */
  lemma ReceptionComesBack(s: State, run: History)
    requires Inv(s) && CanRun(s, run) && run != [] && s.current.Some? && s.current.value in s.tasks
    requires run[0].0.RecvBuf? && Schedules(s, run[0].0, run[0].1) && Return(s, run, s.current.value).Some?
    ensures var p, recv, tf := s.current.value, run[0].0, run[0].1;
            var s' := After(s, recv, tf);
            var (s2, next) := Return(s, run, p).value;
            && Inv(s') && CanRun(s', run[1..]) && p in s'.tasks && s'.tasks[p].waiting == Some(IpcRecv(recv.endpoint))
            && Ending(s', run[1..], p).Some? && p in s2.tasks
            && var z := Ending(s', run[1..], p).value;
               && (z.trap.Call? || z.trap.CallBuf?) && z.trap.endpoint == recv.endpoint
               && z.s.current.Some? && z.s.current.value in z.s.tasks
               && var was, now := s.tasks[p].(frame := tf), s2.tasks[p].(frame := next);
                  if z.trap.Call? then
                    ShowsMessage(tf, next, z.s.current.value, z.trap.words, tf.a5) && now.mem == was.mem
                  else
                    HandedOver(was, now, recv.userBuf, recv.cap, z.s.current.value, z.trap.words,
                               z.s.tasks[z.s.current.value].mem, z.trap.userBuf, z.trap.bufLen)
  {
    hide Core, Inv, After, AfterFrame, Schedules, EventOf, HandedOver, ShowsMessage, WokenWith, Possible;
    var p, recv, tf := s.current.value, run[0].0, run[0].1;
    var s' := After(s, recv, tf);
    AfterInv(s, recv, tf);
    RecvWaits(s, recv, tf);
    TrapLeaves(s, recv, tf);
    AfterInv(s, recv, tf);
    CurrentAwake(s');
    SleeperReturns(s', run[1..], p);
    var z := Ending(s', run[1..], p).value;
    AddressAtEnd(s', run[1..], p, recv.endpoint);
    InvCore(z.s);
    SleeperAsleep(z.s, p);
    HandoffByCall(z.s, z.trap);
    OthersTold(z.s, z.trap, z.tf, p);
    var s1 := After(z.s, z.trap, z.tf);
    var (s2, next) := Return(s, run, p).value;
    HandoffWaits(z.s, z.trap, p);
    if z.trap.CallBuf? {
      HandedSame(z.s.tasks[p], s1.tasks[p], s.tasks[p].(frame := tf), s2.tasks[p].(frame := next), recv.userBuf,
                 recv.cap, z.s.current.value, z.trap.words, z.s.tasks[z.s.current.value].mem, z.trap.userBuf,
                 z.trap.bufLen);
    }
  }

  lemma HandedSame(was: Task, now: Task, was': Task, now': Task, addr: nat, cap: nat, sender: nat, words: Words4,
                   from: Mem, at: nat, bufLen: nat)
    requires HandedOver(was, now, addr, cap, sender, words, from, at, bufLen)
    requires Untouched(was, was') && Untouched(now, now')
    ensures HandedOver(was', now', addr, cap, sender, words, from, at, bufLen)
  {
  }

  lemma HandoffWaits(s: State, trap: Trap, p: nat)
    requires Inv(s) && p in s.tasks && s.tasks[p].waiting.Some? && s.tasks[p].waiting.value.IpcRecv? && Ends(s, trap, p)
    requires s.current.Some? && s.current.value in s.tasks && s.current != Some(p) && (trap.Call? || trap.CallBuf?)
    ensures trap.endpoint == s.tasks[p].waiting.value.endpoint && WaitsAt(s, trap.endpoint, p)
    ensures trap.CallBuf? ==>
              trap.bufLen <= 4096
              && forall a :: trap.userBuf <= a < trap.userBuf + trap.bufLen ==> a in s.tasks[s.current.value].mem
  {
    hide Inv, EventOf, WaitsAt;
    match trap
    case Call(e, words) => HandoffIs(s, e, words, p); CallKind(s, e, words);
    case CallBuf(e, words, userBuf, bufLen) =>
      HandoffBufIs(s, e, words, userBuf, bufLen, p);
      CallBufKind(s, e, words, userBuf, bufLen);
  }
}
