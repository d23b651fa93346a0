/**
 The task manager (src/kernel/task.rs) with its task and endpoint tables changed in place. Each method does to the
 manager what the functions of Sched and Ipc do to its state.
 */
module Kernel {
  import opened Wrappers
  import opened Words
  import opened Tasks
  import opened Sched
  import opened Ipc
  import opened Traps
  import opened Delivery
  import opened Registers

  type TaskTable = seq<Option<Task>>

  function OrderOf(ts: TaskTable): (o: seq<Option<nat>>)
    ensures |o| == |ts| && forall i :: 0 <= i < |ts| ==> o[i] == if ts[i].Some? then Some(ts[i].value.pid) else None
  {
    seq(|ts|, i requires 0 <= i < |ts| => if ts[i].Some? then Some(ts[i].value.pid) else None)
  }

  /** The table holds the tasks of the map, each in its slot. */
  ghost predicate Holds(ts: TaskTable, table: map<nat, Task>, slot: map<nat, nat>) {
    && |ts| == MAX_TASKS && slot.Keys == table.Keys
    && (forall i {:trigger ts[i]} :: 0 <= i < MAX_TASKS && ts[i].Some? ==>
         ts[i].value.pid in table && table[ts[i].value.pid] == ts[i].value && slot[ts[i].value.pid] == i)
    && (forall p {:trigger slot[p]} :: p in slot ==>
        slot[p] < MAX_TASKS && ts[slot[p]] == Some(table[p]) && table[p].pid == p)
  }

  /** The index of the task with a pid, the length of the table if there is none. */
  function Position(ts: TaskTable, pid: nat, i: nat): (r: nat)
    requires i <= |ts|
    ensures i <= r <= |ts|
    ensures r < |ts| ==> ts[r].Some? && ts[r].value.pid == pid
    ensures forall j :: i <= j < r ==> ts[j].None? || ts[j].value.pid != pid
    decreases |ts| - i
  {
    if i == |ts| || (ts[i].Some? && ts[i].value.pid == pid) then i else Position(ts, pid, i + 1)
  }

  lemma PositionIs(ts: TaskTable, table: map<nat, Task>, slot: map<nat, nat>, pid: nat)
    requires Holds(ts, table, slot)
    ensures Position(ts, pid, 0) == if pid in table then slot[pid] else MAX_TASKS
    ensures pid in table ==> ts[slot[pid]] == Some(table[pid]) && slot[pid] < MAX_TASKS
  {
    if pid in table {
      assert ts[slot[pid]] == Some(table[pid]);
    }
  }

  lemma SetHolds(ts: TaskTable, table: map<nat, Task>, slot: map<nat, nat>, i: nat, t: Task)
    requires Holds(ts, table, slot) && i < MAX_TASKS && ts[i].Some? && ts[i].value.pid == t.pid
    ensures Holds(ts[i := Some(t)], table[t.pid := t], slot) && OrderOf(ts[i := Some(t)]) == OrderOf(ts)
  {
  }

  lemma RemoveHolds(ts: TaskTable, table: map<nat, Task>, slot: map<nat, nat>, i: nat)
    requires Holds(ts, table, slot) && i < MAX_TASKS && ts[i].Some?
    ensures Holds(ts[i := None], table - {ts[i].value.pid}, slot - {ts[i].value.pid})
  {
  }

  lemma InsertHolds(ts: TaskTable, table: map<nat, Task>, slot: map<nat, nat>, i: nat, t: Task)
    requires Holds(ts, table, slot) && i < MAX_TASKS && ts[i].None? && t.pid !in table
    ensures Holds(ts[i := Some(t)], table[t.pid := t], slot[t.pid := i])
    ensures OrderOf(ts[i := Some(t)]) == OrderOf(ts)[i := Some(t.pid)]
  {
  }

  class TaskManager {
    const tasks: array<Option<Task>>
    const endpoints: array<Option<Endpoint>>
    var currentPid: Option<nat>
    var nextPid: nat
    var runnableCount: nat
    var uartOwner: Option<nat>
    ghost var table: map<nat, Task>
    ghost var slot: map<nat, nat>

    ghost predicate Valid()
      reads this, tasks
    {
      tasks.Length == MAX_TASKS && endpoints.Length == MAX_ENDPOINTS && Holds(tasks[..], table, slot)
    }

    ghost function Now(): (s: State)
      reads this, tasks, endpoints
    {
      State(table, OrderOf(tasks[..]), slot, endpoints[..], currentPid, nextPid, runnableCount, uartOwner)
    }

    /** The task with a pid is looked up by going through the table. */
    method Find(pid: nat) returns (i: nat)
      requires Valid()
      ensures i == if pid in table then slot[pid] else MAX_TASKS
      ensures i < MAX_TASKS <==> pid in table
      ensures i < MAX_TASKS ==> tasks[i] == Some(table[pid]) && table[pid].pid == pid
    {
      PositionIs(tasks[..], table, slot, pid);
      i := Position(tasks[..], pid, 0);
    }

    method SetTask(i: nat, t: Task)
      requires Valid() && i < MAX_TASKS && tasks[i].Some? && tasks[i].value.pid == t.pid
      modifies this`table, tasks
      ensures Valid() && tasks[..] == old(tasks[..])[i := Some(t)]
      ensures Now() == old(Now()).(tasks := old(table)[t.pid := t])
    {
      hide Holds, OrderOf;
      SetHolds(tasks[..], table, slot, i, t);
      tasks[i] := Some(t);
      table := table[t.pid := t];
    }

    /** A zombie's slot is emptied. */
    method TakeTask(i: nat) returns (t: Task)
      requires Valid() && i < MAX_TASKS && tasks[i].Some?
      modifies this`table, this`slot, tasks
      ensures Valid() && t == old(tasks[i].value) && tasks[..] == old(tasks[..])[i := None]
      ensures Now() == Drop(old(Now()), {t.pid})
    {
      RemoveHolds(tasks[..], table, slot, i);
      RemoveOrder(tasks[..], table, slot, i);
      hide Holds;
      t := tasks[i].value;
      tasks[i] := None;
      table := table - {t.pid};
      slot := slot - {t.pid};
    }

    /** Zombies that nobody will wait for leave the table. */
    method ReapDetachedZombies()
      requires Valid()
      modifies this`table, this`slot, tasks
      ensures Valid() && Now() == Reap(old(Now()))
    {
      hide Holds, OrderOf, Drop, ReapedBelow, Reapable;
      ghost var s0, ts := Now(), tasks[..];
      DropNone(s0);
      ReapAll(ts, s0);
      for index := 0 to MAX_TASKS
        invariant Valid() && Now() == Drop(s0, ReapedBelow(s0, index))
        invariant forall i :: index <= i < MAX_TASKS ==> tasks[i] == ts[i]
      {
        ReapStep(ts, s0, index);
        var entry := tasks[index];
        if entry.Some? && Detached(entry.value, currentPid) {
          var task := TakeTask(index);
          DropBoth(s0, ReapedBelow(s0, index), {task.pid});
        }
      }
    }

    /** Marks a task as the running one. */
    method Dispatch(i: nat) returns (next: Frame)
      requires Valid() && i < MAX_TASKS && tasks[i].Some?
      modifies this`table, this`currentPid, tasks
      ensures Valid() && old(tasks[i].value.pid) in old(table)
      ensures Now() == Run(old(Now()), old(tasks[i].value.pid))
      ensures next == old(tasks[i].value.frame) == old(table)[old(tasks[i].value.pid)].frame && GoesOnWith(Now(), next)
    {
      hide OrderOf;
      var task := tasks[i].value;
      HeldTask(tasks[..], table, slot, i);
      SetTask(i, task.(status := Running));
      currentPid := Some(task.pid);
      return task.frame;
    }

    /** The scan for the next task, from slot `start` on. */
    method RunFrom(start: nat, tf: Frame) returns (next: Frame)
      requires Valid()
      modifies this`table, this`currentPid, tasks
      ensures Valid() && Now() == RunNext(old(Now()), start) && next == RunFrame(old(Now()), start, tf)
      ensures IDLE in table ==> GoesOnWith(Now(), next)
    {
      hide Holds, OrderOf, Offset, At, Drop;
      ghost var s0 := Now();
      for offset := 0 to MAX_TASKS
        invariant Valid() && Now() == s0 && unchanged(this) && unchanged(tasks)
        invariant forall j {:trigger At(start, j)} :: 0 <= j < offset ==> !ReadyAt(s0, At(start, j))
      {
        var index := At(start, offset);
        ReadyIs(tasks[..], s0, index);
        if tasks[index].Some? && tasks[index].value.pid != IDLE && tasks[index].value.status == Ready {
          OffsetIs(s0, start, 0, offset);
          next := Dispatch(index);
          return;
        }
      }
      OffsetIs(s0, start, 0, MAX_TASKS);
      var idle := Find(IDLE);
      if idle < MAX_TASKS {
        next := Dispatch(idle);
      } else {
        next := tf;
      }
    }

    method Schedule(tf: Frame) returns (next: Frame)
      requires Valid()
      modifies this`table, this`slot, this`currentPid, tasks
      ensures Valid() && Now() == Scheduled(old(Now()), tf) && next == ScheduledFrame(old(Now()), tf)
      ensures IDLE in table ==> GoesOnWith(Now(), next)
    {
      hide Holds, OrderOf, Reap, RunNext, Pick;
      ReapDetachedZombies();
      ghost var s1 := Now();
      var start := 0;
      if currentPid.Some? {
        var index := Find(currentPid.value);
        SlotKeys(tasks[..], table, slot);
        if index < MAX_TASKS {
          var current := tasks[index].value;
          SetTask(index, current.(frame := tf, status := if current.status == Running then Ready else current.status));
          start := (index + 1) % MAX_TASKS;
        }
      }
      next := RunFrom(start, tf);
    }

    // ---- System calls ----

    /** A new runnable task in a free slot. */
    method AddTask(i: nat, t: Task)
      requires Valid() && i < MAX_TASKS && tasks[i].None? && t.pid !in table
      modifies this`table, this`slot, this`runnableCount, tasks
      ensures Valid() && tasks[..] == old(tasks[..])[i := Some(t)]
      ensures Now() == old(Now()).(tasks := old(table)[t.pid := t], order := OrderOf(old(tasks[..]))[i := Some(t.pid)],
                                   slot := old(slot)[t.pid := i], runnable := old(runnableCount) + 1)
    {
      InsertHolds(tasks[..], table, slot, i, t);
      hide Holds, OrderOf;
      tasks[i] := Some(t);
      table := table[t.pid := t];
      slot := slot[t.pid := i];
      runnableCount := runnableCount + 1;
    }

    /** `memory` says whether the pages and tables for the child could be made. */
    method Fork(tf: Frame, memory: bool) returns (r: Option<nat>, tf': Frame)
      requires Valid() && Inv(Now())
      modifies this, tasks
      ensures Valid()
      ensures old(currentPid) == Some(IDLE) || !memory ==> Now() == old(Now()) && r.None? && tf' == tf
      ensures old(currentPid) != Some(IDLE) && memory ==> Now() == Forked(old(Now()), tf).0
      ensures old(currentPid) != Some(IDLE) && memory ==> r == Forked(old(Now()), tf).1
      ensures r.Some? ==> tf' == tf.(a0 := r.value)
    {
      hide Inv, Holds, Core;
      InvCore(Now());
      NewPid(Now());
      ghost var s0 := Now();
      if currentPid == Some(IDLE) || !memory {
        return None, tf;
      }
      var index := Find(currentPid.value);
      var parent := tasks[index].value;
      var pid := nextPid;
      nextPid := nextPid + 1;
      var free := FreeSlot(OrderOf(tasks[..]), 0);
      if free == |OrderOf(tasks[..])| {
        return None, tf;
      }
      AddTask(free, Task(pid, Ready, tf.(a0 := 0), parent.mem, 0, currentPid, None));
      return Some(pid), tf.(a0 := pid);
    }

    method SleepOn(i: nat, c: Channel, tf: Frame)
      requires Valid() && i < MAX_TASKS && tasks[i].Some?
      modifies this`table, this`runnableCount, tasks
      ensures Valid() && old(tasks[i].value.pid) in old(table)
      ensures Now() == Sleep(old(Now()), old(tasks[i].value.pid), c, tf)
      ensures tasks[..] == old(tasks[..])[i := Some(table[old(tasks[i].value.pid)])]
    {
      hide OrderOf;
      HeldTask(tasks[..], table, slot, i);
      hide Holds;
      var task := tasks[i].value;
      SetTask(i, task.(status := Sleeping, waiting := Some(c), frame := tf));
      runnableCount := Dec(runnableCount);
    }

    method WakeUp(i: nat, frame: Frame, mem: Mem)
      requires Valid() && i < MAX_TASKS && tasks[i].Some?
      modifies this`table, this`runnableCount, tasks
      ensures Valid() && old(tasks[i].value.pid) in old(table)
      ensures Now() == Wake(old(Now()), old(tasks[i].value.pid), frame, mem)
      ensures tasks[..] == old(tasks[..])[i := Some(table[old(tasks[i].value.pid)])]
    {
      hide OrderOf;
      HeldTask(tasks[..], table, slot, i);
      hide Holds;
      var task := tasks[i].value;
      SetTask(i, task.(status := Ready, waiting := None, frame := frame, mem := mem));
      runnableCount := runnableCount + 1;
    }

    method SetEndpoint(e: nat, ep: Endpoint)
      requires Valid() && e < MAX_ENDPOINTS
      modifies endpoints
      ensures Valid() && Now() == WithEndpoint(old(Now()), e, ep) && endpoints[..] == old(endpoints[..])[e := Some(ep)]
    {
      endpoints[e] := Some(ep);
    }

    method WaitPid(pid: nat, tf: Frame) returns (r: WaitResult, next: Frame)
      requires Valid() && Inv(Now())
      modifies this, tasks
      ensures Valid() && (Now(), r) == Waited(old(Now()), pid, tf)
      ensures r == Asleep ==> next == ScheduledFrame(Sleep(old(Now()), old(currentPid).value, Child(pid), tf), tf)
    {
      hide Inv, Holds, OrderOf, Scheduled, Drop, ScheduledFrame;
      InvCore(Now());
      next := tf;
      if currentPid == Some(IDLE) {
        return NoChild, next;
      }
      var index := Find(pid);
      if index == MAX_TASKS || tasks[index].value.parent != currentPid {
        return NoChild, next;
      }
      if tasks[index].value.status == Zombie {
        var task := TakeTask(index);
        return Reaped(task.exitCode), next;
      }
      var current := Find(currentPid.value);
      SleepOn(current, Child(pid), tf);
      next := Schedule(tf);
      return Asleep, next;
    }

    /** `frame` and `mem` are the image that the loader made; its endpoint and device rights are granted separately. */
    method CreateUserImage(frame: Frame, mem: Mem) returns (r: Option<nat>)
      requires Valid() && Core(Now())
      modifies this, tasks
      ensures Valid() && (Now(), r) == Created(old(Now()), frame, mem)
    {
      hide Holds, Core;
      NewPid(Now());
      var free := FreeSlot(OrderOf(tasks[..]), 0);
      if free == |OrderOf(tasks[..])| {
        return None;
      }
      var pid := nextPid;
      nextPid := nextPid + 1;
      AddTask(free, Task(pid, Ready, frame, mem, 0, currentPid, None));
      return Some(pid);
    }

    method RegisterEndpoint(e: nat, owner: nat) returns (ok: bool)
      requires Valid()
      modifies endpoints
      ensures Valid() && (Now(), ok) == Registered(old(Now()), e, owner)
    {
      hide Holds, OrderOf;
      if e >= MAX_ENDPOINTS || endpoints[e].Some? {
        return false;
      }
      var index := Find(owner);
      if index == MAX_TASKS {
        return false;
      }
      SetEndpoint(e, NewEndpoint(owner));
      return true;
    }

    /** The sender sleeps, and the message goes to the waiting owner or into the queue. */
    method Send(e: nat, words: Words4, tf: Frame)
      requires Valid() && CallAllowed(Now(), e)
      modifies this`table, this`runnableCount, tasks, endpoints
      ensures Valid() && CallAllowed(old(Now()), e) && Now() == Sent(old(Now()), e, words, tf)
    {
      hide Holds, OrderOf;
      var sender, ep := currentPid.value, endpoints[e].value;
      var senderIndex := Find(sender);
      SleepOn(senderIndex, Channel.IpcCall(e), tf);
      if ep.waitingReceiver == Some(ep.owner) {
        var receiverIndex := Find(ep.owner);
        var receiver := tasks[receiverIndex].value;
        WakeUp(receiverIndex, SetMessage(receiver.frame, sender, words), receiver.mem);
        SetEndpoint(e, ep.(waitingReceiver := None));
      } else {
        SetEndpoint(e, ep.(pending := ep.pending + [Message(sender, words, 0)]));
      }
    }

    method IpcCall(e: nat, words: Words4, tf: Frame) returns (r: Outcome, next: Frame)
      requires Valid() && Inv(Now())
      modifies this, tasks, endpoints
      ensures Valid() && (Now(), r) == Called(old(Now()), e, words, tf) && !r.Continue?
      ensures r.Blocked? ==> CallAllowed(old(Now()), e) && next == ScheduledFrame(Sent(old(Now()), e, words, tf), tf)
    {
      hide Inv, Holds, OrderOf, Scheduled, ScheduledFrame, Sent;
      ghost var s0 := Now();
      InvCore(s0);
      CallReady(s0, e);
      next := tf;
      var sender := currentPid.value;
      if e >= MAX_ENDPOINTS || endpoints[e].None? {
        return Failed, next;
      }
      var ep := endpoints[e].value;
      if sender == ep.owner || |ep.pending| == MSG_QUEUE_SIZE {
        return Failed, next;
      }
      Send(e, words, tf);
      next := Schedule(tf);
      return Blocked, next;
    }

    method IpcRecv(e: nat, tf: Frame) returns (r: Outcome, next: Frame)
      requires Valid() && Inv(Now())
      modifies this, tasks, endpoints
      ensures Valid() && (Now(), r) == Received(old(Now()), e, tf)
      ensures Owns(old(Now()), e) && old(endpoints[..])[e].value.pending != [] ==>
                var m := old(endpoints[..])[e].value.pending[0];
                r.Continue? && ShowsMessage(tf, r.frame, m.sender, m.words, tf.a5)
      ensures r.Blocked? ==> !RecvRefused(old(Now()), e) && old(Now()).current.value in old(Now()).tasks
      ensures r.Blocked? ==>
                next == ScheduledFrame(RecvSleeps(old(Now()), e,
                EndpointOf(old(Now()), e).value.(waitingReceiver := old(currentPid)), tf), tf)
    {
      hide Inv, Holds, OrderOf, Scheduled, ScheduledFrame;
      InvCore(Now());
      next := tf;
      var receiver := currentPid.value;
      if e >= MAX_ENDPOINTS || endpoints[e].None? || endpoints[e].value.owner != receiver {
        return Failed, next;
      }
      var ep := endpoints[e].value;
      if ep.pending != [] {
        var message := ep.pending[0];
        SetEndpoint(e, ep.(pending := ep.pending[1..]));
        return Continue(SetMessage(tf, message.sender, message.words)), next;
      }
      SetEndpoint(e, ep.(waitingReceiver := Some(receiver)));
      var index := Find(receiver);
      SleepOn(index, Channel.IpcRecv(e), tf);
      next := Schedule(tf);
      return Blocked, next;
    }

    method IpcReply(client: nat, words: Words4) returns (ok: bool)
      requires Valid()
      modifies this, tasks
      ensures Valid() && (Now(), ok) == Replied(old(Now()), client, words)
      ensures ok ==>
                && client in old(table) && client in table
                && ShowsAnswer(old(table)[client].frame, table[client].frame, words, old(table)[client].frame.a5)
    {
      hide Holds, OrderOf;
      if currentPid.None? {
        return false;
      }
      var index := Find(client);
      if index == MAX_TASKS || tasks[index].value.waiting.None? || !tasks[index].value.waiting.value.IpcCall? {
        return false;
      }
      var e := tasks[index].value.waiting.value.endpoint;
      if e >= MAX_ENDPOINTS || endpoints[e].None? || Some(endpoints[e].value.owner) != currentPid {
        return false;
      }
      var task := tasks[index].value;
      if task.status != Sleeping {
        return false;
      }
      WakeUp(index, Answer(task.frame, words), task.mem);
      return true;
    }

    /** Copies bytes from user memory until one is not mapped. */
    method MemCopyFromUser(mem: Mem, dst: seq<byte>, src: nat, len: nat) returns (r: seq<byte>, ok: bool)
      requires len <= |dst|
      ensures r == Overlaid(dst, mem, src, len) && ok == (MappedPrefix(mem, src, len) == len)
    {
      r := dst;
      for i := 0 to len
        invariant |r| == |dst| && MappedPrefix(mem, src, i) == i
        invariant r[..i] == Load(mem, src, i) && r[i..] == dst[i..]
      {
        if src + i !in mem {
          PrefixStops(mem, src, i, len);
          return r, false;
        }
        r := r[i := mem[src + i]];
      }
      return r, true;
    }

    /** Copies bytes to user memory until one is not mapped. */
    method MemCopyToUser(mem: Mem, dst: nat, src: seq<byte>) returns (m: Mem, ok: bool)
      ensures m == Store(mem, dst, src[..MappedPrefix(mem, dst, |src|)])
      ensures ok == (MappedPrefix(mem, dst, |src|) == |src|)
    {
      m := mem;
      for i := 0 to |src|
        invariant MappedPrefix(mem, dst, i) == i && m == Store(mem, dst, src[..i])
      {
        if dst + i !in m {
          PrefixStops(mem, dst, i, |src|);
          return m, false;
        }
        m := m[dst + i := src[i]];
      }
      assert src[..|src|] == src;
      return m, true;
    }

    method IpcReplyBuf(client: nat, words: Words4, userBuf: nat, bufLen: nat) returns (ok: bool)
      requires Valid() && (currentPid.Some? ==> currentPid.value in table)
      modifies this, tasks
      ensures Valid() && (Now(), ok) == RepliedBuf(old(Now()), client, words, userBuf, bufLen)
      ensures ok ==>
                && client in old(table) && client in table && currentPid.Some?
                && var was, n := old(table)[client], Min(Min(bufLen, old(table)[client].frame.a6), 4096);
                   && ShowsAnswer(was.frame, table[client].frame, words, n)
                   && CopiedFrom(was.mem, table[client].mem, was.frame.a5, old(table)[currentPid.value].mem, userBuf, n)
    {
      hide Holds, OrderOf, Load, Store, MappedPrefix, CopiedFrom, ShowsAnswer;
      if RepliedBuf(Now(), client, words, userBuf, bufLen).1 {
        RepliedBufShows(Now(), client, words, userBuf, bufLen);
      }
      if currentPid.None? {
        return false;
      }
      var index := Find(client);
      if index == MAX_TASKS || tasks[index].value.waiting.None? || !tasks[index].value.waiting.value.IpcCall? {
        return false;
      }
      var e := tasks[index].value.waiting.value.endpoint;
      if e >= MAX_ENDPOINTS || endpoints[e].None? || Some(endpoints[e].value.owner) != currentPid {
        return false;
      }
      var replier := Find(currentPid.value);
      var from := tasks[replier].value.mem;
      var task := tasks[index].value;
      if task.status != Sleeping {
        return false;
      }
      var copyLen := ReplyLen(task.frame, bufLen);
      var frame := Answer(task.frame, words).(a5 := copyLen);
      var mem, copied := CopyAcross(from, userBuf, task.mem, task.frame.a5, copyLen);
      if !copied {
        SetTask(index, task.(frame := frame, mem := mem));
        return false;
      }
      WakeUp(index, frame, mem);
      return true;
    }

    /** Copies bytes from one task's memory to another's until one is not mapped on either side. */
    method CopyAcross(from: Mem, src: nat, to: Mem, dst: nat, len: nat) returns (m: Mem, ok: bool)
      ensures var k := Min(MappedPrefix(from, src, len), MappedPrefix(to, dst, len));
              m == Store(to, dst, Load(from, src, k)) && ok == (k == len)
    {
      hide Store, Load, MappedPrefix;
      m := to;
      StoreNothing(to, dst, Load(from, src, 0));
      NoPrefix(from, src);
      NoPrefix(to, dst);
      for i := 0 to len
        invariant MappedPrefix(from, src, i) == i && MappedPrefix(to, dst, i) == i
        invariant m == Store(to, dst, Load(from, src, i))
      {
        if src + i !in from {
          PrefixStops(from, src, i, len);
          PrefixMore(to, dst, i, len);
          return m, false;
        }
        if dst + i !in m {
          PrefixStops(to, dst, i, len);
          PrefixMore(from, src, i, len);
          return m, false;
        }
        PrefixGrows(from, src, i);
        PrefixGrows(to, dst, i);
        LoadMore(from, src, i);
        StoreMore(to, dst, Load(from, src, i), from[src + i]);
        m := m[dst + i := from[src + i]];
      }
      return m, true;
    }

    /** The sender sleeps, and message and buffer go to the waiting owner or stay with the queue. */
    method SendBuf(e: nat, words: Words4, bufLen: nat, tf: Frame)
      requires Valid() && CallBufAllowed(Now(), e, bufLen)
      modifies this`table, this`runnableCount, tasks, endpoints
      ensures Valid() && CallBufAllowed(old(Now()), e, bufLen) && Now() == SentBuf(old(Now()), e, words, bufLen, tf)
    {
      hide Holds, OrderOf, Store, MappedPrefix;
      var sender, ep := currentPid.value, endpoints[e].value;
      var senderIndex := Find(sender);
      SleepOn(senderIndex, Channel.IpcCall(e), tf);
      if ep.waitingReceiver == Some(ep.owner) {
        var receiverIndex := Find(ep.owner);
        var receiver := tasks[receiverIndex].value;
        var a5, mem := 0, receiver.mem;
        if bufLen > 0 && ep.recvAddr != 0 {
          var copyLen := Min(bufLen, ep.recvCap);
          var ok;
          mem, ok := MemCopyToUser(receiver.mem, ep.recvAddr, ep.copyBuf[..copyLen]);
          a5 := if ok then copyLen else 0;
          HandedPrefix(ep, receiver.mem, bufLen);
        }
        WakeUp(receiverIndex, SetMessage(receiver.frame, sender, words).(a5 := a5), mem);
        SetEndpoint(e, ep.(waitingReceiver := None, recvAddr := 0, recvCap := 0));
      } else {
        SetEndpoint(e,
            ep.(pending := ep.pending + [Message(sender, words, bufLen)], hasBuffered := ep.hasBuffered || bufLen > 0));
      }
    }

    method IpcCallBuf(e: nat, words: Words4, userBuf: nat, bufLen: nat, tf: Frame) returns (r: Outcome, next: Frame)
      requires Valid() && Inv(Now())
      modifies this, tasks, endpoints
      ensures Valid() && (Now(), r) == CalledBuf(old(Now()), e, words, userBuf, bufLen, tf) && !r.Continue?
      ensures r.Blocked? ==> LoadAllowed(old(Now()), e, bufLen)
      ensures r.Blocked? ==> CallBufAllowed(Loaded(old(Now()), e, userBuf, bufLen), e, bufLen)
      ensures r.Blocked? ==>
                next == ScheduledFrame(SentBuf(Loaded(old(Now()), e, userBuf, bufLen), e, words, bufLen, tf), tf)
    {
      hide Inv, Holds, OrderOf, Scheduled, ScheduledFrame, SentBuf, Overlaid, MappedPrefix;
      ghost var s0 := Now();
      InvCore(s0);
      CallReady(s0, e);
      CallBufReady(s0, e);
      next := tf;
      var sender := currentPid.value;
      if e >= MAX_ENDPOINTS || endpoints[e].None? {
        return Failed, next;
      }
      var ep := endpoints[e].value;
      var receiverWaiting := ep.waitingReceiver == Some(ep.owner);
      if sender == ep.owner || |ep.pending| == MSG_QUEUE_SIZE || (ep.hasBuffered && !receiverWaiting)
          || bufLen > IPC_BUF_SIZE {
        return Failed, next;
      }
      LoadedSame(s0, e, userBuf, bufLen);
      var senderIndex := Find(sender);
      var copyBuf, ok := MemCopyFromUser(tasks[senderIndex].value.mem, ep.copyBuf, userBuf, bufLen);
      SetEndpoint(e, ep.(copyBuf := copyBuf, copyLen := if ok then bufLen else ep.copyLen));
      if !ok {
        PrefixBound(tasks[senderIndex].value.mem, userBuf, bufLen);
        return Failed, next;
      }
      SendBuf(e, words, bufLen, tf);
      next := Schedule(tf);
      return Blocked, next;
    }

    method IpcRecvBuf(e: nat, userBuf: nat, capacity: nat, tf: Frame) returns (r: Outcome, next: Frame)
      requires Valid() && Inv(Now())
      modifies this, tasks, endpoints
      ensures Valid() && (Now(), r) == ReceivedBuf(old(Now()), e, userBuf, capacity, tf)
      ensures r.Blocked? ==> !RecvRefused(old(Now()), e) && old(Now()).current.value in old(Now()).tasks
      ensures r.Blocked? ==>
                next == ScheduledFrame(RecvSleeps(old(Now()), e, EndpointOf(old(Now()), e).value.(
                                                    waitingReceiver := old(currentPid), recvAddr := userBuf,
                                                        recvCap := capacity), tf), tf)
    {
      hide Inv, Holds, OrderOf, Scheduled, ScheduledFrame, Store, MappedPrefix;
      InvCore(Now());
      RecvReady(Now(), e);
      next := tf;
      var receiver := currentPid.value;
      if e >= MAX_ENDPOINTS || endpoints[e].None? || endpoints[e].value.owner != receiver {
        return Failed, next;
      }
      var ep := endpoints[e].value;
      var index := Find(receiver);
      if ep.pending != [] {
        var message, task := ep.pending[0], tasks[index].value;
        var a5, mem := 0, task.mem;
        if message.bufLen > 0 {
          var copyLen := Min(message.bufLen, capacity);
          var ok;
          mem, ok := MemCopyToUser(task.mem, userBuf, ep.copyBuf[..copyLen]);
          a5 := if ok then copyLen else 0;
          TakenPrefix(ep, task.mem, userBuf, capacity);
        }
        SetEndpoint(e,
            ep.(pending := ep.pending[1..], hasBuffered := if message.bufLen > 0 then false else ep.hasBuffered));
        SetTask(index, task.(mem := mem));
        return Continue(SetMessage(tf, message.sender, message.words).(a5 := a5)), next;
      }
      SetEndpoint(e, ep.(waitingReceiver := Some(receiver), recvAddr := userBuf, recvCap := capacity));
      SleepOn(index, Channel.IpcRecv(e), tf);
      next := Schedule(tf);
      return Blocked, next;
    }

    /** The children of the exiting task lose their parent. */
    method Orphan(pid: nat)
      requires Valid()
      modifies this`table, tasks
      ensures Valid() && Now() == old(Now()).(tasks := Orphaned(old(table), pid))
    {
      hide Holds, OrderOf, OrphanedBelow, Orphaned;
      ghost var s0, ts := Now(), tasks[..];
      OrphanAll(ts, table, slot, pid);
      for index := 0 to MAX_TASKS
        invariant Valid() && Now() == s0.(tasks := OrphanedBelow(s0.tasks, s0.slot, pid, index))
        invariant forall i :: index <= i < MAX_TASKS ==> tasks[i] == ts[i]
      {
        OrphanStep(ts, s0.tasks, s0.slot, pid, index);
        if tasks[index].Some? && tasks[index].value.parent == Some(pid) {
          SetTask(index, tasks[index].value.(parent := None));
        }
      }
    }

    method ExitCurrent(code: int) returns (r: Option<Frame>)
      requires Valid() && Inv(Now()) && -0x8000_0000 <= code < 0x8000_0000
      modifies this, tasks
      ensures Valid() && Now() == Exited(old(Now()), code)
      ensures old(currentPid) != Some(IDLE) ==> r.Some? && GoesOnWith(Now(), r.value)
      ensures old(currentPid) != Some(IDLE) ==>
                old(runnableCount) > 0 && r.Some?
                    && forall tf :: RunFrame(Zombied(old(Now()), old(currentPid).value, code), 0, tf) == r.value
    {
      hide Inv, Core, Holds, OrderOf, RunNext, Pick, Orphaned, Zombied, ParentTold;
      ghost var s0 := Now();
      InvCore(s0);
      ExitedInv(s0, code);
      IdleThere(Exited(s0, code));
      if currentPid != Some(IDLE) {
        ZombiedBy(s0, currentPid.value, code);
        ExitPicks(s0, code);
      }
      var pid := currentPid.value;
      var index := Find(pid);
      var current := tasks[index].value;
      if pid == IDLE {
        return Some(current.frame);
      }
      SetTask(index, current.(status := Zombie, exitCode := code));
      runnableCount := runnableCount - 1;
      Orphan(pid);
      if current.parent.Some? {
        WakeParent(pid, current.parent.value, code);
      }
      currentPid := None;
      var next := RunFrom(0, current.frame);
      return Some(next);
    }

    /** A parent asleep until the task exits is woken with its exit code, and the task loses its parent. */
    method WakeParent(pid: nat, parentPid: nat, code: int)
      requires Valid() && pid in table && parentPid != pid
      modifies this`table, this`runnableCount, tasks
      ensures Valid() && Now() == ParentTold(old(Now()), pid, parentPid, code)
    {
      hide Holds, OrderOf;
      var index := Find(parentPid);
      if index < MAX_TASKS {
        var parent := tasks[index].value;
        if parent.status == Sleeping && parent.waiting == Some(Child(pid)) {
          WakeUp(index, parent.frame.(a0 := AsWord(code)), parent.mem);
          var child := Find(pid);
          SetTask(child, tasks[child].value.(parent := None));
        }
      }
    }

    method WaitUartIrq(tf: Frame) returns (r: Option<Frame>)
      requires Valid() && Inv(Now())
      modifies this, tasks
      ensures Valid()
      ensures Now() == (if UartWaited(old(Now()), tf).Some? then UartWaited(old(Now()), tf).value else old(Now()))
      ensures r == if UartWaited(old(Now()),
                tf).Some? then Some(ScheduledFrame(Sleep(old(Now()), old(currentPid).value, UartRx, tf), tf)) else None
    {
      hide Inv, Holds, OrderOf, Scheduled, ScheduledFrame;
      InvCore(Now());
      if currentPid == Some(IDLE) || currentPid != uartOwner {
        return None;
      }
      var index := Find(currentPid.value);
      SleepOn(index, UartRx, tf);
      var next := Schedule(tf);
      return Some(next);
    }

    method WakeUart() returns (woke: bool)
      requires Valid()
      modifies this`table, this`runnableCount, tasks
      ensures Valid() && Now() == UartWoken(old(Now())) && woke == (UartSleepers(old(table)) != {})
    {
      hide Holds, OrderOf, UartBelow, UartWith, UartWoken, UartSleepers;
      ghost var s0, ts := Now(), tasks[..];
      UartAll(ts, s0);
      woke := false;
      for index := 0 to MAX_TASKS
        invariant Valid() && Now() == UartWith(s0, UartBelow(s0, index)) && woke == (UartBelow(s0, index) != {})
        invariant forall i :: index <= i < MAX_TASKS ==> tasks[i] == ts[i]
      {
        UartStep(ts, s0, index);
        if tasks[index].Some? && WaitsUart(tasks[index].value) {
          var task := tasks[index].value;
          WakeUp(index, task.frame.(a0 := 0), task.mem);
          woke := true;
        }
      }
    }

    // ---- Starting up ----

    /** The new manager with its idle task: `new` and `create_idle`. */
    constructor Boot(frame: Frame)
      ensures Valid() && fresh(tasks) && fresh(endpoints) && Now() == Booted(frame)
    {
      tasks := new Option<Task>[MAX_TASKS](_ => None);
      endpoints := new Option<Endpoint>[MAX_ENDPOINTS](_ => None);
      currentPid, nextPid, runnableCount, uartOwner := None, 1, 0, None;
      table, slot := map[IDLE := Task(IDLE, Ready, frame, map[], 0, None, None)], map[IDLE := 0];
      new;
      tasks[0] := Some(Task(IDLE, Ready, frame, map[], 0, None, None));
    }

    method GrantUart(pid: nat) returns (ok: bool)
      requires Valid()
      modifies this`uartOwner
      ensures Valid() && (Now(), ok) == Granted(old(Now()), pid)
    {
      hide Holds, OrderOf;
      if uartOwner.Some? {
        return false;
      }
      var index := Find(pid);
      if index == MAX_TASKS {
        return false;
      }
      uartOwner := Some(pid);
      return true;
    }

    /** The first task is started. */
    method EnterTask(pid: nat) returns (next: Frame)
      requires Valid() && pid in table
      modifies this`table, this`currentPid, tasks
      ensures Valid() && Now() == Sched.Run(old(Now()), pid)
      ensures next == old(table[pid].frame) && GoesOnWith(Now(), next)
    {
      hide OrderOf;
      var index := Find(pid);
      next := Dispatch(index);
    }

    // ---- Traps ----

    method OnCall(e: nat, words: Words4, tf: Frame) returns (next: Frame)
      requires Valid() && Inv(Now()) && Possible(Now(), Call(e, words))
      modifies this, tasks, endpoints
      ensures Valid() && Now() == After(old(Now()), Call(e, words), tf)
      ensures next == AfterFrame(old(Now()), Call(e, words), tf)
    {
      hide Inv, Holds, OrderOf, Scheduled, ScheduledFrame, Called, Sent, CallRefused;
      InvCore(Now());
      var r, blocked := IpcCall(e, words, tf);
      next := match r case Continue(frame) => frame case Blocked => blocked case Failed => tf.(a0 := NOTHING);
    }

    method OnRecv(e: nat, tf: Frame) returns (next: Frame)
      requires Valid() && Inv(Now()) && Possible(Now(), Recv(e))
      modifies this, tasks, endpoints
      ensures Valid() && Now() == After(old(Now()), Recv(e), tf) && next == AfterFrame(old(Now()), Recv(e), tf)
    {
      hide Inv, Holds, OrderOf, Scheduled, ScheduledFrame, Received, RecvSleeps, RecvRefused;
      InvCore(Now());
      var r, blocked := IpcRecv(e, tf);
      next := match r case Continue(frame) => frame case Blocked => blocked case Failed => tf.(a0 := NOTHING);
    }

    method OnReply(client: nat, words: Words4, tf: Frame) returns (next: Frame)
      requires Valid() && Inv(Now()) && Possible(Now(), Reply(client, words))
      modifies this, tasks, endpoints
      ensures Valid() && Now() == After(old(Now()), Reply(client, words), tf)
      ensures next == AfterFrame(old(Now()), Reply(client, words), tf)
    {
      hide Inv, Holds, OrderOf, Scheduled, ScheduledFrame, Replied;
      InvCore(Now());
      var ok := IpcReply(client, words);
      next := tf.(a0 := if ok then 0 else NOTHING);
    }

    method OnCallBuf(e: nat, words: Words4, userBuf: nat, bufLen: nat, tf: Frame) returns (next: Frame)
      requires Valid() && Inv(Now()) && Possible(Now(), CallBuf(e, words, userBuf, bufLen))
      modifies this, tasks, endpoints
      ensures Valid() && Now() == After(old(Now()), CallBuf(e, words, userBuf, bufLen), tf)
      ensures next == AfterFrame(old(Now()), CallBuf(e, words, userBuf, bufLen), tf)
    {
      hide Inv, Holds, OrderOf, Scheduled, ScheduledFrame, CalledBuf, SentBuf, Loaded, CallBufRefused;
      InvCore(Now());
      var r, blocked := IpcCallBuf(e, words, userBuf, bufLen, tf);
      next := match r case Continue(frame) => frame case Blocked => blocked case Failed => tf.(a0 := NOTHING);
    }

    method OnRecvBuf(e: nat, userBuf: nat, cap: nat, tf: Frame) returns (next: Frame)
      requires Valid() && Inv(Now()) && Possible(Now(), RecvBuf(e, userBuf, cap))
      modifies this, tasks, endpoints
      ensures Valid() && Now() == After(old(Now()), RecvBuf(e, userBuf, cap), tf)
      ensures next == AfterFrame(old(Now()), RecvBuf(e, userBuf, cap), tf)
    {
      hide Inv, Holds, OrderOf, Scheduled, ScheduledFrame, ReceivedBuf, RecvSleeps, RecvRefused;
      InvCore(Now());
      var r, blocked := IpcRecvBuf(e, userBuf, cap, tf);
      next := match r case Continue(frame) => frame case Blocked => blocked case Failed => tf.(a0 := NOTHING);
    }

    method OnReplyBuf(client: nat, words: Words4, userBuf: nat, bufLen: nat, tf: Frame) returns (next: Frame)
      requires Valid() && Inv(Now()) && Possible(Now(), ReplyBuf(client, words, userBuf, bufLen))
      modifies this, tasks, endpoints
      ensures Valid() && Now() == After(old(Now()), ReplyBuf(client, words, userBuf, bufLen), tf)
      ensures next == AfterFrame(old(Now()), ReplyBuf(client, words, userBuf, bufLen), tf)
    {
      hide Inv, Holds, OrderOf, Scheduled, ScheduledFrame, RepliedBuf;
      InvCore(Now());
      var ok := IpcReplyBuf(client, words, userBuf, bufLen);
      next := tf.(a0 := if ok then 0 else NOTHING);
    }

    /** The trap handler: one step of the machine, which leaves it consistent. */
    method Handle(trap: Trap, tf: Frame) returns (next: Frame)
      requires Valid() && Inv(Now()) && Possible(Now(), trap)
      modifies this, tasks, endpoints
      ensures Valid() && Now() == After(old(Now()), trap, tf) && Inv(Now()) && next == AfterFrame(old(Now()), trap, tf)
      ensures Schedules(old(Now()), trap, tf) || trap.Exit? ==> GoesOnWith(Now(), next)
    {
      hide Inv, Holds, OrderOf, Scheduled, ScheduledFrame, Exited, Zombied, RunFrame, Forked, Waited, Called, Received,
           Replied, CalledBuf,
           ReceivedBuf, RepliedBuf, UartWaited, UartWoken, Sent, SentBuf, Loaded, CallRefused, CallBufRefused,
               RecvRefused, RecvSleeps;
      ghost var s0 := Now();
      InvCore(s0);
      AfterInv(s0, trap, tf);
      if Schedules(s0, trap, tf) || trap.Exit? { ChosenGoesOn(s0, trap, tf); }
      match trap
      case Timer => next := Schedule(tf);
      case External(uart) =>
        if uart {
          var woke := WakeUart();
        }
        next := Schedule(tf);
      case Yield => next := Schedule(tf.(a0 := 0));
      case Exit(code) =>
        var r := ExitCurrent(code);
        next := r.value;
      case Fork(memory) =>
        var r, tf' := Fork(tf, memory);
        next := if r.Some? then tf' else tf.(a0 := NOTHING);
      case WaitPid(pid) =>
        var r, blocked := WaitPid(pid, tf);
        next := match r
          case Reaped(code) => tf.(a0 := AsWord(code))
          case NoChild => tf.(a0 := NOTHING)
          case Asleep => blocked;
      case IrqWait =>
        var r := WaitUartIrq(tf);
        next := if r.Some? then r.value else tf.(a0 := NOTHING);
      case Local(mem) =>
        var index := Find(currentPid.value);
        SetTask(index, tasks[index].value.(mem := mem));
        next := tf;
      case Call(e, words) => next := OnCall(e, words, tf);
      case Recv(e) => next := OnRecv(e, tf);
      case Reply(client, words) => next := OnReply(client, words, tf);
      case CallBuf(e, words, userBuf, bufLen) => next := OnCallBuf(e, words, userBuf, bufLen, tf);
      case RecvBuf(e, userBuf, cap) => next := OnRecvBuf(e, userBuf, cap, tf);
      case ReplyBuf(client, words, userBuf, bufLen) => next := OnReplyBuf(client, words, userBuf, bufLen, tf);
    }
  }

  // ---- What the loops have done so far ----

  function Orphaned(table: map<nat, Task>, pid: nat): (m: map<nat, Task>)
    ensures m.Keys == table.Keys
  {
    map q | q in table :: if table[q].parent == Some(pid) then table[q].(parent := None) else table[q]
  }

  function OrphanedBelow(table: map<nat, Task>, slot: map<nat, nat>, pid: nat, n: nat): map<nat, Task> {
    map q | q in table :: if q in slot && slot[q] < n && table[q].parent == Some(pid) then table[q].(parent := None)
        else table[q]
  }

  lemma OrphanAll(ts: TaskTable, table: map<nat, Task>, slot: map<nat, nat>, pid: nat)
    requires Holds(ts, table, slot)
    ensures OrphanedBelow(table, slot, pid, 0) == table
    ensures OrphanedBelow(table, slot, pid, MAX_TASKS) == Orphaned(table, pid)
  {
    assert forall q :: q in table ==> q in slot && slot[q] < MAX_TASKS;
  }

  lemma OrphanStep(ts: TaskTable, table: map<nat, Task>, slot: map<nat, nat>, pid: nat, i: nat)
    requires Holds(ts, table, slot) && i < MAX_TASKS
    ensures ts[i].Some? && ts[i].value.parent == Some(pid) ==>
              OrphanedBelow(table, slot, pid, i + 1) ==
                  OrphanedBelow(table, slot, pid, i)[ts[i].value.pid := ts[i].value.(parent := None)]
    ensures !(ts[i].Some? && ts[i].value.parent == Some(pid)) ==>
              OrphanedBelow(table, slot, pid, i + 1) == OrphanedBelow(table, slot, pid, i)
  {
    forall q | q in table && q in slot && slot[q] == i
      ensures ts[i] == Some(table[q])
    {
      assert ts[slot[q]] == Some(table[q]);
    }
  }

  function ParentTold(s: State, pid: nat, parentPid: nat, code: int): State
    requires pid in s.tasks
  {
    if parentPid in s.tasks && s.tasks[parentPid].status == Sleeping
        && s.tasks[parentPid].waiting == Some(Child(pid)) then
      var s1 := Wake(s, parentPid, s.tasks[parentPid].frame.(a0 := AsWord(code)), s.tasks[parentPid].mem);
      s1.(tasks := s1.tasks[pid := s1.tasks[pid].(parent := None)])
    else s
  }

  /**
   The steps of an exit one after the other: the task is a zombie, its children lose their parent, its parent is
   told.
   */
  function ExitSteps(s: State, p: nat, code: int): State
    requires p in s.tasks && s.runnable > 0
  {
    var s1 := s.(tasks := s.tasks[p := s.tasks[p].(status := Zombie, exitCode := code)], runnable := s.runnable - 1);
    var s2 := s1.(tasks := Orphaned(s1.tasks, p));
    if s.tasks[p].parent.Some? then ParentTold(s2, p, s.tasks[p].parent.value, code) else s2
  }

  /** The steps of an exit come to what `Zombied` says. */
  lemma ZombiedBy(s: State, p: nat, code: int)
    requires Core(s) && p in s.tasks && s.tasks[p].status == Running && p != IDLE && s.current == Some(p)
    requires s.runnable > 0
    requires -0x8000_0000 <= code < 0x8000_0000
    ensures ExitSteps(s, p, code).(current := None) == Zombied(s, p, code)
    ensures s.tasks[p].parent != Some(p)
  {
    assert s.tasks[p].parent != Some(p) by { TaskAt(s, p); }
    hide Core, AsWord, AfterExit, ExitSteps, WaitsFor;
    forall q | q in s.tasks
      ensures q in ExitSteps(s, p, code).tasks
      ensures ExitSteps(s, p, code).tasks[q] == AfterExit(s, p, code, AsWord(code), q)
    {
      ZombiedTaskBy(s, p, code, q);
    }
    ToldCount(s, p, code);
    assert ExitSteps(s, p, code).tasks == Zombied(s, p, code).tasks;
  }

  lemma ZombiedTaskBy(s: State, p: nat, code: int, q: nat)
    requires p in s.tasks && q in s.tasks && s.tasks[p].parent != Some(p) && s.runnable > 0
    ensures q in ExitSteps(s, p, code).tasks && ExitSteps(s, p, code).tasks[q] == AfterExit(s, p, code, AsWord(code), q)
  {
    hide AsWord;
  }

  lemma ToldCount(s: State, p: nat, code: int)
    requires p in s.tasks && s.tasks[p].parent != Some(p) && s.runnable > 0
    ensures var s3 := ExitSteps(s, p, code);
            && s3.tasks.Keys == s.tasks.Keys
            && s3 == s.(tasks := s3.tasks, runnable := if ParentWoken(s, p) then s.runnable else s.runnable - 1)
  {
    hide AsWord;
  }

  lemma ExitPicks(s: State, code: int)
    requires Inv(s) && s.current != Some(IDLE) && -0x8000_0000 <= code < 0x8000_0000
    ensures s.current.Some? && s.current.value in s.tasks && s.runnable > 0
    ensures Pick(Zombied(s, s.current.value, code), 0).Some?
  {
    InvCore(s);
    ExitedInv(s, code);
    ZombiedKeeps(s, s.current.value, code);
  }

  /** The tasks that the loop of `wake_uart` has woken when it comes to slot n. */
  ghost function UartBelow(s: State, n: nat): set<nat> {
    set p | p in UartSleepers(s.tasks) && p in s.slot && s.slot[p] < n
  }

  ghost function UartWith(s: State, woken: set<nat>): State {
    s.(tasks := map p | p in s.tasks :: if p in woken then UartTask(s.tasks[p])
        else s.tasks[p], runnable := s.runnable + |woken|)
  }

  lemma UartAll(ts: TaskTable, s: State)
    requires Holds(ts, s.tasks, s.slot)
    ensures UartBelow(s, 0) == {} && UartWith(s, {}) == s
    ensures UartBelow(s, MAX_TASKS) == UartSleepers(s.tasks) && UartWith(s, UartSleepers(s.tasks)) == UartWoken(s)
  {
    assert forall q :: q in s.tasks ==> q in s.slot && s.slot[q] < MAX_TASKS;
  }

  lemma UartStep(ts: TaskTable, s: State, i: nat)
    requires Holds(ts, s.tasks, s.slot) && i < MAX_TASKS
    ensures ts[i].Some? && WaitsUart(ts[i].value) ==>
              var t := ts[i].value;
              && t.pid in s.tasks && UartBelow(s, i + 1) == UartBelow(s, i) + {t.pid}
              && UartWith(s, UartBelow(s, i + 1)) == Wake(UartWith(s, UartBelow(s, i)), t.pid, t.frame.(a0 := 0), t.mem)
    ensures !(ts[i].Some? && WaitsUart(ts[i].value)) ==> UartBelow(s, i + 1) == UartBelow(s, i)
  {
    forall p | p in s.tasks && p in s.slot && s.slot[p] == i
      ensures ts[i] == Some(s.tasks[p])
    {
      assert ts[s.slot[p]] == Some(s.tasks[p]);
    }
    if ts[i].Some? && WaitsUart(ts[i].value) {
      assert UartBelow(s, i + 1) == UartBelow(s, i) + {ts[i].value.pid};
      UartOne(s, UartBelow(s, i), ts[i].value.pid);
    }
  }

  lemma UartOne(s: State, woken: set<nat>, p: nat)
    requires p in s.tasks && p !in woken && WaitsUart(s.tasks[p])
    ensures UartWith(s, woken + {p}) == Wake(UartWith(s, woken), p, s.tasks[p].frame.(a0 := 0), s.tasks[p].mem)
  {
  }

  ghost predicate LoadAllowed(s: State, e: nat, bufLen: nat) {
    !CallBufRefused(s, e, bufLen) && s.current.value in s.tasks && bufLen <= |EndpointOf(s, e).value.copyBuf|
  }

  ghost predicate CallBufAllowed(s: State, e: nat, bufLen: nat) {
    LoadAllowed(s, e, bufLen) && (ReceiverWaits(EndpointOf(s, e).value) ==> EndpointOf(s, e).value.owner in s.tasks)
  }

  /** Copying the part of the buffer that fits is what `Handed` says. */
  lemma HandedPrefix(ep: Endpoint, mem: Mem, bufLen: nat)
    requires 0 < bufLen <= |ep.copyBuf| && ep.recvAddr != 0
    ensures var n := Min(bufLen, ep.recvCap);
            var k := MappedPrefix(mem, ep.recvAddr, n);
            Handed(ep, mem, bufLen) == (Store(mem, ep.recvAddr, ep.copyBuf[..n][..k]), if k == n then n else 0)
  {
    var n := Min(bufLen, ep.recvCap);
    var k := MappedPrefix(mem, ep.recvAddr, n);
    assert ep.copyBuf[..bufLen][..k] == ep.copyBuf[..n][..k];
  }

  lemma TakenPrefix(ep: Endpoint, mem: Mem, userBuf: nat, cap: nat)
    requires ep.pending != [] && 0 < ep.pending[0].bufLen <= |ep.copyBuf|
    ensures var n := Min(ep.pending[0].bufLen, cap);
            var k := MappedPrefix(mem, userBuf, n);
            TakenBuf(ep, mem, userBuf, cap) == (Store(mem, userBuf, ep.copyBuf[..n][..k]), if k == n then n else 0)
  {
    var n := Min(ep.pending[0].bufLen, cap);
    var k := MappedPrefix(mem, userBuf, n);
    assert ep.copyBuf[..ep.pending[0].bufLen][..k] == ep.copyBuf[..n][..k];
  }

  lemma PrefixBound(mem: Mem, addr: nat, len: nat)
    ensures MappedPrefix(mem, addr, len) <= len
  {
  }

  lemma NoPrefix(mem: Mem, addr: nat)
    ensures MappedPrefix(mem, addr, 0) == 0
  {
  }

  lemma PrefixGrows(mem: Mem, addr: nat, k: nat)
    requires MappedPrefix(mem, addr, k) == k && addr + k in mem
    ensures MappedPrefix(mem, addr, k + 1) == k + 1
  {
  }

  lemma LoadMore(mem: Mem, addr: nat, k: nat)
    requires MappedPrefix(mem, addr, k) == k && MappedPrefix(mem, addr, k + 1) == k + 1 && addr + k in mem
    ensures Load(mem, addr, k + 1) == Load(mem, addr, k) + [mem[addr + k]]
  {
  }

  lemma StoreNothing(mem: Mem, addr: nat, bytes: seq<byte>)
    requires bytes == []
    ensures Store(mem, addr, bytes) == mem
  {
  }

  lemma StoreMore(mem: Mem, addr: nat, bytes: seq<byte>, b: byte)
    requires addr + |bytes| in mem
    ensures Store(mem, addr, bytes)[addr + |bytes| := b] == Store(mem, addr, bytes + [b])
  {
  }

  lemma {:induction false} PrefixStops(mem: Mem, addr: nat, k: nat, len: nat)
    requires k < len && MappedPrefix(mem, addr, k) == k && addr + k !in mem
    ensures MappedPrefix(mem, addr, len) == k
    decreases len
  {
    if k + 1 < len { PrefixStops(mem, addr, k, len - 1); }
  }

  lemma {:induction false} PrefixMore(mem: Mem, addr: nat, k: nat, len: nat)
    requires k <= len && MappedPrefix(mem, addr, k) == k
    ensures MappedPrefix(mem, addr, len) >= k
    decreases len
  {
    if k < len { PrefixMore(mem, addr, k, len - 1); }
  }

  /** A call that is not refused, by a task that is there, to an endpoint whose waiting owner is there. */
  ghost predicate CallAllowed(s: State, e: nat) {
    !CallRefused(s, e) && s.current.value in s.tasks
        && (ReceiverWaits(EndpointOf(s, e).value) ==> EndpointOf(s, e).value.owner in s.tasks)
  }

  lemma SlotKeys(ts: TaskTable, table: map<nat, Task>, slot: map<nat, nat>)
    requires Holds(ts, table, slot)
    ensures slot.Keys == table.Keys
  {
  }

  lemma HeldTask(ts: TaskTable, table: map<nat, Task>, slot: map<nat, nat>, i: nat)
    requires Holds(ts, table, slot) && i < MAX_TASKS && ts[i].Some?
    ensures ts[i].value.pid in table && table[ts[i].value.pid] == ts[i].value
  {
  }

  lemma ReadyIs(ts: TaskTable, s: State, i: nat)
    requires Holds(ts, s.tasks, s.slot) && s.order == OrderOf(ts) && i < MAX_TASKS
    ensures ReadyAt(s, i) <==> ts[i].Some? && ts[i].value.pid != IDLE && ts[i].value.status == Ready
    ensures ts[i].Some? ==> s.order[i] == Some(ts[i].value.pid)
  {
  }

  lemma {:induction false} OffsetIs(s: State, start: nat, j: nat, k: nat)
    requires j <= k <= MAX_TASKS && forall i {:trigger At(start, i)} :: j <= i < k ==> !ReadyAt(s, At(start, i))
    requires k < MAX_TASKS ==> ReadyAt(s, At(start, k))
    ensures Offset(s, start, j) == k
    decreases k - j
  {
    hide At, ReadyAt;
    if j < k { OffsetIs(s, start, j + 1, k); }
  }

  predicate Detached(t: Task, current: Option<nat>) {
    t.status == Zombie && t.parent.None? && Some(t.pid) != current
  }

  /** What the reaping loop has removed when it comes to slot n. */
  ghost function ReapedBelow(s: State, n: nat): set<nat> {
    set p | p in Reapable(s) && p in s.slot && s.slot[p] < n
  }

  lemma ReapAll(ts: TaskTable, s: State)
    requires Holds(ts, s.tasks, s.slot)
    ensures ReapedBelow(s, 0) == {} && ReapedBelow(s, MAX_TASKS) == Reapable(s)
  {
  }

  lemma ReapStep(ts: TaskTable, s: State, i: nat)
    requires Holds(ts, s.tasks, s.slot) && i < MAX_TASKS
    ensures ts[i].Some? && Detached(ts[i].value, s.current) ==>
              ReapedBelow(s, i + 1) == ReapedBelow(s, i) + {ts[i].value.pid}
    ensures !(ts[i].Some? && Detached(ts[i].value, s.current)) ==> ReapedBelow(s, i + 1) == ReapedBelow(s, i)
  {
    forall p | p in Reapable(s) && p in s.slot && s.slot[p] == i
      ensures ts[i] == Some(s.tasks[p])
    {
      assert ts[s.slot[p]] == Some(s.tasks[p]);
    }
  }

  lemma RemoveOrder(ts: TaskTable, table: map<nat, Task>, slot: map<nat, nat>, i: nat)
    requires Holds(ts, table, slot) && i < MAX_TASKS && ts[i].Some?
    ensures OrderOf(ts[i := None]) ==
              seq(|ts|, j requires 0 <= j < |ts| => if OrderOf(ts)[j].Some?
              && OrderOf(ts)[j].value in {ts[i].value.pid} then None else OrderOf(ts)[j])
  {
  }

  lemma DropNone(s: State)
    ensures Drop(s, {}) == s
  {
  }

  lemma DropBoth(s: State, a: set<nat>, b: set<nat>)
    ensures Drop(Drop(s, a), b) == Drop(s, a + b)
  {
  }
}
