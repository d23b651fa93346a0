/**
 Synchronous message passing (src/kernel/task.rs, src/kernel/ipc.rs), as functions on the kernel's state: what
 `ipc_call`, `ipc_recv`, `ipc_reply` and their buffer variants do, and that they keep what the manager must
 satisfy between traps.
 */
module Ipc {
  import opened Wrappers
  import opened Words
  import opened Tasks
  import opened Sched

  /** What a call of the manager tells the trap handler. */
  datatype Outcome = Continue(frame: Frame) | Blocked | Failed

  function SetMessage(f: Frame, sender: nat, w: Words4): Frame {
    f.(a0 := sender, a1 := w.w0, a2 := w.w1, a3 := w.w2, a4 := w.w3)
  }

  // ---- Copying from and to user memory ----

  /** How many bytes from `addr` on are mapped, up to len. */
  function MappedPrefix(mem: Mem, addr: nat, len: nat): (k: nat)
    ensures k <= len
    ensures forall a {:trigger a in mem} :: addr <= a < addr + k ==> a in mem
    ensures k < len ==> addr + k !in mem
    decreases len
  {
    if len == 0 then 0
    else
      var k := MappedPrefix(mem, addr, len - 1);
      if k == len - 1 && addr + k in mem then len else k
  }

  function Load(mem: Mem, addr: nat, len: nat): (r: seq<byte>)
    requires forall a {:trigger a in mem} :: addr <= a < addr + len ==> a in mem
    ensures |r| == len && forall i :: 0 <= i < len ==> r[i] == mem[addr + i]
  {
    seq(len, i requires 0 <= i < len => mem[addr + i])
  }

  function Store(mem: Mem, addr: nat, bytes: seq<byte>): (m: Mem)
    ensures m.Keys == mem.Keys
  {
    map va | va in mem :: if addr <= va < addr + |bytes| then bytes[va - addr] else mem[va]
  }

  // ---- The endpoint as a queue of messages with their own payloads ----

  /** A message as its sender gave it. */
  datatype Parcel = Parcel(sender: nat, words: Words4, payload: seq<byte>)

  /** The message in the queue, with what the endpoint's one copy buffer holds for it. */
  function ParcelOf(ep: Endpoint, m: Message): Parcel {
    Parcel(m.sender, m.words, if 0 < m.bufLen <= |ep.copyBuf| then ep.copyBuf[..m.bufLen] else [])
  }

  function Queue(ep: Endpoint): (q: seq<Parcel>)
    ensures |q| == |ep.pending|
  {
    seq(|ep.pending|, i requires 0 <= i < |ep.pending| => ParcelOf(ep, ep.pending[i]))
  }

  // ---- Calls ----

  /** The endpoint that a system call names, if it is registered. */
  function EndpointOf(s: State, e: nat): Option<Endpoint> {
    if e < |s.endpoints| then s.endpoints[e] else None
  }

  /** `ipc_call` refuses: no such endpoint, the caller owns it, or its queue is full. */
  predicate CallRefused(s: State, e: nat) {
    s.current.None? || EndpointOf(s, e).None? || s.current == Some(EndpointOf(s, e).value.owner)
    || |EndpointOf(s, e).value.pending| == MSG_QUEUE_SIZE
  }

  predicate ReceiverWaits(ep: Endpoint) {
    ep.waitingReceiver == Some(ep.owner)
  }

  /** The caller sleeps; the message goes to the receiver's registers if it waits, and to the queue if not. */
  function Sent(s: State, e: nat, words: Words4, tf: Frame): State
    requires !CallRefused(s, e) && s.current.value in s.tasks
    requires ReceiverWaits(EndpointOf(s, e).value) ==> EndpointOf(s, e).value.owner in s.tasks
  {
    var ep, p := EndpointOf(s, e).value, s.current.value;
    var s1 := Sleep(s, p, IpcCall(e), tf);
    if ReceiverWaits(ep) then
      var r := s1.tasks[ep.owner];
      WithEndpoint(Wake(s1, ep.owner, SetMessage(r.frame, p, words), r.mem), e, ep.(waitingReceiver := None))
    else
      WithEndpoint(s1, e, ep.(pending := ep.pending + [Message(p, words, 0)]))
  }

  ghost function Called(s: State, e: nat, words: Words4, tf: Frame): (r: (State, Outcome))
    requires Inv(s)
  {
    CallReady(s, e);
    if CallRefused(s, e) then (s, Failed) else (Scheduled(Sent(s, e, words, tf), tf), Blocked)
  }

  /** The lookups of `ipc_call` cannot fail. */
  lemma CallReady(s: State, e: nat)
    requires Inv(s)
    ensures s.current.Some? && s.current.value in s.tasks
    ensures EndpointOf(s, e).Some? && ReceiverWaits(EndpointOf(s, e).value) ==> EndpointOf(s, e).value.owner in s.tasks
  {
    if EndpointOf(s, e).Some? { EndpointAt(s, e); }
  }

  lemma BufferedPush(q: seq<Message>, m: Message)
    ensures Buffered(q + [m]) == Buffered(q) + if m.bufLen > 0 then 1 else 0
  {
    assert (q + [m])[..|q|] == q;
  }

  lemma {:induction false} BufferedPop(q: seq<Message>)
    requires q != []
    ensures Buffered(q) == Buffered(q[1..]) + if q[0].bufLen > 0 then 1 else 0
  {
    if |q| > 1 {
      BufferedPop(q[..|q| - 1]);
      assert q[..|q| - 1][1..] == q[1..][..|q| - 2];
    }
  }

  lemma {:induction false} BufferedNone(q: seq<Message>, i: nat)
    requires Buffered(q) == 0 && i < |q|
    ensures q[i].bufLen == 0
  {
    if i < |q| - 1 { BufferedNone(q[..|q| - 1], i); }
  }

  lemma SentKeeps(s: State, e: nat, words: Words4, tf: Frame)
    requires Inv(s) && !CallRefused(s, e) && s.current != Some(IDLE)
    ensures s.current.value in s.tasks
    ensures (ReceiverWaits(EndpointOf(s, e).value) ==> EndpointOf(s, e).value.owner in s.tasks)
    ensures Core(Sent(s, e, words, tf)) && NoneRunning(Sent(s, e, words, tf))
  {
    hide TaskOk, SlotEndpointOk, Core, Inv;
    InvCore(s);
    CallReady(s, e);
    var ep, p := EndpointOf(s, e).value, s.current.value;
    CoreEndpoints(s);
    EndpointFacts(s, e);
    SleepKeeps(s, p, IpcCall(e), tf);
    var s1 := Sleep(s, p, IpcCall(e), tf);
    if ReceiverWaits(ep) {
      ReceiverThere(s, e);
      var r := s1.tasks[ep.owner];
      WakeReceiverKeeps(s1, e, ep.(waitingReceiver := None), SetMessage(r.frame, p, words), r.mem);
    } else {
      PushKeeps(s1, e, Message(p, words, 0), ep.copyBuf, ep.copyLen, ep.hasBuffered);
    }
  }

  lemma CoreEndpoints(s: State)
    requires Core(s)
    ensures |s.endpoints| == MAX_ENDPOINTS
  {
  }

  lemma EndpointFacts(s: State, e: nat)
    requires Core(s) && e < MAX_ENDPOINTS && s.endpoints[e].Some?
    ensures EndpointOk(s, s.endpoints[e].value, e) && |s.endpoints[e].value.copyBuf| == IPC_BUF_SIZE
  {
    EndpointAt(s, e);
  }

  /** Putting a message into a queue that has room, on an endpoint where nobody waits. */
  lemma PushKeeps(s: State, e: nat, m: Message, copyBuf: seq<byte>, copyLen: nat, hasBuffered: bool)
    requires Core(s) && e < MAX_ENDPOINTS && s.endpoints[e].Some? && m.bufLen <= IPC_BUF_SIZE
    requires |copyBuf| == IPC_BUF_SIZE
    requires var ep := s.endpoints[e].value;
             && |ep.pending| < MSG_QUEUE_SIZE && !ReceiverWaits(ep)
             && hasBuffered == (ep.hasBuffered || m.bufLen > 0) && (m.bufLen > 0 ==> !ep.hasBuffered)
    ensures var ep' := s.endpoints[e].value.(pending := s.endpoints[e].value.pending + [m], copyBuf := copyBuf,
                                             copyLen := copyLen, hasBuffered := hasBuffered);
            Core(WithEndpoint(s, e, ep')) && (NoneRunning(s) ==> NoneRunning(WithEndpoint(s, e, ep')))
  {
    hide TaskOk, SlotEndpointOk, Core;
    CoreEndpoints(s);
    EndpointFacts(s, e);
    var ep := s.endpoints[e].value;
    BufferedPush(ep.pending, m);
    EndpointKeeps(s, e,
        ep.(pending := ep.pending + [m], copyBuf := copyBuf, copyLen := copyLen, hasBuffered := hasBuffered));
  }

  lemma CalledInv(s: State, e: nat, words: Words4, tf: Frame)
    requires Inv(s) && s.current != Some(IDLE)
    ensures Inv(Called(s, e, words, tf).0)
  {
    hide Core, Inv, Sent, CallRefused;
    InvCore(s);
    CallReady(s, e);
    if !CallRefused(s, e) {
      SentKeeps(s, e, words, tf);
      SentCurrent(s, e, words, tf);
      ScheduledInv(Sent(s, e, words, tf), tf);
    }
  }

  lemma SentCurrent(s: State, e: nat, words: Words4, tf: Frame)
    requires !CallRefused(s, e) && s.current.value in s.tasks
    requires ReceiverWaits(EndpointOf(s, e).value) ==> EndpointOf(s, e).value.owner in s.tasks
    ensures Sent(s, e, words, tf).current == s.current && s.current.value in Sent(s, e, words, tf).tasks
  {
  }

  // ---- Calls with a buffer ----

  /** `ipc_call_buf` also refuses when a message with a buffer is queued already, and when the buffer is too long. */
  predicate CallBufRefused(s: State, e: nat, bufLen: nat) {
    CallRefused(s, e) || (EndpointOf(s, e).value.hasBuffered && !ReceiverWaits(EndpointOf(s, e).value))
        || bufLen > IPC_BUF_SIZE
  }

  /** The copy buffer with the bytes that could be read from the sender in front. */
  function Overlaid(copyBuf: seq<byte>, mem: Mem, userBuf: nat, len: nat): (r: seq<byte>)
    requires len <= |copyBuf|
    ensures |r| == |copyBuf|
    ensures r[..MappedPrefix(mem, userBuf, len)] == Load(mem, userBuf, MappedPrefix(mem, userBuf, len))
  {
    var k := MappedPrefix(mem, userBuf, len);
    Load(mem, userBuf, k) + copyBuf[k..]
  }

  /** Copying to user memory as much as fits: the new memory, and the length if all of it was mapped, 0 if not. */
  function Delivered(mem: Mem, addr: nat, cap: nat, data: seq<byte>): (r: (Mem, nat))
    ensures r.0.Keys == mem.Keys
  {
    var n := Min(|data|, cap);
    var k := MappedPrefix(mem, addr, n);
    (Store(mem, addr, data[..k]), if k == n then n else 0)
  }

  /** What the waiting receiver finds in its memory and in a5: the buffer, if it gave an address. */
  function Handed(ep: Endpoint, mem: Mem, bufLen: nat): (r: (Mem, nat))
    requires bufLen <= |ep.copyBuf|
    ensures r.0.Keys == mem.Keys
  {
    if bufLen > 0 && ep.recvAddr != 0 then Delivered(mem, ep.recvAddr, ep.recvCap, ep.copyBuf[..bufLen]) else (mem, 0)
  }

  /** The caller sleeps and its message and buffer go to the receiver if it waits, and to the queue if not. */
  function SentBuf(s: State, e: nat, words: Words4, bufLen: nat, tf: Frame): State
    requires !CallBufRefused(s, e, bufLen) && s.current.value in s.tasks && bufLen <= |EndpointOf(s, e).value.copyBuf|
    requires ReceiverWaits(EndpointOf(s, e).value) ==> EndpointOf(s, e).value.owner in s.tasks
  {
    var ep, p := EndpointOf(s, e).value, s.current.value;
    var s1 := Sleep(s, p, IpcCall(e), tf);
    if ReceiverWaits(ep) then
      var r := s1.tasks[ep.owner];
      var (mem, a5) := Handed(ep, r.mem, bufLen);
      WithEndpoint(Wake(s1, ep.owner, SetMessage(r.frame, p, words).(a5 := a5), mem), e,
                   ep.(waitingReceiver := None, recvAddr := 0, recvCap := 0))
    else
      WithEndpoint(s1, e,
          ep.(pending := ep.pending + [Message(p, words, bufLen)], hasBuffered := ep.hasBuffered || bufLen > 0))
  }

  /** The endpoint with the sender's buffer copied in. */
  function Loaded(s: State, e: nat, userBuf: nat, bufLen: nat): State
    requires !CallBufRefused(s, e, bufLen) && s.current.value in s.tasks && bufLen <= |EndpointOf(s, e).value.copyBuf|
  {
    var ep, mem := EndpointOf(s, e).value, s.tasks[s.current.value].mem;
    WithEndpoint(s, e, ep.(copyBuf := Overlaid(ep.copyBuf, mem, userBuf, bufLen),
                           copyLen := if MappedPrefix(mem, userBuf, bufLen) == bufLen then bufLen else ep.copyLen))
  }

  ghost function CalledBuf(s: State, e: nat, words: Words4, userBuf: nat, bufLen: nat, tf: Frame): (r: (State, Outcome))
    requires Inv(s)
  {
    CallReady(s, e);
    CallBufReady(s, e);
    if CallBufRefused(s, e, bufLen) then (s, Failed)
    else
      var s1 := Loaded(s, e, userBuf, bufLen);
      if MappedPrefix(s.tasks[s.current.value].mem, userBuf, bufLen) < bufLen then (s1, Failed)
      else (Scheduled(SentBuf(s1, e, words, bufLen, tf), tf), Blocked)
  }

  lemma CallBufReady(s: State, e: nat)
    requires Inv(s)
    ensures EndpointOf(s, e).Some? ==> |EndpointOf(s, e).value.copyBuf| == IPC_BUF_SIZE
  {
    if EndpointOf(s, e).Some? { EndpointAt(s, e); }
  }

  lemma LoadedKeeps(s: State, e: nat, userBuf: nat, bufLen: nat)
    requires Inv(s) && !CallBufRefused(s, e, bufLen)
    ensures s.current.value in s.tasks && bufLen <= |EndpointOf(s, e).value.copyBuf|
    ensures Inv(Loaded(s, e, userBuf, bufLen))
  {
    hide TaskOk, SlotEndpointOk, Core, Inv, Overlaid;
    InvCore(s);
    CoreEndpoints(s);
    EndpointFacts(s, e);
    CallBufReady(s, e);
    var ep, mem := EndpointOf(s, e).value, s.tasks[s.current.value].mem;
    EndpointKeeps(s, e, ep.(copyBuf := Overlaid(ep.copyBuf, mem, userBuf, bufLen),
                            copyLen := if MappedPrefix(mem, userBuf, bufLen) == bufLen then bufLen else ep.copyLen));
  }

  lemma SentBufKeeps(s: State, e: nat, words: Words4, bufLen: nat, tf: Frame)
    requires Inv(s) && !CallBufRefused(s, e, bufLen) && s.current != Some(IDLE)
    ensures s.current.value in s.tasks
    ensures (ReceiverWaits(EndpointOf(s, e).value) ==> EndpointOf(s, e).value.owner in s.tasks)
    ensures bufLen <= |EndpointOf(s, e).value.copyBuf|
    ensures Core(SentBuf(s, e, words, bufLen, tf)) && NoneRunning(SentBuf(s, e, words, bufLen, tf))
  {
    hide TaskOk, SlotEndpointOk, Core, Inv, Handed;
    InvCore(s);
    CallReady(s, e);
    CallBufReady(s, e);
    var ep, p := EndpointOf(s, e).value, s.current.value;
    CoreEndpoints(s);
    EndpointFacts(s, e);
    SleepKeeps(s, p, IpcCall(e), tf);
    var s1 := Sleep(s, p, IpcCall(e), tf);
    if ReceiverWaits(ep) {
      ReceiverThere(s, e);
      var r := s1.tasks[ep.owner];
      var (mem, a5) := Handed(ep, r.mem, bufLen);
      WakeReceiverKeeps(s1, e, ep.(waitingReceiver := None, recvAddr := 0, recvCap := 0),
                        SetMessage(r.frame, p, words).(a5 := a5), mem);
    } else {
      PushKeeps(s1, e, Message(p, words, bufLen), ep.copyBuf, ep.copyLen, ep.hasBuffered || bufLen > 0);
    }
  }

  lemma SentBufCurrent(s: State, e: nat, words: Words4, bufLen: nat, tf: Frame)
    requires !CallBufRefused(s, e, bufLen) && s.current.value in s.tasks && bufLen <= |EndpointOf(s, e).value.copyBuf|
    requires ReceiverWaits(EndpointOf(s, e).value) ==> EndpointOf(s, e).value.owner in s.tasks
    ensures SentBuf(s, e, words, bufLen, tf).current == s.current
    ensures s.current.value in SentBuf(s, e, words, bufLen, tf).tasks
  {
    hide Handed;
  }

  lemma LoadedSame(s: State, e: nat, userBuf: nat, bufLen: nat)
    requires !CallBufRefused(s, e, bufLen) && s.current.value in s.tasks && bufLen <= |EndpointOf(s, e).value.copyBuf|
    ensures var s1 := Loaded(s, e, userBuf, bufLen);
            && s1.tasks == s.tasks && s1.current == s.current && !CallBufRefused(s1, e, bufLen)
            && bufLen <= |EndpointOf(s1, e).value.copyBuf|
                && ReceiverWaits(EndpointOf(s1, e).value) == ReceiverWaits(EndpointOf(s, e).value)
            && EndpointOf(s1, e).value.owner == EndpointOf(s, e).value.owner
  {
    hide Overlaid;
  }

  lemma CalledBufInv(s: State, e: nat, words: Words4, userBuf: nat, bufLen: nat, tf: Frame)
    requires Inv(s) && s.current != Some(IDLE)
    ensures Inv(CalledBuf(s, e, words, userBuf, bufLen, tf).0)
  {
    hide Core, Inv, SentBuf, CallBufRefused, Loaded;
    InvCore(s);
    CallReady(s, e);
    CallBufReady(s, e);
    if !CallBufRefused(s, e, bufLen) {
      LoadedKeeps(s, e, userBuf, bufLen);
      LoadedSame(s, e, userBuf, bufLen);
      var s1 := Loaded(s, e, userBuf, bufLen);
      SentBufKeeps(s1, e, words, bufLen, tf);
      SentBufCurrent(s1, e, words, bufLen, tf);
      ScheduledInv(SentBuf(s1, e, words, bufLen, tf), tf);
    }
  }

  // ---- Receiving ----

  /** Only the owner of an endpoint may receive from it. */
  predicate RecvRefused(s: State, e: nat) {
    s.current.None? || EndpointOf(s, e).None? || s.current != Some(EndpointOf(s, e).value.owner)
  }

  /** `ipc_recv`: the first message if there is one; the flag for a buffered message is left as it is. */
  ghost function Received(s: State, e: nat, tf: Frame): (r: (State, Outcome))
    requires Inv(s)
  {
    if RecvRefused(s, e) then (s, Failed)
    else
      var ep := EndpointOf(s, e).value;
      if ep.pending != [] then
        (WithEndpoint(s, e, ep.(pending := ep.pending[1..])),
         Continue(SetMessage(tf, ep.pending[0].sender, ep.pending[0].words)))
      else (Scheduled(RecvSleeps(s, e, ep.(waitingReceiver := s.current), tf), tf), Blocked)
  }

  function RecvSleeps(s: State, e: nat, ep: Endpoint, tf: Frame): State
    requires s.current.Some? && s.current.value in s.tasks && e < |s.endpoints|
  {
    WithEndpoint(Sleep(s, s.current.value, IpcRecv(e), tf), e, ep)
  }

  /** The endpoint after `ipc_recv_buf` has taken its first message. */
  function Taken(ep: Endpoint): Endpoint
    requires ep.pending != []
  {
    ep.(pending := ep.pending[1..], hasBuffered := if ep.pending[0].bufLen > 0 then false else ep.hasBuffered)
  }

  /** What `ipc_recv_buf` puts into the receiver's memory and a5. */
  function TakenBuf(ep: Endpoint, mem: Mem, userBuf: nat, cap: nat): (r: (Mem, nat))
    requires ep.pending != [] && ep.pending[0].bufLen <= |ep.copyBuf|
    ensures r.0.Keys == mem.Keys
  {
    if ep.pending[0].bufLen > 0 then Delivered(mem, userBuf, cap, ep.copyBuf[..ep.pending[0].bufLen]) else (mem, 0)
  }

  ghost function ReceivedBuf(s: State, e: nat, userBuf: nat, cap: nat, tf: Frame): (r: (State, Outcome))
    requires Inv(s)
  {
    RecvReady(s, e);
    if RecvRefused(s, e) then (s, Failed)
    else
      var ep, p := EndpointOf(s, e).value, s.current.value;
      if ep.pending != [] then
        var (mem, a5) := TakenBuf(ep, s.tasks[p].mem, userBuf, cap);
        (WithFrame(WithEndpoint(s, e, Taken(ep)), p, s.tasks[p].frame, mem),
         Continue(SetMessage(tf, ep.pending[0].sender, ep.pending[0].words).(a5 := a5)))
      else (Scheduled(RecvSleeps(s, e, ep.(waitingReceiver := s.current, recvAddr := userBuf, recvCap := cap), tf),
          tf), Blocked)
  }

  lemma RecvReady(s: State, e: nat)
    requires Inv(s)
    ensures s.current.Some? && s.current.value in s.tasks && |s.endpoints| == MAX_ENDPOINTS
    ensures EndpointOf(s, e).Some? ==> EndpointOk(s, EndpointOf(s, e).value, e)
    ensures EndpointOf(s, e).Some? && EndpointOf(s, e).value.pending != [] ==>
              EndpointOf(s, e).value.pending[0].bufLen <= |EndpointOf(s, e).value.copyBuf|
  {
    if EndpointOf(s, e).Some? { EndpointAt(s, e); }
  }

  lemma PopKeeps(s: State, e: nat, hasBuffered: bool)
    requires Inv(s) && e < |s.endpoints| && s.endpoints[e].Some? && s.endpoints[e].value.pending != []
    requires var ep := s.endpoints[e].value; hasBuffered == ep.hasBuffered || (ep.pending[0].bufLen > 0 && !hasBuffered)
    ensures Inv(WithEndpoint(s, e,
              s.endpoints[e].value.(pending := s.endpoints[e].value.pending[1..], hasBuffered := hasBuffered)))
  {
    hide TaskOk, SlotEndpointOk, Core, Inv;
    InvCore(s);
    RecvReady(s, e);
    var ep := s.endpoints[e].value;
    BufferedPop(ep.pending);
    EndpointKeeps(s, e, ep.(pending := ep.pending[1..], hasBuffered := hasBuffered));
  }

  lemma RecvSleepsKeeps(s: State, e: nat, ep: Endpoint, tf: Frame)
    requires Inv(s) && !RecvRefused(s, e) && s.current != Some(IDLE)
    requires var old_ := EndpointOf(s, e).value;
             old_.pending == []
                 && ep == old_.(waitingReceiver := s.current, recvAddr := ep.recvAddr, recvCap := ep.recvCap)
    ensures s.current.value in s.tasks && Inv(Scheduled(RecvSleeps(s, e, ep, tf), tf))
  {
    hide TaskOk, SlotEndpointOk, Core, Inv, Scheduled;
    InvCore(s);
    RecvReady(s, e);
    SleepReceiverKeeps(s, s.current.value, e, ep, tf);
    ScheduledInv(RecvSleeps(s, e, ep, tf), tf);
  }

  lemma ReceivedInv(s: State, e: nat, tf: Frame)
    requires Inv(s) && s.current != Some(IDLE)
    ensures Inv(Received(s, e, tf).0)
  {
    hide Core, Inv, RecvSleeps, Scheduled;
    InvCore(s);
    if !RecvRefused(s, e) {
      var ep := EndpointOf(s, e).value;
      if ep.pending != [] {
        PopKeeps(s, e, ep.hasBuffered);
        assert ep.(pending := ep.pending[1..]) == ep.(pending := ep.pending[1..], hasBuffered := ep.hasBuffered);
      } else {
        RecvSleepsKeeps(s, e, ep.(waitingReceiver := s.current), tf);
      }
    }
  }

  lemma ReceivedBufInv(s: State, e: nat, userBuf: nat, cap: nat, tf: Frame)
    requires Inv(s) && s.current != Some(IDLE)
    ensures Inv(ReceivedBuf(s, e, userBuf, cap, tf).0)
  {
    hide Core, Inv, RecvSleeps, Scheduled, TakenBuf;
    InvCore(s);
    RecvReady(s, e);
    if !RecvRefused(s, e) {
      var ep, p := EndpointOf(s, e).value, s.current.value;
      if ep.pending != [] {
        PopKeeps(s, e, Taken(ep).hasBuffered);
        InvCore(WithEndpoint(s, e, Taken(ep)));
        FrameKeeps(WithEndpoint(s, e, Taken(ep)), p, s.tasks[p].frame, TakenBuf(ep, s.tasks[p].mem, userBuf, cap).0);
      } else {
        RecvSleepsKeeps(s, e, ep.(waitingReceiver := s.current, recvAddr := userBuf, recvCap := cap), tf);
      }
    }
  }

  // ---- Replying ----

  /** The current task may answer the client: it is asleep in a call to an endpoint that the current task owns. */
  predicate MayReply(s: State, client: nat) {
    && s.current.Some? && client in s.tasks && s.tasks[client].status == Sleeping
    && s.tasks[client].waiting.Some? && s.tasks[client].waiting.value.IpcCall?
    && EndpointOf(s, s.tasks[client].waiting.value.endpoint).Some?
    && s.current == Some(EndpointOf(s, s.tasks[client].waiting.value.endpoint).value.owner)
  }

  function Answer(f: Frame, w: Words4): Frame {
    f.(a0 := w.w0, a1 := w.w1, a2 := w.w2, a3 := w.w3)
  }

  function Replied(s: State, client: nat, words: Words4): (r: (State, bool)) {
    if MayReply(s, client) then
      var t := s.tasks[client];
      (Wake(s, client, Answer(t.frame, words), t.mem), true)
    else (s, false)
  }

  /** How many bytes `ipc_reply_buf` is to copy: no more than the caller has room for, as it said in a6. */
  function ReplyLen(f: Frame, bufLen: nat): nat {
    Min(Min(bufLen, f.a6), IPC_BUF_SIZE)
  }

  /** When a page of either buffer is missing, the caller has its words and the first bytes, and goes on sleeping. */
  function RepliedBuf(s: State, client: nat, words: Words4, userBuf: nat, bufLen: nat): (r: (State, bool))
    requires s.current.Some? ==> s.current.value in s.tasks
  {
    if MayReply(s, client) then
      var t, from := s.tasks[client], s.tasks[s.current.value].mem;
      var n := ReplyLen(t.frame, bufLen);
      var k := Min(MappedPrefix(from, userBuf, n), MappedPrefix(t.mem, t.frame.a5, n));
      var frame, mem := Answer(t.frame, words).(a5 := n), Store(t.mem, t.frame.a5, Load(from, userBuf, k));
      if k < n then (WithFrame(s, client, frame, mem), false) else (Wake(s, client, frame, mem), true)
    else (s, false)
  }

  lemma RepliedInv(s: State, client: nat, words: Words4)
    requires Inv(s) && s.current != Some(IDLE)
    ensures Inv(Replied(s, client, words).0)
  {
    hide Core, Inv;
    InvCore(s);
    if MayReply(s, client) {
      WakeKeeps(s, client, Answer(s.tasks[client].frame, words), s.tasks[client].mem);
    }
  }

  lemma RepliedBufInv(s: State, client: nat, words: Words4, userBuf: nat, bufLen: nat)
    requires Inv(s) && s.current != Some(IDLE)
    ensures s.current.Some? && s.current.value in s.tasks && Inv(RepliedBuf(s, client, words, userBuf, bufLen).0)
  {
    hide Core, Inv, Store, Load;
    InvCore(s);
    if MayReply(s, client) {
      var t, from := s.tasks[client], s.tasks[s.current.value].mem;
      var n := ReplyLen(t.frame, bufLen);
      var k := Min(MappedPrefix(from, userBuf, n), MappedPrefix(t.mem, t.frame.a5, n));
      var frame, mem := Answer(t.frame, words).(a5 := n), Store(t.mem, t.frame.a5, Load(from, userBuf, k));
      WakeKeeps(s, client, frame, mem);
      FrameKeeps(s, client, frame, mem);
    }
  }

  // ---- Registering ----

  function NewEndpoint(owner: nat): Endpoint {
    Endpoint(owner, None, [], Zeros(IPC_BUF_SIZE), 0, 0, 0, false)
  }

  function Registered(s: State, e: nat, owner: nat): (r: (State, bool)) {
    if e < |s.endpoints| && s.endpoints[e].None?
        && owner in s.tasks then (WithEndpoint(s, e, NewEndpoint(owner)), true) else (s, false)
  }

  /**
   An endpoint is registered exactly once, for a task that is there: with an empty queue, nobody waiting and no flag. No
   other endpoint and no task changes.
   */
  lemma RegisteredIs(s: State, e: nat, owner: nat)
    requires |s.endpoints| == MAX_ENDPOINTS
    ensures var (s', ok) := Registered(s, e, owner);
            && (ok <==> e < 8 && s.endpoints[e].None? && owner in s.tasks)
            && s' == s.(endpoints := s'.endpoints) && |s'.endpoints| == |s.endpoints|
            && (forall d :: 0 <= d < |s.endpoints| && !(ok && d == e) ==> s'.endpoints[d] == s.endpoints[d])
            && (ok ==>
                 && s'.endpoints[e].Some?
                 && var ep := s'.endpoints[e].value;
                    && ep.owner == owner && ep.pending == [] && ep.waitingReceiver.None? && !ep.hasBuffered
                    && |ep.copyBuf| == 4096 && ep.recvAddr == 0 && ep.recvCap == 0)
  {
  }

  lemma RegisteredKeeps(s: State, e: nat, owner: nat)
    requires Core(s)
    ensures Core(Registered(s, e, owner).0) && (Inv(s) ==> Inv(Registered(s, e, owner).0))
  {
    hide TaskOk, SlotEndpointOk;
    var s' := Registered(s, e, owner).0;
    forall q | q in s'.tasks
      ensures TaskOk(s', q)
    {
      TaskAt(s, q);
      RegisteredTask(s, e, owner, q);
    }
    forall d | 0 <= d < MAX_ENDPOINTS
      ensures SlotEndpointOk(s', d)
    {
      EndpointAt(s, d);
      if owner in s.tasks { TaskAt(s, owner); }
      RegisteredEndpoint(s, e, owner, d);
    }
  }

  lemma RegisteredTask(s: State, e: nat, owner: nat, q: nat)
    requires q in s.tasks && TaskOk(s, q)
    ensures TaskOk(Registered(s, e, owner).0, q)
  {
  }

  lemma RegisteredEndpoint(s: State, e: nat, owner: nat, d: nat)
    requires d < |s.endpoints| && SlotEndpointOk(s, d) && (owner in s.tasks ==> TaskOk(s, owner))
    ensures SlotEndpointOk(Registered(s, e, owner).0, d)
  {
  }
}
