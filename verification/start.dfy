/**
 Starting up (src/main.rs): the kernel makes the idle task and the console, the file server and the shell, gives the
 console the serial port, registers the two servers' endpoints and enters the shell. Every run begins there, so what
 holds of runs from a consistent state holds of every run of the machine; and what can go wrong is shown from there.
 */
module Start {
  import opened Wrappers
  import opened Words
  import opened Tasks
  import opened Sched
  import opened Ipc
  import opened Traps
  import opened Histories
  import opened Delivery
  import opened Lives
  import opened Wakeups
  import opened Kernel

  const CONSOLE_ENDPOINT: nat := 1
  const FS_ENDPOINT: nat := 2
  const CONSOLE: nat := 1
  const FS: nat := 2
  const SHELL: nat := 3

  /** A loaded program: its first registers and its memory. */
  datatype Program = Program(frame: Frame, mem: Mem)

  // ---- The steps of kernel_main ----

  function ConsoleUp(idle: Frame, console: Program): State {
    Registered(Granted(Created(Booted(idle), console.frame, console.mem).0, CONSOLE).0, CONSOLE_ENDPOINT, CONSOLE).0
  }

  function ServersUp(idle: Frame, console: Program, fs: Program): State {
    Registered(Created(ConsoleUp(idle, console), fs.frame, fs.mem).0, FS_ENDPOINT, FS).0
  }

  function ShellUp(idle: Frame, console: Program, fs: Program, shell: Program): State {
    Created(ServersUp(idle, console, fs), shell.frame, shell.mem).0
  }

  function Started(idle: Frame, console: Program, fs: Program, shell: Program): State {
    var s := ShellUp(idle, console, fs, shell);
    if SHELL in s.tasks then Run(s, SHELL) else s
  }

  /** Three programs and idle sit in the first four slots. */
  function Seat(i: nat): Option<nat> {
    if i < 4 then Some(i) else None
  }

  ghost predicate Seats(s: State) {
    && |s.order| == MAX_TASKS && (forall i :: 0 <= i < MAX_TASKS ==> s.order[i] == Seat(i))
    && s.slot == map[0 := 0, 1 := 1, 2 := 2, 3 := 3]
    && s.tasks.Keys == {0, 1, 2, 3}
  }

  /** The task is there with the program's first registers and memory. */
  ghost predicate Has(s: State, p: nat, program: Program) {
    p in s.tasks && s.tasks[p].frame == program.frame && s.tasks[p].mem == program.mem
  }

  lemma FirstFree(order: seq<Option<nat>>, i: nat)
    requires i < |order| && order[i].None? && forall j :: 0 <= j < i ==> order[j].Some?
    ensures FreeSlot(order, 0) == i
  {
  }

  lemma ConsoleIsUp(idle: Frame, console: Program)
    ensures var s := ConsoleUp(idle, console);
            && Core(s) && NoneRunning(s) && s.current.None? && s.nextPid == FS
            && s.tasks.Keys == {0, 1} && s.slot == map[0 := 0, 1 := 1]
            && |s.order| == MAX_TASKS
            && (forall i :: 0 <= i < MAX_TASKS ==> s.order[i] == if i < 2 then Some(i) else None)
            && s.uartOwner == Some(CONSOLE) && s.tasks[CONSOLE].status == Ready && s.tasks[CONSOLE].waiting.None?
            && s.tasks[IDLE].status == Ready && s.tasks[IDLE].waiting.None? && Has(s, CONSOLE, console)
            && s.endpoints == seq(MAX_ENDPOINTS, _ => None)[CONSOLE_ENDPOINT := Some(NewEndpoint(CONSOLE))]
  {
    hide Core;
    var s0 := Booted(idle);
    BootedCore(idle);
    FirstFree(s0.order, 1);
    CreatedKeeps(s0, console.frame, console.mem);
    var s1 := Created(s0, console.frame, console.mem).0;
    GrantedKeeps(s1, CONSOLE);
    RegisteredKeeps(Granted(s1, CONSOLE).0, CONSOLE_ENDPOINT, CONSOLE);
    assert s0.endpoints == seq(MAX_ENDPOINTS, _ => None);
  }

  lemma ServersAreUp(idle: Frame, console: Program, fs: Program)
    ensures var s := ServersUp(idle, console, fs);
            && Core(s) && NoneRunning(s) && s.current.None? && s.nextPid == SHELL
            && s.tasks.Keys == {0, 1, 2} && s.slot == map[0 := 0, 1 := 1, 2 := 2]
            && |s.order| == MAX_TASKS
            && (forall i :: 0 <= i < MAX_TASKS ==> s.order[i] == if i < 3 then Some(i) else None)
            && s.uartOwner == Some(CONSOLE)
            && (forall p :: p in s.tasks ==> s.tasks[p].status == Ready && s.tasks[p].waiting.None?)
            && Has(s, CONSOLE, console) && Has(s, FS, fs)
            && s.endpoints == seq(MAX_ENDPOINTS, _ => None)[CONSOLE_ENDPOINT := Some(NewEndpoint(CONSOLE))]
                                                            [FS_ENDPOINT := Some(NewEndpoint(FS))]
  {
    hide Core, ConsoleUp;
    var s0 := ConsoleUp(idle, console);
    ConsoleIsUp(idle, console);
    FirstFree(s0.order, 2);
    CreatedKeeps(s0, fs.frame, fs.mem);
    RegisteredKeeps(Created(s0, fs.frame, fs.mem).0, FS_ENDPOINT, FS);
  }

  /** Starting up succeeds at every step and leaves the machine consistent, with the shell running. */
  lemma StartedInv(idle: Frame, console: Program, fs: Program, shell: Program)
    ensures var s := Started(idle, console, fs, shell);
            && Inv(s) && Seats(s) && s.current == Some(SHELL) && s.uartOwner == Some(CONSOLE)
            && (forall p :: p in s.tasks ==>
                 s.tasks[p].waiting.None? && s.tasks[p].status == if p == SHELL then Running else Ready)
            && s.endpoints == seq(MAX_ENDPOINTS, _ => None)[CONSOLE_ENDPOINT := Some(NewEndpoint(CONSOLE))]
                                                            [FS_ENDPOINT := Some(NewEndpoint(FS))]
            && Has(s, CONSOLE, console) && Has(s, FS, fs) && Has(s, SHELL, shell)
            && (forall e :: 0 <= e < |s.endpoints| ==>
                 && (s.endpoints[e].Some? <==> e == 1 || e == 2)
                 && (s.endpoints[e].Some? ==>
                      && s.endpoints[e].value.owner == e && s.endpoints[e].value.pending == []
                      && s.endpoints[e].value.waitingReceiver.None? && !s.endpoints[e].value.hasBuffered))
  {
    hide Core, Inv, ServersUp;
    var s0 := ServersUp(idle, console, fs);
    ServersAreUp(idle, console, fs);
    FirstFree(s0.order, 3);
    CreatedKeeps(s0, shell.frame, shell.mem);
    EnteredInv(Created(s0, shell.frame, shell.mem).0, SHELL);
  }

  /** The state in which the shell is entered; it is always consistent. */
  ghost function First(idle: Frame, console: Program, fs: Program, shell: Program): (s: State)
    ensures Inv(s)
  {
    StartedInv(idle, console, fs, shell);
    Started(idle, console, fs, shell)
  }

  /** No message is queued and nobody is asleep, so histories begin empty. */
  lemma StartedHistories(idle: Frame, console: Program, fs: Program, shell: Program)
    ensures var s, logs := First(idle, console, fs, shell), seq(MAX_ENDPOINTS, _ => Log([], [], [], None));
            Inv(s) && InOrder(s, logs) && AllOnce(s, logs)
  {
    hide Inv, Started, InOrder, AllOnce;
    var s := First(idle, console, fs, shell);
    StartedInv(idle, console, fs, shell);
    HistoriesBegin(s);
  }

  /**
   Every run of the machine: the manager stays consistent, each endpoint delivers its calls in order with their own
   bytes, each exit code is delivered at most once, and each call is answered once and no caller forgotten if and only
   if the owners of the endpoints keep to their loops.
   */
  lemma EveryRun(idle: Frame, console: Program, fs: Program, shell: Program, run: History)
    requires CanRun(First(idle, console, fs, shell), run)
    ensures var s, logs := First(idle, console, fs, shell), seq(MAX_ENDPOINTS, _ => Log([], [], [], None));
            && Inv(AfterRun(s, run))
            && InOrder(AfterRun(s, run), LogsAfter(s, run, logs))
            && (forall i, j :: 0 <= i < j < |Deliveries(s, run)| ==> Deliveries(s, run)[i] != Deliveries(s, run)[j])
            && (OnceThroughout(s, run, logs) <==> DisciplinedRun(s, run, logs))
  {
    hide Inv, Started, InOrder, AllOnce, CanRun, AfterRun, LogsAfter, OnceThroughout, DisciplinedRun, Deliveries;
    var s, logs := First(idle, console, fs, shell), seq(MAX_ENDPOINTS, _ => Log([], [], [], None));
    StartedHistories(idle, console, fs, shell);
    AlwaysInv(s, run);
    AlwaysInOrder(s, run, logs);
    AlwaysOnce(s, run, logs);
    DeliveredOnce(s, run);
  }

  /** Starting up in place, step by step, by the methods of the task manager. */
  method KernelMain(idle: Frame, console: Program, fs: Program, shell: Program) returns (k: TaskManager, next: Frame)
    ensures fresh(k) && k.Valid() && k.Now() == Started(idle, console, fs, shell) && next == shell.frame
  {
    hide Inv, Core, Created, Registered, Granted, Booted;
    ConsoleIsUp(idle, console);
    ServersAreUp(idle, console, fs);
    StartedInv(idle, console, fs, shell);
    ShellThere(idle, console, fs, shell);
    CoresUp(idle, console, fs);
    k := new TaskManager.Boot(idle);
    var pid := k.CreateUserImage(console.frame, console.mem);
    var ok := k.GrantUart(CONSOLE);
    ok := k.RegisterEndpoint(CONSOLE_ENDPOINT, CONSOLE);
    pid := k.CreateUserImage(fs.frame, fs.mem);
    ok := k.RegisterEndpoint(FS_ENDPOINT, FS);
    pid := k.CreateUserImage(shell.frame, shell.mem);
    next := k.EnterTask(SHELL);
  }

  lemma ShellThere(idle: Frame, console: Program, fs: Program, shell: Program)
    ensures SHELL in ShellUp(idle, console, fs, shell).tasks
  {
    StartedInv(idle, console, fs, shell);
  }

  lemma CoresUp(idle: Frame, console: Program, fs: Program)
    ensures Core(Booted(idle)) && Core(ConsoleUp(idle, console)) && Core(ServersUp(idle, console, fs))
  {
    hide Core;
    BootedCore(idle);
    ConsoleIsUp(idle, console);
    ServersAreUp(idle, console, fs);
  }

  // ---- What can go wrong from there ----

  /** From slot c the scan goes over the other programs, round the table, to the first that is ready. */
  ghost predicate NextIs(s: State, c: nat, q: nat) {
    && 1 <= c <= 3 && 1 <= q <= 3 && c != q && Seats(s) && s.tasks[q].status == Ready
    && forall r {:trigger s.tasks[r]} :: 1 <= r <= 3 && r != c && r != q && Distance(c, r) < Distance(c, q) ==>
        s.tasks[r].status != Ready
  }

  ghost predicate NoZombie(s: State) {
    forall p {:trigger s.tasks[p]} :: p in s.tasks ==> s.tasks[p].status != Zombie
  }

  /** What task p is doing after the processor has gone from c to q. */
  predicate SwitchedTask(t: Task, t': Task, isNext: bool, wasCurrent: bool) {
    && t'.waiting == t.waiting
    && t'.status == if isNext then Running else if wasCurrent && t.status == Running then Ready else t.status
  }

  ghost predicate Switched(s: State, s': State, c: nat, q: nat) {
    && Seats(s') && s'.current == Some(q) && s'.endpoints == s.endpoints && s'.tasks.Keys == s.tasks.Keys
    && (forall p {:trigger s'.tasks[p]} :: p in s'.tasks ==> SwitchedTask(s.tasks[p], s'.tasks[p], p == q, p == c))
  }

  /** Task q is chosen; nothing else changes but that the current task's registers are saved. */
  lemma Switches(s: State, tf: Frame, c: nat, q: nat)
    requires s.current == Some(c) && NextIs(s, c, q) && NoZombie(s)
    ensures Switched(s, Scheduled(s, tf), c, q)
  {
    hide Pick, Seats;
    ReapsNone(s);
    SeatOf(s, c);
    var s1 := Save(s, tf);
    SavedNext(s, tf, c, q);
    ScanFinds(s1, c, q);
    RunSwitches(s, tf, c, q);
  }

  lemma SeatOf(s: State, c: nat)
    requires Seats(s) && c < 4
    ensures c in s.tasks && c in s.slot && s.slot[c] == c
  {
  }

  lemma ReapsNone(s: State)
    requires NoZombie(s)
    ensures Reap(s) == s
  {
    assert Reapable(s) == {};
    assert Drop(s, {}).tasks == s.tasks && Drop(s, {}).slot == s.slot;
    assert Drop(s, {}).order == s.order;
  }

  lemma SavedNext(s: State, tf: Frame, c: nat, q: nat)
    requires s.current == Some(c) && NextIs(s, c, q)
    ensures NextIs(Save(s, tf), c, q)
  {
    hide Distance;
    SeatOf(s, c);
    assert Save(s, tf).tasks.Keys == s.tasks.Keys;
  }

  lemma RunSwitches(s: State, tf: Frame, c: nat, q: nat)
    requires s.current == Some(c) && Seats(s) && c < 4 && q < 4 && c != q
    ensures q in Save(s, tf).tasks && Switched(s, Run(Save(s, tf), q), c, q)
  {
  }

  lemma ScanFinds(s: State, c: nat, q: nat)
    requires 1 <= c <= 3 && NextIs(s, c, q)
    ensures Pick(s, (c + 1) % MAX_TASKS) == Some(q)
  {
    hide At, Distance, Seats, Offset;
    DistanceOffset(c, q);
    var start, d := (c + 1) % MAX_TASKS, Distance(c, q);
    SeatOf(s, q);
    SeatReady(s, q);
    forall k | 0 <= k < d
      ensures !ReadyAt(s, At(start, k))
    {
      SlotAhead(c, q, k);
      SeatNotReady(s, c, q, At(start, k));
    }
    FirstReady(s, start, d);
  }

  lemma FirstReady(s: State, start: nat, d: nat)
    requires d < MAX_TASKS && ReadyAt(s, At(start, d))
    requires forall k :: 0 <= k < d ==> !ReadyAt(s, At(start, k))
    ensures Offset(s, start, 0) == d
  {
    hide At;
    var r := Offset(s, start, 0);
  }

  lemma SeatReady(s: State, q: nat)
    requires Seats(s) && 1 <= q <= 3 && q in s.tasks && s.tasks[q].status == Ready
    ensures ReadyAt(s, q) && s.order[q] == Some(q)
  {
    assert s.order[q] == Seat(q);
  }

  lemma SeatNotReady(s: State, c: nat, q: nat, i: nat)
    requires NextIs(s, c, q) && i < MAX_TASKS && i != c && i != q && Distance(c, i) < Distance(c, q)
    ensures !ReadyAt(s, i)
  {
    hide Distance;
    assert s.order[i] == Seat(i);
  }

  lemma SlotAhead(c: nat, q: nat, k: nat)
    requires 1 <= c <= 3 && 1 <= q <= 3 && c != q && k < Distance(c, q)
    ensures var i := At((c + 1) % MAX_TASKS, k); i != c && i != q && Distance(c, i) == k
  {
    AtValue(c + 1, k);
  }

  /** The shell calls the console before the console has come to receive: the message waits in the queue. */
  lemma ShellCalls(idle: Frame, console: Program, fs: Program, shell: Program, words: Words4)
    ensures var s, call := First(idle, console, fs, shell), Call(CONSOLE_ENDPOINT, words);
            && Possible(s, call) && Inv(After(s, call, ANY_FRAME))
            && var s' := After(s, call, ANY_FRAME);
            && s'.current == Some(CONSOLE) && SHELL in s'.tasks
            && s'.tasks[SHELL].waiting == Some(IpcCall(CONSOLE_ENDPOINT)) && |s'.endpoints| == MAX_ENDPOINTS
            && s'.endpoints[CONSOLE_ENDPOINT] == Some(NewEndpoint(CONSOLE).(pending := [Message(SHELL, words, 0)]))
  {
    hide Inv, Core, Started, Scheduled, After;
    var s, call := First(idle, console, fs, shell), Call(CONSOLE_ENDPOINT, words);
    StartedInv(idle, console, fs, shell);
    AfterInv(s, call, ANY_FRAME);
    SentKeeps(s, CONSOLE_ENDPOINT, words, ANY_FRAME);
    var s1 := Sent(s, CONSOLE_ENDPOINT, words, ANY_FRAME);
    Switches(s1, ANY_FRAME, SHELL, CONSOLE);
    CallAfter(s, CONSOLE_ENDPOINT, words);
    var s' := After(s, call, ANY_FRAME);
    assert SHELL in s'.tasks;
    assert s'.endpoints[CONSOLE_ENDPOINT].value.pending == [Message(SHELL, words, 0)];
  }

  lemma CallAfter(s: State, e: nat, words: Words4)
    requires Inv(s) && Possible(s, Call(e, words)) && !CallRefused(s, e) && s.current.value in s.tasks
    requires ReceiverWaits(EndpointOf(s, e).value) ==> EndpointOf(s, e).value.owner in s.tasks
    ensures After(s, Call(e, words), ANY_FRAME) == Scheduled(Sent(s, e, words, ANY_FRAME), ANY_FRAME)
  {
    hide Inv, Scheduled, Sent;
  }

  /**
   Two traps after starting up a reply can come too early: the console answers the shell without having received its
   call. The shell goes on while its message is still queued, and exactly-once is lost.
   */
  lemma EarlyReply(idle: Frame, console: Program, fs: Program, shell: Program, words: Words4, answer: Words4)
    ensures var s, logs := First(idle, console, fs, shell), seq(MAX_ENDPOINTS, _ => Log([], [], [], None));
            var run := [(Call(CONSOLE_ENDPOINT, words), ANY_FRAME), (Reply(SHELL, answer), ANY_FRAME)];
            && CanRun(s, run) && Awake(AfterRun(s, run), SHELL) && |AfterRun(s, run).endpoints| == MAX_ENDPOINTS
            && QueueAt(AfterRun(s, run), CONSOLE_ENDPOINT) == [Parcel(SHELL, words, [])]
            && !AllOnce(AfterRun(s, run), LogsAfter(s, run, logs))
  {
    hide Inv, Core, Started, After;
    var s := First(idle, console, fs, shell);
    StartedInv(idle, console, fs, shell);
    ShellCalls(idle, console, fs, shell, words);
    var call, reply := Call(CONSOLE_ENDPOINT, words), Reply(SHELL, answer);
    var s1 := After(s, call, ANY_FRAME);
    InvCore(s1);
    TaskAt(s1, SHELL);
    ReplyToQueued(s1, CONSOLE_ENDPOINT, 0, answer);
    AfterInv(s1, reply, ANY_FRAME);
    ReplyAfter(s1, answer);
    var s2 := After(s1, reply, ANY_FRAME);
    var run := [(call, ANY_FRAME), (reply, ANY_FRAME)];
    TwoTraps(s, call, reply);
    QueueOfOne(s2, CONSOLE, Message(SHELL, words, 0));
    AwakeLost(s2, LogsAfter(s, run, seq(MAX_ENDPOINTS, _ => Log([], [], [], None))), CONSOLE_ENDPOINT, SHELL);
  }

  lemma ReplyAfter(s: State, answer: Words4)
    requires Inv(s) && Possible(s, Reply(SHELL, answer))
    ensures After(s, Reply(SHELL, answer), ANY_FRAME) == Replied(s, SHELL, answer).0
  {
    hide Inv;
  }

  lemma TwoTraps(s: State, a: Trap, b: Trap)
    requires Inv(s) && Possible(s, a) && Inv(After(s, a, ANY_FRAME)) && Possible(After(s, a, ANY_FRAME), b)
    ensures var run := [(a, ANY_FRAME), (b, ANY_FRAME)];
            && Leads(s, run, After(After(s, a, ANY_FRAME), b, ANY_FRAME))
            && Inv(After(After(s, a, ANY_FRAME), b, ANY_FRAME))
  {
    hide Inv, After, Possible, Leads;
    var run, s1 := [(a, ANY_FRAME), (b, ANY_FRAME)], After(s, a, ANY_FRAME);
    OneTrap(s1, b);
    assert run[1..] == [(b, ANY_FRAME)];
    LeadsFrom(s, run, After(s1, b, ANY_FRAME));
  }

  lemma QueueOfOne(s: State, owner: nat, m: Message)
    requires |s.endpoints| == MAX_ENDPOINTS && m.bufLen == 0
    requires s.endpoints[CONSOLE_ENDPOINT] == Some(NewEndpoint(owner).(pending := [m]))
    ensures QueueAt(s, CONSOLE_ENDPOINT) == [Parcel(m.sender, m.words, [])]
  {
  }

  /** A sender in the queue that is awake is not asleep in its call. */
  lemma AwakeLost(s: State, logs: seq<Log>, e: nat, p: nat)
    requires |s.endpoints| == |logs| == MAX_ENDPOINTS && e < MAX_ENDPOINTS && Inv(s)
    requires |QueueAt(s, e)| == 1 && QueueAt(s, e)[0].sender == p && Awake(s, p)
    ensures !AllOnce(s, logs)
  {
    hide Inv, QueueAt, ExactlyOnce;
    InvCore(s);
    TaskAt(s, p);
    assert p !in Callers(s, e);
    if AllOnce(s, logs) {
      OnceAtEach(s, logs, e);
      SenderCalls(Callers(s, e), QueueAt(s, e), logs[e], Idling(s, e));
    }
  }

  lemma SenderCalls(callers: set<nat>, q: seq<Parcel>, log: Log, idle: bool)
    requires ExactlyOnce(callers, q, log, idle) && q != []
    ensures q[0].sender in callers
  {
    assert Senders(q)[0] == q[0].sender;
  }

  /**
   An owner that is alive is not enough for its callers: if console and file server call each other's endpoints, which
   nothing prevents, both are alive and neither ever runs again.
   */
  lemma ServersLocked(idle: Frame, console: Program, fs: Program, shell: Program, words: Words4)
    ensures var run := [(Yield, ANY_FRAME), (Call(FS_ENDPOINT, words), ANY_FRAME),
                        (Call(CONSOLE_ENDPOINT, words), ANY_FRAME)];
            && CanRun(First(idle, console, fs, shell), run)
            && var s := AfterRun(First(idle, console, fs, shell), run);
            && Inv(s) && s.current == Some(SHELL) && CONSOLE in Live(s) && FS in Live(s)
            && !CanReturn(s, CONSOLE) && !CanReturn(s, FS)
  {
    hide Inv, Core, Started, After, Live, CanReturn, Seats, Stuck, Possible, Leads;
    var s0, w := First(idle, console, fs, shell), words;
    StartedInv(idle, console, fs, shell);
    NotIdle(s0);
    AfterInv(s0, Yield, ANY_FRAME);
    Yields(s0);
    var s1 := After(s0, Yield, ANY_FRAME);
    CallEachOther(s1, w);
    ThreeTraps(s0, Yield, Call(FS_ENDPOINT, w), Call(CONSOLE_ENDPOINT, w));
    var s := After(After(s1, Call(FS_ENDPOINT, w), ANY_FRAME), Call(CONSOLE_ENDPOINT, w), ANY_FRAME);
    NeverReturns(s, {CONSOLE, FS}, CONSOLE);
    NeverReturns(s, {CONSOLE, FS}, FS);
    RunIs(s0, [(Yield, ANY_FRAME), (Call(FS_ENDPOINT, w), ANY_FRAME), (Call(CONSOLE_ENDPOINT, w), ANY_FRAME)], s);
  }

  lemma RunIs(s: State, run: History, s': State)
    requires Leads(s, run, s')
    ensures Inv(s) && CanRun(s, run) && AfterRun(s, run) == s'
  {
  }

  lemma NotIdle(s: State)
    requires s.current != Some(IDLE)
    ensures Possible(s, Yield)
  {
  }

  /** The console, which runs, calls the file server, and the file server, which is next, the console. */
  lemma CallEachOther(s: State, words: Words4)
    requires Inv(s) && Seats(s) && s.current == Some(CONSOLE)
    requires forall p :: p in s.tasks ==>
                 s.tasks[p].waiting.None? && s.tasks[p].status == if p == CONSOLE then Running else Ready
    requires s.endpoints == seq(MAX_ENDPOINTS, _ => None)[CONSOLE_ENDPOINT := Some(NewEndpoint(CONSOLE))]
                                                          [FS_ENDPOINT := Some(NewEndpoint(FS))]
    ensures var a, b := Call(FS_ENDPOINT, words), Call(CONSOLE_ENDPOINT, words);
            && Possible(s, a) && Inv(After(s, a, ANY_FRAME)) && Possible(After(s, a, ANY_FRAME), b)
            && var s' := After(After(s, a, ANY_FRAME), b, ANY_FRAME);
            && Inv(s') && s'.current == Some(SHELL) && CONSOLE in Live(s') && FS in Live(s') && Stuck(s', {CONSOLE, FS})
  {
    hide Inv, Core, After, Scheduled, Live;
    var a, b := Call(FS_ENDPOINT, words), Call(CONSOLE_ENDPOINT, words);
    AfterInv(s, a, ANY_FRAME);
    CallsOver(s, CONSOLE, FS_ENDPOINT, FS, words);
    var s1 := After(s, a, ANY_FRAME);
    AfterInv(s1, b, ANY_FRAME);
    CallsOver(s1, FS, CONSOLE_ENDPOINT, SHELL, words);
    BothLive(After(s1, b, ANY_FRAME));
  }

  lemma Yields(s: State)
    requires Inv(s) && Seats(s) && s.current == Some(SHELL)
    requires forall p :: p in s.tasks ==>
                 s.tasks[p].waiting.None? && s.tasks[p].status == if p == SHELL then Running else Ready
    ensures var s' := After(s, Yield, ANY_FRAME);
            && Seats(s') && s'.current == Some(CONSOLE) && s'.endpoints == s.endpoints
            && (forall p :: p in s'.tasks ==>
                 s'.tasks[p].waiting.None? && s'.tasks[p].status == if p == CONSOLE then Running else Ready)
  {
    hide Inv, Core, Scheduled;
    InvCore(s);
    Switches(s, ANY_FRAME.(a0 := 0), SHELL, CONSOLE);
  }

  /** Program c calls an endpoint of another program that does not wait, and program q is next. */
  lemma CallsOver(s: State, c: nat, e: nat, q: nat, words: Words4)
    requires Inv(s) && s.current == Some(c) && NextIs(s, c, q) && q == c + 1 && e < MAX_ENDPOINTS
    requires NoZombie(s) && |s.endpoints| == MAX_ENDPOINTS && s.endpoints[e].Some? && s.endpoints[e].value.owner != c
    requires s.endpoints[e].value.waitingReceiver.None? && s.endpoints[e].value.pending == []
    ensures var s' := After(s, Call(e, words), ANY_FRAME);
            && Seats(s') && s'.current == Some(q) && |s'.endpoints| == MAX_ENDPOINTS
            && (forall d :: 0 <= d < MAX_ENDPOINTS && d != e ==> s'.endpoints[d] == s.endpoints[d])
            && s'.endpoints[e].Some? && s'.endpoints[e].value.owner == s.endpoints[e].value.owner
            && (forall p :: p in s'.tasks ==>
                 && s'.tasks[p].waiting == (if p == c then Some(IpcCall(e)) else s.tasks[p].waiting)
                 && s'.tasks[p].status == if p == q then Running else if p == c then Sleeping else s.tasks[p].status)
  {
    hide Inv, Core, Scheduled, After;
    InvCore(s);
    SentKeeps(s, e, words, ANY_FRAME);
    Switches(Sent(s, e, words, ANY_FRAME), ANY_FRAME, c, q);
    CallAfter(s, e, words);
  }

  lemma ThreeTraps(s: State, a: Trap, b: Trap, c: Trap)
    requires Inv(s) && Possible(s, a) && Inv(After(s, a, ANY_FRAME)) && Possible(After(s, a, ANY_FRAME), b)
    requires Inv(After(After(s, a, ANY_FRAME), b, ANY_FRAME))
    requires Possible(After(After(s, a, ANY_FRAME), b, ANY_FRAME), c)
    ensures var run := [(a, ANY_FRAME), (b, ANY_FRAME), (c, ANY_FRAME)];
            Leads(s, run, After(After(After(s, a, ANY_FRAME), b, ANY_FRAME), c, ANY_FRAME))
  {
    hide Inv, After, Possible, Leads;
    TwoTraps(After(s, a, ANY_FRAME), b, c);
    var run := [(a, ANY_FRAME), (b, ANY_FRAME), (c, ANY_FRAME)];
    assert run[1..] == [(b, ANY_FRAME), (c, ANY_FRAME)];
    LeadsFrom(s, run, After(After(After(s, a, ANY_FRAME), b, ANY_FRAME), c, ANY_FRAME));
  }

  lemma BothLive(s: State)
    requires Seats(s) && s.tasks[CONSOLE].status == Sleeping && s.tasks[FS].status == Sleeping
    ensures CONSOLE in Live(s) && FS in Live(s)
  {
  }
}
