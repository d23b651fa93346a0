/**
 Scheduling, waiting for children and exiting (src/kernel/task.rs), as functions on the kernel's state, and what
 they promise: one running task, idle only alone, bounded waiting, no lost wake-up, every zombie reaped once.
 */
module Sched {
  import opened Wrappers
  import opened Words
  import opened Tasks

  // ---- Choosing the next task ----

  predicate ReadyAt(s: State, i: nat) {
    i < |s.order| && s.order[i].Some? && s.order[i].value in s.tasks && s.order[i].value != IDLE
    && s.tasks[s.order[i].value].status == Ready
  }

  /** The slot k places behind `start`, going round. */
  function At(start: nat, k: nat): (i: nat)
    ensures i < MAX_TASKS
  {
    (start + k) % MAX_TASKS
  }

  /** How many slots behind `start`, from k on, the first ready task is; all of them when there is none. */
  function Offset(s: State, start: nat, k: nat): (r: nat)
    requires k <= MAX_TASKS
    ensures k <= r <= MAX_TASKS
    ensures forall j {:trigger At(start, j)} :: k <= j < r ==> !ReadyAt(s, At(start, j))
    ensures r < MAX_TASKS ==> ReadyAt(s, At(start, r))
    decreases MAX_TASKS - k
  {
    if k == MAX_TASKS || ReadyAt(s, At(start, k)) then k else Offset(s, start, k + 1)
  }

  function Run(s: State, p: nat): State
    requires p in s.tasks
  {
    s.(tasks := s.tasks[p := s.tasks[p].(status := Running)], current := Some(p))
  }

  /** The task the scan picks: the first ready one, or idle. */
  function Pick(s: State, start: nat): (p: Option<nat>)
    ensures p.Some? ==> p.value in s.tasks
    ensures p.Some? && p.value != IDLE ==> s.tasks[p.value].status == Ready
  {
    var k := Offset(s, start, 0);
    if k < MAX_TASKS then s.order[At(start, k)]
    else if IDLE in s.tasks then Some(IDLE)
    else None
  }

  function RunNext(s: State, start: nat): State {
    if Pick(s, start).Some? then Run(s, Pick(s, start).value) else s
  }

  ghost function Reapable(s: State): set<nat> {
    set p | p in s.tasks && s.tasks[p].status == Zombie && s.tasks[p].parent.None? && s.current != Some(p)
  }

  ghost function Reap(s: State): State {
    Drop(s, Reapable(s))
  }

  /** The current task's registers are saved, and it is ready if it was running. */
  function Save(s: State, tf: Frame): State {
    if s.current.Some? && s.current.value in s.tasks then
      var t := s.tasks[s.current.value];
      s.(tasks := s.tasks[s.current.value := t.(frame := tf, status := if t.status == Running then Ready
          else t.status)])
    else s
  }

  function StartSlot(s: State): nat {
    if s.current.Some? && s.current.value in s.slot then (s.slot[s.current.value] + 1) % MAX_TASKS else 0
  }

  ghost function Scheduled(s: State, tf: Frame): State {
    var s1 := Reap(s);
    RunNext(Save(s1, tf), StartSlot(s1))
  }

  /** The registers of the task picked; those at hand when there is none. */
  function RunFrame(s: State, start: nat, tf: Frame): Frame {
    if Pick(s, start).Some? then s.tasks[Pick(s, start).value].frame else tf
  }

  /** The registers the processor goes on with after scheduling. */
  ghost function ScheduledFrame(s: State, tf: Frame): Frame {
    RunFrame(Save(Reap(s), tf), StartSlot(Reap(s)), tf)
  }

  /** The processor goes on with the current task, with the registers that this task has in the table. */
  ghost predicate GoesOnWith(s: State, next: Frame) {
    s.current.Some? && s.current.value in s.tasks && s.tasks[s.current.value].frame == next
  }

  // ---- What scheduling keeps ----

  lemma SaveKeeps(s: State, tf: Frame)
    requires Core(s) && s.current.Some? && s.current.value in s.tasks
    ensures Core(Save(s, tf)) && NoneRunning(Save(s, tf))
  {
    hide TaskOk, SlotEndpointOk;
    var s' := Save(s, tf);
    assert Active(s'.tasks) == Active(s.tasks);
    forall q | q in s'.tasks
      ensures TaskOk(s', q) && s'.tasks[q].status != Running
    {
      TaskAt(s, q);
      SaveTask(s, tf, q);
    }
    forall e | 0 <= e < MAX_ENDPOINTS
      ensures SlotEndpointOk(s', e)
    {
      EndpointAt(s, e);
      SaveEndpoint(s, tf, e);
    }
  }

  lemma SaveTask(s: State, tf: Frame, q: nat)
    requires s.current.Some? && s.current.value in s.tasks && q in s.tasks && TaskOk(s, q)
    ensures TaskOk(Save(s, tf), q) && Save(s, tf).tasks[q].status != Running
  {
  }

  lemma SaveEndpoint(s: State, tf: Frame, e: nat)
    requires e < |s.endpoints| && SlotEndpointOk(s, e)
    ensures SlotEndpointOk(Save(s, tf), e)
  {
  }

  lemma RunKeeps(s: State, p: nat)
    requires Core(s) && NoneRunning(s) && p in s.tasks && s.tasks[p].status == Ready
    ensures Core(Run(s, p)) && Run(s, p).tasks[p].status == Running
  {
    hide TaskOk, SlotEndpointOk;
    var s' := Run(s, p);
    assert Active(s'.tasks) == Active(s.tasks);
    forall q | q in s'.tasks
      ensures TaskOk(s', q)
    {
      TaskAt(s, q);
      RunTask(s, p, q);
    }
    forall e | 0 <= e < MAX_ENDPOINTS
      ensures SlotEndpointOk(s', e)
    {
      EndpointAt(s, e);
      RunEndpoint(s, p, e);
    }
  }

  lemma RunTask(s: State, p: nat, q: nat)
    requires p in s.tasks && q in s.tasks && TaskOk(s, q) && s.tasks[p].status == Ready && s.tasks[q].status != Running
    ensures TaskOk(Run(s, p), q)
  {
  }

  lemma RunEndpoint(s: State, p: nat, e: nat)
    requires p in s.tasks && e < |s.endpoints| && SlotEndpointOk(s, e)
    ensures SlotEndpointOk(Run(s, p), e)
  {
  }

  lemma RunNextInv(s: State, start: nat)
    requires Core(s) && NoneRunning(s)
    ensures Inv(RunNext(s, start))
  {
    hide TaskOk, SlotEndpointOk, Offset, Core, Pick;
    var p := Pick(s, start);
    IdleReady(s);
    Picked(s, start);
    RunKeeps(s, p.value);
    RunActive(s, p.value);
    if p.value != IDLE {
      assert p.value in Active(s.tasks);
    }
    RunInv(s, p.value);
  }

  lemma RunInv(s: State, p: nat)
    requires p in s.tasks && Core(Run(s, p)) && Active(Run(s, p).tasks) == Active(s.tasks)
    requires p == IDLE <==> Active(s.tasks) == {}
    ensures Inv(Run(s, p))
  {
    hide TaskOk, SlotEndpointOk;
    assert |Active(s.tasks)| == 0 <==> Active(s.tasks) == {};
  }

  lemma RunActive(s: State, p: nat)
    requires p in s.tasks && s.tasks[p].status == Ready
    ensures Active(Run(s, p).tasks) == Active(s.tasks)
  {
  }

  lemma IdleReady(s: State)
    requires Core(s) && NoneRunning(s)
    ensures IDLE in s.tasks && s.tasks[IDLE].status == Ready
  {
    TaskAt(s, IDLE);
  }

  /** The scan misses no ready task, so idle is picked only when there is none. */
  lemma Picked(s: State, start: nat)
    requires Core(s) && NoneRunning(s) && IDLE in s.tasks
    ensures Pick(s, start).Some? && (Pick(s, start) == Some(IDLE) <==> Active(s.tasks) == {})
    ensures Pick(s, start).value != IDLE ==> s.tasks[Pick(s, start).value].status == Ready
  {
    hide TaskOk, SlotEndpointOk, At;
    var k := Offset(s, start, 0);
    if k == MAX_TASKS {
      forall p | p in s.tasks && p != IDLE
        ensures s.tasks[p].status != Ready
      {
        SlotReached(s, start, p);
      }
    } else {
      assert s.order[At(start, k)].value in Active(s.tasks);
    }
  }

  lemma SlotReached(s: State, start: nat, p: nat)
    requires OrderOk(s) && p in s.tasks && p != IDLE && Offset(s, start, 0) == MAX_TASKS
    ensures s.tasks[p].status != Ready
  {
    hide At, Offset;
    assert s.order[s.slot[p]] == Some(p);
    SlotOffset(start, s.slot[p]);
  }

  /** Every slot is met on the way round. */
  lemma SlotOffset(start: nat, i: nat)
    requires i < MAX_TASKS
    ensures exists j :: 0 <= j < MAX_TASKS && At(start, j) == i
  {
    var j := (i + MAX_TASKS - start % MAX_TASKS) % MAX_TASKS;
    assert At(start, j) == i;
  }

  /** After scheduling, the chosen task runs and everything the manager must satisfy between traps holds. */
  lemma ScheduledInv(s: State, tf: Frame)
    requires Core(s) && s.current.Some? && s.current.value in s.tasks
    ensures Inv(Scheduled(s, tf))
  {
    hide Core, Inv;
    var s1 := Reap(s);
    ReapKeeps(s);
    SaveKeeps(s1, tf);
    RunNextInv(Save(s1, tf), StartSlot(s1));
  }

  lemma ReapKeeps(s: State)
    requires Core(s)
    ensures Core(Reap(s)) && Reap(s).current == s.current
    ensures s.current.Some? && s.current.value in s.tasks ==> s.current.value in Reap(s).tasks
    ensures forall p :: p in s.tasks && p !in Reapable(s) ==> p in Reap(s).tasks && Reap(s).tasks[p] == s.tasks[p]
    ensures forall p :: p in Reap(s).tasks ==> p in s.tasks && p !in Reapable(s)
  {
    hide Core;
    DropKeeps(s, Reapable(s));
  }

  /** Picking the next task changes nothing but who runs. */
  lemma RunNextOnly(s: State, start: nat, p: nat)
    ensures p in RunNext(s, start).tasks <==> p in s.tasks
    ensures p in s.tasks ==> RunNext(s, start).tasks[p] == s.tasks[p].(status := RunNext(s, start).tasks[p].status)
    ensures p in s.tasks && Pick(s, start) != Some(p) ==> RunNext(s, start).tasks[p] == s.tasks[p]
  {
    hide Pick;
  }

  /** A zombie without a parent, other than the task that was current, does not outlive the next scheduling. */
  lemma ScheduledReaps(s: State, tf: Frame, p: nat)
    requires Core(s) && s.current.Some? && s.current.value in s.tasks && p in Scheduled(s, tf).tasks
    ensures p in s.tasks && p !in Reapable(s)
  {
    hide Core, RunNext, Reap, Reapable;
    ReapKeeps(s);
    RunNextOnly(Save(Reap(s), tf), StartSlot(Reap(s)), p);
  }

  /**
   Scheduling takes nothing from a task that stays but its status and, from the one that was current, its registers.
   */
  lemma ScheduledTask(s: State, tf: Frame, p: nat)
    requires Core(s) && s.current.Some? && s.current.value in s.tasks && p in s.tasks && p !in Reapable(s)
    ensures p in Scheduled(s, tf).tasks
    ensures Scheduled(s, tf).tasks[p] == s.tasks[p].(status := Scheduled(s, tf).tasks[p].status,
                                                     frame := if s.current == Some(p) then tf else s.tasks[p].frame)
  {
    hide Core, RunNext, Reap, Reapable;
    ReapKeeps(s);
    RunNextOnly(Save(Reap(s), tf), StartSlot(Reap(s)), p);
  }

  // ---- What the processor goes on with ----

  lemma RunNextGoesOn(s: State, start: nat, tf: Frame)
    requires Core(s) && NoneRunning(s)
    ensures GoesOnWith(RunNext(s, start), RunFrame(s, start, tf))
  {
    hide Core, Pick;
    IdleReady(s);
    Picked(s, start);
  }

  lemma ScheduledGoesOn(s: State, tf: Frame)
    requires Core(s) && s.current.Some? && s.current.value in s.tasks
    ensures GoesOnWith(Scheduled(s, tf), ScheduledFrame(s, tf))
  {
    hide Core, RunNext, RunFrame, Reap;
    ReapKeeps(s);
    SaveKeeps(Reap(s), tf);
    RunNextGoesOn(Save(Reap(s), tf), StartSlot(Reap(s)), tf);
  }

  // ---- Bounded waiting ----

  /** How many slots lie between slots a and b, going round. */
  function Distance(a: nat, b: nat): (d: nat)
    requires a < MAX_TASKS && b < MAX_TASKS
    ensures d < MAX_TASKS
  {
    if a < b then b - a - 1 else b + MAX_TASKS - 1 - a
  }

  lemma AtValue(start: nat, k: nat)
    requires start < MAX_TASKS && k < MAX_TASKS
    ensures At(start, k) == if start + k < MAX_TASKS then start + k else start + k - MAX_TASKS
  {
  }

  lemma DistanceOffset(a: nat, b: nat)
    requires a < MAX_TASKS && b < MAX_TASKS
    ensures At((a + 1) % MAX_TASKS, Distance(a, b)) == b
  {
    hide At;
    AtValue((a + 1) % MAX_TASKS, Distance(a, b));
  }

  lemma DistanceShrinks(a: nat, b: nat, k: nat)
    requires a < MAX_TASKS && b < MAX_TASKS && k < Distance(a, b)
    ensures Distance(At((a + 1) % MAX_TASKS, k), b) < Distance(a, b)
  {
    hide At;
    AtValue((a + 1) % MAX_TASKS, k);
  }

  /** How far the running task is from task p. */
  function Behind(s: State, p: nat): nat
    requires s.current.Some? && s.current.value in s.slot && p in s.slot
    requires s.slot[s.current.value] < MAX_TASKS && s.slot[p] < MAX_TASKS
  {
    Distance(s.slot[s.current.value], s.slot[p])
  }

  ghost predicate InSlot(s: State, p: nat) {
    p in s.slot && s.slot[p] < MAX_TASKS && p in s.tasks
  }

  lemma HasSlot(s: State, p: nat)
    requires Core(s) && p in s.tasks
    ensures InSlot(s, p)
  {
  }

  /** The scan stops at a ready task or before it. */
  lemma PickNear(s: State, start: nat, d: nat, p: nat)
    requires OrderOk(s) && p in s.tasks && p != IDLE && s.tasks[p].status == Ready
    requires d < MAX_TASKS && s.slot[p] == At(start, d)
    ensures var k := Offset(s, start, 0);
            k <= d && Pick(s, start).Some? && InSlot(s, Pick(s, start).value)
                && s.slot[Pick(s, start).value] == At(start, k)
            && (k == d ==> Pick(s, start) == Some(p))
  {
    hide At;
    assert s.order[s.slot[p]] == Some(p);
    assert ReadyAt(s, At(start, d));
  }

  /** A ready task either is chosen or comes closer to the task that runs. */
  lemma BoundedWaiting(s: State, tf: Frame, p: nat)
    requires Core(s) && s.current.Some? && s.current.value in s.tasks && InSlot(s, s.current.value)
    requires InSlot(s, p) && p != IDLE && s.tasks[p].status == Ready && s.current != Some(p)
    ensures var s' := Scheduled(s, tf);
            && InSlot(s', p) && s'.current.Some? && InSlot(s', s'.current.value)
            && (s'.current == Some(p) || (s'.tasks[p].status == Ready && Behind(s', p) < Behind(s, p)))
  {
    hide Core, TaskOk, SlotEndpointOk, At, Distance, Reap, Offset, Pick, Drop, Reapable;
    var c, s1 := s.current.value, Reap(s);
    ReapKeeps(s);
    ReapSlots(s, c);
    ReapSlots(s, p);
    var s2 := Save(s1, tf);
    SaveKeeps(s1, tf);
    CoreOrder(s2);
    var a, b, start := s.slot[c], s.slot[p], StartSlot(s1);
    DistanceOffset(a, b);
    PickNear(s2, start, Distance(a, b), p);
    if Offset(s2, start, 0) < Distance(a, b) {
      DistanceShrinks(a, b, Offset(s2, start, 0));
    }
  }

  lemma CoreOrder(s: State)
    requires Core(s)
    ensures OrderOk(s)
  {
  }

  lemma ReapSlots(s: State, p: nat)
    requires Core(s) && p in s.tasks && (s.current == Some(p) || s.tasks[p].status != Zombie)
    ensures p in s.slot && p in Reap(s).slot && Reap(s).slot[p] == s.slot[p]
  {
  }

  // ---- New tasks ----

  /** The first free slot from i on; all of them when there is none. */
  function FreeSlot(order: seq<Option<nat>>, i: nat): (r: nat)
    requires i <= |order|
    ensures i <= r <= |order| && (r < |order| ==> order[r].None?) && forall j :: i <= j < r ==> order[j].Some?
    decreases |order| - i
  {
    if i == |order| || order[i].None? then i else FreeSlot(order, i + 1)
  }

  /** A new task in slot i takes the next pid. */
  function Insert(s: State, i: nat, frame: Frame, mem: Mem): State
    requires i < |s.order|
  {
    var t := Task(s.nextPid, Ready, frame, mem, 0, s.current, None);
    s.(tasks := s.tasks[s.nextPid := t], order := s.order[i := Some(s.nextPid)], slot := s.slot[s.nextPid := i],
       nextPid := s.nextPid + 1, runnable := s.runnable + 1)
  }

  lemma InsertKeeps(s: State, i: nat, frame: Frame, mem: Mem)
    requires Core(s) && i < MAX_TASKS && s.order[i].None? && s.nextPid > 0
    requires s.current.Some? ==> Alive(s, s.current.value)
    ensures Core(Insert(s, i, frame, mem)) && s.nextPid !in s.tasks
    ensures Inv(s) && s.current != Some(IDLE) ==> Inv(Insert(s, i, frame, mem))
  {
    hide TaskOk, SlotEndpointOk;
    NewPid(s);
    var s' := Insert(s, i, frame, mem);
    InsertActive(s, i, frame, mem);
    InsertOrder(s, i, frame, mem);
    hide OrderOk, Active;
    forall q | q in s'.tasks
      ensures TaskOk(s', q)
    {
      if q in s.tasks { TaskAt(s, q); }
      InsertTask(s, i, frame, mem, q);
    }
    forall e | 0 <= e < MAX_ENDPOINTS
      ensures SlotEndpointOk(s', e)
    {
      EndpointAt(s, e);
      InsertEndpoint(s, i, frame, mem, e);
    }
  }

  lemma InsertActive(s: State, i: nat, frame: Frame, mem: Mem)
    requires i < |s.order| && s.nextPid !in s.tasks && s.nextPid > 0
    ensures |Active(Insert(s, i, frame, mem).tasks)| == |Active(s.tasks)| + 1
  {
    assert Active(Insert(s, i, frame, mem).tasks) == Active(s.tasks) + {s.nextPid};
  }

  lemma InsertOrder(s: State, i: nat, frame: Frame, mem: Mem)
    requires OrderOk(s) && i < MAX_TASKS && s.order[i].None? && s.nextPid !in s.tasks
    ensures OrderOk(Insert(s, i, frame, mem))
  {
  }

  lemma NewPid(s: State)
    requires Core(s)
    ensures s.nextPid !in s.tasks
  {
    if s.nextPid in s.tasks { TaskAt(s, s.nextPid); }
  }

  lemma InsertTask(s: State, i: nat, frame: Frame, mem: Mem, q: nat)
    requires i < |s.order| && s.nextPid > 0 && s.nextPid !in s.tasks && (q in s.tasks || q == s.nextPid)
    requires q in s.tasks ==> TaskOk(s, q)
    requires s.current.Some? ==> Alive(s, s.current.value)
    ensures TaskOk(Insert(s, i, frame, mem), q)
  {
  }

  lemma InsertEndpoint(s: State, i: nat, frame: Frame, mem: Mem, e: nat)
    requires i < |s.order| && s.nextPid !in s.tasks && e < |s.endpoints| && SlotEndpointOk(s, e)
    ensures SlotEndpointOk(Insert(s, i, frame, mem), e)
  {
  }

  /** `create_user_image` for an image that is loaded: a ready task in the first free slot, if there is one. */
  function Created(s: State, frame: Frame, mem: Mem): (r: (State, Option<nat>)) {
    var i := FreeSlot(s.order, 0);
    if i < |s.order| then (Insert(s, i, frame, mem), Some(s.nextPid)) else (s, None)
  }

  /**
   A task is created exactly when a slot is free: it has a pid that nobody has had, is ready, a child of the current
   task, and has the registers and the memory it is given. Nobody else changes.
   */
  lemma CreatedTask(s: State, frame: Frame, mem: Mem)
    requires Core(s)
    ensures var (s', pid) := Created(s, frame, mem);
            && (pid.Some? <==> exists i :: 0 <= i < |s.order| && s.order[i].None?)
            && (pid.None? ==> s' == s)
            && (pid.Some? ==>
                 && pid.value !in s.tasks && pid.value in s'.tasks && s'.tasks - {pid.value} == s.tasks
                 && s'.nextPid > pid.value && s'.tasks[pid.value].frame == frame && s'.tasks[pid.value].mem == mem
                 && s'.tasks[pid.value].status == Ready && s'.tasks[pid.value].parent == s.current)
  {
    hide Core;
    NewPid(s);
    var i := FreeSlot(s.order, 0);
    if i < |s.order| { assert s.order[i].None?; }
  }

  lemma CreatedKeeps(s: State, frame: Frame, mem: Mem)
    requires Core(s) && s.nextPid > 0 && (s.current.Some? ==> Alive(s, s.current.value))
    ensures Core(Created(s, frame, mem).0) && s.nextPid !in s.tasks
    ensures NoneRunning(s) ==> NoneRunning(Created(s, frame, mem).0)
  {
    hide TaskOk, SlotEndpointOk;
    NewPid(s);
    var i := FreeSlot(s.order, 0);
    if i < |s.order| { InsertKeeps(s, i, frame, mem); }
  }

  /**
   `fork` once the pages and tables of the child are made: the child gets a copy of the parent's memory and
   registers, with 0 for the result. The pid is used up even when the task table is full.
   */
  function Forked(s: State, tf: Frame): (r: (State, Option<nat>))
    requires s.current.Some? && s.current.value in s.tasks
  {
    var i := FreeSlot(s.order, 0);
    if i < |s.order| then (Insert(s, i, tf.(a0 := 0), s.tasks[s.current.value].mem), Some(s.nextPid))
    else (s.(nextPid := s.nextPid + 1), None)
  }

  /**
   A fork fails exactly when every slot is taken. Otherwise there is one more task, with a pid that nobody has had: a
   ready child of the current task, with its memory and registers but for the result 0. Nobody else changes.
   */
  lemma ForkedInv(s: State, tf: Frame)
    requires Inv(s) && s.current != Some(IDLE) && s.nextPid > 0
    ensures s.current.Some? && s.current.value in s.tasks && Inv(Forked(s, tf).0)
    ensures var (s', child) := Forked(s, tf);
            && (child.None? <==> forall i :: 0 <= i < MAX_TASKS ==> s.order[i].Some?)
            && (child.None? ==> s'.tasks == s.tasks)
            && (child.Some? ==>
                 && child.value !in s.tasks && child.value in s'.tasks
                 && s'.tasks - {child.value} == s.tasks && s'.tasks[child.value].status == Ready
                 && s'.tasks[child.value].parent == s.current && s'.tasks[child.value].frame == tf.(a0 := 0)
                 && s'.tasks[child.value].mem == s.tasks[s.current.value].mem)
  {
    hide TaskOk, SlotEndpointOk;
    NewPid(s);
    var i := FreeSlot(s.order, 0);
    if i < |s.order| {
      InsertKeeps(s, i, tf.(a0 := 0), s.tasks[s.current.value].mem);
    } else {
      PidKeeps(s);
    }
  }

  lemma PidKeeps(s: State)
    requires Core(s)
    ensures Core(s.(nextPid := s.nextPid + 1)) && (Inv(s) ==> Inv(s.(nextPid := s.nextPid + 1)))
  {
    hide TaskOk, SlotEndpointOk;
    var s' := s.(nextPid := s.nextPid + 1);
    forall q | q in s'.tasks
      ensures TaskOk(s', q)
    {
      TaskAt(s, q);
      PidTask(s, q);
    }
    forall e | 0 <= e < MAX_ENDPOINTS
      ensures SlotEndpointOk(s', e)
    {
      EndpointAt(s, e);
      PidEndpoint(s, e);
    }
  }

  lemma PidTask(s: State, q: nat)
    requires q in s.tasks && TaskOk(s, q)
    ensures TaskOk(s.(nextPid := s.nextPid + 1), q)
  {
  }

  lemma PidEndpoint(s: State, e: nat)
    requires e < |s.endpoints| && SlotEndpointOk(s, e)
    ensures SlotEndpointOk(s.(nextPid := s.nextPid + 1), e)
  {
  }

  // ---- Waiting for a child ----

  datatype WaitResult = Reaped(code: int) | Asleep | NoChild

  /** Is `pid` a child of the current task? */
  predicate IsChild(s: State, pid: nat) {
    s.current.Some? && pid in s.tasks && s.tasks[pid].parent == s.current
  }

  ghost function Waited(s: State, pid: nat, tf: Frame): (r: (State, WaitResult))
    requires s.current.Some? && s.current.value in s.tasks
  {
    if s.current == Some(IDLE) || !IsChild(s, pid) then (s, NoChild)
    else if s.tasks[pid].status == Zombie then (Drop(s, {pid}), Reaped(s.tasks[pid].exitCode))
    else (Scheduled(Sleep(s, s.current.value, Child(pid), tf), tf), Asleep)
  }

  lemma WaitedInv(s: State, pid: nat, tf: Frame)
    requires Inv(s)
    ensures Inv(Waited(s, pid, tf).0)
  {
    hide TaskOk, SlotEndpointOk, Core, Inv, Scheduled, Drop;
    InvCore(s);
    if s.current == Some(IDLE) || !IsChild(s, pid) {
    } else if s.tasks[pid].status == Zombie {
      DropKeeps(s, {pid});
    } else {
      SleepKeeps(s, s.current.value, Child(pid), tf);
      ScheduledInv(Sleep(s, s.current.value, Child(pid), tf), tf);
    }
  }

  lemma InvCore(s: State)
    requires Inv(s)
    ensures Core(s) && s.current.Some? && s.current.value in s.tasks && s.tasks[s.current.value].status == Running
    ensures Alive(s, s.current.value)
  {
  }

  // ---- Exiting ----

  /**
   What the exit of task p does to task q: its children lose their parent, and a parent asleep on it is woken with
   its code.
   */
  function AfterExit(s: State, p: nat, code: int, a0: nat, q: nat): Task
    requires p in s.tasks && q in s.tasks
  {
    var t := s.tasks[q];
    var woken := WaitsFor(s, q, p);
    if q == p then
      t.(status := Zombie, exitCode := code,
         parent := if t.parent.Some? && t.parent.value in s.tasks && WaitsFor(s, t.parent.value, p) then None
             else t.parent)
    else
      t.(parent := if t.parent == Some(p) then None else t.parent,
         status := if woken then Ready else t.status, waiting := if woken then None else t.waiting,
         frame := if woken then t.frame.(a0 := a0) else t.frame)
  }

  /** Task q is the parent of p and asleep until p exits. */
  predicate WaitsFor(s: State, q: nat, p: nat)
    requires p in s.tasks && q in s.tasks
  {
    s.tasks[p].parent == Some(q) && s.tasks[q].status == Sleeping && s.tasks[q].waiting == Some(Child(p))
  }

  /** The value of an exit code in a register: `code as usize`, which extends the sign. */
  function AsWord(code: int): nat {
    code % U64
  }

  function ParentWoken(s: State, p: nat): bool
    requires p in s.tasks
  {
    s.tasks[p].parent.Some? && s.tasks[p].parent.value in s.tasks && WaitsFor(s, s.tasks[p].parent.value, p)
  }

  function Zombied(s: State, p: nat, code: int): State
    requires p in s.tasks && -0x8000_0000 <= code < 0x8000_0000 && s.runnable > 0
  {
    s.(tasks := map q | q in s.tasks :: AfterExit(s, p, code, AsWord(code), q), current := None,
       runnable := if ParentWoken(s, p) then s.runnable else s.runnable - 1)
  }

  /** The scan for the next task after an exit starts at slot 0. */
  function Exited(s: State, code: int): State
    requires s.current.Some? && s.current.value in s.tasks && -0x8000_0000 <= code < 0x8000_0000
  {
    if s.current == Some(IDLE) || s.runnable == 0 then s else RunNext(Zombied(s, s.current.value, code), 0)
  }

  lemma ZombiedKeeps(s: State, p: nat, code: int)
    requires Core(s) && s.current == Some(p) && p in s.tasks && s.tasks[p].status == Running && p != IDLE
    requires -0x8000_0000 <= code < 0x8000_0000 && s.runnable > 0
    ensures Core(Zombied(s, p, code)) && NoneRunning(Zombied(s, p, code))
  {
    hide TaskOk, SlotEndpointOk, AfterExit, ParentWoken, Active, AsWord;
    var s' := Zombied(s, p, code);
    ZombiedActive(s, p, code);
    forall q | q in s'.tasks
      ensures TaskOk(s', q) && s'.tasks[q].status != Running
    {
      TaskAt(s, p);
      TaskAt(s, q);
      ZombiedTask(s, p, code, q);
    }
    forall e | 0 <= e < MAX_ENDPOINTS
      ensures SlotEndpointOk(s', e)
    {
      TaskAt(s, p);
      EndpointAt(s, e);
      ZombiedEndpoint(s, p, code, e);
    }
  }

  lemma ZombiedActive(s: State, p: nat, code: int)
    requires Core(s) && p in s.tasks && s.tasks[p].status == Running && p != IDLE && s.runnable > 0
    requires -0x8000_0000 <= code < 0x8000_0000
    ensures |Active(Zombied(s, p, code).tasks)| == Zombied(s, p, code).runnable
  {
    hide TaskOk, SlotEndpointOk, AfterExit, OrderOk;
    var a, a' := Active(s.tasks), Active(Zombied(s, p, code).tasks);
    forall q | q in s.tasks
      ensures q in a' <==> (q in a && q != p) || WaitsFor(s, q, p)
      ensures WaitsFor(s, q, p) ==> q !in a && q != p
    {
      TaskAt(s, q);
      ZombiedStatus(s, p, code, q);
    }
    if ParentWoken(s, p) {
      assert a' == a - {p} + {s.tasks[p].parent.value};
    } else {
      assert a' == a - {p};
    }
  }

  lemma ZombiedStatus(s: State, p: nat, code: int, q: nat)
    requires p in s.tasks && q in s.tasks && s.tasks[p].status == Running && s.runnable > 0 && TaskOk(s, q)
    requires -0x8000_0000 <= code < 0x8000_0000
    ensures var now := AfterExit(s, p, code, AsWord(code), q).status;
            ((now == Ready || now == Running) <==>
              ((s.tasks[q].status == Ready || s.tasks[q].status == Running) && q != p) || WaitsFor(s, q, p))
    ensures WaitsFor(s, q, p) ==> q != p && q != IDLE
  {
  }

  lemma ZombiedTask(s: State, p: nat, code: int, q: nat)
    requires p in s.tasks && q in s.tasks && s.tasks[p].status == Running && p != IDLE && s.current == Some(p)
    requires TaskOk(s, p) && TaskOk(s, q) && s.runnable > 0 && -0x8000_0000 <= code < 0x8000_0000
    ensures TaskOk(Zombied(s, p, code), q) && Zombied(s, p, code).tasks[q].status != Running
  {
  }

  lemma ZombiedEndpoint(s: State, p: nat, code: int, e: nat)
    requires p in s.tasks && s.tasks[p].status == Running && e < |s.endpoints| && TaskOk(s, p) && SlotEndpointOk(s, e)
    requires s.runnable > 0 && -0x8000_0000 <= code < 0x8000_0000
    ensures SlotEndpointOk(Zombied(s, p, code), e)
  {
  }

  lemma ExitedInv(s: State, code: int)
    requires Inv(s) && -0x8000_0000 <= code < 0x8000_0000
    ensures Inv(Exited(s, code))
    ensures s.current != Some(IDLE) ==> s.runnable > 0
  {
    hide TaskOk, SlotEndpointOk;
    if s.current != Some(IDLE) {
      ZombiedKeeps(s, s.current.value, code);
      RunNextInv(Zombied(s, s.current.value, code), 0);
    }
  }

  lemma ExitGoesOn(s: State, code: int, tf: Frame)
    requires Inv(s) && s.current != Some(IDLE) && -0x8000_0000 <= code < 0x8000_0000
    ensures s.current.Some? && s.current.value in s.tasks && s.runnable > 0
    ensures GoesOnWith(Exited(s, code), RunFrame(Zombied(s, s.current.value, code), 0, tf))
  {
    hide Core, Inv, RunNext, RunFrame, Zombied;
    InvCore(s);
    ExitedInv(s, code);
    ZombiedKeeps(s, s.current.value, code);
    RunNextGoesOn(Zombied(s, s.current.value, code), 0, tf);
  }

  /**
   The exit code of a task goes one way or the other, not both: a parent asleep on the task is woken with it and
   the zombie loses its parent, so that it is reaped unasked; or the zombie keeps code and parent for a later wait.
   */
  lemma ExitDelivers(s: State, code: int)
    requires Inv(s) && s.current != Some(IDLE) && -0x8000_0000 <= code < 0x8000_0000
    ensures var p, s' := s.current.value, Exited(s, code);
            && p in s'.tasks && s'.tasks[p].status == Zombie && s'.tasks[p].exitCode == code && s'.current != Some(p)
            && (ParentWoken(s, p) ==>
                 var q := s.tasks[p].parent.value;
                 && q in s'.tasks && s'.tasks[q].waiting.None? && s'.tasks[q].mem == s.tasks[q].mem
                 && Returns(s.tasks[q].frame, s'.tasks[q].frame,
                            if code >= 0 then code else code + 0x1_0000_0000_0000_0000)
                 && s'.tasks[q].status != Sleeping && s'.tasks[p].parent.None?)
            && (!ParentWoken(s, p) ==> s'.tasks[p].parent == s.tasks[p].parent)
            && (forall c :: c in s.tasks && s.tasks[c].parent == Some(p) ==> c in s'.tasks && s'.tasks[c].parent.None?)
  {
    hide Pick, Core;
    var p := s.current.value;
    InvCore(s);
    ExitedInv(s, code);
    TaskAt(s, p);
    var s1 := Zombied(s, p, code);
    RunNextOnly(s1, 0, p);
    if ParentWoken(s, p) { RunNextOnly(s1, 0, s.tasks[p].parent.value); }
    forall c | c in s.tasks && s.tasks[c].parent == Some(p)
      ensures c in Exited(s, code).tasks && Exited(s, code).tasks[c].parent.None?
    {
      RunNextOnly(s1, 0, c);
    }
    InvCore(Exited(s, code));
    PickNotZombie(s1, 0, p);
  }

  lemma PickNotZombie(s: State, start: nat, p: nat)
    requires p in s.tasks && s.tasks[p].status == Zombie && p != IDLE
    ensures Pick(s, start) != Some(p)
  {
  }

  /** A zombie child is reaped by the first wait for it, which returns its code; a second wait fails. */
  lemma WaitReaps(s: State, pid: nat, tf: Frame)
    requires Inv(s) && s.current != Some(IDLE) && IsChild(s, pid) && s.tasks[pid].status == Zombie
    ensures var r := Waited(s, pid, tf);
            && r.1 == Reaped(s.tasks[pid].exitCode) && pid !in r.0.tasks
            && r.0.current == s.current && s.current.value in r.0.tasks && Waited(r.0, pid, tf).1 == NoChild
  {
    InvCore(s);
  }

  // ---- The console's interrupt ----

  ghost function UartWaited(s: State, tf: Frame): (r: Option<State>)
    requires s.current.Some? && s.current.value in s.tasks
  {
    if s.current == Some(IDLE) || s.current != s.uartOwner then None
    else Some(Scheduled(Sleep(s, s.current.value, UartRx, tf), tf))
  }

  predicate WaitsUart(t: Task) {
    t.status == Sleeping && t.waiting == Some(UartRx)
  }

  ghost function UartSleepers(tasks: map<nat, Task>): set<nat> {
    set p | p in tasks && WaitsUart(tasks[p])
  }

  function UartTask(t: Task): Task {
    if WaitsUart(t) then t.(status := Ready, waiting := None, frame := t.frame.(a0 := 0)) else t
  }

  ghost function UartWoken(s: State): State {
    s.(tasks := map p | p in s.tasks :: UartTask(s.tasks[p]), runnable := s.runnable + |UartSleepers(s.tasks)|)
  }

  /** `grant_uart`: once, to a task that is there. */
  function Granted(s: State, pid: nat): (r: (State, bool)) {
    if s.uartOwner.None? && pid in s.tasks then (s.(uartOwner := Some(pid)), true) else (s, false)
  }

  lemma GrantedKeeps(s: State, pid: nat)
    requires Core(s)
    ensures Core(Granted(s, pid).0) && (Inv(s) ==> Inv(Granted(s, pid).0))
    ensures (NoneRunning(s) ==> NoneRunning(Granted(s, pid).0))
  {
    hide TaskOk, SlotEndpointOk;
    var s' := Granted(s, pid).0;
    forall q | q in s'.tasks
      ensures TaskOk(s', q)
    {
      TaskAt(s, q);
      GrantedTask(s, pid, q);
    }
    forall e | 0 <= e < MAX_ENDPOINTS
      ensures SlotEndpointOk(s', e)
    {
      EndpointAt(s, e);
      GrantedEndpoint(s, pid, e);
    }
  }

  lemma GrantedTask(s: State, pid: nat, q: nat)
    requires q in s.tasks && TaskOk(s, q)
    ensures TaskOk(Granted(s, pid).0, q)
  {
  }

  lemma GrantedEndpoint(s: State, pid: nat, e: nat)
    requires e < |s.endpoints| && SlotEndpointOk(s, e)
    ensures SlotEndpointOk(Granted(s, pid).0, e)
  {
  }

  // ---- Starting up ----

  /** The manager with nothing but the idle task, in slot 0. */
  function Booted(frame: Frame): State {
    State(map[IDLE := Task(IDLE, Ready, frame, map[], 0, None, None)],
        seq(MAX_TASKS, i => if i == 0 then Some(IDLE) else None),
          map[IDLE := 0], seq(8, _ => None), None, 1, 0, None)
  }

  lemma BootedCore(frame: Frame)
    ensures Core(Booted(frame)) && NoneRunning(Booted(frame))
  {
    assert Active(Booted(frame).tasks) == {};
  }

  /** Entering the first task starts the machine in a consistent state. */
  lemma EnteredInv(s: State, p: nat)
    requires Core(s) && NoneRunning(s) && p in s.tasks && p != IDLE && s.tasks[p].status == Ready
    ensures Inv(Run(s, p))
  {
    hide Core, Inv;
    RunKeeps(s, p);
    RunActive(s, p);
    assert p in Active(s.tasks);
    RunInv(s, p);
  }

  lemma UartWaitedInv(s: State, tf: Frame)
    requires Inv(s) && UartWaited(s, tf).Some?
    ensures Inv(UartWaited(s, tf).value)
  {
    hide TaskOk, SlotEndpointOk, Core, Inv, Scheduled;
    InvCore(s);
    SleepKeeps(s, s.current.value, UartRx, tf);
    ScheduledInv(Sleep(s, s.current.value, UartRx, tf), tf);
  }

  lemma UartWokenKeeps(s: State)
    requires Core(s)
    ensures Core(UartWoken(s))
    ensures s.current.Some? && s.current.value in s.tasks ==> s.current.value in UartWoken(s).tasks
  {
    hide TaskOk, SlotEndpointOk;
    var s' := UartWoken(s);
    UartActive(s);
    hide Active, UartSleepers, UartTask;
    forall q | q in s'.tasks
      ensures TaskOk(s', q)
    {
      TaskAt(s, q);
      UartTaskOk(s, q);
    }
    forall e | 0 <= e < MAX_ENDPOINTS
      ensures SlotEndpointOk(s', e)
    {
      EndpointAt(s, e);
      UartEndpoint(s, e);
    }
  }

  lemma UartActive(s: State)
    requires Core(s)
    ensures |Active(UartWoken(s).tasks)| == |Active(s.tasks)| + |UartSleepers(s.tasks)|
  {
    hide TaskOk, SlotEndpointOk, OrderOk;
    TaskAt(s, IDLE);
    IdleNotAsleep(s);
    var a, b := Active(s.tasks), UartSleepers(s.tasks);
    assert Active(UartWoken(s).tasks) == a + b;
    assert a !! b;
  }

  lemma IdleNotAsleep(s: State)
    requires IDLE in s.tasks && TaskOk(s, IDLE)
    ensures IDLE !in UartSleepers(s.tasks)
  {
  }

  lemma UartTaskOk(s: State, q: nat)
    requires q in s.tasks && TaskOk(s, q)
    ensures TaskOk(UartWoken(s), q)
  {
  }

  lemma UartEndpoint(s: State, e: nat)
    requires e < |s.endpoints| && SlotEndpointOk(s, e)
    ensures SlotEndpointOk(UartWoken(s), e)
  {
  }
}
