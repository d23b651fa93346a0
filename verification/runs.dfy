/**
 Whole runs of what happens to memory (src/kernel/task.rs, src/kernel/exec.rs): user programs store, and the kernel
 grows heaps, forks, loads, replaces and ends tasks. What one task sees over a run, and when all pages are free again.
 Module Spaces proves that its methods make these steps.
 */
module MemoryRuns {
  import opened Wrappers
  import opened Words
  import opened Pages
  import opened PageTables
  import opened Ownership
  import opened Memories
  import opened Placement
  import opened HeapMoves
  import opened Duplication
  import opened Programs

  datatype Act =
    | Writes(id: nat, stores: seq<(nat, byte)>)
    | Sbrk(id: nat)
    | Fork(parent: nat, child: nat)
    | Spawn(child: nat, entry: nat, file: seq<byte>)
    | Exec(id: nat, now: nat, entry: nat, file: seq<byte>)
    | Reap(id: nat)
    | Grant(id: nat)
    | Failed

  /** The task whose memory the act changes; what is made new was nobody's. */
  function Actor(act: Act): Option<nat> {
    match act
    case Writes(id, _) => Some(id)
    case Sbrk(id) => Some(id)
    case Exec(id, _, _, _) => Some(id)
    case Reap(id) => Some(id)
    case Grant(id) => Some(id)
    case _ => None
  }

  ghost predicate NewTask(m: Moment, n: Moment, id: nat) {
    && id !in m.w.spaces && id in n.w.spaces && n.w.spaces == m.w.spaces[id := n.w.spaces[id]]
    && AllKept(m.w, m.b, n.w, n.b) && Conserves(m, n)
  }

  /** What the act does. A system call that fails after allocating may leave pages in the kernel's hands. */
  ghost predicate Does(m: Moment, n: Moment, act: Act) {
    match act
    case Writes(id, stores) => n.w == m.w && HasTree(m.w, id) && n.b == Stores(m.w, m.b, id, stores)
    case Sbrk(id) =>
      && id in m.w.spaces && n.w.spaces.Keys == m.w.spaces.Keys && Conserves(m, n)
      && OthersKept(m.w, m.b, n.w, n.b, id) && HeapMoved(m.w, m.b, n.w, n.b, id)
    case Fork(parent, child) => parent in m.w.spaces && NewTask(m, n, child) && Twins(n.w, n.b, parent, child)
    case Spawn(child, entry, file) => NewTask(m, n, child) && Runs(n.w, n.b, child, entry, file)
    case Exec(id, now, entry, file) =>
      && id in m.w.spaces && now !in m.w.spaces && now in n.w.spaces
      && n.w.spaces == (m.w.spaces - {id})[now := n.w.spaces[now]] && Conserves(m, n)
      && OthersKept(m.w, m.b, n.w, n.b, id) && Runs(n.w, n.b, now, entry, file)
    case Reap(id) =>
      && id in m.w.spaces && n.w.spaces == m.w.spaces - {id} && n.b == m.b && Conserves(m, n)
      && n.w.free == m.w.free + Owned(m.w, id) && OthersKept(m.w, m.b, n.w, n.b, id)
    case Grant(id) =>
      && n.w.spaces == m.w.spaces && n.w.uses == m.w.uses && n.w.free == m.w.free && n.w.managed == m.w.managed
      && n.b == m.b && OthersKept(m.w, m.b, n.w, n.b, id)
    case Failed =>
      && n.w.spaces == m.w.spaces && n.w.managed == m.w.managed && AllKept(m.w, m.b, n.w, n.b)
      && InHand(m.w) <= InHand(n.w)
  }

  ghost predicate Step(m: Moment, n: Moment, act: Act) {
    && Sound(m) && Sound(n) && Does(m, n, act)
    && (act.Grant? || n.w.granted <= m.w.granted)
  }

  lemma FailedStep(m: Moment, n: Moment)
    requires Sound(m) && Sound(n) && n.w.granted <= m.w.granted
    requires n.w.spaces == m.w.spaces && n.w.managed == m.w.managed && AllKept(m.w, m.b, n.w, n.b)
    requires InHand(m.w) <= InHand(n.w)
    ensures Step(m, n, Failed)
  {
  }

  lemma ForkStep(m: Moment, n: Moment, parent: nat, child: nat)
    requires Sound(m) && Sound(n) && n.w.granted <= m.w.granted && parent in m.w.spaces
    requires child !in m.w.spaces && child in n.w.spaces && n.w.spaces == m.w.spaces[child := n.w.spaces[child]]
    requires AllKept(m.w, m.b, n.w, n.b) && Conserves(m, n) && Twins(n.w, n.b, parent, child)
    ensures Step(m, n, Fork(parent, child))
  {
  }

  lemma SpawnStep(m: Moment, n: Moment, child: nat, entry: nat, file: seq<byte>)
    requires Sound(m) && Sound(n) && n.w.granted <= m.w.granted
    requires child !in m.w.spaces && child in n.w.spaces && n.w.spaces == m.w.spaces[child := n.w.spaces[child]]
    requires AllKept(m.w, m.b, n.w, n.b) && Conserves(m, n) && Runs(n.w, n.b, child, entry, file)
    ensures Step(m, n, Spawn(child, entry, file))
  {
  }

  lemma ExecStep(m: Moment, n: Moment, id: nat, now: nat, entry: nat, file: seq<byte>)
    requires Sound(m) && Sound(n) && n.w.granted <= m.w.granted
    requires id in m.w.spaces && now !in m.w.spaces && now in n.w.spaces
    requires n.w.spaces == (m.w.spaces - {id})[now := n.w.spaces[now]] && Conserves(m, n)
    requires OthersKept(m.w, m.b, n.w, n.b, id) && Runs(n.w, n.b, now, entry, file)
    ensures Step(m, n, Exec(id, now, entry, file))
  {
  }

  lemma ReapStep(m: Moment, n: Moment, id: nat)
    requires Sound(m) && Sound(n) && n.w.granted <= m.w.granted
    requires id in m.w.spaces && n.w.spaces == m.w.spaces - {id} && n.b == m.b && Conserves(m, n)
    requires n.w.free == m.w.free + Owned(m.w, id) && OthersKept(m.w, m.b, n.w, n.b, id)
    ensures Step(m, n, Reap(id))
  {
  }

  lemma SbrkStep(m: Moment, n: Moment, id: nat)
    requires Sound(m) && Sound(n) && n.w.granted <= m.w.granted
    requires id in m.w.spaces && n.w.spaces.Keys == m.w.spaces.Keys && Conserves(m, n)
    requires OthersKept(m.w, m.b, n.w, n.b, id) && HeapMoved(m.w, m.b, n.w, n.b, id)
    ensures Step(m, n, Sbrk(id))
  {
  }

  /** Acts, and the moments before, between and after them. */
  ghost predicate IsRun(ms: seq<Moment>, acts: seq<Act>) {
    && |ms| == |acts| + 1
    && forall i {:trigger acts[i]} :: 0 <= i < |acts| ==> Step(ms[i], ms[i + 1], acts[i])
  }

  lemma LastStep(ms: seq<Moment>, acts: seq<Act>)
    requires IsRun(ms, acts) && acts != []
    ensures IsRun(ms[..|acts|], acts[..|acts| - 1]) && Step(ms[|acts| - 1], ms[|acts|], acts[|acts| - 1])
  {
    hide Step;
    var ms', acts' := ms[..|acts|], acts[..|acts| - 1];
    forall i | 0 <= i < |acts'|
      ensures Step(ms'[i], ms'[i + 1], acts'[i])
    {
      assert acts'[i] == acts[i];
    }
  }

  // ---- What one task sees ----

  /** An act leaves every task alone but the one that acts. */
  lemma StepKeeps(m: Moment, n: Moment, act: Act, o: nat)
    requires Step(m, n, act) && o in m.w.spaces && Actor(act) != Some(o)
    ensures Kept(m.w, m.b, n.w, n.b, o)
  {
    hide WorldOk, BytesOk, HasTree, Kept, HeapMoved, Twins, Runs, Stores;
    match act
    case Writes(id, stores) => TreeParts(m.w, id); StoresInvisible(m.w, m.b, id, stores, o, 0);
    case _ => assert Kept(m.w, m.b, n.w, n.b, o);
  }

  /** The bytes after a task's own stores in a run, on what was there at its start. */
  ghost function OwnStores(w: World, b: Bytes, o: nat, acts: seq<Act>): Bytes
    requires HasTree(w, o)
  {
    if acts == [] then b
    else
      var act, before := acts[|acts| - 1], OwnStores(w, b, o, acts[..|acts| - 1]);
      if act.Writes? && act.id == o then Stores(w, before, o, act.stores) else before
  }

  lemma StoreSame(w: World, b: Bytes, w': World, b': Bytes, o: nat, a: nat, x: byte)
    requires WorldOk(w) && BytesOk(w, b) && Kept(w, b, w', b', o)
    ensures HasTree(w, o) && HasTree(w', o)
    ensures Kept(w, Store(w, b, o, a, x), w', Store(w', b', o, a, x), o) && BytesOk(w, Store(w, b, o, a, x))
  {
    hide WorldOk, TreeOk, LeafAt, PteToPa, VpnOf, ForUser;
    KeptMap(w, b, w', b', o);
    var v := VpnOf(a);
    var pte := Leaf(w, o, v);
    var pa := PteToPa(pte);
    assert Leaf(w', o, v) == pte;
    VpnIn(a);
    UserPage(w, o, v);
    if ForUser(pte) && pa in w.managed {
      assert DataPage(w, pa);
      assert ContentSame(b, b', pa);
    }
    var c, c' := Store(w, b, o, a, x), Store(w', b', o, a, x);
    forall q | q in w.uses && w.uses[q].id == o
      ensures ContentSame(w.tables, w'.tables, q) && ContentSame(c, c', q)
    {
      assert ContentSame(w.tables, w'.tables, q) && ContentSame(b, b', q);
    }
  }

  lemma {:induction false} StoresSame(w: World, b: Bytes, w': World, b': Bytes, o: nat, stores: seq<(nat, byte)>)
    requires WorldOk(w) && BytesOk(w, b) && Kept(w, b, w', b', o)
    ensures HasTree(w, o) && HasTree(w', o)
    ensures Kept(w, Stores(w, b, o, stores), w', Stores(w', b', o, stores), o) && BytesOk(w, Stores(w, b, o, stores))
  {
    hide WorldOk, HasTree, Kept, Store, BytesOk;
    KeptMap(w, b, w', b', o);
    if stores != [] {
      var last := |stores| - 1;
      StoresSame(w, b, w', b', o, stores[..last]);
      StoreSame(w, Stores(w, b, o, stores[..last]), w', Stores(w', b', o, stores[..last]), o, stores[last].0,
                stores[last].1);
    }
  }

  /** In the run the task does nothing but store. */
  ghost predicate OnlyStores(acts: seq<Act>, o: nat) {
    forall i {:trigger acts[i]} :: 0 <= i < |acts| && Actor(acts[i]) == Some(o) ==> acts[i].Writes?
  }

  lemma {:induction false} RunKept(ms: seq<Moment>, acts: seq<Act>, o: nat)
    requires IsRun(ms, acts) && Sound(ms[0]) && o in ms[0].w.spaces && OnlyStores(acts, o)
    ensures HasTree(ms[0].w, o) && BytesOk(ms[0].w, OwnStores(ms[0].w, ms[0].b, o, acts))
    ensures Kept(ms[0].w, OwnStores(ms[0].w, ms[0].b, o, acts), ms[|acts|].w, ms[|acts|].b, o)
    decreases |acts|
  {
    hide WorldOk, HasTree, Kept, BytesOk, Step, Stores;
    var first := ms[0];
    TreeThere(first.w, o);
    if acts == [] {
      KeptNone(first.w, first.b, o) by { TreeParts(first.w, o); }
    } else {
      LastStep(ms, acts);
      var k := |acts| - 1;
      var m, n, act, own := ms[k], ms[k + 1], acts[k], OwnStores(first.w, first.b, o, acts[..k]);
      RunKept(ms[..|acts|], acts[..k], o);
      if act.Writes? && act.id == o {
        StoresSame(first.w, own, m.w, m.b, o, act.stores);
        StoreStep(m, n, act);
      } else {
        KeptThere(first.w, own, m.w, m.b, o);
        StepKeeps(m, n, act, o);
        KeptBoth(first.w, own, m.w, m.b, n.w, n.b, o);
      }
    }
  }

  lemma StoreStep(m: Moment, n: Moment, act: Act)
    requires Step(m, n, act) && act.Writes?
    ensures n.w == m.w && HasTree(m.w, act.id) && n.b == Stores(m.w, m.b, act.id, act.stores)
  {
    hide HasTree, WorldOk, BytesOk;
  }

  lemma KeptThere(w: World, b: Bytes, w': World, b': Bytes, o: nat)
    requires Kept(w, b, w', b', o)
    ensures o in w'.spaces
  {
  }

  /**
   Whatever the other tasks and the kernel do in a run, and however a task's own stores are spread over it, what the
   task reads at the end is what its own stores alone have made of what was there at the start.
   */
  lemma RunOwnStores(ms: seq<Moment>, acts: seq<Act>, o: nat, a: nat)
    requires IsRun(ms, acts) && Sound(ms[0]) && o in ms[0].w.spaces && OnlyStores(acts, o)
    ensures HasTree(ms[0].w, o) && HasTree(ms[|acts|].w, o)
    ensures UserByte(ms[|acts|].w, ms[|acts|].b, o, a) ==
              UserByte(ms[0].w, OwnStores(ms[0].w, ms[0].b, o, acts), o, a)
  {
    hide WorldOk, HasTree, Kept, BytesOk, UserByte;
    RunKept(ms, acts, o);
    KeptReads(ms[0].w, OwnStores(ms[0].w, ms[0].b, o, acts), ms[|acts|].w, ms[|acts|].b, o, a);
  }

  lemma {:induction false} NoStores(w: World, b: Bytes, o: nat, acts: seq<Act>)
    requires HasTree(w, o) && forall i :: 0 <= i < |acts| ==> Actor(acts[i]) != Some(o)
    ensures OwnStores(w, b, o, acts) == b
  {
    if acts != [] { NoStores(w, b, o, acts[..|acts| - 1]); }
  }

  /** However many steps other tasks take, a task reads at the end what it read at the start. */
  lemma RunInvisible(ms: seq<Moment>, acts: seq<Act>, o: nat, a: nat)
    requires IsRun(ms, acts) && Sound(ms[0]) && o in ms[0].w.spaces
    requires forall i :: 0 <= i < |acts| ==> Actor(acts[i]) != Some(o)
    ensures HasTree(ms[0].w, o) && HasTree(ms[|acts|].w, o)
    ensures UserByte(ms[|acts|].w, ms[|acts|].b, o, a) == UserByte(ms[0].w, ms[0].b, o, a)
  {
    hide WorldOk, HasTree, Kept, BytesOk, UserByte, Step;
    RunOwnStores(ms, acts, o, a);
    NoStores(ms[0].w, ms[0].b, o, acts);
  }

  // ---- Where the pages are ----

  /** An act that does not fail leaves what is in the kernel's hands as it is. */
  lemma StepConserves(m: Moment, n: Moment, act: Act)
    requires Step(m, n, act) && !act.Failed?
    ensures Conserves(m, n)
  {
    hide WorldOk, BytesOk, HasTree, Kept, HeapMoved, Twins, Runs, Stores, AllKept, OthersKept;
  }

  lemma {:induction false} RunConserves(ms: seq<Moment>, acts: seq<Act>)
    requires IsRun(ms, acts) && forall i :: 0 <= i < |acts| ==> !acts[i].Failed?
    ensures Conserves(ms[0], ms[|acts|])
    decreases |acts|
  {
    if acts != [] {
      hide Step, Conserves;
      LastStep(ms, acts);
      RunConserves(ms[..|acts|], acts[..|acts| - 1]);
      StepConserves(ms[|acts| - 1], ms[|acts|], acts[|acts| - 1]);
      ConservesBoth(ms[0], ms[|acts| - 1], ms[|acts|]);
    } else {
      assert Conserves(ms[0], ms[0]);
    }
  }

  lemma ConservesBoth(a: Moment, b: Moment, c: Moment)
    requires Conserves(a, b) && Conserves(b, c)
    ensures Conserves(a, c)
  {
  }

  /** The act can change which pages a task has. */
  predicate Reowns(act: Act, o: nat) {
    Actor(act) == Some(o) && (act.Sbrk? || act.Exec? || act.Reap?)
  }

  lemma StepOwns(m: Moment, n: Moment, act: Act, o: nat)
    requires Step(m, n, act) && o in m.w.spaces && !Reowns(act, o)
    ensures o in n.w.spaces && Owned(n.w, o) == Owned(m.w, o)
  {
    hide WorldOk, BytesOk, HasTree, Kept, HeapMoved, Twins, Runs, Stores, AllKept, OthersKept;
    if Actor(act) != Some(o) {
      StepKeeps(m, n, act, o);
      KeptThere(m.w, m.b, n.w, n.b, o);
      KeptOwns(m.w, m.b, n.w, n.b, o);
    }
  }

  lemma {:induction false} RunOwns(ms: seq<Moment>, acts: seq<Act>, o: nat)
    requires IsRun(ms, acts) && o in ms[0].w.spaces
    requires forall i :: 0 <= i < |acts| ==> !Reowns(acts[i], o)
    ensures o in ms[|acts|].w.spaces && Owned(ms[|acts|].w, o) == Owned(ms[0].w, o)
    decreases |acts|
  {
    if acts != [] {
      hide Step, Owned;
      LastStep(ms, acts);
      RunOwns(ms[..|acts|], acts[..|acts| - 1], o);
      StepOwns(ms[|acts| - 1], ms[|acts|], acts[|acts| - 1], o);
    }
  }

  /**
   Over any run in which no system call fails: when the tasks that were made in it are gone at its end, and those that
   were there at its start have neither moved their heaps nor been replaced, the allocator has the free pages it began
   with. The first tasks may have stored, forked and waited as they liked; the others may have done anything.
   */
  lemma RunReturns(ms: seq<Moment>, acts: seq<Act>)
    requires IsRun(ms, acts) && Sound(ms[0]) && ms[|acts|].w.spaces.Keys == ms[0].w.spaces.Keys
    requires forall i :: 0 <= i < |acts| ==> !acts[i].Failed?
    requires forall i, o :: 0 <= i < |acts| && o in ms[0].w.spaces ==> !Reowns(acts[i], o)
    ensures ms[|acts|].w.free == ms[0].w.free
  {
    hide Step, Owned, Sound, Conserves;
    RunConserves(ms, acts);
    forall o | o in ms[0].w.spaces
      ensures Owned(ms[|acts|].w, o) == Owned(ms[0].w, o)
    {
      RunOwns(ms, acts, o);
    }
    RunSound(ms, acts);
    EarlierFreeSet(ms[0], ms[|acts|]);
  }

  lemma RunSound(ms: seq<Moment>, acts: seq<Act>)
    requires IsRun(ms, acts) && Sound(ms[0])
    ensures Sound(ms[|acts|])
  {
    hide Sound, Does;
    if acts != [] { assert Step(ms[|acts| - 1], ms[|acts|], acts[|acts| - 1]) by { assert acts[|acts| - 1] in acts; } }
  }

  /**
   In general, when no system call fails the free pages at the end are those at the start if and only if the same
   pages are in use; and the free pages and those in use are always as many together.
   */
  lemma RunBalance(ms: seq<Moment>, acts: seq<Act>)
    requires IsRun(ms, acts) && Sound(ms[0]) && forall i :: 0 <= i < |acts| ==> !acts[i].Failed?
    ensures ms[|acts|].w.free == ms[0].w.free <==> ms[|acts|].w.uses.Keys == ms[0].w.uses.Keys
    ensures |ms[|acts|].w.free| + |ms[|acts|].w.uses| == |ms[0].w.free| + |ms[0].w.uses|
  {
    hide Step, Sound, Conserves;
    RunConserves(ms, acts);
    RunSound(ms, acts);
    EarlierFreeSet(ms[0], ms[|acts|]);
    Counted(ms[0]);
    Counted(ms[|acts|]);
    ConservedCount(ms[0], ms[|acts|]);
  }

  lemma ConservedCount(m: Moment, n: Moment)
    requires Conserves(m, n)
    ensures |n.w.managed| == |m.w.managed| && |InHand(n.w)| == |InHand(m.w)|
  {
  }

  lemma Counted(m: Moment)
    requires Sound(m)
    ensures |m.w.free| + |m.w.uses| + |InHand(m.w)| == |m.w.managed|
  {
    FreeParts(m.w);
    var w := m.w;
    assert |w.uses| == |w.uses.Keys|;
    assert w.managed == w.free + w.uses.Keys + InHand(w);
    assert w.free !! w.uses.Keys && (w.free + w.uses.Keys) !! InHand(w);
  }
}
