/** Numbers over whole runs when every file has a kernel handle: a file keeps its number by its handle. */
module InodeHandles {
  import opened Common
  import opened UniqueInode
  import opened InodeStore
  import opened InodeLifetime
  import opened InodeRuns

  /** The number that a handle has for good. */
  ghost predicate HasHandleNumber(s: State, h: Option<FileHandle>, n: nat) {
    h.Some? && h.value in s.store.byHandle && s.store.byHandle[h.value] == n
  }

  /** Giving `n` to a handle agrees with every number given so far. */
  ghost predicate FitsHandle(s: State, h: Option<FileHandle>, n: nat) {
    && h.Some? && (h.value in s.store.byHandle ==> s.store.byHandle[h.value] == n)
    && forall a | a in s.store.byHandle && s.store.byHandle[a] == n :: a == h.value
  }

  /** What a thread relies on: it has a handle, an entry it has found is of that handle, and a number it has taken
      is free for it. */
  ghost predicate Handled(s: State, pc: PC) {
    && (HasHandle(pc) ==> pc.h.Some?)
    && (pc.Load? || pc.Swap? || pc.Bump? ==> pc.d.handle == pc.h)
    && (pc.Insert? ==> FitsHandle(s, pc.h, pc.n))
  }

  /** The handle index is one-to-one and covers every live entry. */
  ghost predicate HandleIndexed(s: State) {
    && (forall i | 0 <= i < |s.objs| :: s.objs[i].handle.Some?)
    && (forall n <- s.store.data :: HasHandleNumber(s, s.store.data[n].handle, n))
    && (forall a, b | a in s.store.byHandle && b in s.store.byHandle && s.store.byHandle[a] == s.store.byHandle[b] ::
          a == b)
    && (forall t | 0 <= t < |s.pcs| :: Handled(s, s.pcs[t]))
    && (forall i | 0 <= i < |s.log| :: s.log[i].Granted? ==> HasHandleNumber(s, s.log[i].h, s.log[i].inode))
  }

  /** Every lookup of the run is of a file that has a handle. */
  predicate AllHandled(schedule: seq<Turn>) {
    forall i | 0 <= i < |schedule| :: schedule[i].action.StartLookup? ==> schedule[i].action.h.Some?
  }

  // ---------------------------------------------------------------- each step keeps the index

  /** A step that leaves the table alone and moves one thread, answering a lookup or not. */
  lemma HandledMove(s: State, s': State, t: nat)
    requires HandleIndexed(s) && t < |s.pcs| && |s'.pcs| == |s.pcs|
    requires s'.objs == s.objs && s'.store == s.store && s'.pcs == s.pcs[t := s'.pcs[t]] && Handled(s, s'.pcs[t])
    requires s.log <= s'.log && |s'.log| <= |s.log| + 1
    requires |s'.log| == |s.log| + 1 && s'.log[|s.log|].Granted? ==>
               HasHandleNumber(s, s'.log[|s.log|].h, s'.log[|s.log|].inode)
    ensures HandleIndexed(s')
  {
    assert forall h, n :: HasHandleNumber(s', h, n) <==> HasHandleNumber(s, h, n);
    assert forall h, n :: FitsHandle(s', h, n) <==> FitsHandle(s, h, n);
    hide HasHandleNumber, FitsHandle;
    forall u | 0 <= u < |s'.pcs| ensures Handled(s', s'.pcs[u]) { assert u != t ==> Handled(s, s.pcs[u]); }
    forall i | 0 <= i < |s'.log| && s'.log[i].Granted? ensures HasHandleNumber(s', s'.log[i].h, s'.log[i].inode) {
      assert i < |s.log| ==> s'.log[i] == s.log[i];
    }
  }

  /** A thread that finds an entry finds the one of its handle. */
  lemma HandledFound(s: State, id: InodeId, h: Option<FileHandle>)
    requires Shape(s) && HandleIndexed(s) && h.Some? && GetAlt(s.store, id, h).Some?
    ensures var d := GetAlt(s.store, id, h).value; d.handle == h && HasHandleNumber(s, h, d.inode)
  {
    if ById(s.store, id).Some? {
      var n := s.store.byId[id];
      assert n in s.store.data && HasHandleNumber(s, s.store.data[n].handle, n);
    }
    if ByHandle(s.store, h.value).Some? {
      var n := s.store.byHandle[h.value];
      assert HasHandleNumber(s, s.store.data[n].handle, n);
    }
  }

  /** A count above zero means a live entry, whose handle has its number. */
  lemma HandledLive(s: State, d: InodeData)
    requires Table(s) && HandleIndexed(s) && Known(s, d) && CountOf(s, d) > 0
    ensures HasHandleNumber(s, d.handle, d.inode)
  {
    assert InStore(s, s.objs[d.cell]);
  }

  lemma HandledAcquire(s: State, t: nat, ok: bool)
    requires Table(s) && HandleIndexed(s) && t < |s.pcs| && (s.pcs[t].Swap? || s.pcs[t].Bump?)
    ensures HandleIndexed(StepLookup(s, t, ok))
  {
    var pc := s.pcs[t];
    assert Handled(s, pc);
    if pc.Bump? { assert InStore(s, s.objs[pc.d.cell]); }
    if pc.Bump? || CountOf(s, pc.d) == pc.curr { HandledLive(s, pc.d); }
    hide Table, HandleIndexed, HasHandleNumber, WrappingAdd;
    HandledMove(s, StepLookup(s, t, ok), t);
  }

  lemma HandledSearch(s: State, t: nat, ok: bool)
    requires Table(s) && HandleIndexed(s) && t < |s.pcs| && HasHandle(s.pcs[t])
    requires !s.pcs[t].Swap? && !s.pcs[t].Bump? && !s.pcs[t].Allocate? && !s.pcs[t].Insert?
    ensures HandleIndexed(StepLookup(s, t, ok))
  {
    var pc := s.pcs[t];
    assert Handled(s, pc);
    if (pc.Search? || pc.Recheck?) && GetAlt(s.store, pc.id, pc.h).Some? { HandledFound(s, pc.id, pc.h); }
    hide Table, HandleIndexed, GetAlt, HasHandleNumber, FitsHandle, SwapStep, BumpStep, AllocateStep, InsertStep;
    HandledMove(s, StepLookup(s, t, ok), t);
  }

  lemma HandledAllocate(s: State, t: nat)
    requires HandleIndexed(s) && Counted(s) && t < |s.pcs| && s.pcs[t].Allocate? && !s.cfg.useHostIno
    ensures HandleIndexed(AllocateStep(s, t, s.pcs[t].id, s.pcs[t].h))
  {
    var pc := s.pcs[t];
    assert Handled(s, pc);
    var r := AllocateInode(s, pc.id, pc.h).2;
    assert r.Ok? && FitsHandle(s, pc.h, r.value);
    hide HandleIndexed, AllocateInode, FitsHandle, HasHandleNumber;
    HandledMove(s, AllocateStep(s, t, pc.id, pc.h), t);
  }

  /** No other thread is about to insert. */
  lemma InsertsAlone(s: State, t: nat, u: nat)
    requires Shape(s) && t < |s.pcs| && u < |s.pcs| && u != t && HoldsLock(s.pcs[t])
    ensures !HoldsLock(s.pcs[u])
  {
  }

  lemma HandledInsert(s: State, t: nat)
    requires Table(s) && HandleIndexed(s) && t < |s.pcs| && s.pcs[t].Insert?
    ensures HandleIndexed(InsertStep(s, t, s.pcs[t].id, s.pcs[t].h, s.pcs[t].n))
  {
    var pc := s.pcs[t];
    var s' := InsertStep(s, t, pc.id, pc.h, pc.n);
    assert Handled(s, pc) && FitsHandle(s, pc.h, pc.n);
    assert s'.store.byHandle == s.store.byHandle[pc.h.value := pc.n];
    assert forall h, n :: HasHandleNumber(s, h, n) ==> HasHandleNumber(s', h, n);
    assert HasHandleNumber(s', pc.h, pc.n);
    forall u | 0 <= u < |s'.pcs| ensures Handled(s', s'.pcs[u]) {
      if u != t { InsertsAlone(s, t, u); assert Handled(s, s.pcs[u]); }
    }
    hide Table, FitsHandle;
  }

  lemma HandledRemove(s: State, t: nat)
    requires Table(s) && HandleIndexed(s) && t < |s.pcs| && s.pcs[t].Remove? && !s.cfg.useHostIno
    ensures HandleIndexed(RemoveStep(s, t, s.pcs[t].d, s.pcs[t].requests))
  {
    var s' := RemoveStep(s, t, s.pcs[t].d, s.pcs[t].requests);
    assert s'.store.byHandle == s.store.byHandle;
    assert forall h, n :: HasHandleNumber(s', h, n) <==> HasHandleNumber(s, h, n);
    assert forall h, n :: FitsHandle(s', h, n) <==> FitsHandle(s, h, n);
    hide Table, FitsHandle, HasHandleNumber;
    forall u | 0 <= u < |s'.pcs| ensures Handled(s', s'.pcs[u]) { assert u != t ==> Handled(s, s.pcs[u]); }
  }

  lemma HandledForget(s: State, t: nat)
    requires HandleIndexed(s) && t < |s.pcs| && !HasHandle(s.pcs[t]) && !s.pcs[t].Remove?
    ensures HandleIndexed(StepForget(s, t))
  {
    hide HandleIndexed, RemoveStep, HasHandleNumber, FitsHandle;
    HandledMove(s, StepForget(s, t), t);
  }

  lemma HandledStart(s: State, t: nat, a: Action)
    requires HandleIndexed(s) && t < |s.pcs| && s.pcs[t].Idle? && (a.StartLookup? ==> a.h.Some?)
    ensures HandleIndexed(StepIdle(s, t, a))
  {
    hide HandleIndexed, HasHandleNumber, FitsHandle;
    HandledMove(s, StepIdle(s, t, a), t);
  }

  lemma HandledLookup(s: State, t: nat, ok: bool)
    requires Inv(s) && HandleIndexed(s) && t < |s.pcs| && HasHandle(s.pcs[t]) && !s.cfg.useHostIno
    ensures HandleIndexed(StepLookup(s, t, ok))
  {
    assert Table(s) && Counted(s);
    hide Inv, HandleIndexed, AllocateStep, InsertStep, SwapStep, BumpStep, SearchStep, RecheckStep, LoadStep;
    match s.pcs[t]
    case Allocate(_, _) => HandledAllocate(s, t);
    case Insert(_, _, _) => HandledInsert(s, t);
    case Swap(_, _, _, _) => HandledAcquire(s, t, ok);
    case Bump(_, _, _) => HandledAcquire(s, t, ok);
    case _ => HandledSearch(s, t, ok);
  }

  lemma HandledStep(s: State, t: nat, a: Action)
    requires Inv(s) && HandleIndexed(s) && t < |s.pcs| && !s.cfg.useHostIno && (a.StartLookup? ==> a.h.Some?)
    ensures HandleIndexed(Step(s, t, a))
  {
    assert Table(s);
    hide StepLookup, RemoveStep, ForgetStep, ForgetSwapStep, HandleIndexed, Inv;
    if s.pcs[t].Idle? {
      HandledStart(s, t, a);
    } else if a.Run? {
      if HasHandle(s.pcs[t]) { HandledLookup(s, t, a.ok); }
      else if s.pcs[t].Remove? { HandledRemove(s, t); }
      else { HandledForget(s, t); }
    }
  }

  // ---------------------------------------------------------------- every run

  lemma {:induction false} RunIsHandled(s: State, schedule: seq<Turn>)
    requires Inv(s) && Supported(s.cfg) && !s.cfg.useHostIno && HandleIndexed(s)
    requires NeverWraps(s, schedule) && AllHandled(schedule)
    ensures HandleIndexed(Exec(s, schedule))
  {
    hide Exec, Step, Inv, NeverWraps, HandleIndexed;
    if schedule == [] {
      ExecNone(s);
    } else {
      var before, turn := schedule[..|schedule| - 1], schedule[|schedule| - 1];
      NeverWrapsFront(s, schedule, |schedule| - 1);
      RunIsHandled(s, before);
      EveryStateIsConsistent(s, before);
      ExecLast(s, schedule);
      if turn.thread < |Exec(s, before).pcs| { HandledStep(Exec(s, before), turn.thread, turn.action); }
    }
  }

  lemma InitIsHandled(cfg: Config, threads: nat, root: InodeId, h: Option<FileHandle>)
    requires cfg.fileHandles && h.Some?
    ensures HandleIndexed(Init(cfg, threads, root, h))
  {
  }

  /** With file handles on and host numbers off, and a handle for the root and for every lookup: over any run two
      lookups return the same number exactly when their handles are the same, even across a complete forget. */
  lemma HandleNumbersAreStable(cfg: Config, threads: nat, root: InodeId, h: Option<FileHandle>,
                               schedule: seq<Turn>, i: nat, j: nat)
    requires cfg.fileHandles && !cfg.useHostIno && h.Some?
    requires NeverWraps(Init(cfg, threads, root, h), schedule) && AllHandled(schedule)
    requires var log := Exec(Init(cfg, threads, root, h), schedule).log;
             i < |log| && j < |log| && log[i].Granted? && log[j].Granted?
    ensures var log := Exec(Init(cfg, threads, root, h), schedule).log;
            log[i].h == log[j].h <==> log[i].inode == log[j].inode
  {
    var init := Init(cfg, threads, root, h);
    InitInv(cfg, threads, root, h);
    InitIsHandled(cfg, threads, root, h);
    assert init.cfg == cfg;
    hide Init, Exec, Inv;
    RunIsHandled(init, schedule);
    var s := Exec(init, schedule);
    assert HasHandleNumber(s, s.log[i].h, s.log[i].inode) && HasHandleNumber(s, s.log[j].h, s.log[j].inode);
  }
}
