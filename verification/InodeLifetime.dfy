/** The passthrough inode table under concurrent `lookup` and `forget`, as a state machine over the
    atomic steps of any number of threads. Reference counts live in cells that outlive the table entry. */
module InodeLifetime {
  import opened Common
  import opened UniqueInode
  import opened InodeStore

  datatype Config = Config(useHostIno: bool, fileHandles: bool)

  datatype Request = Request(inode: nat, count: nat)

  /** Where a thread stands in `do_lookup` or `forget_one`, with its local variables. */
  datatype PC =
    | Idle
    // do_lookup, without the table lock
    | Search(id: InodeId, h: Option<FileHandle>)
    | Load(id: InodeId, h: Option<FileHandle>, d: InodeData)
    | Swap(id: InodeId, h: Option<FileHandle>, d: InodeData, curr: nat)
    | OpenHandle(id: InodeId, h: Option<FileHandle>)
    | AwaitInsert(id: InodeId, h: Option<FileHandle>)
    // do_lookup, holding the write lock
    | Recheck(id: InodeId, h: Option<FileHandle>)
    | Bump(id: InodeId, h: Option<FileHandle>, d: InodeData)
    | Allocate(id: InodeId, h: Option<FileHandle>)
    | Insert(id: InodeId, h: Option<FileHandle>, n: nat)
    // forget_one, once for each request of the batch
    | AwaitForget(requests: seq<Request>)
    | Forget(requests: seq<Request>)
    | ForgetLoad(d: InodeData, count: nat, requests: seq<Request>)
    | ForgetSwap(d: InodeData, count: nat, curr: nat, requests: seq<Request>)
    | Remove(d: InodeData, requests: seq<Request>)

  /** What the client sees: a lookup answered with a number, a forget sent. */
  datatype Event = Granted(id: InodeId, h: Option<FileHandle>, inode: nat) | Asked(requests: seq<Request>)

  datatype State = State(
    cfg: Config,
    objs: seq<InodeData>,
    counts: seq<nat>,
    store: Store,
    nextInode: nat,
    gen: Generator,
    lock: Option<nat>,
    pcs: seq<PC>,
    log: seq<Event>)

  /** A thread starts an operation or runs its next atomic step; `ok` is the host's answer where the
      step asks for one. */
  datatype Action =
    | StartLookup(id: InodeId, h: Option<FileHandle>)
    | StartForget(requests: seq<Request>)
    | Run(ok: bool)

  function SaturatingAdd(c: nat): nat {
    if c < U64_MAX then c + 1 else c
  }

  function SaturatingSub(c: nat, n: nat): nat {
    if n <= c then c - n else 0
  }

  /** `fetch_add(1)` on a 64-bit word. */
  function WrappingAdd(c: nat): nat {
    (c + 1) % (U64_MAX + 1)
  }

  function AllocateInode(s: State, id: InodeId, h: Option<FileHandle>): (nat, Generator, Result<nat>) {
    var known := GetInode(s.store, id, h);
    if !s.cfg.useHostIno then
      if known.Some? then (s.nextInode, s.gen, Ok(known.value))
      else (WrappingAdd(s.nextInode), s.gen, Ok(s.nextInode))
    else if !IsHostId(id) && known.Some? then
      (s.nextInode, s.gen, Ok(known.value))
    else
      var (g, r) := Generate(s.gen, id);
      (s.nextInode, g, r)
  }

  predicate KeepMapping(cfg: Config, d: InodeData) {
    !cfg.useHostIno || !IsHostId(d.id)
  }

  function Goto(s: State, t: nat, pc: PC): State
    requires t < |s.pcs|
  {
    s.(pcs := s.pcs[t := pc])
  }

  function Lock(s: State, t: nat, pc: PC): State
    requires t < |s.pcs|
  {
    s.(lock := Some(t), pcs := s.pcs[t := pc])
  }

  /** The write guard is dropped and the thread moves on. */
  function Unlock(s: State, t: nat, pc: PC): State
    requires t < |s.pcs|
  {
    s.(lock := None, pcs := s.pcs[t := pc])
  }

  function SetCount(s: State, d: InodeData, c: nat): State {
    if d.cell < |s.counts| then s.(counts := s.counts[d.cell := c]) else s
  }

  function CountOf(s: State, d: InodeData): nat {
    if d.cell < |s.counts| then s.counts[d.cell] else 0
  }

  function Grant(s: State, id: InodeId, h: Option<FileHandle>, n: nat): State {
    s.(log := s.log + [Granted(id, h, n)])
  }

  /** One atomic step of thread `t`. A thread that waits for the lock, or is given an action that does
      not apply to it, stays where it is. */
  function Step(s: State, t: nat, a: Action): State
    requires t < |s.pcs|
  {
    if s.pcs[t].Idle? then StepIdle(s, t, a)
    else if !a.Run? then s
    else if s.pcs[t].AwaitForget? || s.pcs[t].Forget? || s.pcs[t].ForgetLoad? || s.pcs[t].ForgetSwap?
            || s.pcs[t].Remove?
    then StepForget(s, t)
    else StepLookup(s, t, a.ok)
  }

  function StepIdle(s: State, t: nat, a: Action): State
    requires t < |s.pcs|
  {
    match a
    case StartLookup(id, h) =>
      if h.Some? && !s.cfg.fileHandles then s else Goto(s, t, Search(id, h))
    case StartForget(requests) =>
      Goto(s, t, AwaitForget(requests)).(log := s.log + [Asked(requests)])
    case Run(_) => s
  }

  function StepLookup(s: State, t: nat, ok: bool): State
    requires t < |s.pcs|
  {
    match s.pcs[t]
    case Search(id, h) => if s.lock.Some? then s else SearchStep(s, t, id, h)
    case Load(id, h, d) => LoadStep(s, t, id, h, d)
    case Swap(id, h, d, curr) => SwapStep(s, t, id, h, d, curr)
    case OpenHandle(id, h) => Goto(s, t, if h.Some? && !ok then Idle else AwaitInsert(id, h))
    case AwaitInsert(id, h) => if s.lock.Some? then s else Lock(s, t, Recheck(id, h))
    case Recheck(id, h) => RecheckStep(s, t, id, h)
    case Bump(id, h, d) => BumpStep(s, t, id, h, d)
    case Allocate(id, h) => AllocateStep(s, t, id, h)
    case Insert(id, h, n) => InsertStep(s, t, id, h, n)
    case _ => s
  }

  function SearchStep(s: State, t: nat, id: InodeId, h: Option<FileHandle>): State
    requires t < |s.pcs|
  {
    var found := GetAlt(s.store, id, h);
    Goto(s, t, if found.Some? then Load(id, h, found.value) else OpenHandle(id, h))
  }

  function LoadStep(s: State, t: nat, id: InodeId, h: Option<FileHandle>, d: InodeData): State
    requires t < |s.pcs|
  {
    Goto(s, t, if CountOf(s, d) == 0 then Search(id, h) else Swap(id, h, d, CountOf(s, d)))
  }

  function SwapStep(s: State, t: nat, id: InodeId, h: Option<FileHandle>, d: InodeData, curr: nat): State
    requires t < |s.pcs|
  {
    if CountOf(s, d) == curr
    then Goto(Grant(SetCount(s, d, SaturatingAdd(curr)), id, h, d.inode), t, Idle)
    else Goto(s, t, Search(id, h))
  }

  function RecheckStep(s: State, t: nat, id: InodeId, h: Option<FileHandle>): State
    requires t < |s.pcs|
  {
    var found := GetAlt(s.store, id, h);
    Goto(s, t, if found.Some? then Bump(id, h, found.value) else Allocate(id, h))
  }

  function BumpStep(s: State, t: nat, id: InodeId, h: Option<FileHandle>, d: InodeData): State
    requires t < |s.pcs|
  {
    Unlock(Grant(SetCount(s, d, WrappingAdd(CountOf(s, d))), id, h, d.inode), t, Idle)
  }

  function AllocateStep(s: State, t: nat, id: InodeId, h: Option<FileHandle>): State
    requires t < |s.pcs|
  {
    var (next, g, r) := AllocateInode(s, id, h);
    var s1 := s.(nextInode := next, gen := g);
    if r.Err? || r.value > VFS_MAX_INO then Unlock(s1, t, Idle) else Goto(s1, t, Insert(id, h, r.value))
  }

  function InsertStep(s: State, t: nat, id: InodeId, h: Option<FileHandle>, n: nat): State
    requires t < |s.pcs|
  {
    var d := InodeData(n, id, h, |s.objs|);
    Unlock(Grant(s.(objs := s.objs + [d], counts := s.counts + [1], store := Inserted(s.store, d)), id, h, n), t, Idle)
  }

  function StepForget(s: State, t: nat): State
    requires t < |s.pcs|
  {
    match s.pcs[t]
    case AwaitForget(requests) => if s.lock.Some? then s else Lock(s, t, Forget(requests))
    case Forget(requests) => if requests == [] then Unlock(s, t, Idle) else ForgetStep(s, t, requests)
    case ForgetLoad(d, count, requests) => Goto(s, t, ForgetSwap(d, count, CountOf(s, d), requests))
    case ForgetSwap(d, count, curr, requests) => ForgetSwapStep(s, t, d, count, curr, requests)
    case Remove(d, requests) => RemoveStep(s, t, d, requests)
    case _ => s
  }

  function ForgetStep(s: State, t: nat, requests: seq<Request>): State
    requires t < |s.pcs| && requests != []
  {
    var n := requests[0].inode;
    Goto(s, t, if n == ROOT_ID || n !in s.store.data then Forget(requests[1..])
               else ForgetLoad(s.store.data[n], requests[0].count, requests[1..]))
  }

  function ForgetSwapStep(s: State, t: nat, d: InodeData, count: nat, curr: nat, requests: seq<Request>): State
    requires t < |s.pcs|
  {
    if CountOf(s, d) != curr then Goto(s, t, ForgetLoad(d, count, requests))
    else
      var left := SaturatingSub(curr, count);
      Goto(SetCount(s, d, left), t, if left == 0 then Remove(d, requests) else Forget(requests))
  }

  function RemoveStep(s: State, t: nat, d: InodeData, requests: seq<Request>): State
    requires t < |s.pcs|
  {
    Goto(s.(store := Removed(s.store, d.inode, KeepMapping(s.cfg, d))), t, Forget(requests))
  }

  /** Only thread `t` moves, and nothing is ever taken from the histories. */
  ghost predicate Extends(s: State, s': State, t: nat) {
    && s'.cfg == s.cfg && |s'.pcs| == |s.pcs|
    && (forall u | 0 <= u < |s.pcs| && u != t :: s'.pcs[u] == s.pcs[u])
    && s.objs <= s'.objs && |s.counts| <= |s'.counts| && s.log <= s'.log
  }

  lemma ForgetExtends(s: State, t: nat)
    requires t < |s.pcs|
    ensures Extends(s, StepForget(s, t), t)
  {
    hide Removed, SaturatingSub;
  }

  lemma StepExtends(s: State, t: nat, a: Action)
    requires t < |s.pcs|
    ensures Extends(s, Step(s, t, a), t)
  {
    if a.Run? {
      hide StepLookup, StepForget;
      LookupExtends(s, t, a.ok);
      ForgetExtends(s, t);
    }
  }

  lemma SwapExtends(s: State, t: nat, id: InodeId, h: Option<FileHandle>, d: InodeData, curr: nat)
    requires t < |s.pcs|
    ensures Extends(s, SwapStep(s, t, id, h, d, curr), t)
  {
  }

  lemma BumpExtends(s: State, t: nat, id: InodeId, h: Option<FileHandle>, d: InodeData)
    requires t < |s.pcs|
    ensures Extends(s, BumpStep(s, t, id, h, d), t)
  {
    hide WrappingAdd;
  }

  lemma AllocateExtends(s: State, t: nat, id: InodeId, h: Option<FileHandle>)
    requires t < |s.pcs|
    ensures Extends(s, AllocateStep(s, t, id, h), t)
  {
    hide AllocateInode;
  }

  lemma InsertExtends(s: State, t: nat, id: InodeId, h: Option<FileHandle>, n: nat)
    requires t < |s.pcs|
    ensures Extends(s, InsertStep(s, t, id, h, n), t)
  {
    hide Inserted;
  }

  lemma LookupExtends(s: State, t: nat, ok: bool)
    requires t < |s.pcs|
    ensures Extends(s, StepLookup(s, t, ok), t)
  {
    hide GetAlt, SwapStep, BumpStep, AllocateStep, InsertStep;
    match s.pcs[t]
    case Swap(id, h, d, curr) => SwapExtends(s, t, id, h, d, curr);
    case Bump(id, h, d) => BumpExtends(s, t, id, h, d);
    case Allocate(id, h) => AllocateExtends(s, t, id, h);
    case Insert(id, h, n) => InsertExtends(s, t, id, h, n);
    case _ =>
  }

  /** The state right after `import`: the root, with a count of two, and all threads idle. */
  function Init(cfg: Config, threads: nat, rootId: InodeId, rootHandle: Option<FileHandle>): State {
    var h := if cfg.fileHandles then rootHandle else None;
    var root := InodeData(ROOT_ID, rootId, h, 0);
    State(cfg, [root], [2], Inserted(EMPTY_STORE, root), ROOT_ID + 1, INIT_GENERATOR, None,
          seq(threads, _ => Idle), [])
  }

  datatype Turn = Turn(thread: nat, action: Action)

  /** The state after a schedule; turns of threads that do not exist are skipped. */
  function Exec(s: State, schedule: seq<Turn>): State
  {
    if schedule == [] then s
    else
      var before := Exec(s, schedule[..|schedule| - 1]);
      var turn := schedule[|schedule| - 1];
      if turn.thread < |before.pcs| then Step(before, turn.thread, turn.action) else before
  }

  // ---------------------------------------------------------------- the invariant

  predicate HoldsLock(pc: PC) {
    || pc.Recheck? || pc.Bump? || pc.Allocate? || pc.Insert?
    || pc.Forget? || pc.ForgetLoad? || pc.ForgetSwap? || pc.Remove?
  }

  predicate HasData(pc: PC) {
    pc.Load? || pc.Swap? || pc.Bump? || pc.ForgetLoad? || pc.ForgetSwap? || pc.Remove?
  }

  predicate HasHandle(pc: PC) {
    || pc.Search? || pc.Load? || pc.Swap? || pc.OpenHandle? || pc.AwaitInsert?
    || pc.Recheck? || pc.Bump? || pc.Allocate? || pc.Insert?
  }

  ghost predicate Known(s: State, d: InodeData) {
    d.cell < |s.objs| && s.objs[d.cell] == d
  }

  ghost predicate InStore(s: State, d: InodeData) {
    d.inode in s.store.data && s.store.data[d.inode] == d
  }

  /** The lock holder has taken the count of this object to zero and is about to remove its entry. */
  ghost predicate Removing(s: State, cell: nat) {
    s.lock.Some? && s.lock.value < |s.pcs| && s.pcs[s.lock.value].Remove? && s.pcs[s.lock.value].d.cell == cell
  }

  ghost predicate Shape(s: State) {
    && |s.counts| == |s.objs| > 0
    && (forall i | 0 <= i < |s.objs| :: s.objs[i].cell == i)
    && (forall i | 0 <= i < |s.counts| :: s.counts[i] <= U64_MAX)
    && (forall n <- s.store.data :: s.store.data[n].inode == n && Known(s, s.store.data[n]))
    && (forall t | 0 <= t < |s.pcs| :: HasData(s.pcs[t]) ==> Known(s, s.pcs[t].d))
    && (forall t | 0 <= t < |s.pcs| :: HoldsLock(s.pcs[t]) <==> s.lock == Some(t))
    && (s.lock.Some? ==> s.lock.value < |s.pcs|)
  }

  /** An entry is in the table exactly when its count is above zero, but for the one entry that the
      thread inside the critical section is removing. */
  ghost predicate Live(s: State) {
    forall i | 0 <= i < |s.objs| :: InStore(s, s.objs[i]) <==> (i < |s.counts| && s.counts[i] > 0) || Removing(s, i)
  }

  ghost predicate RootLives(s: State) {
    && |s.objs| > 0 && |s.counts| > 0
    && s.objs[0].inode == ROOT_ID && InStore(s, s.objs[0]) && s.counts[0] > 0
  }

  /** What a thread relies on at its program point. */
  ghost predicate Critical(s: State, pc: PC) {
    && (pc.Swap? ==> pc.curr > 0)
    && (pc.Bump? || pc.ForgetLoad? || pc.ForgetSwap? || pc.Remove? ==> InStore(s, pc.d))
    && (pc.ForgetLoad? || pc.ForgetSwap? || pc.Remove? ==> pc.d.inode != ROOT_ID)
    && (pc.Remove? ==> CountOf(s, pc.d) == 0)
    && (pc.Allocate? ==> GetAlt(s.store, pc.id, pc.h).None?)
    && (pc.Insert? ==> pc.n !in s.store.data && pc.n <= VFS_MAX_INO)
  }

  ghost predicate Table(s: State) {
    && Shape(s) && Live(s) && RootLives(s)
    && (forall t | 0 <= t < |s.pcs| :: Critical(s, s.pcs[t]))
  }

  /** The configurations for which the numbering claims hold; see `NumbersClashOtherwise`. */
  predicate Supported(cfg: Config) {
    !(cfg.useHostIno && cfg.fileHandles)
  }

  /** Without host numbers, every number ever used is below the counter. */
  ghost predicate Counted(s: State) {
    && s.nextInode > ROOT_ID
    && (forall n <- s.store.data :: n < s.nextInode)
    && (forall id <- s.store.byId :: s.store.byId[id] < s.nextInode)
    && (forall h <- s.store.byHandle :: s.store.byHandle[h] < s.nextInode)
    && (forall t | 0 <= t < |s.pcs| :: s.pcs[t].Insert? ==> s.pcs[t].n < s.nextInode)
  }

  ghost predicate RootId(s: State, id: InodeId) {
    |s.objs| > 0 && id == s.objs[0].id
  }

  /** The number that `id` has for good: it is in the id index, or it is a host number that the
      generator computes again from the id. */
  ghost predicate HasNumber(s: State, id: InodeId, n: nat) {
    || (id in s.store.byId && s.store.byId[id] == n)
    || (s.cfg.useHostIno && IsHostId(id) && !RootId(s, id) && Issued(s.gen, id, n))
  }

  /** Without file handles, the id index is one-to-one and covers every live entry. */
  ghost predicate Indexed(s: State) {
    && s.store.byHandle == map[]
    && (forall t | 0 <= t < |s.pcs| :: HasHandle(s.pcs[t]) ==> s.pcs[t].h.None?)
    && (forall i | 0 <= i < |s.objs| :: s.objs[i].handle.None?)
    && (forall n <- s.store.data :: s.store.data[n].id in s.store.byId && s.store.byId[s.store.data[n].id] == n)
    && (forall a, b | a in s.store.byId && b in s.store.byId && s.store.byId[a] == s.store.byId[b] :: a == b)
    && (|s.objs| > 0 && s.objs[0].id in s.store.byId && s.store.byId[s.objs[0].id] == ROOT_ID)
    && (forall t | 0 <= t < |s.pcs| :: s.pcs[t].Insert? ==> Fits(s, s.pcs[t].id, s.pcs[t].n))
    && (forall t | 0 <= t < |s.pcs| ::
          s.pcs[t].Load? || s.pcs[t].Swap? || s.pcs[t].Bump? ==> s.pcs[t].d.id == s.pcs[t].id)
    && (s.cfg.useHostIno ==> forall id <- s.store.byId :: RootId(s, id) || Issued(s.gen, id, s.store.byId[id]))
    && (forall i | 0 <= i < |s.log| :: s.log[i].Granted? ==> HasNumber(s, s.log[i].id, s.log[i].inode))
  }

  /** Giving `n` to `id` agrees with every number given so far. */
  ghost predicate Fits(s: State, id: InodeId, n: nat) {
    && !RootId(s, id)
    && (id in s.store.byId ==> s.store.byId[id] == n)
    && (forall a | a in s.store.byId && s.store.byId[a] == n :: a == id)
    && (s.cfg.useHostIno ==> Issued(s.gen, id, n))
  }

  ghost predicate Numbering(s: State) {
    && GeneratorValid(s.gen)
    && (!s.cfg.useHostIno ==> Counted(s))
    && (!s.cfg.fileHandles ==> Indexed(s))
  }

  ghost predicate Inv(s: State) {
    Table(s) && Numbering(s)
  }

  /** The step increments a reference count under the lock that is at its last value: it wraps to zero. */
  predicate CountWraps(s: State, t: nat, a: Action)
    requires t < |s.pcs|
  {
    a.Run? && s.pcs[t].Bump? && CountOf(s, s.pcs[t].d) >= U64_MAX
  }

  /** The step takes the last number of the inode counter, which wraps to zero. */
  predicate NumberWraps(s: State, t: nat, a: Action)
    requires t < |s.pcs|
  {
    && a.Run? && s.pcs[t].Allocate? && !s.cfg.useHostIno
    && GetInode(s.store, s.pcs[t].id, s.pcs[t].h).None? && s.nextInode >= U64_MAX
  }

  predicate Wraps(s: State, t: nat, a: Action)
    requires t < |s.pcs|
  {
    CountWraps(s, t, a) || NumberWraps(s, t, a)
  }

  ghost predicate Bounded(s: State, k: nat) {
    && (forall i | 0 <= i < |s.counts| :: s.counts[i] <= k)
    && s.nextInode <= k
  }

  lemma InitTable(cfg: Config, threads: nat, rootId: InodeId, rootHandle: Option<FileHandle>)
    ensures Table(Init(cfg, threads, rootId, rootHandle))
  {
  }

  lemma InitInv(cfg: Config, threads: nat, rootId: InodeId, rootHandle: Option<FileHandle>)
    ensures Inv(Init(cfg, threads, rootId, rootHandle))
    ensures Bounded(Init(cfg, threads, rootId, rootHandle), 2)
  {
    InitTable(cfg, threads, rootId, rootHandle);
    hide Table, Live, RootLives, Critical;
  }

  lemma WrapsOnlyAtEnd(c: nat)
    requires c <= U64_MAX
    ensures WrappingAdd(c) == if c == U64_MAX then 0 else c + 1
  {
  }

  lemma BoundedMore(s: State, k: nat)
    requires Bounded(s, k)
    ensures Bounded(s, k + 1)
  {
  }

  lemma BoundedLookup(s: State, t: nat, ok: bool, k: nat)
    requires t < |s.pcs| && Bounded(s, k) && 1 <= k < U64_MAX
    ensures Bounded(StepLookup(s, t, ok), k + 1)
  {
    WrapsOnlyAtEnd(s.nextInode);
    if s.pcs[t].Bump? && s.pcs[t].d.cell < |s.counts| { WrapsOnlyAtEnd(CountOf(s, s.pcs[t].d)); }
    hide WrappingAdd, GetAlt, Generate, Inserted, GetInode;
  }

  lemma BoundedForget(s: State, t: nat, k: nat)
    requires t < |s.pcs| && Bounded(s, k)
    ensures Bounded(StepForget(s, t), k + 1)
  {
    hide Removed;
  }

  lemma StepBounded(s: State, t: nat, a: Action, k: nat)
    requires t < |s.pcs| && Bounded(s, k) && 1 <= k < U64_MAX
    ensures Bounded(Step(s, t, a), k + 1)
  {
    if s.pcs[t].Idle? || !a.Run? {
      BoundedMore(s, k);
    } else if HasHandle(s.pcs[t]) {
      hide StepLookup;
      BoundedLookup(s, t, a.ok, k);
    } else {
      hide StepForget;
      BoundedForget(s, t, k);
    }
  }

  // ---------------------------------------------------------------- each step keeps the table

  /** A step that moves one thread, and changes neither the table nor who holds the lock. */
  lemma TableMove(s: State, s': State, t: nat)
    requires Table(s) && t < |s.pcs| && |s'.pcs| == |s.pcs|
    requires s'.objs == s.objs && s'.counts == s.counts && s'.store == s.store && s'.lock == s.lock
    requires s'.pcs == s.pcs[t := s'.pcs[t]]
    requires !s.pcs[t].Remove? && !s'.pcs[t].Remove?
    requires HoldsLock(s'.pcs[t]) == HoldsLock(s.pcs[t])
    requires HasData(s'.pcs[t]) ==> Known(s, s'.pcs[t].d)
    requires Critical(s, s'.pcs[t])
    ensures Table(s')
  {
    assert forall i :: Removing(s', i) <==> Removing(s, i);
    forall u | 0 <= u < |s.pcs| ensures Critical(s', s'.pcs[u]) {
      assert Critical(s, if u == t then s'.pcs[t] else s.pcs[u]);
    }
  }

  lemma TableLock(s: State, s': State, t: nat, pc: PC)
    requires Table(s) && t < |s.pcs| && s.lock.None?
    requires s' == Goto(s, t, pc).(lock := Some(t))
    requires pc.Recheck? || pc.Forget?
    ensures Table(s')
  {
  }

  lemma TableUnlock(s: State, s': State, t: nat)
    requires Table(s) && t < |s.pcs| && s.lock == Some(t) && !s.pcs[t].Remove?
    requires s'.objs == s.objs && s'.counts == s.counts && s'.store == s.store
    requires s'.lock == None && s'.pcs == s.pcs[t := Idle]
    ensures Table(s')
  {
  }

  /** A compare-and-swap that finds the count unchanged finds it above zero, so the entry is live. */
  lemma TableSwap(s: State, t: nat)
    requires Table(s) && t < |s.pcs| && s.pcs[t].Swap?
    ensures Table(SwapStep(s, t, s.pcs[t].id, s.pcs[t].h, s.pcs[t].d, s.pcs[t].curr))
  {
    var d, s' := s.pcs[t].d, SwapStep(s, t, s.pcs[t].id, s.pcs[t].h, s.pcs[t].d, s.pcs[t].curr);
    if CountOf(s, d) != s.pcs[t].curr {
      hide Live, RootLives;
      TableMove(s, s', t);
    } else {
      var c := SaturatingAdd(s.pcs[t].curr);
      TableCount(s, d, c);
      hide Live, RootLives;
      TableMove(SetCount(s, d, c), s', t);
    }
  }

  /** Raising a count that is above zero keeps the table facts. */
  lemma TableCount(s: State, d: InodeData, c: nat)
    requires Table(s) && Known(s, d) && CountOf(s, d) > 0 && 0 < c <= U64_MAX
    ensures Table(SetCount(s, d, c))
  {
    var s' := SetCount(s, d, c);
    assert forall i :: Removing(s', i) <==> Removing(s, i);
    forall i | 0 <= i < |s.objs| ensures InStore(s', s.objs[i]) <==> s'.counts[i] > 0 || Removing(s', i) {
      assert InStore(s', s.objs[i]) <==> InStore(s, s.objs[i]);
      assert s'.counts[i] > 0 <==> s.counts[i] > 0;
    }
  }

  lemma TableBump(s: State, t: nat)
    requires Table(s) && t < |s.pcs| && s.pcs[t].Bump?
    requires CountOf(s, s.pcs[t].d) < U64_MAX
    ensures Table(BumpStep(s, t, s.pcs[t].id, s.pcs[t].h, s.pcs[t].d))
  {
    var d := s.pcs[t].d;
    assert InStore(s, s.objs[d.cell]);
    var c := WrappingAdd(CountOf(s, d));
    TableCount(s, d, c);
    hide Live, RootLives;
    TableUnlock(SetCount(s, d, c), BumpStep(s, t, s.pcs[t].id, s.pcs[t].h, d), t);
  }

  lemma LiveInsert(s: State, t: nat)
    requires Table(s) && t < |s.pcs| && s.pcs[t].Insert?
    ensures Live(InsertStep(s, t, s.pcs[t].id, s.pcs[t].h, s.pcs[t].n))
  {
    var s' := InsertStep(s, t, s.pcs[t].id, s.pcs[t].h, s.pcs[t].n);
    var d := s'.objs[|s.objs|];
    assert s.pcs[t].n !in s.store.data;
    assert forall i :: !Removing(s', i) && !Removing(s, i);
    hide Critical, RootLives;
    forall i | 0 <= i < |s'.objs| ensures InStore(s', s'.objs[i]) <==> s'.counts[i] > 0 {
      if i < |s.objs| {
        assert s'.objs[i] == s.objs[i] && s'.counts[i] == s.counts[i] && s'.objs[i] != d;
        assert InStore(s, s.objs[i]) ==> s.objs[i].inode != d.inode;
      }
    }
  }

  lemma TableInsert(s: State, t: nat)
    requires Table(s) && t < |s.pcs| && s.pcs[t].Insert?
    ensures Table(InsertStep(s, t, s.pcs[t].id, s.pcs[t].h, s.pcs[t].n))
  {
    LiveInsert(s, t);
    hide Live;
    var s' := InsertStep(s, t, s.pcs[t].id, s.pcs[t].h, s.pcs[t].n);
    forall u | 0 <= u < |s'.pcs| ensures Critical(s', s'.pcs[u]) {
      assert u != t ==> Critical(s, s.pcs[u]) && !HoldsLock(s.pcs[u]);
    }
  }

  lemma TableForgetSwap(s: State, t: nat)
    requires Table(s) && t < |s.pcs| && s.pcs[t].ForgetSwap?
    ensures Table(ForgetSwapStep(s, t, s.pcs[t].d, s.pcs[t].count, s.pcs[t].curr, s.pcs[t].requests))
  {
    var s' := ForgetSwapStep(s, t, s.pcs[t].d, s.pcs[t].count, s.pcs[t].curr, s.pcs[t].requests);
    var d := s.pcs[t].d;
    assert forall i :: !Removing(s, i);
    assert s.objs[0] != d;
    if CountOf(s, d) != s.pcs[t].curr { TableMove(s, s', t); }
  }

  lemma TableRemove(s: State, t: nat)
    requires Table(s) && t < |s.pcs| && s.pcs[t].Remove?
    ensures Table(RemoveStep(s, t, s.pcs[t].d, s.pcs[t].requests))
  {
    var s' := RemoveStep(s, t, s.pcs[t].d, s.pcs[t].requests);
    var d := s.pcs[t].d;
    assert Removing(s, d.cell);
    assert forall i :: !Removing(s', i);
    forall i | 0 <= i < |s.objs|
      ensures InStore(s', s.objs[i]) <==> s.counts[i] > 0
    {
      if i != d.cell {
        assert s.objs[i] != d;
        assert InStore(s, s.objs[i]) ==> s.objs[i].inode != d.inode;
      }
    }
  }

  /** The number about to be inserted has no live entry. */
  lemma AllocatedIsFree(s: State, t: nat)
    requires Inv(s) && Supported(s.cfg) && t < |s.pcs| && s.pcs[t].Allocate?
    ensures var r := AllocateInode(s, s.pcs[t].id, s.pcs[t].h).2; r.Ok? ==> r.value !in s.store.data
  {
    var id, h := s.pcs[t].id, s.pcs[t].h;
    RememberedNumberIsFree(s.store, id, h);
    var r := AllocateInode(s, id, h).2;
    if s.cfg.useHostIno && r.Ok? && r.value in s.store.data && r == Generate(s.gen, id).1 {
      GenerateIsFresh(s.gen, id);
      var d := s.store.data[r.value];
      assert s.store.byId[d.id] == r.value;
      IssuedFits(Generate(s.gen, id).0, id, r.value);
    }
  }

  lemma TableAllocate(s: State, t: nat)
    requires Inv(s) && Supported(s.cfg) && t < |s.pcs| && s.pcs[t].Allocate?
    ensures Table(AllocateStep(s, t, s.pcs[t].id, s.pcs[t].h))
  {
    AllocatedIsFree(s, t);
    hide AllocateInode, Numbering, Live, RootLives;
    var s' := AllocateStep(s, t, s.pcs[t].id, s.pcs[t].h);
    if s'.lock.None? { TableUnlock(s, s', t); } else { TableMove(s, s', t); }
  }

  /** Whatever the indexes answer is a live entry of the table. */
  lemma TableSearch(s: State, t: nat)
    requires Table(s) && t < |s.pcs| && (s.pcs[t].Search? || s.pcs[t].Recheck?)
    ensures s.pcs[t].Search? ==> Table(SearchStep(s, t, s.pcs[t].id, s.pcs[t].h))
    ensures s.pcs[t].Recheck? ==> Table(RecheckStep(s, t, s.pcs[t].id, s.pcs[t].h))
  {
    var found := GetAlt(s.store, s.pcs[t].id, s.pcs[t].h);
    assert found.Some? ==> InStore(s, found.value) && Known(s, found.value);
    hide Live, RootLives;
    if s.pcs[t].Search? { TableMove(s, SearchStep(s, t, s.pcs[t].id, s.pcs[t].h), t); }
    else { TableMove(s, RecheckStep(s, t, s.pcs[t].id, s.pcs[t].h), t); }
  }

  lemma TableLoad(s: State, t: nat, ok: bool)
    requires Table(s) && t < |s.pcs| && (s.pcs[t].Load? || s.pcs[t].OpenHandle? || s.pcs[t].AwaitInsert?)
    ensures Table(StepLookup(s, t, ok))
  {
    hide Live, RootLives;
    var s' := StepLookup(s, t, ok);
    if s.pcs[t].AwaitInsert? {
      if s.lock.None? { TableLock(s, s', t, s'.pcs[t]); }
    } else {
      TableMove(s, s', t);
    }
  }

  lemma TableStepLookup(s: State, t: nat, ok: bool)
    requires Inv(s) && Supported(s.cfg) && t < |s.pcs| && HasHandle(s.pcs[t])
    requires s.pcs[t].Bump? ==> CountOf(s, s.pcs[t].d) < U64_MAX
    ensures Table(StepLookup(s, t, ok))
  {
    hide Table, Numbering, SearchStep, RecheckStep, SwapStep, BumpStep, InsertStep, AllocateStep, LoadStep;
    match s.pcs[t]
    case Search(_, _) => TableSearch(s, t);
    case Recheck(_, _) => TableSearch(s, t);
    case Swap(_, _, _, _) => TableSwap(s, t);
    case Bump(_, _, _) => TableBump(s, t);
    case Insert(_, _, _) => TableInsert(s, t);
    case Allocate(_, _) => TableAllocate(s, t);
    case _ => TableLoad(s, t, ok);
  }

  lemma TableStepForget(s: State, t: nat)
    requires Table(s) && t < |s.pcs| && !HasHandle(s.pcs[t])
    ensures Table(StepForget(s, t))
  {
    match s.pcs[t]
    case ForgetSwap(_, _, _, _) => { hide Table; TableForgetSwap(s, t); }
    case Remove(_, _) => { hide Table; TableRemove(s, t); }
    case AwaitForget(_) =>
      hide Live, RootLives;
      if s.lock.None? { TableLock(s, StepForget(s, t), t, StepForget(s, t).pcs[t]); }
    case Forget(requests) =>
      hide Live, RootLives;
      if requests == [] { TableUnlock(s, StepForget(s, t), t); } else { TableMove(s, StepForget(s, t), t); }
    case ForgetLoad(_, _, _) =>
      hide Live, RootLives;
      TableMove(s, StepForget(s, t), t);
    case Idle =>
  }

  lemma TableStep(s: State, t: nat, a: Action)
    requires Inv(s) && Supported(s.cfg) && t < |s.pcs|
    requires s.pcs[t].Bump? && a.Run? ==> CountOf(s, s.pcs[t].d) < U64_MAX
    ensures Table(Step(s, t, a))
  {
    hide Live, RootLives, Numbering, StepLookup, StepForget;
    if s.pcs[t].Idle? {
      TableMove(s, Step(s, t, a), t);
    } else if a.Run? {
      hide Table;
      if HasHandle(s.pcs[t]) { TableStepLookup(s, t, a.ok); } else { TableStepForget(s, t); }
    }
  }

  // ---------------------------------------------------------------- each step keeps the numbering

  lemma CountedMove(s: State, s': State, t: nat)
    requires Counted(s) && t < |s.pcs| && Extends(s, s', t)
    requires s'.store == s.store && s.nextInode <= s'.nextInode
    requires s'.pcs[t].Insert? ==> s'.pcs[t].n < s'.nextInode
    ensures Counted(s')
  {
  }

  lemma CountedAllocate(s: State, t: nat)
    requires Counted(s) && t < |s.pcs| && s.pcs[t].Allocate? && !s.cfg.useHostIno
    requires GetInode(s.store, s.pcs[t].id, s.pcs[t].h).Some? || s.nextInode < U64_MAX
    ensures Counted(AllocateStep(s, t, s.pcs[t].id, s.pcs[t].h))
  {
    var id, h := s.pcs[t].id, s.pcs[t].h;
    AllocateExtends(s, t, id, h);
    if GetInode(s.store, id, h).None? { WrapsOnlyAtEnd(s.nextInode); }
    assert GetInode(s.store, id, h).Some? ==> GetInode(s.store, id, h).value < s.nextInode;
    hide WrappingAdd, GetInode, Counted, Extends;
    CountedMove(s, AllocateStep(s, t, id, h), t);
  }

  lemma CountedLookup(s: State, t: nat, ok: bool)
    requires Counted(s) && t < |s.pcs| && !s.cfg.useHostIno && !NumberWraps(s, t, Run(ok))
    ensures Counted(StepLookup(s, t, ok))
  {
    LookupExtends(s, t, ok);
    hide Extends;
    if s.pcs[t].Insert? {
      hide InsertStep, Counted;
      CountedInsert(s, t);
    } else if s.pcs[t].Allocate? {
      assert s.nextInode < U64_MAX || GetInode(s.store, s.pcs[t].id, s.pcs[t].h).Some?;
      CountedAllocate(s, t);
      hide AllocateStep, Counted;
    } else {
      hide Counted, GetAlt, AllocateStep, InsertStep, WrappingAdd;
      CountedMove(s, StepLookup(s, t, ok), t);
    }
  }

  lemma CountedInsert(s: State, t: nat)
    requires Counted(s) && t < |s.pcs| && s.pcs[t].Insert?
    ensures Counted(InsertStep(s, t, s.pcs[t].id, s.pcs[t].h, s.pcs[t].n))
  {
  }

  lemma CountedRemove(s: State, t: nat)
    requires Counted(s) && t < |s.pcs| && s.pcs[t].Remove?
    ensures Counted(RemoveStep(s, t, s.pcs[t].d, s.pcs[t].requests))
  {
  }

  lemma CountedForget(s: State, t: nat)
    requires Counted(s) && t < |s.pcs|
    ensures Counted(StepForget(s, t))
  {
    if s.pcs[t].Remove? { CountedRemove(s, t); hide RemoveStep, Counted; } else { hide RemoveStep; }
  }

  /** The number allocated for an id agrees with every number given before it. */
  lemma AllocatedFits(s: State, t: nat)
    requires Inv(s) && t < |s.pcs| && s.pcs[t].Allocate? && !s.cfg.fileHandles
    ensures var (next, g, r) := AllocateInode(s, s.pcs[t].id, s.pcs[t].h);
            && GeneratorValid(g)
            && (forall id, n :: Issued(s.gen, id, n) ==> Issued(g, id, n))
            && (r.Ok? ==> Fits(s.(nextInode := next, gen := g), s.pcs[t].id, r.value))
  {
    var id, h := s.pcs[t].id, s.pcs[t].h;
    GenerateIsFresh(s.gen, id);
    var (next, g, r) := AllocateInode(s, id, h);
    if r.Ok? && s.cfg.useHostIno && r == Generate(s.gen, id).1 {
      IssuedFits(g, id, r.value);
      forall a | a in s.store.byId && s.store.byId[a] == r.value ensures a == id {
        assert RootId(s, a) || Issued(s.gen, a, r.value);
      }
    }
  }

  /** A step that leaves the numbers alone and moves one thread, answering a lookup or not. */
  lemma IndexedMove(s: State, s': State, t: nat)
    requires Indexed(s) && t < |s.pcs| && |s'.pcs| == |s.pcs|
    requires s'.cfg == s.cfg && s'.objs == s.objs && s'.store == s.store && s'.gen == s.gen
    requires s'.pcs == s.pcs[t := s'.pcs[t]] && !s'.pcs[t].Insert?
    requires HasHandle(s'.pcs[t]) ==> s'.pcs[t].h.None?
    requires s'.pcs[t].Load? || s'.pcs[t].Swap? || s'.pcs[t].Bump? ==> s'.pcs[t].d.id == s'.pcs[t].id
    requires s.log <= s'.log && |s'.log| <= |s.log| + 1
    requires |s'.log| == |s.log| + 1 && s'.log[|s.log|].Granted? ==>
               HasNumber(s, s'.log[|s.log|].id, s'.log[|s.log|].inode)
    ensures Indexed(s')
  {
    assert forall id, n :: HasNumber(s', id, n) <==> HasNumber(s, id, n);
    assert forall id, n :: Fits(s', id, n) <==> Fits(s, id, n);
  }

  lemma IndexedAllocate(s: State, t: nat)
    requires Inv(s) && t < |s.pcs| && s.pcs[t].Allocate? && !s.cfg.fileHandles
    ensures Indexed(AllocateStep(s, t, s.pcs[t].id, s.pcs[t].h))
  {
    AllocatedFits(s, t);
    hide AllocateInode, Table, GeneratorValid, Issued, Counted;
    IndexedGenerator(s, AllocateStep(s, t, s.pcs[t].id, s.pcs[t].h), t);
  }

  lemma IndexedGenerator(s: State, s': State, t: nat)
    requires Indexed(s) && t < |s.pcs| && |s'.pcs| == |s.pcs|
    requires s'.cfg == s.cfg && s'.objs == s.objs && s'.store == s.store && s'.log == s.log
    requires forall id, n :: Issued(s.gen, id, n) ==> Issued(s'.gen, id, n)
    requires s'.pcs == s.pcs[t := s'.pcs[t]]
    requires s'.pcs[t].Idle? || (s'.pcs[t].Insert? && s'.pcs[t].h.None? && Fits(s', s'.pcs[t].id, s'.pcs[t].n))
    ensures Indexed(s')
  {
    assert forall id, n :: HasNumber(s, id, n) ==> HasNumber(s', id, n);
    assert forall id, n :: Fits(s, id, n) ==> Fits(s', id, n);
  }

  lemma IndexedInsert(s: State, t: nat)
    requires Inv(s) && t < |s.pcs| && s.pcs[t].Insert? && !s.cfg.fileHandles
    ensures Indexed(InsertStep(s, t, s.pcs[t].id, s.pcs[t].h, s.pcs[t].n))
  {
    hide Issued, GeneratorValid, Live, Counted;
    var s' := InsertStep(s, t, s.pcs[t].id, s.pcs[t].h, s.pcs[t].n);
    var id, n := s.pcs[t].id, s.pcs[t].n;
    assert forall u :: 0 <= u < |s'.pcs| ==> !s'.pcs[u].Insert?;
    assert Fits(s, id, n);
    assert forall m, k :: HasNumber(s, m, k) ==> HasNumber(s', m, k);
    assert HasNumber(s', id, n);
  }

  lemma IndexedDrop(s: State, t: nat, d: InodeData, requests: seq<Request>)
    requires Indexed(s) && t < |s.pcs| && d.inode in s.store.data && s.store.data[d.inode] == d
    requires !RootId(s, d.id) && forall u | 0 <= u < |s.pcs| :: !s.pcs[u].Insert?
    ensures Indexed(RemoveStep(s, t, d, requests))
  {
    hide Issued, Fits;
    var s' := RemoveStep(s, t, d, requests);
    assert s.store.byId[d.id] == d.inode;
    assert forall m, k :: HasNumber(s, m, k) ==> HasNumber(s', m, k);
  }

  /** Dropping the mapping of a host id loses nothing: the generator computes its number again. */
  lemma IndexedRemove(s: State, t: nat)
    requires Inv(s) && t < |s.pcs| && s.pcs[t].Remove? && !s.cfg.fileHandles
    ensures Indexed(RemoveStep(s, t, s.pcs[t].d, s.pcs[t].requests))
  {
    var d := s.pcs[t].d;
    assert InStore(s, d) && s.store.byId[d.id] == d.inode && !RootId(s, d.id);
    assert forall u :: 0 <= u < |s.pcs| ==> !s.pcs[u].Insert?;
    hide Table, GeneratorValid, Counted, RemoveStep;
    IndexedDrop(s, t, d, s.pcs[t].requests);
  }

  /** A thread that finds an entry finds the one of the id it looks for. */
  lemma IndexedFound(s: State, id: InodeId)
    requires Shape(s) && Indexed(s) && GetAlt(s.store, id, None).Some?
    ensures GetAlt(s.store, id, None).value.id == id
    ensures HasNumber(s, id, GetAlt(s.store, id, None).value.inode)
  {
  }

  /** A count above zero means a live entry, whose id has its number. */
  lemma IndexedLive(s: State, d: InodeData)
    requires Table(s) && Indexed(s) && Known(s, d) && CountOf(s, d) > 0
    ensures HasNumber(s, d.id, d.inode)
  {
    assert InStore(s, s.objs[d.cell]);
  }

  lemma IndexedAcquire(s: State, t: nat, ok: bool)
    requires Inv(s) && t < |s.pcs| && (s.pcs[t].Swap? || s.pcs[t].Bump?) && !s.cfg.fileHandles
    ensures Indexed(StepLookup(s, t, ok))
  {
    var pc := s.pcs[t];
    assert Indexed(s) && pc.d.id == pc.id;
    if pc.Bump? { assert InStore(s, s.objs[pc.d.cell]); }
    if pc.Bump? || CountOf(s, pc.d) == pc.curr { IndexedLive(s, pc.d); }
    hide Inv, Indexed, HasNumber, WrappingAdd;
    IndexedMove(s, StepLookup(s, t, ok), t);
  }

  lemma IndexedSearch(s: State, t: nat, ok: bool)
    requires Inv(s) && t < |s.pcs| && HasHandle(s.pcs[t]) && !s.cfg.fileHandles
    requires !s.pcs[t].Swap? && !s.pcs[t].Bump? && !s.pcs[t].Allocate? && !s.pcs[t].Insert?
    ensures Indexed(StepLookup(s, t, ok))
  {
    var pc := s.pcs[t];
    assert Indexed(s) && pc.h.None? && (pc.Load? ==> pc.d.id == pc.id);
    if (pc.Search? || pc.Recheck?) && GetAlt(s.store, pc.id, None).Some? { IndexedFound(s, pc.id); }
    hide Inv, Indexed, GetAlt, HasNumber, SwapStep, BumpStep, AllocateStep, InsertStep;
    IndexedMove(s, StepLookup(s, t, ok), t);
  }

  lemma IndexedStepLookup(s: State, t: nat, ok: bool)
    requires Inv(s) && t < |s.pcs| && HasHandle(s.pcs[t]) && !s.cfg.fileHandles
    ensures Indexed(StepLookup(s, t, ok))
  {
    hide Inv, Indexed, AllocateStep, InsertStep, SwapStep, BumpStep, SearchStep, RecheckStep, LoadStep;
    match s.pcs[t]
    case Allocate(_, _) => IndexedAllocate(s, t);
    case Insert(_, _, _) => IndexedInsert(s, t);
    case Swap(_, _, _, _) => IndexedAcquire(s, t, ok);
    case Bump(_, _, _) => IndexedAcquire(s, t, ok);
    case _ => IndexedSearch(s, t, ok);
  }

  lemma IndexedStart(s: State, t: nat, a: Action)
    requires Indexed(s) && t < |s.pcs| && s.pcs[t].Idle? && !s.cfg.fileHandles
    ensures Indexed(StepIdle(s, t, a))
  {
    hide Indexed;
    IndexedMove(s, StepIdle(s, t, a), t);
  }

  lemma IndexedForget(s: State, t: nat)
    requires Indexed(s) && t < |s.pcs| && !HasHandle(s.pcs[t]) && !s.pcs[t].Remove?
    ensures Indexed(StepForget(s, t))
  {
    hide Indexed, RemoveStep, HasNumber;
    IndexedMove(s, StepForget(s, t), t);
  }

  lemma IndexedStep(s: State, t: nat, a: Action)
    requires Inv(s) && t < |s.pcs| && !s.cfg.fileHandles
    ensures Indexed(Step(s, t, a))
  {
    assert Indexed(s);
    hide StepLookup, RemoveStep, ForgetStep, ForgetSwapStep, Indexed, Inv;
    if s.pcs[t].Idle? {
      IndexedStart(s, t, a);
    } else if a.Run? {
      if HasHandle(s.pcs[t]) { IndexedStepLookup(s, t, a.ok); }
      else if s.pcs[t].Remove? { IndexedRemove(s, t); }
      else { IndexedForget(s, t); }
    }
  }

  lemma CountedStep(s: State, t: nat, a: Action)
    requires Counted(s) && t < |s.pcs| && !s.cfg.useHostIno && !NumberWraps(s, t, a)
    ensures Counted(Step(s, t, a))
  {
    if a.Run? { CountedLookup(s, t, a.ok); CountedForget(s, t); }
  }

  lemma GeneratorStep(s: State, t: nat, a: Action)
    requires GeneratorValid(s.gen) && t < |s.pcs|
    ensures GeneratorValid(Step(s, t, a).gen)
  {
    if s.pcs[t].Allocate? { GenerateIsFresh(s.gen, s.pcs[t].id); }
  }

  lemma NumberingStep(s: State, t: nat, a: Action)
    requires Inv(s) && t < |s.pcs| && !NumberWraps(s, t, a)
    ensures Numbering(Step(s, t, a))
  {
    StepExtends(s, t, a);
    hide Step, Table, Counted, Indexed, GeneratorValid;
    GeneratorStep(s, t, a);
    if !s.cfg.useHostIno { CountedStep(s, t, a); }
    if !s.cfg.fileHandles { IndexedStep(s, t, a); }
  }

  /** Every step that does not wrap a counter keeps the invariant. */
  lemma InvStep(s: State, t: nat, a: Action)
    requires Inv(s) && Supported(s.cfg) && t < |s.pcs| && !Wraps(s, t, a)
    ensures Inv(Step(s, t, a))
  {
    NumberingStep(s, t, a);
    assert s.pcs[t].Bump? && a.Run? ==> CountOf(s, s.pcs[t].d) < U64_MAX;
    hide Table, Numbering, Step, NumberWraps;
    TableStep(s, t, a);
  }
}
