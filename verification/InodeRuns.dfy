/** What holds over whole runs of the passthrough inode table. */
module InodeRuns {
  import opened Common
  import opened UniqueInode
  import opened InodeStore
  import opened InodeLifetime

  predicate WrapsAt(s: State, turn: Turn) {
    turn.thread < |s.pcs| && Wraps(s, turn.thread, turn.action)
  }

  /** No step of the run wraps a 64-bit counter. */
  ghost predicate NeverWraps(s: State, schedule: seq<Turn>) {
    forall k | 0 <= k < |schedule| :: !WrapsAt(Exec(s, schedule[..k]), schedule[k])
  }

  /** The step acquires a reference to an entry whose count is at its last value, so the count does not rise. */
  predicate AcquiresFull(s: State, t: nat, a: Action)
    requires t < |s.pcs|
  {
    && a.Run? && (s.pcs[t].Bump? || (s.pcs[t].Swap? && CountOf(s, s.pcs[t].d) == s.pcs[t].curr))
    && CountOf(s, s.pcs[t].d) >= U64_MAX
  }

  predicate FullAt(s: State, turn: Turn) {
    turn.thread < |s.pcs|
    && (AcquiresFull(s, turn.thread, turn.action) || NumberWraps(s, turn.thread, turn.action))
  }

  /** No step of the run finds a 64-bit counter at its last value and has to raise it. */
  ghost predicate NeverFull(s: State, schedule: seq<Turn>) {
    forall k | 0 <= k < |schedule| :: !FullAt(Exec(s, schedule[..k]), schedule[k])
  }

  lemma NeverFullFront(s: State, schedule: seq<Turn>, n: nat)
    requires NeverFull(s, schedule) && n <= |schedule|
    ensures NeverFull(s, schedule[..n]) && NeverWraps(s, schedule[..n])
    ensures n < |schedule| ==> !FullAt(Exec(s, schedule[..n]), schedule[n])
  {
    forall k | 0 <= k < n ensures !FullAt(Exec(s, schedule[..n][..k]), schedule[..n][k]) {
      assert schedule[..n][..k] == schedule[..k];
    }
  }

  lemma NeverWrapsFront(s: State, schedule: seq<Turn>, n: nat)
    requires NeverWraps(s, schedule) && n <= |schedule|
    ensures NeverWraps(s, schedule[..n])
    ensures n < |schedule| ==> !WrapsAt(Exec(s, schedule[..n]), schedule[n])
  {
    forall k | 0 <= k < n ensures !WrapsAt(Exec(s, schedule[..n][..k]), schedule[..n][k]) {
      assert schedule[..n][..k] == schedule[..k];
    }
  }

  lemma ExecNone(s: State)
    ensures Exec(s, []) == s
  {
  }

  lemma ExecLast(s: State, schedule: seq<Turn>)
    requires schedule != []
    ensures var turn, b := schedule[|schedule| - 1], Exec(s, schedule[..|schedule| - 1]);
            Exec(s, schedule) == if turn.thread < |b.pcs| then Step(b, turn.thread, turn.action) else b
  {
    hide Step;
  }

  /** Every state reached by any interleaving of any number of threads satisfies the invariant: an
      entry is in the table exactly when its count is above zero, outside a removal. */
  lemma {:induction false} EveryStateIsConsistent(s: State, schedule: seq<Turn>)
    requires Inv(s) && Supported(s.cfg) && NeverWraps(s, schedule)
    ensures Inv(Exec(s, schedule))
    ensures Exec(s, schedule).cfg == s.cfg && |Exec(s, schedule).pcs| == |s.pcs|
  {
    hide Step, Inv, Wraps;
    if schedule == [] {
    } else {
      var before, turn := schedule[..|schedule| - 1], schedule[|schedule| - 1];
      NeverWrapsFront(s, schedule, |schedule| - 1);
      EveryStateIsConsistent(s, before);
      var b := Exec(s, before);
      if turn.thread < |b.pcs| {
        InvStep(b, turn.thread, turn.action);
        StepExtends(b, turn.thread, turn.action);
      }
    }
  }

  /** The states of all runs, of any number of threads, from a freshly imported file system. */
  ghost predicate Reachable(s: State) {
    exists cfg, threads, root, h, schedule ::
      && Supported(cfg) && NeverWraps(Init(cfg, threads, root, h), schedule)
      && s == Exec(Init(cfg, threads, root, h), schedule)
  }

  lemma ReachableIsConsistent(s: State)
    requires Reachable(s)
    ensures Inv(s)
  {
    var cfg, threads, root, h, schedule :|
      && Supported(cfg) && NeverWraps(Init(cfg, threads, root, h), schedule)
      && s == Exec(Init(cfg, threads, root, h), schedule);
    InitInv(cfg, threads, root, h);
    EveryStateIsConsistent(Init(cfg, threads, root, h), schedule);
  }

  /** Once no thread is inside a removal, the table holds exactly the objects with references, each
      under its own number and under no other. */
  lemma TableHoldsExactlyTheReferenced(s: State)
    requires Reachable(s) && (forall cell: nat :: !Removing(s, cell))
    ensures |s.counts| == |s.objs|
    ensures forall cell | 0 <= cell < |s.objs| :: InStore(s, s.objs[cell]) <==> s.counts[cell] > 0
    ensures forall n <- s.store.data :: s.store.data[n].inode == n && CountOf(s, s.store.data[n]) > 0
  {
    ReachableIsConsistent(s);
  }

  // ---------------------------------------------------------------- putting runs together

  lemma {:induction false} ExecAppend(s: State, a: seq<Turn>, b: seq<Turn>)
    ensures Exec(s, a + b) == Exec(Exec(s, a), b)
    decreases |b|
  {
    if b == [] {
      assert a + b == a;
    } else {
      assert (a + b)[..|a + b| - 1] == a + b[..|b| - 1];
      ExecAppend(s, a, b[..|b| - 1]);
      hide Step;
    }
  }

  /** A run without a wrap goes from one state to the other. */
  ghost predicate Leads(s: State, s': State) {
    exists schedule :: NeverWraps(s, schedule) && Exec(s, schedule) == s'
  }

  lemma LeadsNowhere(s: State)
    ensures Leads(s, s)
  {
    assert NeverWraps(s, []) && Exec(s, []) == s;
  }

  lemma LeadsOn(s: State, s': State, t: nat, a: Action)
    requires Leads(s, s') && t < |s'.pcs| && !Wraps(s', t, a)
    ensures Leads(s, Step(s', t, a))
  {
    var schedule :| NeverWraps(s, schedule) && Exec(s, schedule) == s';
    var longer := schedule + [Turn(t, a)];
    hide Step, Wraps;
    forall k | 0 <= k < |longer| ensures !WrapsAt(Exec(s, longer[..k]), longer[k]) {
      if k < |schedule| { assert longer[..k] == schedule[..k]; } else { assert longer[..k] == schedule; }
    }
    assert longer[..|schedule|] == schedule;
    assert Exec(s, longer) == Step(s', t, a);
  }

  lemma LeadsTo(s: State, s': State, t: nat, a: Action, s'': State)
    requires Leads(s, s') && t < |s'.pcs| && !Wraps(s', t, a) && Step(s', t, a) == s''
    ensures Leads(s, s'')
  {
    hide Step, Leads;
    LeadsOn(s, s', t, a);
  }

  // ---------------------------------------------------------------- runs that cannot wrap

  /** A run too short to push a 64-bit counter over its end. */
  predicate Countable(schedule: seq<Turn>) {
    |schedule| <= U64_MAX - 2
  }

  lemma BoundedIsNotFull(s: State, turn: Turn, k: nat)
    requires Bounded(s, k) && k < U64_MAX
    ensures !WrapsAt(s, turn) && !FullAt(s, turn)
  {
  }

  lemma {:induction false} ShortRunsAreBounded(s: State, schedule: seq<Turn>)
    requires Inv(s) && Bounded(s, 2) && Supported(s.cfg) && Countable(schedule)
    ensures NeverFull(s, schedule) && NeverWraps(s, schedule)
    ensures Bounded(Exec(s, schedule), 2 + |schedule|)
  {
    hide Step, Inv, Bounded, WrapsAt, FullAt;
    if schedule == [] {
    } else {
      var n := |schedule| - 1;
      var before, turn := schedule[..n], schedule[n];
      ShortRunsAreBounded(s, before);
      EveryStateIsConsistent(s, before);
      var b := Exec(s, before);
      BoundedIsNotFull(b, turn, 2 + n);
      forall k | 0 <= k < |schedule|
        ensures !WrapsAt(Exec(s, schedule[..k]), schedule[k]) && !FullAt(Exec(s, schedule[..k]), schedule[k])
      {
        if k < n { assert before[..k] == schedule[..k] && before[k] == schedule[k]; }
      }
      if turn.thread < |b.pcs| { StepBounded(b, turn.thread, turn.action, 2 + n); } else { BoundedMore(b, 2 + n); }
    }
  }

  // ---------------------------------------------------------------- counts

  /** A count that has reached zero never rises again. */
  lemma ZeroStaysZero(s: State, t: nat, a: Action, cell: nat)
    requires Inv(s) && t < |s.pcs| && cell < |s.counts| && s.counts[cell] == 0
    ensures cell < |Step(s, t, a).counts| && Step(s, t, a).counts[cell] == 0
  {
    hide Numbering, GetAlt, Generate, RootLives;
    if s.pcs[t].Bump? { assert InStore(s, s.objs[s.pcs[t].d.cell]); }
  }

  lemma {:induction false} ZeroStaysZeroFrom(s: State, run: seq<Turn>, cell: nat)
    requires Inv(s) && Supported(s.cfg) && NeverWraps(s, run) && cell < |s.counts| && s.counts[cell] == 0
    ensures cell < |Exec(s, run).counts| && Exec(s, run).counts[cell] == 0
  {
    hide Exec, Step, Inv, NeverWraps;
    if run == [] {
      ExecNone(s);
    } else {
      var before, turn := run[..|run| - 1], run[|run| - 1];
      NeverWrapsFront(s, run, |run| - 1);
      ZeroStaysZeroFrom(s, before, cell);
      EveryStateIsConsistent(s, before);
      ExecLast(s, run);
      if turn.thread < |Exec(s, before).pcs| { ZeroStaysZero(Exec(s, before), turn.thread, turn.action, cell); }
    }
  }

  lemma NeverWrapsBack(s: State, a: seq<Turn>, b: seq<Turn>)
    requires NeverWraps(s, a + b)
    ensures NeverWraps(Exec(s, a), b)
  {
    hide Exec, WrapsAt;
    forall k | 0 <= k < |b| ensures !WrapsAt(Exec(Exec(s, a), b[..k]), b[k]) {
      ExecAppend(s, a, b[..k]);
      assert (a + b)[..|a| + k] == a + b[..k] && (a + b)[|a| + k] == b[k];
    }
  }

  /** The same over a run, from any state on it. */
  lemma ZeroStaysZeroOverRun(s: State, schedule: seq<Turn>, later: seq<Turn>, cell: nat)
    requires Inv(s) && Supported(s.cfg) && NeverWraps(s, schedule + later)
    requires cell < |Exec(s, schedule).counts| && Exec(s, schedule).counts[cell] == 0
    ensures cell < |Exec(s, schedule + later).counts| && Exec(s, schedule + later).counts[cell] == 0
  {
    hide Exec, Step, Inv, NeverWraps;
    assert (schedule + later)[..|schedule|] == schedule;
    NeverWrapsFront(s, schedule + later, |schedule|);
    EveryStateIsConsistent(s, schedule);
    NeverWrapsBack(s, schedule, later);
    ExecAppend(s, schedule, later);
    ZeroStaysZeroFrom(Exec(s, schedule), later, cell);
  }

  /** An object that still has references stays the entry of its number: no insert replaces it. */
  lemma LiveEntryIsNeverReplaced(s: State, t: nat, a: Action, d: InodeData)
    requires Inv(s) && Supported(s.cfg) && t < |s.pcs| && !Wraps(s, t, a)
    requires InStore(s, d) && CountOf(Step(s, t, a), d) > 0
    ensures InStore(Step(s, t, a), d)
  {
    InvStep(s, t, a);
    StepExtends(s, t, a);
    assert Known(s, s.store.data[d.inode]);
    assert Step(s, t, a).objs[d.cell] == d;
  }

  lemma WrappedIsNotLive(s: State, t: nat, a: Action)
    requires Table(s) && t < |s.pcs| && CountWraps(s, t, a)
    ensures !Live(Step(s, t, a))
  {
    var d, s' := s.pcs[t].d, Step(s, t, a);
    assert InStore(s, d) && CountOf(s, d) == U64_MAX;
    hide Critical, RootLives, GetAlt;
    assert s'.counts[d.cell] == 0 && InStore(s', s'.objs[d.cell]) && !Removing(s', d.cell);
  }

  /** The one way out of the invariant is a locked increment of a count that is at 2^64 - 1: it
      wraps to zero under a live entry. */
  lemma LiveUnlessWrapped(s: State, t: nat, a: Action)
    requires Inv(s) && Supported(s.cfg) && t < |s.pcs|
    ensures Live(Step(s, t, a)) <==> !CountWraps(s, t, a)
  {
    if CountWraps(s, t, a) {
      WrappedIsNotLive(s, t, a);
      hide Live, Step;
    } else {
      assert s.pcs[t].Bump? && a.Run? ==> CountOf(s, s.pcs[t].d) < U64_MAX;
      hide Live, Step;
      TableStep(s, t, a);
    }
  }

  ghost predicate AlwaysLive(s: State, schedule: seq<Turn>) {
    forall k | 0 <= k <= |schedule| :: Live(Exec(s, schedule[..k]))
  }

  /** So over a run that does not use up the inode counter, entries and references are together in every
      state if and only if no reference count wraps. */
  lemma {:induction false} AlwaysLiveUnlessWrapped(s: State, schedule: seq<Turn>)
    requires Inv(s) && Supported(s.cfg)
    requires forall k | 0 <= k < |schedule| ::
               var b := Exec(s, schedule[..k]);
               schedule[k].thread < |b.pcs| ==> !NumberWraps(b, schedule[k].thread, schedule[k].action)
    ensures AlwaysLive(s, schedule) <==> NeverWraps(s, schedule)
  {
    hide Step, Inv, Live, NumberWraps, CountWraps;
    if NeverWraps(s, schedule) {
      forall k | 0 <= k <= |schedule| ensures Live(Exec(s, schedule[..k])) {
        NeverWrapsFront(s, schedule, k);
        EveryStateIsConsistent(s, schedule[..k]);
        InvIsLive(Exec(s, schedule[..k]));
      }
    } else {
      var k := FirstWrap(s, schedule);
      EveryStateIsConsistent(s, schedule[..k]);
      var b := Exec(s, schedule[..k]);
      LiveUnlessWrapped(b, schedule[k].thread, schedule[k].action);
      assert schedule[..k + 1][..k] == schedule[..k];
      assert !Live(Exec(s, schedule[..k + 1]));
    }
  }

  lemma InvIsLive(s: State)
    requires Inv(s)
    ensures Live(s)
  {
  }

  lemma {:induction false} FirstWrap(s: State, schedule: seq<Turn>) returns (k: nat)
    requires !NeverWraps(s, schedule)
    ensures k < |schedule| && WrapsAt(Exec(s, schedule[..k]), schedule[k]) && NeverWraps(s, schedule[..k])
  {
    hide Exec, WrapsAt;
    var n := |schedule| - 1;
    var before := schedule[..n];
    if NeverWraps(s, before) {
      k :| 0 <= k < |schedule| && WrapsAt(Exec(s, schedule[..k]), schedule[k]);
      if k < n { NeverWrapsAt(s, schedule, n, k); }
      k := n;
    } else {
      k := FirstWrap(s, before);
      assert before[..k] == schedule[..k];
    }
  }

  lemma NeverWrapsAt(s: State, schedule: seq<Turn>, n: nat, k: nat)
    requires n <= |schedule| && NeverWraps(s, schedule[..n]) && k < n
    ensures !WrapsAt(Exec(s, schedule[..k]), schedule[k])
  {
    assert schedule[..n][..k] == schedule[..k] && schedule[..n][k] == schedule[k];
  }

  // ---------------------------------------------------------------- refinement of an atomic count map

  /** The atomic view: each live number with its count. */
  function Abs(s: State): map<nat, nat> {
    map n | n in s.store.data && CountOf(s, s.store.data[n]) > 0 :: CountOf(s, s.store.data[n])
  }

  datatype Label = Internal | Acquire(inode: nat) | Release(inode: nat, count: nat)

  /** Which steps of the protocol are the atomic operations. */
  function LabelOf(s: State, t: nat, a: Action): Label
    requires t < |s.pcs|
  {
    if !a.Run? then Internal
    else
      match s.pcs[t]
      case Swap(_, _, d, curr) => if CountOf(s, d) == curr then Acquire(d.inode) else Internal
      case Bump(_, _, d) => Acquire(d.inode)
      case Insert(_, _, n) => Acquire(n)
      case ForgetSwap(d, count, curr, _) => if CountOf(s, d) == curr then Release(d.inode, count) else Internal
      case _ => Internal
  }

  function Count(m: map<nat, nat>, n: nat): nat {
    if n in m then m[n] else 0
  }

  function Apply(m: map<nat, nat>, l: Label): map<nat, nat> {
    match l
    case Internal => m
    case Acquire(n) => m[n := Count(m, n) + 1]
    case Release(n, c) => if Count(m, n) <= c then m - {n} else m[n := m[n] - c]
  }

  predicate Grants(l: Label, more: seq<Event>) {
    if l.Acquire? then |more| == 1 && more[0].Granted? && more[0].inode == l.inode
    else forall i | 0 <= i < |more| :: !more[i].Granted?
  }

  /** Entries of different numbers have different count cells. */
  lemma CountsMoveAlone(s: State, d: InodeData)
    requires Shape(s) && Known(s, d)
    ensures forall n <- s.store.data :: n != d.inode ==> s.store.data[n].cell != d.cell
  {
  }

  lemma AbsRemove(s: State, t: nat)
    requires Table(s) && t < |s.pcs| && s.pcs[t].Remove?
    ensures Abs(RemoveStep(s, t, s.pcs[t].d, s.pcs[t].requests)) == Abs(s)
  {
    hide Live, RootLives;
    CountsMoveAlone(s, s.pcs[t].d);
  }

  lemma AbsInsert(s: State, t: nat)
    requires Table(s) && t < |s.pcs| && s.pcs[t].Insert?
    ensures Abs(InsertStep(s, t, s.pcs[t].id, s.pcs[t].h, s.pcs[t].n)) == Apply(Abs(s), Acquire(s.pcs[t].n))
  {
    hide Live, RootLives;
    var s' := InsertStep(s, t, s.pcs[t].id, s.pcs[t].h, s.pcs[t].n);
    assert forall m <- s.store.data :: CountOf(s', s.store.data[m]) == CountOf(s, s.store.data[m]);
  }

  lemma AbsSame(s: State, s': State)
    requires s'.store == s.store && s'.counts == s.counts
    ensures Abs(s') == Abs(s)
  {
  }

  lemma OthersKeepCount(s: State, s': State, d: InodeData, c: nat)
    requires s'.store == s.store && s'.counts == SetCount(s, d, c).counts
    requires forall n <- s.store.data :: n != d.inode ==> s.store.data[n].cell != d.cell
    ensures forall n <- s.store.data :: n != d.inode ==> CountOf(s', s.store.data[n]) == CountOf(s, s.store.data[n])
  {
  }

  /** Changing the count of one live entry changes that number in the atomic map, and only it. */
  lemma AbsCount(s: State, s': State, d: InodeData, c: nat)
    requires Shape(s) && InStore(s, d) && CountOf(s, d) > 0
    requires s'.store == s.store && s'.counts == SetCount(s, d, c).counts
    ensures Abs(s') == if c == 0 then Abs(s) - {d.inode} else Abs(s)[d.inode := c]
  {
    assert Known(s, s.store.data[d.inode]);
    CountsMoveAlone(s, d);
    OthersKeepCount(s, s', d, c);
    hide Shape;
  }

  lemma AbsAcquire(s: State, s': State, d: InodeData)
    requires Table(s) && Known(s, d) && CountOf(s, d) > 0
    requires s'.store == s.store && s'.counts == SetCount(s, d, CountOf(s, d) + 1).counts
    ensures Abs(s') == Apply(Abs(s), Acquire(d.inode))
  {
    assert InStore(s, s.objs[d.cell]);
    AbsCount(s, s', d, CountOf(s, d) + 1);
  }

  lemma AbsLookup(s: State, t: nat, ok: bool)
    requires Table(s) && t < |s.pcs| && HasHandle(s.pcs[t]) && !AcquiresFull(s, t, Run(ok))
    ensures Abs(StepLookup(s, t, ok)) == Apply(Abs(s), LabelOf(s, t, Run(ok)))
  {
    hide Abs, GetAlt, AllocateInode, RootLives, Inserted, Apply;
    var s', pc := StepLookup(s, t, ok), s.pcs[t];
    if pc.Insert? {
      AbsInsert(s, t);
    } else if LabelOf(s, t, Run(ok)).Acquire? {
      if pc.Bump? { assert InStore(s, s.objs[pc.d.cell]); }
      AbsAcquire(s, s', pc.d);
    } else {
      AbsSame(s, s');
    }
    assert Apply(Abs(s), Internal) == Abs(s) by { ApplyInternal(Abs(s)); }
  }

  lemma ApplyInternal(m: map<nat, nat>)
    ensures Apply(m, Internal) == m
  {
  }

  lemma AbsRelease(s: State, t: nat)
    requires Table(s) && t < |s.pcs| && s.pcs[t].ForgetSwap? && CountOf(s, s.pcs[t].d) == s.pcs[t].curr
    ensures Abs(StepForget(s, t)) == Apply(Abs(s), Release(s.pcs[t].d.inode, s.pcs[t].count))
    ensures s.pcs[t].d.inode in Abs(s) && s.pcs[t].d.inode != ROOT_ID
  {
    var d := s.pcs[t].d;
    assert InStore(s, s.objs[d.cell]);
    AbsCount(s, StepForget(s, t), d, SaturatingSub(CountOf(s, d), s.pcs[t].count));
  }

  lemma AbsForget(s: State, t: nat)
    requires Table(s) && t < |s.pcs| && !HasHandle(s.pcs[t]) && LabelOf(s, t, Run(true)).Internal?
    ensures Abs(StepForget(s, t)) == Abs(s)
  {
    hide Live, RootLives, Abs;
    if s.pcs[t].Remove? {
      hide RemoveStep, Table;
      AbsRemove(s, t);
    } else {
      hide RemoveStep, Table;
      AbsSame(s, StepForget(s, t));
    }
  }

  lemma StepAbs(s: State, t: nat, a: Action)
    requires Table(s) && t < |s.pcs| && !AcquiresFull(s, t, a)
    ensures Abs(Step(s, t, a)) == Apply(Abs(s), LabelOf(s, t, a))
    ensures LabelOf(s, t, a).Release? ==> LabelOf(s, t, a).inode in Abs(s) && LabelOf(s, t, a).inode != ROOT_ID
  {
    hide Table, StepLookup, StepForget;
    if s.pcs[t].Idle? || !a.Run? {
    } else if HasHandle(s.pcs[t]) {
      AbsLookup(s, t, a.ok);
    } else if LabelOf(s, t, a).Internal? {
      AbsForget(s, t);
    } else {
      AbsRelease(s, t);
    }
  }

  lemma LookupLog(s: State, t: nat, ok: bool)
    requires t < |s.pcs| && HasHandle(s.pcs[t])
    ensures var l, pc := LabelOf(s, t, Run(ok)), s.pcs[t];
            && !l.Release?
            && StepLookup(s, t, ok).log == if l.Acquire? then s.log + [Granted(pc.id, pc.h, l.inode)] else s.log
  {
    hide GetAlt, AllocateInode, Inserted, WrappingAdd, SaturatingAdd;
  }

  lemma ForgetLog(s: State, t: nat)
    requires t < |s.pcs| && !HasHandle(s.pcs[t])
    ensures StepForget(s, t).log == s.log
  {
    hide Removed, SaturatingSub;
  }

  lemma StepGrants(s: State, t: nat, a: Action)
    requires t < |s.pcs| && s.log <= Step(s, t, a).log
    ensures Grants(LabelOf(s, t, a), Step(s, t, a).log[|s.log|..])
  {
    if !s.pcs[t].Idle? && a.Run? {
      hide StepLookup, StepForget;
      if HasHandle(s.pcs[t]) { LookupLog(s, t, a.ok); } else { ForgetLog(s, t); }
    }
  }

  /** Each step is one atomic operation on the count map or does not show in it. A lookup is answered
      by exactly the step that acquires the number it returns. */
  lemma StepRefines(s: State, t: nat, a: Action)
    requires Inv(s) && t < |s.pcs| && !AcquiresFull(s, t, a)
    ensures Abs(Step(s, t, a)) == Apply(Abs(s), LabelOf(s, t, a))
    ensures LabelOf(s, t, a).Release? ==> LabelOf(s, t, a).inode in Abs(s) && LabelOf(s, t, a).inode != ROOT_ID
    ensures s.log <= Step(s, t, a).log && Grants(LabelOf(s, t, a), Step(s, t, a).log[|s.log|..])
  {
    StepExtends(s, t, a);
    StepAbs(s, t, a);
    StepGrants(s, t, a);
  }

  /** And it does so only then: a full count is not raised, or wraps, and the atomic one goes on. */
  lemma RefinesUnlessFull(s: State, t: nat, a: Action)
    requires Inv(s) && t < |s.pcs|
    ensures Abs(Step(s, t, a)) == Apply(Abs(s), LabelOf(s, t, a)) <==> !AcquiresFull(s, t, a)
  {
    if AcquiresFull(s, t, a) {
      var n, s' := s.pcs[t].d.inode, Step(s, t, a);
      assert InStore(s, s.objs[s.pcs[t].d.cell]);
      FullStays(s, t, a);
      assert Count(Abs(s'), n) <= U64_MAX < Count(Apply(Abs(s), Acquire(n)), n);
    } else {
      StepRefines(s, t, a);
    }
  }

  lemma FullStays(s: State, t: nat, a: Action)
    requires Inv(s) && t < |s.pcs| && AcquiresFull(s, t, a)
    ensures var n := s.pcs[t].d.inode;
            LabelOf(s, t, a) == Acquire(n) && Count(Abs(s), n) == U64_MAX && Count(Abs(Step(s, t, a)), n) <= U64_MAX
  {
    hide Numbering, RootLives;
    assert InStore(s, s.objs[s.pcs[t].d.cell]);
  }

  function ApplyAll(m: map<nat, nat>, ls: seq<Label>): map<nat, nat> {
    if ls == [] then m else Apply(ApplyAll(m, ls[..|ls| - 1]), ls[|ls| - 1])
  }

  function Labels(s: State, schedule: seq<Turn>): (ls: seq<Label>)
    ensures |ls| == |schedule|
  {
    if schedule == [] then []
    else
      var before, turn := schedule[..|schedule| - 1], schedule[|schedule| - 1];
      Labels(s, before) +
      [if turn.thread < |Exec(s, before).pcs| then LabelOf(Exec(s, before), turn.thread, turn.action) else Internal]
  }

  lemma LabelsLast(s: State, schedule: seq<Turn>)
    requires schedule != []
    ensures var turn, b, ls := schedule[|schedule| - 1], Exec(s, schedule[..|schedule| - 1]), Labels(s, schedule);
            && ls[..|ls| - 1] == Labels(s, schedule[..|schedule| - 1])
            && ls[|ls| - 1] == if turn.thread < |b.pcs| then LabelOf(b, turn.thread, turn.action) else Internal
  {
    hide Exec, LabelOf;
  }

  lemma NotFull(s: State, turn: Turn)
    requires turn.thread < |s.pcs| && !FullAt(s, turn)
    ensures !AcquiresFull(s, turn.thread, turn.action)
  {
    hide AcquiresFull, NumberWraps;
  }

  /** Every run of the protocol is a run of the atomic map. */
  lemma {:induction false} RunRefines(s: State, schedule: seq<Turn>)
    requires Inv(s) && Supported(s.cfg) && NeverFull(s, schedule)
    ensures Abs(Exec(s, schedule)) == ApplyAll(Abs(s), Labels(s, schedule))
  {
    hide Inv, NeverFull, NeverWraps, FullAt, AcquiresFull, Exec, Step, Labels, LabelOf, Abs, Apply, Grants;
    if schedule == [] {
      ExecNone(s);
    } else {
      var before, turn := schedule[..|schedule| - 1], schedule[|schedule| - 1];
      NeverFullFront(s, schedule, |schedule| - 1);
      RunRefines(s, before);
      EveryStateIsConsistent(s, before);
      var b := Exec(s, before);
      ExecLast(s, schedule);
      LabelsLast(s, schedule);
      if turn.thread < |b.pcs| {
        NotFull(b, turn);
        StepRefines(b, turn.thread, turn.action);
      } else {
        ApplyInternal(Abs(b));
      }
    }
  }

  // ---------------------------------------------------------------- numbers

  /** Given the numbering invariant, ids and their numbers are one-to-one. */
  lemma NumbersAreOneToOne(s: State, a: InodeId, m: nat, b: InodeId, n: nat)
    requires Inv(s) && !s.cfg.fileHandles && HasNumber(s, a, m) && HasNumber(s, b, n)
    ensures a == b <==> m == n
  {
    if s.cfg.useHostIno {
      if !RootId(s, a) { assert Issued(s.gen, a, m); IssuedFits(s.gen, a, m); }
      if !RootId(s, b) { assert Issued(s.gen, b, n); IssuedFits(s.gen, b, n); }
    }
  }

  /** With file handles off, over any run: two lookups return the same number exactly when they were
      for the same (ino, dev, mnt), even across a complete forget. */
  lemma NumbersAreStable(cfg: Config, threads: nat, root: InodeId, schedule: seq<Turn>, i: nat, j: nat)
    requires !cfg.fileHandles && NeverWraps(Init(cfg, threads, root, None), schedule)
    requires var log := Exec(Init(cfg, threads, root, None), schedule).log;
             i < |log| && j < |log| && log[i].Granted? && log[j].Granted?
    ensures var log := Exec(Init(cfg, threads, root, None), schedule).log;
            log[i].id == log[j].id <==> log[i].inode == log[j].inode
  {
    InitInv(cfg, threads, root, None);
    EveryStateIsConsistent(Init(cfg, threads, root, None), schedule);
    var s := Exec(Init(cfg, threads, root, None), schedule);
    NumbersAreOneToOne(s, s.log[i].id, s.log[i].inode, s.log[j].id, s.log[j].inode);
  }
}
