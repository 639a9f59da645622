/** The contract between server and client: an inode the client still holds references to stays in the
    table, and when nothing is in flight the table's counts are exactly the client's. */
module InodeCredits {
  import opened Common
  import opened UniqueInode
  import opened InodeStore
  import opened InodeLifetime
  import opened InodeRuns

  function Asking(requests: seq<Request>, n: nat): nat {
    if requests == [] then 0
    else (if requests[0].inode == n then requests[0].count else 0) + Asking(requests[1..], n)
  }

  function Worth(e: Event, n: nat): int {
    match e
    case Granted(_, _, m) => if m == n then 1 else 0
    case Asked(requests) => 0 - Asking(requests, n)
  }

  /** References to `n` the client was given and has not sent back. */
  function Held(log: seq<Event>, n: nat): int {
    if log == [] then 0 else Held(log[..|log| - 1], n) + Worth(log[|log| - 1], n)
  }

  /** The client never sends back more than it was given. */
  ghost predicate Honest(log: seq<Event>) {
    forall k, n | 0 <= k <= |log| && n != ROOT_ID :: Held(log[..k], n) >= 0
  }

  /** What a thread in the middle of a forget has yet to subtract from `n`. */
  function Owed(pc: PC, n: nat): nat {
    match pc
    case AwaitForget(requests) => Asking(requests, n)
    case Forget(requests) => Asking(requests, n)
    case ForgetLoad(d, count, requests) => (if d.inode == n then count else 0) + Asking(requests, n)
    case ForgetSwap(d, count, _, requests) => (if d.inode == n then count else 0) + Asking(requests, n)
    case Remove(_, requests) => Asking(requests, n)
    case _ => 0
  }

  function OwedByAll(pcs: seq<PC>, n: nat): nat {
    if pcs == [] then 0 else OwedByAll(pcs[..|pcs| - 1], n) + Owed(pcs[|pcs| - 1], n)
  }

  lemma {:induction false} OwedUpdate(pcs: seq<PC>, t: nat, pc: PC, n: nat)
    requires t < |pcs|
    ensures OwedByAll(pcs[t := pc], n) == OwedByAll(pcs, n) - Owed(pcs[t], n) + Owed(pc, n)
    ensures Owed(pcs[t], n) <= OwedByAll(pcs, n)
  {
    var last := |pcs| - 1;
    if t < last {
      assert pcs[t := pc][..last] == pcs[..last][t := pc];
      OwedUpdate(pcs[..last], t, pc, n);
    } else {
      assert pcs[t := pc][..last] == pcs[..last];
    }
  }

  lemma {:induction false} NothingOwed(pcs: seq<PC>, n: nat)
    requires forall t | 0 <= t < |pcs| :: pcs[t].Idle?
    ensures OwedByAll(pcs, n) == 0
  {
    if pcs == [] {
    } else {
      NothingOwed(pcs[..|pcs| - 1], n);
    }
  }

  /** The table's count of `n` is what the client holds plus what is on its way back. */
  ghost predicate BalancedAt(s: State, n: nat) {
    Count(Abs(s), n) == Held(s.log, n) + OwedByAll(s.pcs, n)
  }

  ghost predicate Balanced(s: State) {
    forall n | n != ROOT_ID :: BalancedAt(s, n)
  }

  lemma HeldSnoc(log: seq<Event>, e: Event, n: nat)
    ensures Held(log + [e], n) == Held(log, n) + Worth(e, n)
  {
    assert (log + [e])[..|log|] == log;
  }

  /** How much a label adds to a number's count, for a forget that does not ask for too much. */
  function Delta(l: Label, n: nat): int {
    match l
    case Internal => 0
    case Acquire(m) => if m == n then 1 else 0
    case Release(m, c) => if m == n then 0 - c else 0
  }

  /** The client's log grows by what the step shows it. */
  lemma LogStep(s: State, t: nat, a: Action, n: nat)
    requires t < |s.pcs|
    ensures var s' := Step(s, t, a);
            Held(s'.log, n) == Held(s.log, n)
              + (if LabelOf(s, t, a).Acquire? && LabelOf(s, t, a).inode == n then 1 else 0)
              - (if s.pcs[t].Idle? && a.StartForget? then Asking(a.requests, n) else 0)
  {
    if !s.pcs[t].Idle? && a.Run? {
      hide StepLookup, StepForget, Held;
      if HasHandle(s.pcs[t]) { LookupLog(s, t, a.ok); } else { ForgetLog(s, t); }
      var l, pc := LabelOf(s, t, a), s.pcs[t];
      if l.Acquire? { HeldSnoc(s.log, Granted(pc.id, pc.h, l.inode), n); }
    } else if s.pcs[t].Idle? && a.StartForget? {
      hide Held;
      HeldSnoc(s.log, Asked(a.requests), n);
    }
  }

  /** What a step pays off: the release that it is, or a number that is skipped because it is not in the table. */
  function Settled(s: State, t: nat, a: Action, n: nat): nat
    requires t < |s.pcs|
  {
    var pc, l := s.pcs[t], LabelOf(s, t, a);
    (if l.Release? && l.inode == n then l.count else 0)
    + if a.Run? && pc.Forget? && pc.requests != [] && pc.requests[0].inode == n && n !in s.store.data
      then pc.requests[0].count else 0
  }

  lemma OwedForget(s: State, t: nat, ok: bool, n: nat)
    requires Table(s) && t < |s.pcs| && n != ROOT_ID && !HasHandle(s.pcs[t]) && !s.pcs[t].Idle?
    requires |StepForget(s, t).pcs| == |s.pcs|
    ensures Owed(StepForget(s, t).pcs[t], n) == Owed(s.pcs[t], n) - Settled(s, t, Run(ok), n)
  {
    hide Live, RootLives, Critical, Removed, SaturatingSub;
  }

  lemma OwedLookup(s: State, t: nat, ok: bool, n: nat)
    requires t < |s.pcs| && HasHandle(s.pcs[t]) && |StepLookup(s, t, ok).pcs| == |s.pcs|
    ensures Owed(StepLookup(s, t, ok).pcs[t], n) == 0 == Owed(s.pcs[t], n) == Settled(s, t, Run(ok), n)
  {
    hide GetAlt, AllocateInode;
  }

  /** A thread settles a debt only by the release that its step is, or by skipping a number that is
      not in the table. */
  lemma OwedStep(s: State, t: nat, a: Action, n: nat)
    requires Table(s) && t < |s.pcs| && |Step(s, t, a).pcs| == |s.pcs| && n != ROOT_ID
    ensures var pc, pc' := s.pcs[t], Step(s, t, a).pcs[t];
            Owed(pc', n) == Owed(pc, n)
              + (if pc.Idle? && a.StartForget? then Asking(a.requests, n) else 0) - Settled(s, t, a, n)
    ensures LabelOf(s, t, a).Release? && LabelOf(s, t, a).inode == n ==> LabelOf(s, t, a).count <= Owed(s.pcs[t], n)
  {
    if s.pcs[t].Idle? || !a.Run? {
      hide Table, Settled;
      assert Settled(s, t, a, n) == 0 by { NothingSettled(s, t, a, n); }
    } else if HasHandle(s.pcs[t]) {
      hide Table, StepLookup, StepForget;
      OwedLookup(s, t, a.ok, n);
    } else {
      hide Table, StepLookup, StepForget;
      OwedForget(s, t, a.ok, n);
    }
  }

  lemma NothingSettled(s: State, t: nat, a: Action, n: nat)
    requires t < |s.pcs| && (s.pcs[t].Idle? || !a.Run?)
    ensures Settled(s, t, a, n) == 0
  {
  }

  lemma CountStep(s: State, t: nat, a: Action, n: nat)
    requires Inv(s) && t < |s.pcs| && !AcquiresFull(s, t, a)
    requires LabelOf(s, t, a).Release? && LabelOf(s, t, a).inode == n ==> LabelOf(s, t, a).count <= Count(Abs(s), n)
    ensures Count(Abs(Step(s, t, a)), n) == Count(Abs(s), n) + Delta(LabelOf(s, t, a), n)
  {
    StepRefines(s, t, a);
    hide Step, Inv, LabelOf, Abs, Apply;
    ApplyDelta(Abs(s), LabelOf(s, t, a), n);
  }

  lemma ApplyDelta(m: map<nat, nat>, l: Label, n: nat)
    requires l.Release? && l.inode == n ==> l.count <= Count(m, n)
    ensures Count(Apply(m, l), n) == Count(m, n) + Delta(l, n)
  {
  }

  lemma AbsentIsZero(s: State, n: nat)
    requires n !in s.store.data
    ensures Count(Abs(s), n) == 0
  {
  }

  lemma BalancedStep(s: State, t: nat, a: Action, n: nat)
    requires Inv(s) && t < |s.pcs| && !AcquiresFull(s, t, a) && n != ROOT_ID && BalancedAt(s, n)
    requires Held(s.log, n) >= 0
    ensures BalancedAt(Step(s, t, a), n)
  {
    hide Step, LabelOf, Abs, Held, OwedByAll, Owed, Numbering, Table;
    StepExtends(s, t, a);
    LogStep(s, t, a, n);
    OwedStep(s, t, a, n);
    var s' := Step(s, t, a);
    assert s'.pcs == s.pcs[t := s'.pcs[t]];
    OwedUpdate(s.pcs, t, s'.pcs[t], n);
    CountStep(s, t, a, n);
    if n !in s.store.data { AbsentIsZero(s, n); }
  }

  /** Over any run of an honest client the books balance for every inode but the root. */
  lemma {:induction false} BooksBalance(s: State, schedule: seq<Turn>)
    requires Inv(s) && Supported(s.cfg) && NeverFull(s, schedule) && Balanced(s)
    requires Honest(Exec(s, schedule).log)
    ensures Balanced(Exec(s, schedule))
  {
    hide Step, Inv, BalancedAt;
    if schedule == [] {
    } else {
      var before, turn := schedule[..|schedule| - 1], schedule[|schedule| - 1];
      NeverFullFront(s, schedule, |schedule| - 1);
      EveryStateIsConsistent(s, before);
      var b := Exec(s, before);
      if turn.thread < |b.pcs| {
        StepExtends(b, turn.thread, turn.action);
        HonestPrefix(b.log, Exec(s, schedule).log);
        BooksBalance(s, before);
        forall n | n != ROOT_ID ensures BalancedAt(Exec(s, schedule), n) {
          assert BalancedAt(b, n);
          assert Held(b.log[..|b.log|], n) >= 0 && b.log[..|b.log|] == b.log;
          BalancedStep(b, turn.thread, turn.action, n);
        }
      } else {
        BooksBalance(s, before);
      }
    }
  }

  lemma HonestPrefix(log: seq<Event>, longer: seq<Event>)
    requires log <= longer && Honest(longer)
    ensures Honest(log)
  {
    forall k, n | 0 <= k <= |log| && n != ROOT_ID ensures Held(log[..k], n) >= 0 {
      assert log[..k] == longer[..k];
    }
  }

  /** An inode the client holds a reference to is in the table, with at least that many references; and
      when all threads are idle every count is exactly what the client holds. */
  lemma HeldInodesStay(cfg: Config, threads: nat, root: InodeId, h: Option<FileHandle>, schedule: seq<Turn>, n: nat)
    requires Supported(cfg) && NeverFull(Init(cfg, threads, root, h), schedule) && n != ROOT_ID
    requires Honest(Exec(Init(cfg, threads, root, h), schedule).log)
    ensures var s := Exec(Init(cfg, threads, root, h), schedule);
            && (Held(s.log, n) > 0 ==> n in s.store.data && CountOf(s, s.store.data[n]) >= Held(s.log, n))
            && ((forall t | 0 <= t < |s.pcs| :: s.pcs[t].Idle?) ==>
                  if Held(s.log, n) == 0 then n !in s.store.data
                  else n in s.store.data && CountOf(s, s.store.data[n]) == Held(s.log, n))
  {
    var init := Init(cfg, threads, root, h);
    assert init.cfg == cfg;
    hide Init, Exec, Honest, BalancedAt, Inv;
    InitInv(cfg, threads, root, h);
    InitBalanced(cfg, threads, root, h);
    BooksBalance(init, schedule);
    assert schedule[..|schedule|] == schedule;
    NeverFullFront(init, schedule, |schedule|);
    EveryStateIsConsistent(init, schedule);
    var s := Exec(init, schedule);
    assert BalancedAt(s, n);
    HonestNow(s.log, n);
    BalancedMeans(s, n);
  }

  lemma InitBalanced(cfg: Config, threads: nat, root: InodeId, h: Option<FileHandle>)
    ensures Balanced(Init(cfg, threads, root, h))
  {
    var init := Init(cfg, threads, root, h);
    forall m | m != ROOT_ID ensures BalancedAt(init, m) { NothingOwed(init.pcs, m); }
  }

  lemma HonestNow(log: seq<Event>, n: nat)
    requires Honest(log) && n != ROOT_ID
    ensures Held(log, n) >= 0
  {
    assert Held(log[..|log|], n) >= 0 && log[..|log|] == log;
  }

  lemma BalancedMeans(s: State, n: nat)
    requires Inv(s) && BalancedAt(s, n) && Held(s.log, n) >= 0
    ensures Held(s.log, n) > 0 ==> n in s.store.data && CountOf(s, s.store.data[n]) >= Held(s.log, n)
    ensures (forall t | 0 <= t < |s.pcs| :: s.pcs[t].Idle?) ==>
              if Held(s.log, n) == 0 then n !in s.store.data
              else n in s.store.data && CountOf(s, s.store.data[n]) == Held(s.log, n)
  {
    hide Held, OwedByAll;
    if forall t | 0 <= t < |s.pcs| :: s.pcs[t].Idle? {
      NothingOwed(s.pcs, n);
      if n in s.store.data { IdleMeansReferenced(s, n); }
    }
    hide Inv;
  }

  lemma IdleMeansReferenced(s: State, n: nat)
    requires Inv(s) && (forall t | 0 <= t < |s.pcs| :: s.pcs[t].Idle?) && n in s.store.data
    ensures CountOf(s, s.store.data[n]) > 0
  {
    var d := s.store.data[n];
    assert InStore(s, s.objs[d.cell]);
  }
}
