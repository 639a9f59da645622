/** Retries of `do_lookup` and `forget_one`: each is paid for by another thread's change of a count. */
module InodeRetries {
  import opened Common
  import opened InodeStore
  import opened InodeLifetime
  import opened InodeRuns

  /** A run with its bookkeeping: how often each thread changed a count, how often each went round its
      loop again, and what the other threads had changed when it last fetched an entry or read a count. */
  datatype Tally = Tally(s: State, changes: seq<nat>, retries: seq<nat>, mark: seq<nat>)

  /** Changes made by all threads but `t`. */
  function Others(changes: seq<nat>, t: nat): nat {
    if changes == [] then 0
    else
      var last := |changes| - 1;
      Others(changes[..last], t) + if last == t then 0 else changes[last]
  }

  lemma {:induction false} OthersUpdate(changes: seq<nat>, u: nat, t: nat)
    requires u < |changes|
    ensures Others(changes[u := changes[u] + 1], t) == Others(changes, t) + if u == t then 0 else 1
  {
    var last := |changes| - 1;
    var updated := changes[u := changes[u] + 1];
    if u < last {
      assert updated[..last] == changes[..last][u := changes[..last][u] + 1];
      OthersUpdate(changes[..last], u, t);
    } else {
      assert updated[..last] == changes[..last];
    }
  }

  /** The step stored a different value in a count that existed before it. */
  predicate Changed(s: State, s': State) {
    exists i | 0 <= i < |s.counts| :: !(i < |s'.counts| && s'.counts[i] == s.counts[i])
  }

  /** The step sends the thread back to the top of its loop. */
  predicate Retried(pc: PC, pc': PC) {
    ((pc.Load? || pc.Swap?) && pc'.Search?) || (pc.ForgetSwap? && pc'.ForgetLoad?)
  }

  /** The step fetched an entry from the table or read a count, for the next compare-and-swap. */
  predicate Fetched(pc: PC, pc': PC) {
    pc != pc' && (pc'.Load? || pc'.Swap? || pc'.ForgetSwap?)
  }

  /** The books after thread `t` has moved the state to `s'`. */
  function TallyWith(r: Tally, t: nat, s': State): Tally
    requires TallyShape(r) && t < |r.s.pcs| == |s'.pcs|
  {
    var changes := if Changed(r.s, s') then r.changes[t := r.changes[t] + 1] else r.changes;
    var retried := Retried(r.s.pcs[t], s'.pcs[t]);
    Tally(s', changes,
          if retried then r.retries[t := r.retries[t] + 1] else r.retries,
          if retried || Fetched(r.s.pcs[t], s'.pcs[t]) then r.mark[t := Others(changes, t)] else r.mark)
  }

  function TallyStep(r: Tally, t: nat, a: Action): (r': Tally)
    requires TallyShape(r) && t < |r.s.pcs|
    ensures TallyShape(r') && r'.s == Step(r.s, t, a)
  {
    StepExtends(r.s, t, a);
    TallyWith(r, t, Step(r.s, t, a))
  }

  ghost predicate TallyShape(r: Tally) {
    |r.changes| == |r.retries| == |r.mark| == |r.s.pcs|
  }

  /** The thread's next read or compare-and-swap will send it round again. */
  ghost predicate Stale(s: State, pc: PC) {
    || (pc.Load? && CountOf(s, pc.d) == 0)
    || ((pc.Swap? || pc.ForgetSwap?) && CountOf(s, pc.d) != pc.curr)
  }

  ghost predicate Paid(r: Tally) {
    && TallyShape(r)
    && (forall t | 0 <= t < |r.s.pcs| :: PaidBy(r, t))
  }

  /** A thread that goes round again found the count it had read changed. */
  lemma RetryMeansStale(s: State, t: nat, a: Action)
    requires t < |s.pcs| && |Step(s, t, a).pcs| == |s.pcs|
    requires Retried(s.pcs[t], Step(s, t, a).pcs[t])
    ensures Stale(s, s.pcs[t])
  {
    hide GetAlt, AllocateInode;
  }

  lemma FoundIsNotStale(s: State, t: nat)
    requires Table(s) && t < |s.pcs| && s.pcs[t].Search? && s.lock.None?
    ensures var found := GetAlt(s.store, s.pcs[t].id, s.pcs[t].h); found.Some? ==> CountOf(s, found.value) > 0
  {
    hide RootLives, Critical;
    var found := GetAlt(s.store, s.pcs[t].id, s.pcs[t].h);
    if found.Some? {
      assert InStore(s, found.value) && Known(s, found.value);
      assert InStore(s, s.objs[found.value.cell]);
    }
  }

  lemma LookupNotStale(s: State, t: nat, ok: bool)
    requires t < |s.pcs| && HasHandle(s.pcs[t]) && !s.pcs[t].Search? && |StepLookup(s, t, ok).pcs| == |s.pcs|
    ensures Stale(StepLookup(s, t, ok), StepLookup(s, t, ok).pcs[t]) ==> StepLookup(s, t, ok) == s
  {
    hide GetAlt, AllocateInode, Inserted, WrappingAdd, SaturatingAdd;
  }

  lemma ForgetNotStale(s: State, t: nat)
    requires t < |s.pcs| && !HasHandle(s.pcs[t]) && |StepForget(s, t).pcs| == |s.pcs|
    ensures Stale(StepForget(s, t), StepForget(s, t).pcs[t]) ==> StepForget(s, t) == s
  {
    hide Removed, SaturatingSub;
  }

  /** An entry just found in the table, and a count just read, are not stale. */
  lemma FetchedIsNotStale(s: State, t: nat, a: Action)
    requires Table(s) && t < |s.pcs| && |Step(s, t, a).pcs| == |s.pcs|
    ensures Stale(Step(s, t, a), Step(s, t, a).pcs[t]) ==>
              Step(s, t, a).pcs[t] == s.pcs[t] && Step(s, t, a).counts == s.counts
  {
    if s.pcs[t].Search? {
      if a.Run? && s.lock.None? { FoundIsNotStale(s, t); }
      hide GetAlt, Table, StepForget;
    } else if a.Run? && !s.pcs[t].Idle? {
      hide StepLookup, StepForget, Table, Stale;
      if HasHandle(s.pcs[t]) { LookupNotStale(s, t, a.ok); } else { ForgetNotStale(s, t); }
    }
  }

  /** A step of another thread that changes no count leaves what this thread read as it was. */
  lemma StaleKept(s: State, s': State, pc: PC)
    requires Shape(s) && (HasData(pc) ==> Known(s, pc.d))
    requires !Changed(s, s') && |s.counts| <= |s'.counts|
    ensures Stale(s', pc) <==> Stale(s, pc)
  {
    if HasData(pc) && pc.d.cell < |s.counts| {
      var i := pc.d.cell;
      assert i < |s'.counts| && s'.counts[i] == s.counts[i];
    }
  }

  ghost predicate PaidBy(r: Tally, t: nat)
    requires TallyShape(r) && t < |r.s.pcs|
  {
    && r.retries[t] <= r.mark[t] <= Others(r.changes, t)
    && (Stale(r.s, r.s.pcs[t]) ==> r.mark[t] < Others(r.changes, t))
  }

  lemma PaidSelf(r: Tally, t: nat, s': State)
    requires TallyShape(r) && t < |r.s.pcs| == |s'.pcs| && PaidBy(r, t)
    requires Retried(r.s.pcs[t], s'.pcs[t]) ==> Stale(r.s, r.s.pcs[t])
    requires Stale(s', s'.pcs[t]) ==> s'.pcs[t] == r.s.pcs[t] && s'.counts == r.s.counts
    ensures PaidBy(TallyWith(r, t, s'), t)
  {
    if Changed(r.s, s') { OthersUpdate(r.changes, t, t); }
  }

  lemma PaidOther(r: Tally, t: nat, s': State, u: nat)
    requires Shape(r.s) && TallyShape(r) && t < |r.s.pcs| && u < |r.s.pcs| && u != t && PaidBy(r, u)
    requires Extends(r.s, s', t)
    ensures PaidBy(TallyWith(r, t, s'), u)
  {
    if Changed(r.s, s') { OthersUpdate(r.changes, t, u); } else { StaleKept(r.s, s', r.s.pcs[u]); }
  }

  lemma PaidStep(r: Tally, t: nat, a: Action)
    requires Inv(r.s) && Paid(r) && t < |r.s.pcs|
    ensures Paid(TallyStep(r, t, a))
  {
    var s, s' := r.s, Step(r.s, t, a);
    StepExtends(s, t, a);
    FetchedIsNotStale(s, t, a);
    if Retried(s.pcs[t], s'.pcs[t]) { RetryMeansStale(s, t, a); }
    hide Step, Others, Stale, Shape, PaidBy, TallyWith, Numbering, Live, RootLives, Critical;
    forall u | 0 <= u < |s.pcs| ensures PaidBy(TallyWith(r, t, s'), u) {
      if u == t { PaidSelf(r, t, s'); } else { PaidOther(r, t, s', u); }
    }
  }

  function TallyOf(s: State, schedule: seq<Turn>): (r: Tally)
    ensures TallyShape(r) && r.s == Exec(s, schedule)
  {
    if schedule == [] then
      Tally(s, seq(|s.pcs|, _ => 0), seq(|s.pcs|, _ => 0), seq(|s.pcs|, _ => 0))
    else
      var before, turn := TallyOf(s, schedule[..|schedule| - 1]), schedule[|schedule| - 1];
      if turn.thread < |before.s.pcs|
      then TallyStep(before, turn.thread, turn.action)
      else before
  }

  /** Over any run, a thread's retries are at most the count changes made by the other threads. */
  lemma {:induction false} RetriesArePaidFor(s: State, schedule: seq<Turn>)
    requires Inv(s) && Supported(s.cfg) && NeverWraps(s, schedule)
    requires forall t | 0 <= t < |s.pcs| :: s.pcs[t].Idle?
    ensures Paid(TallyOf(s, schedule))
    ensures var r := TallyOf(s, schedule);
            forall t | 0 <= t < |r.s.pcs| :: r.retries[t] <= Others(r.changes, t)
  {
    hide Step, Inv, NeverWraps;
    assert forall r: Tally, t: nat | TallyShape(r) && t < |r.s.pcs| && PaidBy(r, t) ::
             r.retries[t] <= Others(r.changes, t);
    if schedule == [] {
    } else {
      var before, turn := schedule[..|schedule| - 1], schedule[|schedule| - 1];
      NeverWrapsFront(s, schedule, |schedule| - 1);
      RetriesArePaidFor(s, before);
      EveryStateIsConsistent(s, before);
      if turn.thread < |Exec(s, before).pcs| { PaidStep(TallyOf(s, before), turn.thread, turn.action); }
    }
  }
}
