/** The cache of mount file descriptors behind weak pointers, as a state machine over the atomic steps of
    any number of threads. Dropping the last strong reference may reach the map arbitrarily late. */
module MountFds {
  import opened Common

  type MountId = nat

  datatype PC =
    | Idle
    // MountFds::get
    | Find(id: MountId)
    | Upgrade(id: MountId, fd: nat)
    | Open(id: MountId)
    | AwaitWrite(id: MountId)
    | Check(id: MountId)
    | UpgradeLocked(id: MountId, fd: nat)
    | Create(id: MountId)
    | Got(id: MountId, fd: nat)
    // Drop for MountFd, run by whoever released the last strong reference
    | Dropped(fd: nat)
    | DropLocked(fd: nat)
    | DropRemove(fd: nat)

  /** `mounts[fd]` is the mount id of descriptor object `fd` and `strong[fd]` its number of strong
      references; `weak` is the map of weak pointers. A thread reads the map only while nobody writes it. */
  datatype State = State(
    mounts: seq<MountId>,
    strong: seq<nat>,
    weak: map<MountId, nat>,
    writer: Option<nat>,
    pcs: seq<PC>)

  datatype Action = Get(id: MountId) | Clone(fd: nat) | Release(fd: nat) | Run(ok: bool)

  function Goto(s: State, t: nat, pc: PC): State
    requires t < |s.pcs|
  {
    s.(pcs := s.pcs[t := pc])
  }

  predicate Alive(s: State, fd: nat) {
    fd < |s.strong| && s.strong[fd] > 0
  }

  /** One more strong reference to a live descriptor: what `Arc::clone` and a successful upgrade do. */
  function Take(s: State, fd: nat): State
    requires Alive(s, fd)
  {
    s.(strong := s.strong[fd := s.strong[fd] + 1])
  }

  predicate Reading(pc: PC) {
    pc.Upgrade?
  }

  predicate Writing(pc: PC) {
    pc.Check? || pc.UpgradeLocked? || pc.Create? || pc.DropLocked? || pc.DropRemove?
  }

  predicate Dropping(pc: PC, fd: nat) {
    (pc.Dropped? || pc.DropLocked? || pc.DropRemove?) && pc.fd == fd
  }

  /** The write lock can be taken: nobody writes and nobody reads. */
  predicate WriteFree(s: State) {
    s.writer.None? && forall t | 0 <= t < |s.pcs| :: !Reading(s.pcs[t])
  }

  function Step(s: State, t: nat, a: Action): State
    requires t < |s.pcs|
  {
    match s.pcs[t]
    case Idle => IdleStep(s, t, a)
    case Got(_, _) => if a.Run? then Goto(s, t, Idle) else s
    case _ =>
      if !a.Run? then s
      else if s.pcs[t].Dropped? || s.pcs[t].DropLocked? || s.pcs[t].DropRemove? then DropStep(s, t, s.pcs[t])
      else GetStep(s, t, s.pcs[t], a.ok)
  }

  function IdleStep(s: State, t: nat, a: Action): State
    requires t < |s.pcs|
  {
    match a
    case Get(id) => Goto(s, t, Find(id))
    case Clone(fd) => if Alive(s, fd) then Take(s, fd) else s
    case Release(fd) =>
      if !Alive(s, fd) then s
      else
        var s1 := s.(strong := s.strong[fd := s.strong[fd] - 1]);
        if Alive(s1, fd) then s1 else Goto(s1, t, Dropped(fd))
    case Run(_) => s
  }

  function GetStep(s: State, t: nat, pc: PC, ok: bool): State
    requires t < |s.pcs|
  {
    match pc
    case Find(id) =>
      if s.writer.Some? then s
      else Goto(s, t, if id in s.weak then Upgrade(id, s.weak[id]) else Open(id))
    case Upgrade(id, fd) =>
      if Alive(s, fd) then Goto(Take(s, fd), t, Got(id, fd))
      else Goto(s, t, Open(id))
    case Open(id) => Goto(s, t, if ok then AwaitWrite(id) else Idle)
    case AwaitWrite(id) => if WriteFree(s) then Goto(s, t, Check(id)).(writer := Some(t)) else s
    case Check(id) => Goto(s, t, if id in s.weak then UpgradeLocked(id, s.weak[id]) else Create(id))
    case UpgradeLocked(id, fd) =>
      if Alive(s, fd) then Goto(Take(s, fd), t, Got(id, fd)).(writer := None)
      else Goto(s, t, Create(id))
    case Create(id) =>
      var fd := |s.mounts|;
      Goto(s.(mounts := s.mounts + [id], strong := s.strong + [1], weak := s.weak[id := fd], writer := None),
           t, Got(id, fd))
    case _ => s
  }

  function DropStep(s: State, t: nat, pc: PC): State
    requires t < |s.pcs|
  {
    match pc
    case Dropped(fd) => if WriteFree(s) then Goto(s, t, DropLocked(fd)).(writer := Some(t)) else s
    case DropLocked(fd) =>
      if fd < |s.mounts| && s.mounts[fd] in s.weak && !Alive(s, s.weak[s.mounts[fd]]) then Goto(s, t, DropRemove(fd))
      else Goto(s, t, Idle).(writer := None)
    case DropRemove(fd) =>
      Goto(if fd < |s.mounts| then s.(weak := s.weak - {s.mounts[fd]}) else s, t, Idle).(writer := None)
    case _ => s
  }

  function Init(threads: nat): State {
    State([], [], map[], None, seq(threads, _ => Idle))
  }

  datatype Turn = Turn(thread: nat, action: Action)

  function Exec(s: State, schedule: seq<Turn>): State {
    if schedule == [] then s
    else
      var before, turn := Exec(s, schedule[..|schedule| - 1]), schedule[|schedule| - 1];
      if turn.thread < |before.pcs| then Step(before, turn.thread, turn.action) else before
  }

  // ---------------------------------------------------------------- the invariant

  /** The map points at `fd`. */
  ghost predicate Mapped(s: State, fd: nat) {
    fd < |s.mounts| && s.mounts[fd] in s.weak && s.weak[s.mounts[fd]] == fd
  }

  ghost predicate Shape(s: State) {
    && |s.strong| == |s.mounts|
    && (forall id <- s.weak :: s.weak[id] < |s.mounts| && s.mounts[s.weak[id]] == id)
    && (forall t | 0 <= t < |s.pcs| :: Writing(s.pcs[t]) <==> s.writer == Some(t))
    && (s.writer.Some? ==> s.writer.value < |s.pcs| && forall t | 0 <= t < |s.pcs| :: !Reading(s.pcs[t]))
  }

  /** What a thread relies on at its program point. */
  ghost predicate Relies(s: State, pc: PC) {
    match pc
    case Upgrade(id, fd) => id in s.weak && s.weak[id] == fd
    case UpgradeLocked(id, fd) => id in s.weak && s.weak[id] == fd
    case Create(id) => id in s.weak ==> !Alive(s, s.weak[id])
    case Dropped(fd) => fd < |s.mounts| && !Alive(s, fd)
    case DropLocked(fd) => fd < |s.mounts| && !Alive(s, fd)
    case DropRemove(fd) => fd < |s.mounts| && !Alive(s, fd) && s.mounts[fd] in s.weak && !Alive(s, s.weak[s.mounts[fd]])
    case _ => true
  }

  /** Every live descriptor is the one the map points at; every dead one it points at has its drop coming. */
  ghost predicate Cached(s: State) {
    && (forall fd: nat | Alive(s, fd) :: Mapped(s, fd))
    && (forall id <- s.weak :: !Alive(s, s.weak[id]) ==> DropComes(s, s.weak[id]))
  }

  ghost predicate DropComes(s: State, fd: nat) {
    exists t :: 0 <= t < |s.pcs| && Dropping(s.pcs[t], fd)
  }

  ghost predicate Inv(s: State) {
    Shape(s) && Cached(s) && forall t | 0 <= t < |s.pcs| :: Relies(s, s.pcs[t])
  }

  /** Only thread `t` moves. */
  ghost predicate Moves(s: State, s': State, t: nat) {
    t < |s.pcs| == |s'.pcs| && forall u | 0 <= u < |s.pcs| && u != t :: s'.pcs[u] == s.pcs[u]
  }

  /** Thread `t` keeps, takes or gives back the write lock, in the order the lock allows. */
  ghost predicate LockMoves(s: State, s': State, t: nat)
    requires t < |s.pcs| == |s'.pcs|
  {
    || (s'.writer == s.writer && Writing(s'.pcs[t]) == Writing(s.pcs[t]) && (Reading(s'.pcs[t]) ==> s.writer.None?))
    || (WriteFree(s) && s'.writer == Some(t) && Writing(s'.pcs[t]))
    || (s.writer == Some(t) && s'.writer.None? && !Writing(s'.pcs[t]) && !Reading(s'.pcs[t]))
  }

  lemma ShapeMoves(s: State, s': State, t: nat)
    requires Shape(s) && Moves(s, s', t) && LockMoves(s, s', t)
    requires |s'.strong| == |s'.mounts|
    requires forall id <- s'.weak :: s'.weak[id] < |s'.mounts| && s'.mounts[s'.weak[id]] == id
    ensures Shape(s')
  {
    assert Writing(s'.pcs[t]) ==> !Reading(s'.pcs[t]);
  }

  lemma DropStillComes(s: State, s': State, t: nat, fd: nat)
    requires DropComes(s, fd) && Moves(s, s', t)
    requires Dropping(s.pcs[t], fd) ==> Dropping(s'.pcs[t], fd)
    ensures DropComes(s', fd)
  {
    var u :| 0 <= u < |s.pcs| && Dropping(s.pcs[u], fd);
    assert Dropping(s'.pcs[u], fd);
  }

  /** A step that leaves the map alone and neither revives nor kills a descriptor. */
  lemma InvSameLiving(s: State, s': State, t: nat)
    requires Inv(s) && Moves(s, s', t) && LockMoves(s, s', t)
    requires s'.mounts == s.mounts && s'.weak == s.weak
    requires |s'.strong| == |s.strong| && forall fd: nat :: Alive(s', fd) <==> Alive(s, fd)
    requires Relies(s, s'.pcs[t])
    requires forall fd: nat :: Dropping(s.pcs[t], fd) && Mapped(s, fd) && !Alive(s, fd) ==> Dropping(s'.pcs[t], fd)
    ensures Inv(s')
  {
    ShapeMoves(s, s', t);
    forall id | id in s'.weak && !Alive(s', s'.weak[id]) ensures DropComes(s', s'.weak[id]) {
      assert Mapped(s, s.weak[id]);
      DropStillComes(s, s', t, s'.weak[id]);
    }
    forall u | 0 <= u < |s.pcs| ensures Relies(s', s'.pcs[u]) {
      assert Relies(s, if u == t then s'.pcs[t] else s.pcs[u]);
    }
    forall fd: nat | Alive(s', fd) ensures Mapped(s', fd) { assert Mapped(s, fd); }
  }

  /** The last strong reference goes; the map still points at the dead descriptor until the drop runs. */
  lemma InvLastRelease(s: State, t: nat, fd: nat)
    requires Inv(s) && t < |s.pcs| && s.pcs[t].Idle? && fd < |s.strong| && s.strong[fd] == 1
    ensures Inv(Goto(s.(strong := s.strong[fd := 0]), t, Dropped(fd)))
  {
    var s' := Goto(s.(strong := s.strong[fd := 0]), t, Dropped(fd));
    assert forall f: nat :: Alive(s', f) <==> Alive(s, f) && f != fd;
    ShapeMoves(s, s', t);
    forall id | id in s'.weak && !Alive(s', s'.weak[id]) ensures DropComes(s', s'.weak[id]) {
      if s'.weak[id] == fd { assert Dropping(s'.pcs[t], fd); } else { DropStillComes(s, s', t, s'.weak[id]); }
    }
    forall u | 0 <= u < |s.pcs| ensures Relies(s', s'.pcs[u]) {
      if u != t { assert Relies(s, s.pcs[u]); }
    }
    forall f: nat | Alive(s', f) ensures Mapped(s', f) { assert Mapped(s, f); }
  }

  /** A new descriptor takes the place of a dead one, or of none. */
  lemma InvCreate(s: State, t: nat, id: MountId)
    requires Inv(s) && t < |s.pcs| && s.pcs[t] == Create(id)
    ensures Inv(GetStep(s, t, s.pcs[t], true))
  {
    var s', fd := GetStep(s, t, s.pcs[t], true), |s.mounts|;
    assert forall f: nat :: Alive(s', f) <==> Alive(s, f) || f == fd;
    ShapeMoves(s, s', t);
    forall m | m in s'.weak && !Alive(s', s'.weak[m]) ensures DropComes(s', s'.weak[m]) {
      assert m in s.weak && s'.weak[m] == s.weak[m];
      DropStillComes(s, s', t, s'.weak[m]);
    }
    forall u | 0 <= u < |s.pcs| ensures Relies(s', s'.pcs[u]) {
      if u != t { assert Relies(s, s.pcs[u]); assert !Writing(s.pcs[u]) && !Reading(s.pcs[u]); }
    }
    forall f: nat | Alive(s', f) ensures Mapped(s', f) {
      if f != fd { assert Mapped(s, f); assert s.mounts[f] != id; }
    }
  }

  /** A drop removes an entry only while nobody else writes or reads, and only a dead one. */
  lemma InvDropRemove(s: State, t: nat, fd: nat)
    requires Inv(s) && t < |s.pcs| && s.pcs[t] == DropRemove(fd)
    ensures Inv(DropStep(s, t, s.pcs[t]))
  {
    assert Relies(s, s.pcs[t]);
    var s' := DropStep(s, t, s.pcs[t]);
    ShapeMoves(s, s', t);
    forall m | m in s'.weak && !Alive(s', s'.weak[m]) ensures DropComes(s', s'.weak[m]) {
      assert s'.weak[m] == s.weak[m] && s.mounts[s.weak[m]] == m;
      DropStillComes(s, s', t, s'.weak[m]);
    }
    forall u | 0 <= u < |s.pcs| ensures Relies(s', s'.pcs[u]) {
      if u != t { assert Relies(s, s.pcs[u]); assert !Writing(s.pcs[u]) && !Reading(s.pcs[u]); }
    }
    forall f: nat | Alive(s', f) ensures Mapped(s', f) { assert Mapped(s, f); }
  }

  lemma InvIdle(s: State, t: nat, a: Action)
    requires Inv(s) && t < |s.pcs| && s.pcs[t].Idle?
    ensures Inv(IdleStep(s, t, a))
  {
    if a.Release? && a.fd < |s.strong| && s.strong[a.fd] == 1 {
      InvLastRelease(s, t, a.fd);
    } else {
      var s' := IdleStep(s, t, a);
      assert forall fd: nat :: Alive(s', fd) <==> Alive(s, fd);
      hide Shape, Cached, Mapped;
      InvSameLiving(s, s', t);
    }
  }

  lemma GetLocks(s: State, t: nat, ok: bool)
    requires Shape(s) && t < |s.pcs| && !s.pcs[t].Create?
    ensures |GetStep(s, t, s.pcs[t], ok).pcs| == |s.pcs| && LockMoves(s, GetStep(s, t, s.pcs[t], ok), t)
  {
    hide Alive;
  }

  lemma GetKeepsAlive(s: State, t: nat, ok: bool)
    requires t < |s.pcs| && !s.pcs[t].Create?
    ensures var s' := GetStep(s, t, s.pcs[t], ok);
            |s'.strong| == |s.strong| && forall fd: nat :: Alive(s', fd) <==> Alive(s, fd)
  {
    hide WriteFree;
  }

  lemma GetRelies(s: State, t: nat, ok: bool)
    requires Shape(s) && t < |s.pcs| && !s.pcs[t].Create? && Relies(s, s.pcs[t])
    ensures |GetStep(s, t, s.pcs[t], ok).pcs| == |s.pcs| && Relies(s, GetStep(s, t, s.pcs[t], ok).pcs[t])
  {
    hide WriteFree, Shape;
  }

  lemma InvGet(s: State, t: nat, ok: bool)
    requires Inv(s) && t < |s.pcs| && !s.pcs[t].Create? && (forall fd: nat :: !Dropping(s.pcs[t], fd))
    ensures Inv(GetStep(s, t, s.pcs[t], ok))
  {
    var s' := GetStep(s, t, s.pcs[t], ok);
    assert Relies(s, s.pcs[t]);
    GetLocks(s, t, ok);
    GetKeepsAlive(s, t, ok);
    GetRelies(s, t, ok);
    hide Cached, Mapped, Shape, LockMoves, Alive, Relies;
    InvSameLiving(s, s', t);
  }

  lemma InvDrop(s: State, t: nat)
    requires Inv(s) && t < |s.pcs| && (s.pcs[t].Dropped? || s.pcs[t].DropLocked?)
    ensures Inv(DropStep(s, t, s.pcs[t]))
  {
    var s' := DropStep(s, t, s.pcs[t]);
    assert Relies(s, s.pcs[t]);
    assert LockMoves(s, s', t);
    hide Shape, Cached;
    InvSameLiving(s, s', t);
  }

  lemma InvStep(s: State, t: nat, a: Action)
    requires Inv(s) && t < |s.pcs|
    ensures Inv(Step(s, t, a))
  {
    if s.pcs[t].Idle? {
      hide Inv, IdleStep;
      InvIdle(s, t, a);
    } else if a.Run? {
      hide GetStep, DropStep;
      if s.pcs[t].Create? { InvCreateAnyway(s, t, a.ok); }
      else if s.pcs[t].DropRemove? { InvDropRemove(s, t, s.pcs[t].fd); }
      else if s.pcs[t].Dropped? || s.pcs[t].DropLocked? { InvDrop(s, t); }
      else if !s.pcs[t].Got? { InvGet(s, t, a.ok); }
      else { InvSameLiving(s, Goto(s, t, Idle), t); }
    }
  }

  lemma InvCreateAnyway(s: State, t: nat, ok: bool)
    requires Inv(s) && t < |s.pcs| && s.pcs[t].Create?
    ensures Inv(GetStep(s, t, s.pcs[t], ok))
  {
    assert GetStep(s, t, s.pcs[t], ok) == GetStep(s, t, s.pcs[t], true);
    hide Inv, GetStep;
    InvCreate(s, t, s.pcs[t].id);
  }

  // ---------------------------------------------------------------- what holds over every run

  lemma {:induction false} EveryStateIsConsistent(threads: nat, schedule: seq<Turn>)
    ensures Inv(Exec(Init(threads), schedule))
  {
    hide Step, Inv;
    if schedule != [] {
      var before, turn := schedule[..|schedule| - 1], schedule[|schedule| - 1];
      EveryStateIsConsistent(threads, before);
      var b := Exec(Init(threads), before);
      if turn.thread < |b.pcs| { InvStep(b, turn.thread, turn.action); }
    } else {
      InvInit(threads);
    }
  }

  lemma InvInit(threads: nat)
    ensures Inv(Init(threads))
  {
  }

  /** Under every interleaving of gets, clones, releases and late drops, each mount id has at most one
      live descriptor, and the map points at it. */
  lemma AtMostOneLive(threads: nat, schedule: seq<Turn>)
    ensures var s := Exec(Init(threads), schedule);
            && |s.strong| == |s.mounts|
            && (forall fd: nat | Alive(s, fd) :: s.mounts[fd] in s.weak && s.weak[s.mounts[fd]] == fd)
            && (forall f: nat, g: nat | Alive(s, f) && Alive(s, g) && s.mounts[f] == s.mounts[g] :: f == g)
  {
    EveryStateIsConsistent(threads, schedule);
    var s := Exec(Init(threads), schedule);
    forall f: nat, g: nat | Alive(s, f) && Alive(s, g) && s.mounts[f] == s.mounts[g] ensures f == g {
      assert Mapped(s, f) && Mapped(s, g);
    }
  }

  lemma GotIsMapped(s: State, t: nat, a: Action)
    requires Inv(s) && t < |s.pcs| && |Step(s, t, a).pcs| == |s.pcs| && !s.pcs[t].Got? && Step(s, t, a).pcs[t].Got?
    ensures var s' := Step(s, t, a);
            var fd, id := s'.pcs[t].fd, s'.pcs[t].id;
            && fd < |s'.mounts| && s'.mounts[fd] == id
            && fd < |s'.strong| && s'.strong[fd] == (if fd < |s.strong| then s.strong[fd] else 0) + 1
            && id in s'.weak && s'.weak[id] == fd
            && (id in s.weak && Alive(s, s.weak[id]) ==> s.weak[id] == fd)
  {
    assert Relies(s, s.pcs[t]);
    hide Cached, WriteFree, Mapped;
  }

  /** What a `get` returns is a descriptor of the mount it was asked for, and it is the live one. */
  lemma GetReturnsTheLiveOne(threads: nat, schedule: seq<Turn>, t: nat, a: Action)
    requires var s := Exec(Init(threads), schedule);
             t < |s.pcs| && |Step(s, t, a).pcs| == |s.pcs| && !s.pcs[t].Got? && Step(s, t, a).pcs[t].Got?
    ensures var s, s' := Exec(Init(threads), schedule), Step(Exec(Init(threads), schedule), t, a);
            var fd := s'.pcs[t].fd;
            && fd < |s'.mounts| && s'.mounts[fd] == s'.pcs[t].id
            && fd < |s'.strong| && s'.strong[fd] == (if fd < |s.strong| then s.strong[fd] else 0) + 1
            && s'.pcs[t].id in s'.weak && s'.weak[s'.pcs[t].id] == fd
            && (forall other: nat | Alive(s, other) && other < |s.mounts| && s.mounts[other] == s'.pcs[t].id ::
                  other == fd)
  {
    EveryStateIsConsistent(threads, schedule);
    var s := Exec(Init(threads), schedule);
    hide Exec, Init;
    InvStep(s, t, a);
    GotIsMapped(s, t, a);
    hide Step;
    var fd, id := Step(s, t, a).pcs[t].fd, Step(s, t, a).pcs[t].id;
    forall other: nat | Alive(s, other) && other < |s.mounts| && s.mounts[other] == id ensures other == fd {
      assert Mapped(s, other);
    }
  }

  /** No step takes a live descriptor out of the map, and a dead descriptor never comes back. */
  lemma DropsSpareTheLiving(threads: nat, schedule: seq<Turn>, t: nat, a: Action)
    requires t < |Exec(Init(threads), schedule).pcs|
    ensures var s, s' := Exec(Init(threads), schedule), Step(Exec(Init(threads), schedule), t, a);
            && (forall id <- s.weak :: Alive(s', s.weak[id]) ==> id in s'.weak && s'.weak[id] == s.weak[id])
            && (forall fd: nat | fd < |s.mounts| && !Alive(s, fd) :: !Alive(s', fd))
  {
    EveryStateIsConsistent(threads, schedule);
    var s := Exec(Init(threads), schedule);
    hide Exec, Init;
    MapSpares(s, t, a);
    DeadStaysDead(s, t, a);
    hide Step, Inv;
  }

  lemma MapSpares(s: State, t: nat, a: Action)
    requires Inv(s) && t < |s.pcs|
    ensures forall id <- s.weak :: Alive(Step(s, t, a), s.weak[id]) ==>
              id in Step(s, t, a).weak && Step(s, t, a).weak[id] == s.weak[id]
  {
    assert Relies(s, s.pcs[t]);
    hide Cached, Mapped, WriteFree;
  }

  lemma DeadStaysDead(s: State, t: nat, a: Action)
    requires Shape(s) && t < |s.pcs|
    ensures forall fd: nat | fd < |s.mounts| && !Alive(s, fd) :: !Alive(Step(s, t, a), fd)
  {
    hide WriteFree;
  }

  /** Once no drop is pending, the map holds exactly the live descriptors. */
  lemma MapHoldsExactlyTheLive(threads: nat, schedule: seq<Turn>)
    requires var s := Exec(Init(threads), schedule);
             forall t, fd: nat | 0 <= t < |s.pcs| :: !Dropping(s.pcs[t], fd)
    ensures var s := Exec(Init(threads), schedule);
            && (forall fd: nat :: fd in s.weak.Values <==> Alive(s, fd))
            && (forall id <- s.weak :: s.weak[id] < |s.mounts| && s.mounts[s.weak[id]] == id)
  {
    EveryStateIsConsistent(threads, schedule);
    var s := Exec(Init(threads), schedule);
    forall fd: nat ensures fd in s.weak.Values <==> Alive(s, fd) {
      if Alive(s, fd) { assert Mapped(s, fd); }
    }
  }
}
