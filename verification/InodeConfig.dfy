/** The table is consistent over all runs exactly when host numbers and file handles are not both on. */
module InodeConfig {
  import opened Common
  import opened UniqueInode
  import opened InodeStore
  import opened InodeLifetime
  import opened InodeRuns

  function Next(a: Action): seq<Turn> {
    [Turn(0, a)]
  }

  lemma ExecNext(s: State, done: seq<Turn>, a: Action)
    requires |Exec(s, done).pcs| > 0
    ensures Exec(s, done + Next(a)) == Step(Exec(s, done), 0, a)
  {
    assert (done + Next(a))[..|done|] == done;
  }

  /** A lookup that runs alone, up to the step that takes a number. */
  function ToAllocate(id: InodeId, h: Option<FileHandle>): seq<Turn> {
    Next(StartLookup(id, h)) + Next(Run(true)) + Next(Run(true)) + Next(Run(true)) + Next(Run(true))
  }

  /** And to its end. */
  function Alone(id: InodeId, h: Option<FileHandle>): seq<Turn> {
    ToAllocate(id, h) + Next(Run(true)) + Next(Run(true))
  }

  lemma SoloSteps(s: State, id: InodeId, h: Option<FileHandle>)
    requires s.pcs == [Idle] && s.lock.None? && s.cfg.fileHandles && GetAlt(s.store, id, h).None?
    ensures Step(s, 0, StartLookup(id, h)) == s.(pcs := [Search(id, h)])
    ensures Step(s.(pcs := [Search(id, h)]), 0, Run(true)) == s.(pcs := [OpenHandle(id, h)])
    ensures Step(s.(pcs := [OpenHandle(id, h)]), 0, Run(true)) == s.(pcs := [AwaitInsert(id, h)])
    ensures Step(s.(pcs := [AwaitInsert(id, h)]), 0, Run(true)) == s.(lock := Some(0), pcs := [Recheck(id, h)])
    ensures Step(s.(lock := Some(0), pcs := [Recheck(id, h)]), 0, Run(true)) ==
            s.(lock := Some(0), pcs := [Allocate(id, h)])
  {
    hide GetAlt;
  }

  lemma LookupToInsert(s: State, id: InodeId, h: Option<FileHandle>)
    requires s.pcs == [Idle] && s.lock.None? && s.cfg.fileHandles && GetAlt(s.store, id, h).None?
    ensures Exec(s, ToAllocate(id, h)) == s.(lock := Some(0), pcs := [Allocate(id, h)])
  {
    var go, t1 := Next(Run(true)), Next(StartLookup(id, h));
    assert [] + t1 == t1;
    hide Step, Next, GetAlt, Exec;
    SoloSteps(s, id, h);
    ExecNone(s);
    ExecNext(s, [], StartLookup(id, h));
    ExecNext(s, t1, Run(true));
    ExecNext(s, t1 + go, Run(true));
    ExecNext(s, t1 + go + go, Run(true));
    ExecNext(s, t1 + go + go + go, Run(true));
  }

  lemma AllocateAlone(s: State, id: InodeId, h: Option<FileHandle>)
    requires s.pcs == [Allocate(id, h)]
    requires AllocateInode(s, id, h).2.Ok? && AllocateInode(s, id, h).2.value <= VFS_MAX_INO
    ensures var (next, g, r) := AllocateInode(s, id, h);
            Step(s, 0, Run(true)) == s.(nextInode := next, gen := g, pcs := [Insert(id, h, r.value)])
  {
    hide AllocateInode, GetAlt;
  }

  lemma InsertAlone(s: State, id: InodeId, h: Option<FileHandle>, n: nat)
    requires s.pcs == [Insert(id, h, n)]
    ensures var d := InodeData(n, id, h, |s.objs|);
            Step(s, 0, Run(true)) ==
              s.(objs := s.objs + [d], counts := s.counts + [1], store := Inserted(s.store, d), lock := None,
                 pcs := [Idle], log := s.log + [Granted(id, h, n)])
  {
    hide AllocateInode, GetAlt;
  }

  /** The state after a lookup that ran alone and inserted its file. */
  function AfterInsert(s: State, id: InodeId, h: Option<FileHandle>): State {
    var (next, g, r) := AllocateInode(s, id, h);
    if r.Err? then s
    else
      var d := InodeData(r.value, id, h, |s.objs|);
      s.(nextInode := next, gen := g, objs := s.objs + [d], counts := s.counts + [1], store := Inserted(s.store, d),
         log := s.log + [Granted(id, h, r.value)])
  }

  lemma SoloInsert(s: State, id: InodeId, h: Option<FileHandle>)
    requires s.pcs == [Idle] && s.lock.None? && s.cfg.fileHandles && GetAlt(s.store, id, h).None?
    requires AllocateInode(s, id, h).2.Ok? && AllocateInode(s, id, h).2.value <= VFS_MAX_INO
    ensures Exec(s, Alone(id, h)) == AfterInsert(s, id, h)
  {
    var b := s.(lock := Some(0), pcs := [Allocate(id, h)]);
    assert AllocateInode(b, id, h) == AllocateInode(s, id, h);
    var (next, g, r) := AllocateInode(s, id, h);
    hide Step, Exec, AllocateInode, GetAlt, ToAllocate, Next, Inserted;
    LookupToInsert(s, id, h);
    ExecNext(s, ToAllocate(id, h), Run(true));
    AllocateAlone(b, id, h);
    ExecNext(s, ToAllocate(id, h) + Next(Run(true)), Run(true));
    InsertAlone(b.(nextInode := next, gen := g, pcs := [Insert(id, h, r.value)]), id, h, r.value);
  }

  const FIRST_FILE := InodeId(5, 0, 0)
  const ROOT_FILE := InodeId(2, 0, 0)

  /** Two files of one host inode number: the second is told apart by its handle, and gets the same number. */
  lemma ClashStates(cfg: Config)
    requires !Supported(cfg)
    ensures var init := Init(cfg, 1, ROOT_FILE, None);
            && init.pcs == [Idle] && init.lock.None? && GetAlt(init.store, FIRST_FILE, Some(10)).None?
            && AllocateInode(init, FIRST_FILE, Some(10)).2.Ok?
            && AllocateInode(init, FIRST_FILE, Some(10)).2.value <= VFS_MAX_INO
            && var s := AfterInsert(init, FIRST_FILE, Some(10));
            && s.pcs == [Idle] && s.lock.None? && s.cfg == cfg && GetAlt(s.store, FIRST_FILE, Some(11)).None?
            && AllocateInode(s, FIRST_FILE, Some(11)).2 == AllocateInode(init, FIRST_FILE, Some(10)).2
  {
  }

  lemma ClashIsNotLive(s: State, id: InodeId, h: FileHandle, h': FileHandle)
    requires AllocateInode(s, id, Some(h)).2.Ok? && |s.counts| == |s.objs|
    requires var s1 := AfterInsert(s, id, Some(h)); AllocateInode(s1, id, Some(h')).2 == AllocateInode(s, id, Some(h)).2
    requires s.lock.None?
    ensures !Live(AfterInsert(AfterInsert(s, id, Some(h)), id, Some(h')))
  {
    hide AllocateInode;
    var s1 := AfterInsert(s, id, Some(h));
    var s2 := AfterInsert(s1, id, Some(h'));
    var i := |s.objs|;
    assert s2.counts[i] == 1 && s2.objs[i].cell == i && !InStore(s2, s2.objs[i]);
  }

  /** With both on, two files that reuse one host inode number get one number, and the second insert
      replaces a live entry. */
  lemma NumbersClashOtherwise(cfg: Config) returns (schedule: seq<Turn>)
    requires !Supported(cfg)
    ensures Countable(schedule)
    ensures !Live(Exec(Init(cfg, 1, ROOT_FILE, None), schedule))
  {
    var init := Init(cfg, 1, ROOT_FILE, None);
    ClashStates(cfg);
    ClashIsNotLive(init, FIRST_FILE, 10, 11);
    var first, second := Alone(FIRST_FILE, Some(10)), Alone(FIRST_FILE, Some(11));
    assert |first + second| == 14;
    hide Init, AfterInsert, AllocateInode, GetAlt, Alone, Exec;
    SoloInsert(init, FIRST_FILE, Some(10));
    SoloInsert(AfterInsert(init, FIRST_FILE, Some(10)), FIRST_FILE, Some(11));
    ExecAppend(init, first, second);
    schedule := first + second;
  }

  /** Entries and references are together after every run that wraps no counter, and after every short one,
      if and only if the configuration does not have both on. */
  lemma ConsistentExactlyWhenSupported(cfg: Config)
    ensures Supported(cfg) <==>
            forall threads, root, h, schedule
              | Countable(schedule) || NeverWraps(Init(cfg, threads, root, h), schedule) ::
              Live(Exec(Init(cfg, threads, root, h), schedule))
  {
    if Supported(cfg) {
      forall threads, root, h, schedule | Countable(schedule) || NeverWraps(Init(cfg, threads, root, h), schedule)
        ensures Live(Exec(Init(cfg, threads, root, h), schedule))
      {
        var init := Init(cfg, threads, root, h);
        InitInv(cfg, threads, root, h);
        assert init.cfg == cfg;
        hide Init, Inv, NeverWraps, Live;
        if Countable(schedule) { ShortRunsAreBounded(init, schedule); }
        EveryStateIsConsistent(init, schedule);
        InvIsLive(Exec(init, schedule));
      }
    } else {
      var schedule := NumbersClashOtherwise(cfg);
    }
  }
}
