/** A run that breaks the table: a reference count is raised to its last value and then incremented under the
    lock. */
module InodeWrap {
  import opened Common
  import opened UniqueInode
  import opened InodeStore
  import opened InodeLifetime
  import opened InodeRuns

  const CFG := Config(false, false)
  const ROOT_FILE := InodeId(2, 0, 0)
  const FILE := InodeId(5, 0, 0)
  const ROOT_DATA := InodeData(ROOT_ID, ROOT_FILE, None, 0)
  const FILE_DATA := InodeData(2, FILE, None, 1)

  /** Two threads, and the file not in the table yet. */
  function Before(pc0: PC, pc1: PC, lock: Option<nat>, next: nat): State {
    State(CFG, [ROOT_DATA], [2], Inserted(EMPTY_STORE, ROOT_DATA), next, INIT_GENERATOR, lock, [pc0, pc1], [])
  }

  /** The file is in the table with `c` references. */
  function With(c: nat, pc0: PC, pc1: PC, lock: Option<nat>, log: seq<Event>): State {
    State(CFG, [ROOT_DATA, FILE_DATA], [2, c], Inserted(Inserted(EMPTY_STORE, ROOT_DATA), FILE_DATA), 3, INIT_GENERATOR,
          lock, [pc0, pc1], log)
  }

  lemma StartIsBefore()
    ensures Init(CFG, 2, ROOT_FILE, None) == Before(Idle, Idle, None, 2)
  {
  }

  lemma FileIsNotThere()
    ensures var store := Inserted(EMPTY_STORE, ROOT_DATA);
            GetAlt(store, FILE, None).None? && GetInode(store, FILE, None).None?
  {
  }

  lemma FileIsThere()
    ensures GetAlt(Inserted(Inserted(EMPTY_STORE, ROOT_DATA), FILE_DATA), FILE, None) == Some(FILE_DATA)
  {
  }

  lemma Two<T>(a: T, b: T, x: T)
    ensures [a, b][0 := x] == [x, b] && [a, b][1 := x] == [a, x]
  {
  }

  /** A step of a thread that does not hold the lock, before the file is in the table. */
  lemma BeforeMoves(pc0: PC, pc1: PC, t: nat, a: Action, pc: PC)
    requires t < 2
    requires var from := if t == 0 then pc0 else pc1;
             || (from == Idle && a == StartLookup(FILE, None) && pc == Search(FILE, None))
             || (from == Search(FILE, None) && a == Run(true) && pc == OpenHandle(FILE, None))
             || (from == OpenHandle(FILE, None) && a == Run(true) && pc == AwaitInsert(FILE, None))
    ensures var s := Before(pc0, pc1, None, 2);
            !Wraps(s, t, a) && Step(s, t, a) == Before(if t == 0 then pc else pc0, if t == 0 then pc1 else pc, None, 2)
  {
    FileIsNotThere();
    Two(pc0, pc1, pc);
    hide GetAlt, Inserted;
  }

  /** Thread 0 finds nothing, and stops before the lock. */
  lemma ZeroWaits()
    ensures Leads(Before(Idle, Idle, None, 2), Before(AwaitInsert(FILE, None), Idle, None, 2))
  {
    hide Leads, Step, Wraps;
    var s := Before(Idle, Idle, None, 2);
    LeadsNowhere(s);
    BeforeMoves(Idle, Idle, 0, StartLookup(FILE, None), Search(FILE, None));
    LeadsTo(s, s, 0, StartLookup(FILE, None), Before(Search(FILE, None), Idle, None, 2));
    BeforeMoves(Search(FILE, None), Idle, 0, Run(true), OpenHandle(FILE, None));
    LeadsTo(s, Before(Search(FILE, None), Idle, None, 2), 0, Run(true), Before(OpenHandle(FILE, None), Idle, None, 2));
    BeforeMoves(OpenHandle(FILE, None), Idle, 0, Run(true), AwaitInsert(FILE, None));
    LeadsTo(s, Before(OpenHandle(FILE, None), Idle, None, 2), 0, Run(true),
            Before(AwaitInsert(FILE, None), Idle, None, 2));
  }

  lemma OneWaits()
    ensures Leads(Before(Idle, Idle, None, 2), Before(AwaitInsert(FILE, None), AwaitInsert(FILE, None), None, 2))
  {
    hide Leads, Step, Wraps;
    ZeroWaits();
    var s, pc := Before(Idle, Idle, None, 2), AwaitInsert(FILE, None);
    BeforeMoves(pc, Idle, 1, StartLookup(FILE, None), Search(FILE, None));
    LeadsTo(s, Before(pc, Idle, None, 2), 1, StartLookup(FILE, None), Before(pc, Search(FILE, None), None, 2));
    BeforeMoves(pc, Search(FILE, None), 1, Run(true), OpenHandle(FILE, None));
    LeadsTo(s, Before(pc, Search(FILE, None), None, 2), 1, Run(true), Before(pc, OpenHandle(FILE, None), None, 2));
    BeforeMoves(pc, OpenHandle(FILE, None), 1, Run(true), pc);
    LeadsTo(s, Before(pc, OpenHandle(FILE, None), None, 2), 1, Run(true), Before(pc, pc, None, 2));
  }

  /** The steps of thread 1 under the lock. */
  lemma OneLocks(pc: PC)
    ensures var s := Before(pc, AwaitInsert(FILE, None), None, 2);
            !Wraps(s, 1, Run(true)) && Step(s, 1, Run(true)) == Before(pc, Recheck(FILE, None), Some(1), 2)
    ensures var s := Before(pc, Recheck(FILE, None), Some(1), 2);
            !Wraps(s, 1, Run(true)) && Step(s, 1, Run(true)) == Before(pc, Allocate(FILE, None), Some(1), 2)
    ensures var s := Before(pc, Allocate(FILE, None), Some(1), 2);
            !Wraps(s, 1, Run(true)) && Step(s, 1, Run(true)) == Before(pc, Insert(FILE, None, 2), Some(1), 3)
  {
    FileIsNotThere();
    Two(pc, AwaitInsert(FILE, None), Recheck(FILE, None));
    Two(pc, Recheck(FILE, None), Allocate(FILE, None));
    Two(pc, Allocate(FILE, None), Insert(FILE, None, 2));
    hide GetAlt, Inserted;
  }

  lemma OneInsertsNow(pc: PC)
    ensures var s := Before(pc, Insert(FILE, None, 2), Some(1), 3);
            !Wraps(s, 1, Run(true)) && Step(s, 1, Run(true)) == With(1, pc, Idle, None, [Granted(FILE, None, 2)])
  {
    Two(pc, Insert(FILE, None, 2), Idle);
    assert [ROOT_DATA] + [FILE_DATA] == [ROOT_DATA, FILE_DATA] && [2] + [1] == [2, 1];
    assert [] + [Granted(FILE, None, 2)] == [Granted(FILE, None, 2)];
    hide GetAlt, Inserted;
  }

  /** Thread 1 inserts the file. */
  lemma OneInserts()
    ensures Leads(Before(Idle, Idle, None, 2), With(1, AwaitInsert(FILE, None), Idle, None, [Granted(FILE, None, 2)]))
  {
    hide Leads, Step, Wraps;
    OneWaits();
    var s, pc := Before(Idle, Idle, None, 2), AwaitInsert(FILE, None);
    OneLocks(pc);
    OneInsertsNow(pc);
    LeadsTo(s, Before(pc, pc, None, 2), 1, Run(true), Before(pc, Recheck(FILE, None), Some(1), 2));
    LeadsTo(s, Before(pc, Recheck(FILE, None), Some(1), 2), 1, Run(true), Before(pc, Allocate(FILE, None), Some(1), 2));
    LeadsTo(s, Before(pc, Allocate(FILE, None), Some(1), 2), 1, Run(true),
            Before(pc, Insert(FILE, None, 2), Some(1), 3));
    LeadsTo(s, Before(pc, Insert(FILE, None, 2), Some(1), 3), 1, Run(true),
            With(1, pc, Idle, None, [Granted(FILE, None, 2)]));
  }

  /** The steps of a lookup that finds the file. */
  lemma OneFinds(pc: PC, c: nat, log: seq<Event>)
    requires 0 < c < U64_MAX
    ensures var s := With(c, pc, Idle, None, log); var a := StartLookup(FILE, None);
            !Wraps(s, 1, a) && Step(s, 1, a) == With(c, pc, Search(FILE, None), None, log)
    ensures var s := With(c, pc, Search(FILE, None), None, log);
            !Wraps(s, 1, Run(true)) && Step(s, 1, Run(true)) == With(c, pc, Load(FILE, None, FILE_DATA), None, log)
    ensures var s := With(c, pc, Load(FILE, None, FILE_DATA), None, log);
            !Wraps(s, 1, Run(true)) && Step(s, 1, Run(true)) == With(c, pc, Swap(FILE, None, FILE_DATA, c), None, log)
  {
    FileIsThere();
    Two(pc, Idle, Search(FILE, None));
    Two(pc, Search(FILE, None), Load(FILE, None, FILE_DATA));
    Two(pc, Load(FILE, None, FILE_DATA), Swap(FILE, None, FILE_DATA, c));
    hide GetAlt, Inserted;
  }

  lemma OneSwaps(pc: PC, c: nat, log: seq<Event>)
    requires 0 < c < U64_MAX
    ensures var s := With(c, pc, Swap(FILE, None, FILE_DATA, c), None, log);
            && !Wraps(s, 1, Run(true))
            && Step(s, 1, Run(true)) == With(c + 1, pc, Idle, None, log + [Granted(FILE, None, 2)])
  {
    Two(pc, Swap(FILE, None, FILE_DATA, c), Idle);
    Two(2, c, c + 1);
    hide GetAlt, Inserted;
  }

  /** Thread 1 looks the file up once more. */
  lemma OneLooksUp(s: State, c: nat, log: seq<Event>)
    requires 0 < c < U64_MAX && Leads(s, With(c, AwaitInsert(FILE, None), Idle, None, log))
    ensures Leads(s, With(c + 1, AwaitInsert(FILE, None), Idle, None, log + [Granted(FILE, None, 2)]))
  {
    hide Leads, Step, Wraps;
    var pc := AwaitInsert(FILE, None);
    OneFinds(pc, c, log);
    OneSwaps(pc, c, log);
    LeadsTo(s, With(c, pc, Idle, None, log), 1, StartLookup(FILE, None), With(c, pc, Search(FILE, None), None, log));
    LeadsTo(s, With(c, pc, Search(FILE, None), None, log), 1, Run(true),
            With(c, pc, Load(FILE, None, FILE_DATA), None, log));
    LeadsTo(s, With(c, pc, Load(FILE, None, FILE_DATA), None, log), 1, Run(true),
            With(c, pc, Swap(FILE, None, FILE_DATA, c), None, log));
    LeadsTo(s, With(c, pc, Swap(FILE, None, FILE_DATA, c), None, log), 1, Run(true),
            With(c + 1, pc, Idle, None, log + [Granted(FILE, None, 2)]));
  }

  /** Any number of references can be reached. */
  lemma {:induction false} OneLooksUpOften(c: nat) returns (log: seq<Event>)
    requires 0 < c <= U64_MAX
    ensures Leads(Before(Idle, Idle, None, 2), With(c, AwaitInsert(FILE, None), Idle, None, log))
  {
    hide Leads;
    if c == 1 {
      OneInserts();
      log := [Granted(FILE, None, 2)];
    } else {
      log := OneLooksUpOften(c - 1);
      OneLooksUp(Before(Idle, Idle, None, 2), c - 1, log);
      log := log + [Granted(FILE, None, 2)];
    }
  }

  /** A run without a wrap reaches a state whose next step wraps a reference count and so parts the table from
      the counts. */
  lemma WrapIsReached() returns (s: State)
    ensures Reachable(s) && |s.pcs| == 2 && CountWraps(s, 0, Run(true)) && !Live(Step(s, 0, Run(true)))
  {
    hide Leads, Step, Wraps, Reachable, Live, Inv;
    var log := OneLooksUpOften(U64_MAX);
    var start, wait := Before(Idle, Idle, None, 2), AwaitInsert(FILE, None);
    ZeroLocks(U64_MAX, log);
    LeadsTo(start, With(U64_MAX, wait, Idle, None, log), 0, Run(true),
            With(U64_MAX, Recheck(FILE, None), Idle, Some(0), log));
    s := With(U64_MAX, Bump(FILE, None, FILE_DATA), Idle, Some(0), log);
    LeadsTo(start, With(U64_MAX, Recheck(FILE, None), Idle, Some(0), log), 0, Run(true), s);
    StartIsBefore();
    LedIsReachable(CFG, 2, ROOT_FILE, None, s);
    ReachableIsConsistent(s);
    LiveUnlessWrapped(s, 0, Run(true));
  }

  /** Thread 0 goes on: it finds the file under the lock. */
  lemma ZeroLocks(c: nat, log: seq<Event>)
    ensures var s := With(c, AwaitInsert(FILE, None), Idle, None, log);
            !Wraps(s, 0, Run(true)) && Step(s, 0, Run(true)) == With(c, Recheck(FILE, None), Idle, Some(0), log)
    ensures var s := With(c, Recheck(FILE, None), Idle, Some(0), log);
            !Wraps(s, 0, Run(true)) && Step(s, 0, Run(true)) == With(c, Bump(FILE, None, FILE_DATA), Idle, Some(0), log)
  {
    FileIsThere();
    Two(AwaitInsert(FILE, None), Idle, Recheck(FILE, None));
    Two(Recheck(FILE, None), Idle, Bump(FILE, None, FILE_DATA));
    hide GetAlt, Inserted;
  }

  lemma LedIsReachable(cfg: Config, threads: nat, root: InodeId, h: Option<FileHandle>, s: State)
    requires Supported(cfg) && Leads(Init(cfg, threads, root, h), s)
    ensures Reachable(s)
  {
    var schedule :| NeverWraps(Init(cfg, threads, root, h), schedule)
                    && Exec(Init(cfg, threads, root, h), schedule) == s;
  }
}
