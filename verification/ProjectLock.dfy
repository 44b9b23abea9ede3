/** The per-project lock of the operation registry: lock objects are made on demand, counted by
    their users and reclaimed when the last user leaves. Tasks interleave at every await. */
module ProjectLock {
  import opened Text

  /** The lock table and the user counts. */
  datatype Tables<L> = Tables(locks: map<string, L>, users: map<string, nat>)

  function Count<L>(t: Tables<L>, project: string): nat {
    if project in t.users then t.users[project] else 0
  }

  /** Entering: use the project's lock or put a new one in the table, and count one more user. */
  function Register<L>(t: Tables<L>, project: string, created: L): Tables<L> {
    Tables(if project in t.locks then t.locks else t.locks[project := created],
           t.users[project := Count(t, project) + 1])
  }

  /** Leaving: the last user drops the count, and the lock if it is the one in the table and free. */
  function Unregister<L(==)>(t: Tables<L>, project: string, lock: L, locked: bool): Tables<L> {
    if Count(t, project) <= 1 then
      Tables(if project in t.locks && t.locks[project] == lock && !locked then t.locks - {project} else t.locks,
             t.users - {project})
    else t.(users := t.users[project := Count(t, project) - 1])
  }

  // ---------- as the code runs it ----------

  class Lock {
    var locked: bool

    constructor ()
      ensures !locked
    {
      locked := false;
    }
  }

  class LockTable {
    var locks: map<string, Lock>
    var users: map<string, nat>

    constructor ()
      ensures locks == map[] && users == map[]
    {
      locks, users := map[], map[];
    }

    ghost function State(): Tables<Lock>
      reads this
    {
      Tables(locks, users)
    }

    /** Up to the await: the task holds the lock object every other task of the project holds. */
    method Enter(project: string) returns (lock: Lock)
      modifies this
      ensures State() == Register(old(State()), project, lock)
      ensures project in locks && locks[project] == lock && locks == old(locks)[project := lock]
      ensures users == old(users)[project := (if project in old(users) then old(users)[project] else 0) + 1]
      ensures project in old(locks) || (fresh(lock) && !lock.locked)
    {
      if project in locks {
        lock := locks[project];
      } else {
        lock := new Lock();
        locks := locks[project := lock];
      }
      users := users[project := (if project in users then users[project] else 0) + 1];
    }

    /** The `finally` clause, run with the lock acquired or after a cancelled wait. */
    method Exit(project: string, lock: Lock, acquired: bool)
      requires acquired ==> lock.locked
      modifies this, lock
      ensures lock.locked == (old(lock.locked) && !acquired)
      ensures project in old(users) && old(users)[project] > 1 ==>
                users == old(users)[project := old(users)[project] - 1] && locks == old(locks)
      ensures !(project in old(users) && old(users)[project] > 1) ==>
                && users == old(users) - {project}
                && locks == if project in old(locks) && old(locks)[project] == lock && !lock.locked
                            then old(locks) - {project} else old(locks)
      ensures State() == Unregister(old(State()), project, lock, lock.locked)
    {
      if acquired {
        lock.locked := false;
      }
      var count := if project in users then users[project] else 0;
      if count <= 1 {
        users := users - {project};
        if project in locks && locks[project] == lock && !lock.locked {
          locks := locks - {project};
        }
      } else {
        users := users[project := count - 1];
      }
    }
  }

  // ---------- every interleaving ----------

  /** A task between `Enter` and `Exit` of one project, with the lock object it got. */
  datatype Task = Waiting(project: string, lock: nat) | Inside(project: string, lock: nat)

  /** The tasks that are in `project_lock`, the tables, the task holding each locked lock and the
      next unused lock object. */
  datatype State = State(tasks: map<nat, Task>, tables: Tables<nat>, held: map<nat, nat>, unused: nat)

  const START := State(map[], Tables(map[], map[]), map[], 0)

  /** A task enters, gets the lock, leaves with the lock held, or is cancelled while it waits. */
  datatype Step = Enter(task: nat, project: string) | Acquire(task: nat) | Leave(task: nat) | Cancel(task: nat)

  predicate Enabled(s: State, step: Step) {
    match step
    case Enter(t, _) => t !in s.tasks
    case Acquire(t) => t in s.tasks && s.tasks[t].Waiting? && s.tasks[t].lock !in s.held
    case Leave(t) => t in s.tasks && s.tasks[t].Inside?
    case Cancel(t) => t in s.tasks && s.tasks[t].Waiting?
  }

  function Apply(s: State, step: Step): State
    requires Enabled(s, step)
  {
    match step
    case Enter(t, p) =>
      var tables := Register(s.tables, p, s.unused);
      State(s.tasks[t := Waiting(p, tables.locks[p])], tables, s.held, s.unused + 1)
    case Acquire(t) =>
      var task := s.tasks[t];
      s.(tasks := s.tasks[t := Inside(task.project, task.lock)], held := s.held[task.lock := t])
    case Leave(t) =>
      var task := s.tasks[t];
      s.(tasks := s.tasks - {t}, held := s.held - {task.lock},
         tables := Unregister(s.tables, task.project, task.lock, false))
    case Cancel(t) =>
      var task := s.tasks[t];
      s.(tasks := s.tasks - {t},
         tables := Unregister(s.tables, task.project, task.lock, task.lock in s.held))
  }

  /** The steps can be taken one after the other from `s`. */
  ghost predicate Possible(s: State, steps: seq<Step>)
    decreases |steps|
  {
    steps == [] || (Enabled(s, steps[0]) && Possible(Apply(s, steps[0]), steps[1..]))
  }

  ghost function After(s: State, steps: seq<Step>): State
    requires Possible(s, steps)
    decreases |steps|
  {
    if steps == [] then s else After(Apply(s, steps[0]), steps[1..])
  }

  ghost function Users(s: State, project: string): set<nat> {
    set t | t in s.tasks && s.tasks[t].project == project
  }

  /** At most one task of a project is inside. */
  ghost predicate Exclusive(s: State) {
    forall t, u | t in s.tasks && u in s.tasks && s.tasks[t].Inside? && s.tasks[u].Inside?
      && s.tasks[t].project == s.tasks[u].project :: t == u
  }

  /** Every task of a project shares the lock in the table; the count is the number of its tasks;
      nothing is stored for projects without tasks. */
  ghost predicate TablesAgree(s: State) {
    && (forall t | t in s.tasks :: s.tasks[t].project in s.tables.locks && s.tables.locks[s.tasks[t].project] == s.tasks[t].lock)
    && s.tables.locks.Keys == s.tables.users.Keys
    && (forall p | p in s.tables.users :: s.tables.users[p] == |Users(s, p)| > 0)
  }

  /** Lock objects are not shared between projects. */
  ghost predicate LocksApart(tables: Tables<nat>, unused: nat) {
    && (forall p, q | p in tables.locks && q in tables.locks && tables.locks[p] == tables.locks[q] :: p == q)
    && (forall p | p in tables.locks :: tables.locks[p] < unused)
  }

  /** A lock is held exactly by the task inside it. */
  ghost predicate HoldersAgree(s: State) {
    forall t, l :: Holds(s, t, l) <==> l in s.held && s.held[l] == t
  }

  ghost predicate Holds(s: State, t: nat, l: nat) {
    t in s.tasks && s.tasks[t].Inside? && s.tasks[t].lock == l
  }

  ghost predicate Inv(s: State) {
    TablesAgree(s) && LocksApart(s.tables, s.unused) && HoldersAgree(s)
  }

  lemma InvIsExclusive(s: State)
    requires TablesAgree(s) && HoldersAgree(s)
    ensures Exclusive(s)
  {
    forall t, u | t in s.tasks && u in s.tasks && s.tasks[t].Inside? && s.tasks[u].Inside? && s.tasks[t].project == s.tasks[u].project
      ensures t == u
    {
      assert Holds(s, t, s.tasks[t].lock) && Holds(s, u, s.tasks[u].lock);
    }
  }

  lemma {:induction false} EnterUsers(s: State, t: nat, p: string)
    requires t !in s.tasks
    ensures var s' := Apply(s, Enter(t, p));
            && Users(s', p) == Users(s, p) + {t} && t !in Users(s, p)
            && forall q | q != p :: Users(s', q) == Users(s, q)
  {
  }

  lemma {:induction false} ExitUsers(s: State, t: nat, s': State)
    requires t in s.tasks && s'.tasks == s.tasks - {t}
    ensures var p := s.tasks[t].project;
            && Users(s', p) == Users(s, p) - {t} && t in Users(s, p)
            && forall q | q != p :: Users(s', q) == Users(s, q)
  {
  }

  lemma NoUsers(s: State, p: string)
    requires TablesAgree(s) && p !in s.tables.users
    ensures Users(s, p) == {} && p !in s.tables.locks
  {
  }

  lemma {:induction false} EnterTables(s: State, t: nat, p: string)
    requires TablesAgree(s) && t !in s.tasks
    ensures TablesAgree(Apply(s, Enter(t, p)))
  {
    hide Users;
    var s' := Apply(s, Enter(t, p));
    EnterUsers(s, t, p);
    if p in s.tables.users {
      assert p in s.tables.locks.Keys;
    } else {
      NoUsers(s, p);
    }
    assert s'.tables.locks.Keys == s.tables.locks.Keys + {p};
    assert s'.tables.users.Keys == s.tables.users.Keys + {p};
  }

  lemma {:induction false} EnterKeepsInv(s: State, t: nat, p: string)
    requires Inv(s) && t !in s.tasks
    ensures Inv(Apply(s, Enter(t, p)))
  {
    EnterTables(s, t, p);
    EnterHolders(s, t, p);
    hide TablesAgree, HoldersAgree;
  }

  lemma EnterHolders(s: State, t: nat, p: string)
    requires HoldersAgree(s) && t !in s.tasks
    ensures HoldersAgree(Apply(s, Enter(t, p)))
  {
    var s' := Apply(s, Enter(t, p));
    forall u, l ensures Holds(s', u, l) == Holds(s, u, l) {
    }
  }

  lemma AcquireHolders(s: State, t: nat)
    requires HoldersAgree(s) && Enabled(s, Acquire(t))
    ensures HoldersAgree(Apply(s, Acquire(t)))
  {
    var s', lock := Apply(s, Acquire(t)), s.tasks[t].lock;
    forall u, l ensures Holds(s', u, l) <==> Holds(s, u, l) || (u == t && l == lock) {
    }
    assert !Holds(s, t, lock);
    forall u, l ensures Holds(s', u, l) <==> l in s'.held && s'.held[l] == u {
      assert Holds(s, u, l) <==> l in s.held && s.held[l] == u;
    }
  }

  lemma LeaveHolders(s: State, t: nat)
    requires HoldersAgree(s) && Enabled(s, Leave(t))
    ensures HoldersAgree(Apply(s, Leave(t)))
  {
    hide Unregister;
    var s', lock := Apply(s, Leave(t)), s.tasks[t].lock;
    assert Holds(s, t, lock);
    forall u, l ensures Holds(s', u, l) <==> l in s'.held && s'.held[l] == u {
      assert Holds(s', u, l) <==> Holds(s, u, l) && u != t;
    }
  }

  lemma CancelHolders(s: State, t: nat)
    requires HoldersAgree(s) && Enabled(s, Cancel(t))
    ensures HoldersAgree(Apply(s, Cancel(t)))
  {
    hide Unregister;
    var s' := Apply(s, Cancel(t));
    forall u, l ensures Holds(s', u, l) <==> l in s'.held && s'.held[l] == u {
      assert Holds(s', u, l) <==> Holds(s, u, l);
    }
  }

  lemma {:induction false} AcquireKeepsInv(s: State, t: nat)
    requires Inv(s) && Enabled(s, Acquire(t))
    ensures Inv(Apply(s, Acquire(t)))
  {
    hide HoldersAgree;
    var s' := Apply(s, Acquire(t));
    forall p ensures Users(s', p) == Users(s, p) {
    }
    AcquireHolders(s, t);
  }

  /** Taking a task out with its count: the tables still agree. */
  lemma {:induction false} ExitTables(s: State, t: nat, locked: bool, s': State)
    requires TablesAgree(s) && t in s.tasks && s'.tasks == s.tasks - {t}
    requires s'.tables == Unregister(s.tables, s.tasks[t].project, s.tasks[t].lock, locked)
    requires locked ==> |Users(s, s.tasks[t].project)| > 1
    ensures TablesAgree(s')
    ensures forall p | p in s'.tables.locks :: p in s.tables.locks && s'.tables.locks[p] == s.tables.locks[p]
  {
    var p := s.tasks[t].project;
    ExitUsers(s, t, s');
    assert p in s.tables.locks.Keys;
    assert s.tables.users[p] == |Users(s, p)|;
    if s.tables.users[p] <= 1 {
      assert |Users(s, p) - {t}| == 0;
      assert Users(s', p) == {};
      assert forall u | u in s'.tasks :: s'.tasks[u].project == p ==> u in Users(s', p);
    }
    assert s'.tables.locks.Keys == s'.tables.users.Keys;
    forall q | q in s'.tables.users ensures s'.tables.users[q] == |Users(s', q)| > 0 {
    }
  }

  lemma {:induction false} LeaveKeepsInv(s: State, t: nat)
    requires Inv(s) && Enabled(s, Leave(t))
    ensures Inv(Apply(s, Leave(t)))
  {
    hide HoldersAgree, TablesAgree, Unregister;
    ExitTables(s, t, false, Apply(s, Leave(t)));
    LeaveHolders(s, t);
  }

  lemma {:induction false} TwoUsers(s: State, t: nat)
    requires TablesAgree(s) && HoldersAgree(s) && t in s.tasks && s.tasks[t].Waiting? && s.tasks[t].lock in s.held
    requires LocksApart(s.tables, s.unused)
    ensures |Users(s, s.tasks[t].project)| > 1
  {
    var u := s.held[s.tasks[t].lock];
    var users := Users(s, s.tasks[t].project);
    assert Holds(s, u, s.tasks[t].lock);
    assert t in users && u in users && t != u;
    assert u in users - {t} && |users - {t}| > 0;
  }

  lemma {:induction false} CancelKeepsInv(s: State, t: nat)
    requires Inv(s) && Enabled(s, Cancel(t))
    ensures Inv(Apply(s, Cancel(t)))
  {
    hide HoldersAgree, TablesAgree, Unregister;
    var locked := s.tasks[t].lock in s.held;
    if locked { TwoUsers(s, t); }
    ExitTables(s, t, locked, Apply(s, Cancel(t)));
    CancelHolders(s, t);
  }

  /** Every run from a good state ends in a good state, cancellations included. */
  lemma {:induction false} RunKeepsInv(s: State, steps: seq<Step>)
    requires Inv(s) && Possible(s, steps)
    ensures Inv(After(s, steps))
    decreases |steps|
  {
    hide Inv, Apply;
    if steps != [] {
      match steps[0] {
        case Enter(t, p) => EnterKeepsInv(s, t, p);
        case Acquire(t) => AcquireKeepsInv(s, t);
        case Leave(t) => LeaveKeepsInv(s, t);
        case Cancel(t) => CancelKeepsInv(s, t);
      }
      RunKeepsInv(Apply(s, steps[0]), steps[1..]);
    }
  }

  /** In every run of the registry without a shutdown, at most one task of a project is inside, all
      of its tasks share one lock object, the count is the number of its tasks, projects without
      tasks have no entry, and a task that leaves finds its lock held. */
  lemma {:induction false} LockIsExclusive(steps: seq<Step>)
    requires Possible(START, steps)
    ensures Exclusive(After(START, steps)) && TablesAgree(After(START, steps))
    ensures var s := After(START, steps);
            forall t | t in s.tasks && s.tasks[t].Inside? :: s.tasks[t].lock in s.held
  {
    assert forall t, l :: !Holds(START, t, l);
    RunKeepsInv(START, steps);
    var s := After(START, steps);
    InvIsExclusive(s);
    assert forall t | t in s.tasks && s.tasks[t].Inside? :: Holds(s, t, s.tasks[t].lock);
  }

  // ---------- shutdown ----------

  /** `shutdown` clears both tables and leaves the tasks where they are. */
  function Shutdown(s: State): State {
    s.(tables := Tables(map[], map[]))
  }

  /** One more task can enter and acquire beside `inside`, whose lock is not in the table. */
  lemma {:induction false} Newcomer(s: State, inside: nat, u: nat)
    requires inside in s.tasks && s.tasks[inside].Inside? && u !in s.tasks
    requires s.tables.locks == map[] && s.unused !in s.held
    ensures var p := s.tasks[inside].project;
            && Possible(s, [Enter(u, p), Acquire(u)])
            && !Exclusive(After(s, [Enter(u, p), Acquire(u)]))
  {
    var p := s.tasks[inside].project;
    var steps := [Enter(u, p), Acquire(u)];
    var s1 := Apply(s, steps[0]);
    var s2 := Apply(s1, Acquire(u));
    assert steps[1..] == [Acquire(u)] && [Acquire(u)][1..] == [];
    assert Possible(s2, []) && After(s2, []) == s2;
    assert Possible(s1, [Acquire(u)]) && After(s1, [Acquire(u)]) == s2;
    assert s2.tasks[inside] == s.tasks[inside] && s2.tasks[u] == Inside(p, s.unused);
  }

  /** A task still in the lock when the tables are cleared can end up inside beside a newcomer. */
  lemma {:induction false} ShutdownBreaks(s: State, t: nat) returns (steps: seq<Step>)
    requires Inv(s) && t in s.tasks
    ensures Possible(Shutdown(s), steps) && !Exclusive(After(Shutdown(s), steps))
  {
    var s0 := Shutdown(s);
    var u := Above(s.tasks.Keys);
    assert s.unused !in s.held by { UnusedIsFree(s); }
    var lock := s.tasks[t].lock;
    if s.tasks[t].Inside? || lock in s.held {
      var inside := if s.tasks[t].Inside? then t else s.held[lock];
      assert s.tasks[t].Inside? || Holds(s, inside, lock);
      Newcomer(s0, inside, u);
      steps := [Enter(u, s.tasks[inside].project), Acquire(u)];
    } else {
      var s1 := Apply(s0, Acquire(t));
      UnusedIsNotWaitedFor(s, t);
      Newcomer(s1, t, u);
      var last := [Enter(u, s.tasks[t].project), Acquire(u)];
      steps := [Acquire(t)] + last;
      assert steps[1..] == last;
    }
  }

  lemma UnusedIsFree(s: State)
    requires Inv(s)
    ensures s.unused !in s.held
  {
    assert forall l | l in s.held :: Holds(s, s.held[l], l);
  }

  lemma UnusedIsNotWaitedFor(s: State, t: nat)
    requires Inv(s) && t in s.tasks
    ensures s.tasks[t].lock != s.unused
  {
  }

  /** Shutting down keeps mutual exclusion for every later run exactly when no task is in a lock. */
  lemma {:induction false} ShutdownIsSafeWhenIdle(s: State)
    requires Inv(s)
    ensures (forall steps | Possible(Shutdown(s), steps) :: Exclusive(After(Shutdown(s), steps)))
            <==> s.tasks == map[]
  {
    if s.tasks == map[] {
      assert forall t, l :: !Holds(s, t, l) && !Holds(Shutdown(s), t, l);
      assert Inv(Shutdown(s));
      forall steps | Possible(Shutdown(s), steps) ensures Exclusive(After(Shutdown(s), steps)) {
        RunKeepsInv(Shutdown(s), steps);
        InvIsExclusive(After(Shutdown(s), steps));
      }
    } else {
      var t :| t in s.tasks;
      var steps := ShutdownBreaks(s, t);
    }
  }
}
