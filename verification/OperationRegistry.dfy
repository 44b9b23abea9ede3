/** The registry's tables: operations by id, the current operation of each project, and the times at
    which operations became terminal. */
module OperationRegistry {
  import opened Text
  import opened OperationTypes
  import opened SseQueue
  import opened ApprovalGates

  const QUEUE_BOUND: nat := 256

  // ---------- the tables as values ----------

  datatype Entry = Entry(project: string, status: Status)

  /** The three tables, and which of the operations have been terminal since they were created. */
  datatype Index = Index(ops: map<string, Entry>, byProject: map<string, string>, times: map<string, real>,
                         everTerminal: set<string>)

  const EMPTY := Index(map[], map[], map[], {})

  /** Whether the project index entry of `p` belongs to one of these operations. */
  predicate IsEntryOf(ix: Index, p: string, ids: set<string>) {
    p in ix.byProject && ix.byProject[p] in ids && ix.byProject[p] in ix.ops && ix.ops[ix.byProject[p]].project == p
  }

  /** The tables without these operations; a time without an operation stays. */
  function Without(ix: Index, ids: set<string>): Index {
    ix.(ops := ix.ops - ids, times := ix.times - (ids * ix.ops.Keys),
        byProject := map p | p in ix.byProject && !IsEntryOf(ix, p, ids) :: ix.byProject[p])
  }

  /** The operation a new one of this project would replace. */
  function Current(ix: Index, project: string): Option<string> {
    if project in ix.byProject && ix.byProject[project] != "" && ix.byProject[project] in ix.ops
    then Some(ix.byProject[project])
    else None
  }

  predicate IsActive(ix: Index, id: Option<string>) {
    id.Some? && id.value in ix.ops && !IsTerminalStatus(ix.ops[id.value].status)
  }

  function Added(ix: Index, id: string, project: string): Index {
    ix.(ops := ix.ops[id := Entry(project, Queued)], byProject := ix.byProject[project := id],
        everTerminal := ix.everTerminal - {id})
  }

  /** A new queued operation; `None` is the `ValueError` for a project with an active operation. */
  function Created(ix: Index, id: string, project: string): Option<Index> {
    var current := Current(ix, project);
    if IsActive(ix, current) then None
    else Some(Added(if current.Some? then Without(ix, {current.value}) else ix, id, project))
  }

  /** Without the operation of this project, unless it is active. */
  function Dropped(ix: Index, project: string): Index {
    if project in ix.byProject && !IsActive(ix, Some(ix.byProject[project]))
    then Without(ix, {ix.byProject[project]})
    else ix
  }

  /** A status change; a terminal one notes the time, and no status change ever drops it. */
  function Moved(ix: Index, id: string, status: Status, now: real): Index {
    if id !in ix.ops then ix
    else
      var moved := ix.(ops := ix.ops[id := Entry(ix.ops[id].project, status)]);
      if IsTerminalStatus(status)
      then moved.(times := ix.times[id := now], everTerminal := ix.everTerminal + {id})
      else moved
  }

  predicate IsExpired(ix: Index, id: string, now: real, ttl: real) {
    id in ix.times && now - ix.times[id] >= ttl
  }

  /** The operations a sweep removes. */
  function ExpiredIds(ix: Index, now: real, ttl: real): set<string> {
    set id | id in ix.times && IsExpired(ix, id, now, ttl)
  }

  function Swept(ix: Index, now: real, ttl: real): Index { Without(ix, ExpiredIds(ix, now, ttl)) }

  // ---------- what every step keeps ----------

  /** The operation table and the project index are inverse to each other. */
  ghost predicate IndexesAgree(ix: Index) {
    && (forall id | id in ix.ops :: id != "" && ix.ops[id].project in ix.byProject && ix.byProject[ix.ops[id].project] == id)
    && (forall p | p in ix.byProject :: ix.byProject[p] in ix.ops && ix.ops[ix.byProject[p]].project == p)
  }

  /** Terminal operations have a time; times belong to live operations that have been terminal. */
  ghost predicate TimesAgree(ix: Index) {
    && (forall id | id in ix.ops && IsTerminalStatus(ix.ops[id].status) :: id in ix.times)
    && (forall id | id in ix.ops :: id in ix.times <==> id in ix.everTerminal)
    && (forall id | id in ix.times :: id in ix.ops)
  }

  ghost predicate Agrees(ix: Index) { IndexesAgree(ix) && TimesAgree(ix) }

  /** Removing operations takes them, and only them, out of all three tables. */
  lemma {:induction false} WithoutAgrees(ix: Index, ids: set<string>)
    requires Agrees(ix)
    ensures Agrees(Without(ix, ids))
    ensures Without(ix, ids).ops == ix.ops - ids && Without(ix, ids).times == ix.times - ids
    ensures forall id | id in ids && id in ix.ops :: ix.ops[id].project !in Without(ix, ids).byProject
  {
  }

  /** Removing one more operation; with `WithoutMissing`, any order of removals gives the same tables. */
  lemma {:induction false} WithoutOneMore(ix: Index, ids: set<string>, id: string)
    ensures Without(Without(ix, ids), {id}) == Without(ix, ids + {id})
  {
  }

  lemma {:induction false} WithoutOne(ix: Index, id: string)
    requires id in ix.ops
    ensures var p := ix.ops[id].project;
            Without(ix, {id}) == ix.(ops := ix.ops - {id}, times := ix.times - {id},
                                     byProject := if p in ix.byProject && ix.byProject[p] == id
                                                  then ix.byProject - {p} else ix.byProject)
  {
  }

  lemma {:induction false} WithoutMissing(ix: Index, ids: set<string>)
    requires ids !! ix.ops.Keys
    ensures Without(ix, ids) == ix
  {
  }

  /** Adding to a project without an operation keeps the tables in agreement exactly when the id is
      new and not empty. */
  lemma {:induction false} AddedAgrees(ix: Index, id: string, project: string)
    requires Agrees(ix) && project !in ix.byProject
    ensures Agrees(Added(ix, id, project)) <==> id != "" && id !in ix.ops
  {
    var after := Added(ix, id, project);
    assert id in after.ops;
    if id in ix.ops {
      var other := ix.ops[id].project;
      assert other in after.byProject && after.byProject[other] == id && after.ops[id].project != other;
    }
  }

  /** Creating keeps the tables in agreement exactly when the id is not empty and not the id of an
      operation of another project. */
  lemma {:induction false} CreatedAgrees(ix: Index, id: string, project: string)
    requires Agrees(ix) && Created(ix, id, project).Some?
    ensures Agrees(Created(ix, id, project).value) <==>
            id != "" && (id in ix.ops ==> ix.ops[id].project == project)
  {
    hide TimesAgree, Added, Without;
    var current := Current(ix, project);
    var base := if current.Some? then Without(ix, {current.value}) else ix;
    if current.Some? { WithoutAgrees(ix, {current.value}); }
    AddedAgrees(base, id, project);
    assert id in base.ops <==> id in ix.ops && ix.ops[id].project != project;
  }

  lemma {:induction false} MovedAgrees(ix: Index, id: string, status: Status, now: real)
    requires Agrees(ix)
    ensures Agrees(Moved(ix, id, status, now))
  {
  }

  /** A sweep evicts exactly the operations whose time has run out; it evicts none that was never
      terminal, and it can evict an active one that was. */
  lemma {:induction false} SweptEvicts(ix: Index, now: real, ttl: real)
    requires Agrees(ix)
    ensures Agrees(Swept(ix, now, ttl))
    ensures forall id | id in ix.ops :: id !in Swept(ix, now, ttl).ops <==> IsExpired(ix, id, now, ttl)
    ensures forall id | id in ix.ops && id !in Swept(ix, now, ttl).ops :: id in ix.everTerminal
    ensures forall id | id in Swept(ix, now, ttl).ops :: id in ix.ops && Swept(ix, now, ttl).ops[id] == ix.ops[id]
  {
  }

  // ---------- every run ----------

  datatype Step =
    | Create(id: string, project: string)
    | Transition(id: string, status: Status, now: real)
    | RemoveProject(project: string)
    | Sweep(now: real)

  /** Ids are fresh and not empty. */
  predicate Enabled(ix: Index, step: Step) {
    step.Create? ==> step.id != "" && step.id !in ix.ops
  }

  function Apply(ix: Index, step: Step, ttl: real): Index {
    match step
    case Create(id, project) => if Created(ix, id, project).Some? then Created(ix, id, project).value else ix
    case Transition(id, status, now) => Moved(ix, id, status, now)
    case RemoveProject(project) => Dropped(ix, project)
    case Sweep(now) => Swept(ix, now, ttl)
  }

  function After(steps: seq<Step>, ttl: real): Index {
    if steps == [] then EMPTY else Apply(After(steps[..|steps| - 1], ttl), steps[|steps| - 1], ttl)
  }

  predicate Possible(steps: seq<Step>, ttl: real) {
    steps == [] || (Possible(steps[..|steps| - 1], ttl) && Enabled(After(steps[..|steps| - 1], ttl), steps[|steps| - 1]))
  }

  /** In every run the indexes are inverse, so a project has at most one operation, and the times
      belong to operations that have been terminal. */
  lemma {:induction false} RunAgrees(steps: seq<Step>, ttl: real)
    requires Possible(steps, ttl)
    ensures Agrees(After(steps, ttl))
    ensures var ix := After(steps, ttl);
            forall a, b | a in ix.ops && b in ix.ops && ix.ops[a].project == ix.ops[b].project :: a == b
  {
    if steps != [] {
      var before, step := After(steps[..|steps| - 1], ttl), steps[|steps| - 1];
      RunAgrees(steps[..|steps| - 1], ttl);
      match step {
        case Create(id, project) => if Created(before, id, project).Some? { CreatedAgrees(before, id, project); }
        case Transition(id, status, now) => MovedAgrees(before, id, status, now);
        case RemoveProject(project) => if project in before.byProject { WithoutAgrees(before, {before.byProject[project]}); }
        case Sweep(now) => SweptEvicts(before, now, ttl);
      }
    }
  }

  /** In every run, a new operation is refused exactly when the project has one that is not completed,
      submitted, failed, expired or cancelled. */
  lemma {:induction false} CreateRefusedExactlyWhen(steps: seq<Step>, ttl: real, id: string, project: string)
    requires Possible(steps, ttl)
    ensures var ix := After(steps, ttl);
            Created(ix, id, project).None? <==>
            exists o :: o in ix.ops && ix.ops[o].project == project
                        && ix.ops[o].status !in {Completed, PrSubmitted, Failed, Expired, Cancelled}
  {
    RunAgrees(steps, ttl);
    var ix := After(steps, ttl);
    if Created(ix, id, project).None? {
      assert ix.byProject[project] in ix.ops;
    }
  }

  /** In every run, only a sweep takes out an operation that is not in one of those five statuses. */
  lemma {:induction false} OnlySweepsEvictActive(steps: seq<Step>, ttl: real, step: Step, id: string)
    requires Possible(steps, ttl) && Enabled(After(steps, ttl), step) && !step.Sweep?
    requires id in After(steps, ttl).ops && id !in Apply(After(steps, ttl), step, ttl).ops
    ensures After(steps, ttl).ops[id].status in {Completed, PrSubmitted, Failed, Expired, Cancelled}
  {
    RunAgrees(steps, ttl);
    hide IndexesAgree, TimesAgree;
  }

  /** A sweep takes out exactly the operations whose noted time is at least the time to live ago. */
  lemma {:induction false} SweepEvictsExactly(steps: seq<Step>, ttl: real, now: real, id: string)
    requires Possible(steps, ttl) && id in After(steps, ttl).ops
    ensures var ix := After(steps, ttl);
            id !in Apply(ix, Sweep(now), ttl).ops <==> id in ix.times && now - ix.times[id] >= ttl
  {
    RunAgrees(steps, ttl);
    SweptEvicts(After(steps, ttl), now, ttl);
  }

  /** A status change sets the status of its operation alone and notes the time exactly for those five. */
  lemma {:induction false} MovedIs(ix: Index, id: string, status: Status, now: real)
    requires id in ix.ops
    ensures var r := Moved(ix, id, status, now);
            && r.ops == ix.ops[id := Entry(ix.ops[id].project, status)] && r.byProject == ix.byProject
            && r.times == if status in {Completed, PrSubmitted, Failed, Expired, Cancelled} then ix.times[id := now] else ix.times
  {
  }

  /** An operation that left a terminal status keeps its time, so a later sweep evicts it although it
      is active again. */
  lemma {:induction false} SweepCanEvictActive(id: string, project: string, ttl: real)
    requires id != "" && ttl >= 0.0
    ensures var steps := [Create(id, project), Step.Transition(id, Completed, 0.0), Step.Transition(id, AwaitingApproval, 0.0)];
            && Possible(steps, ttl)
            && IsActive(After(steps, ttl), Some(id))
            && id !in Apply(After(steps, ttl), Sweep(ttl), ttl).ops
  {
    hide IndexesAgree, TimesAgree, Swept;
    var s1, s2, s3 := Create(id, project), Step.Transition(id, Completed, 0.0), Step.Transition(id, AwaitingApproval, 0.0);
    var steps := [s1, s2, s3];
    assert steps[..2] == [s1, s2] && [s1, s2][..1] == [s1] && [s1][..0] == [];
    assert After([], ttl) == EMPTY && Possible([], ttl);
    assert After([s1], ttl) == Created(EMPTY, id, project).value && Possible([s1], ttl);
    assert After([s1, s2], ttl) == Moved(After([s1], ttl), id, Completed, 0.0) && Possible([s1, s2], ttl);
    assert After(steps, ttl) == Moved(After([s1, s2], ttl), id, AwaitingApproval, 0.0) && Possible(steps, ttl);
    var ix := After(steps, ttl);
    RunAgrees(steps, ttl);
    SweptEvicts(ix, ttl, ttl);
    assert IsExpired(ix, id, ttl, ttl);
  }

  // ---------- the registry object ----------

  class Registry {
    var ops: map<string, Operation>
    var byProject: map<string, string>
    var terminalTimes: map<string, real>
    const terminalTtl: real
    ghost var everTerminal: set<string>
    ghost var repr: set<Operation>

    constructor (ttl: real)
      ensures Valid() && View() == EMPTY && terminalTtl == ttl && repr == {}
    {
      ops, byProject, terminalTimes, terminalTtl, everTerminal := map[], map[], map[], ttl, {};
      repr := {};
    }

    /** Operations are filed under their own ids, and no queue is subscribed twice. */
    ghost predicate Valid()
      reads this, repr
    {
      && (forall id | id in ops :: ops[id] in repr && ops[id].id == id)
      && OwnQueues(repr)
    }

    /** No operation has a queue twice, and operations do not share queues. */
    ghost predicate OwnQueues(of: set<Operation>)
      reads of
    {
      && (forall op | op in of :: Distinct(op.subscribers))
      && (forall a, b, q | a in of && b in of && q in a.subscribers && q in b.subscribers :: a == b)
    }

    /** Dropping subscribers keeps queues apart. */
    twostate lemma FewerQueues(of: set<Operation>)
      requires old(OwnQueues(of))
      requires forall op | op in of :: Distinct(op.subscribers) && op.Listeners() <= old(op.Listeners())
      ensures OwnQueues(of)
    {
      hide Distinct;
      forall a, b, q | a in of && b in of && q in a.subscribers && q in b.subscribers ensures a == b {
        assert q in a.Listeners() && q in b.Listeners();
      }
    }

    lemma OneMore(of: set<Operation>, op: Operation)
      requires OwnQueues(of) && op.subscribers == []
      ensures OwnQueues(of + {op})
    {
    }

    lemma TwinFree(of: set<Operation>)
      requires OwnQueues(of)
      ensures forall op | op in of :: Distinct(op.subscribers)
    {
    }

    ghost function View(): (ix: Index)
      requires Valid()
      reads this, repr
      ensures ix.ops.Keys == ops.Keys && ix.times == terminalTimes
    {
      Index(map id | id in ops :: Entry(ops[id].project, ops[id].status), byProject, terminalTimes, everTerminal)
    }

    /** The operations that may be filed under `id`. */
    ghost function Filed(id: string): set<Operation>
      reads this
    {
      if id in ops then {ops[id]} else {}
    }

    ghost function Queues(of: set<Operation>): set<Queue>
      reads of
    {
      set op, q | op in of && q in op.subscribers :: q
    }

    /** The tables read the statuses of operations and nothing else of them. */
    twostate lemma SameView()
      requires old(Valid()) && Valid() && unchanged(this)
      requires forall op | op in repr :: op.status == old(op.status)
      ensures View() == old(View())
    {
    }

    /** Taking an operation out of the tables. */
    method Forget(id: string)
      requires Valid() && id in ops
      modifies this
      ensures Valid() && View() == Without(old(View()), {id}) && repr == old(repr) && ops == old(ops) - {id}
    {
      hide OwnQueues, Without;
      ghost var before := View();
      WithoutOne(before, id);
      var project := ops[id].project;
      ops := ops - {id};
      terminalTimes := terminalTimes - {id};
      if project in byProject && byProject[project] == id {
        byProject := byProject - {project};
      }
      assert View().ops == before.ops - {id};
    }

    method Remove(id: string)
      requires Valid()
      modifies this, Filed(id), Queues(Filed(id))
      ensures Valid() && View() == Without(old(View()), {id}) && repr == old(repr) && ops == old(ops) - {id}
      ensures id in old(ops) ==>
                && old(ops[id]).subscribers == []
                && Watched([], old(Queues(Filed(id)))) == Shut(old(Watched(ops[id].subscribers, Queues(Filed(id)))))
      ensures forall op | op in repr :: op.Listeners() <= old(op.Listeners())
    {
      hide Without, View, OwnQueues, Watched, Shut;
      if id !in ops {
        WithoutMissing(View(), {id});
        return;
      }
      TwinFree(repr);
      var op := ops[id];
      assert Queues(Filed(id)) == op.Listeners();
      Forget(id);
      label tables:
      op.Close();
      FewerQueues@tables(repr);
      SameView@tables();
    }

    /** Putting a new operation into the tables. */
    method File(op: Operation)
      requires Valid() && op.status == Queued && op.subscribers == []
      modifies this
      ensures Valid() && View() == Added(old(View()), op.id, op.project) && repr == old(repr) + {op}
      ensures ops == old(ops)[op.id := op] && byProject == old(byProject)[op.project := op.id]
    {
      hide OwnQueues;
      OneMore(repr, op);
      ghost var before := View();
      ops := ops[op.id := op];
      byProject := byProject[op.project := op.id];
      everTerminal := everTerminal - {op.id};
      repr := repr + {op};
      assert View().ops == before.ops[op.id := Entry(op.project, Queued)];
    }

    /** The operation a new one of this project would replace. */
    ghost function Replaced(project: string): set<Operation>
      reads this
    {
      if project in byProject then Filed(byProject[project]) else {}
    }

    /** Making room for a new operation of the project, unless the current one is active. */
    method MakeRoom(project: string) returns (free: bool)
      requires Valid()
      modifies this, Replaced(project), Queues(Replaced(project))
      ensures Valid() && repr == old(repr)
      ensures var current := Current(old(View()), project);
              && free == !IsActive(old(View()), current)
              && View() == if free && current.Some? then Without(old(View()), {current.value}) else old(View())
      ensures !free <==>
              && project in old(byProject) && old(byProject)[project] != "" && old(byProject)[project] in old(ops)
              && old(ops[byProject[project]].status) !in {Completed, PrSubmitted, Failed, Expired, Cancelled}
      ensures !free ==> unchanged(this)
      ensures forall other | other in old(ops) && !(project in old(byProject) && other == old(byProject)[project]) ::
                other in ops && ops[other] == old(ops[other])
    {
      hide Without, OwnQueues;
      if project in byProject && byProject[project] != "" && byProject[project] in ops {
        if !IsTerminalStatus(ops[byProject[project]].status) {
          return false;
        }
        Remove(byProject[project]);
      }
      return true;
    }

    /** `None` stands for the `ValueError`. */
    method Create(id: string, project: string) returns (created: Option<Operation>)
      requires Valid()
      modifies this, Replaced(project), Queues(Replaced(project))
      ensures Valid()
      ensures created.None? <==>
              && project in old(byProject) && old(byProject)[project] != "" && old(byProject)[project] in old(ops)
              && old(ops[byProject[project]].status) !in {Completed, PrSubmitted, Failed, Expired, Cancelled}
      ensures created.Some? ==>
                && fresh(created.value) && id in ops && created.value == ops[id] && ops[id].status == Queued
                && ops[id].project == project && project in byProject && byProject[project] == id
                && (forall other | other in old(ops) && other != id && !(project in old(byProject) && other == old(byProject)[project]) ::
                      other in ops && ops[other] == old(ops[other]))
      ensures created.Some? <==> Created(old(View()), id, project).Some?
      ensures created.Some? ==> View() == Created(old(View()), id, project).value
      ensures created.None? ==> View() == old(View()) && unchanged(this)
    {
      hide Without, Added, OwnQueues, View, Current;
      var free := MakeRoom(project);
      if !free {
        return None;
      }
      var op := new Operation(id, project);
      File(op);
      return Some(op);
    }

    /** `false` stands for the `ValueError`. */
    method RemoveProject(project: string) returns (removed: bool)
      requires Valid()
      modifies this, Replaced(project), Queues(Replaced(project))
      ensures Valid() && View() == Dropped(old(View()), project)
      ensures !removed <==>
              && project in old(byProject) && old(byProject)[project] in old(ops)
              && old(ops[byProject[project]].status) !in {Completed, PrSubmitted, Failed, Expired, Cancelled}
      ensures removed && project in old(byProject) ==> ops == old(ops) - {old(byProject)[project]}
      ensures !removed ==> unchanged(this)
    {
      hide Without;
      if project !in byProject || byProject[project] !in ops {
        if project in byProject { WithoutMissing(View(), {byProject[project]}); }
        return true;
      }
      if !IsTerminalStatus(ops[byProject[project]].status) {
        return false;
      }
      Remove(byProject[project]);
      return true;
    }

    /** A status change and its broadcast; a terminal status notes the time. */
    method Transition(id: string, status: Status, now: real)
      requires Valid()
      modifies this, Filed(id), Queues(Filed(id))
      ensures Valid() && View() == Moved(old(View()), id, status, now)
      ensures id in old(ops) ==>
                && ops == old(ops) && ops[id].State() == Move(old(ops[id].State()), status)
                && Watched(ops[id].subscribers, old(ops[id].Listeners())) ==
                   Sent(old(Watched(ops[id].subscribers, ops[id].Listeners())), Message(StatusChanged, Some(status), ""))
    {
      hide Distinct, Watched, Sent, OwnQueues;
      if id !in ops {
        return;
      }
      TwinFree(repr);
      ghost var before := View();
      var op := ops[id];
      op.MoveTo(status, op.Listeners());
      FewerQueues(repr);
      if IsTerminalStatus(status) {
        terminalTimes := terminalTimes[id := now];
        everTerminal := everTerminal + {id};
      }
      assert View().ops == before.ops[id := Entry(before.ops[id].project, status)];
    }

    lemma FiledQueues(id: string, others: set<Operation>)
      requires Filed(id) <= others
      ensures Queues(Filed(id)) <= Queues(others)
      ensures id !in ops ==> Queues(Filed(id)) == {}
    {
    }

    twostate lemma QueuesShrink(of: set<Operation>)
      requires forall op | op in of :: op.Listeners() <= old(op.Listeners())
      ensures Queues(of) <= old(Queues(of))
    {
      forall op, q | op in of && q in op.subscribers ensures q in old(Queues(of)) {
        assert q in op.Listeners();
      }
    }

    /** An operation and its queues as they were watched: closed if it left, and otherwise untouched. */
    ghost predicate Watches(op: Operation, watch: set<Queue>, before: Inboxes, gone: bool)
      reads op, watch
    {
      && op.subscribers == (if gone then [] else before.subscribers)
      && Watched(op.subscribers, watch) == if gone then Shut(before) else before
    }

    /** The watched operation, if any: it is filed until it is gone, and shares no queue with the others. */
    ghost predicate Watching(op: Option<Operation>, watch: set<Queue>, before: Inboxes, gone: bool)
      reads this, repr, watch
    {
      op.Some? ==>
        && op.value in repr && Queues(repr - {op.value}) !! watch && watch == (set q | q in before.subscribers)
        && (op.value.id in ops <==> !gone) && (op.value.id in ops ==> ops[op.value.id] == op.value)
        && Watches(op.value, watch, before, gone)
    }

    /** Removing one operation while another, or the same, is watched. */
    method Evict(id: string, ghost op: Option<Operation>, ghost watch: set<Queue>, ghost before: Inboxes, ghost gone: bool)
      requires Valid() && Watching(op, watch, before, gone)
      modifies this, Filed(id), Queues(Filed(id))
      ensures Valid() && View() == Without(old(View()), {id})
      ensures repr == old(repr) && Queues(repr) <= old(Queues(repr))
      ensures Watching(op, watch, before, gone || (op.Some? && id == op.value.id))
    {
      hide Without, OwnQueues, View, Watched, Shut;
      ghost var others := if op.Some? then repr - {op.value} else repr;
      if op.Some? && id == op.value.id && !gone {
        assert Queues(Filed(id)) == watch;
      } else {
        assert Filed(id) <= others;
        FiledQueues(id, others);
      }
      Remove(id);
      QueuesShrink(repr);
      QueuesShrink(others);
    }

    /** The body of the reaper's loop at time `now`. Whichever operation is observed: it goes and is closed
        if it is expired, and otherwise keeps its subscribers and what they have queued. */
    method Reap(now: real, ghost observed: Option<string>)
      requires Valid() && (observed.Some? ==> observed.value in ops)
      modifies this, repr, Queues(repr)
      ensures Valid() && View() == Swept(old(View()), now, terminalTtl)
      ensures observed.Some? ==>
                var id := observed.value;
                Watches(old(ops[id]), old(ops[id].Listeners()), old(Watched(ops[id].subscribers, ops[id].Listeners())),
                        IsExpired(old(View()), id, now, terminalTtl))
    {
      hide Without, OwnQueues, View, Watches, Queues;
      var expired := set id | id in terminalTimes && now - terminalTimes[id] >= terminalTtl;
      ghost var index, done: set<string> := View(), {};
      ghost var op := if observed.Some? then Some(ops[observed.value]) else None;
      ghost var watch := if op.Some? then op.value.Listeners() else {};
      ghost var before := if op.Some? then Watched(op.value.subscribers, watch) else Inboxes([], map[]);
      WithoutMissing(index, {});
      StartWatching(op);
      while expired != {}
        invariant Valid() && View() == Without(index, done)
        invariant repr == old(repr) && Queues(repr) <= old(Queues(repr))
        invariant Watching(op, watch, before, op.Some? && op.value.id in done)
        invariant done + expired == ExpiredIds(index, now, terminalTtl)
        decreases |expired|
      {
        hide Watching;
        var id :| id in expired;
        WithoutOneMore(index, done, id);
        FiledQueues(id, repr);
        Evict(id, op, watch, before, op.Some? && op.value.id in done);
        expired, done := expired - {id}, done + {id};
      }
    }

    lemma StartWatching(op: Option<Operation>)
      requires Valid() && (op.Some? ==> op.value.id in ops && ops[op.value.id] == op.value)
      ensures op.Some? ==>
                Watching(op, op.value.Listeners(), Watched(op.value.subscribers, op.value.Listeners()), false)
    {
    }

    method Subscribe(id: string) returns (queue: Option<Queue>)
      requires Valid()
      modifies Filed(id)
      ensures Valid() && View() == old(View())
      ensures queue.Some? <==> id in ops
      ensures queue.Some? ==> fresh(queue.value) && queue.value.items == [] && queue.value.maxsize == 256
      ensures id in ops ==> ops[id].subscribers == old(ops[id].subscribers) + [queue.value]
    {
      if id !in ops {
        return None;
      }
      var q := new Queue(QUEUE_BOUND);
      ops[id].subscribers := ops[id].subscribers + [q];
      SameView();
      return Some(q);
    }

    /** The queue leaves the operation's subscribers; a queue that is not among them is ignored. */
    method Unsubscribe(id: string, queue: Queue)
      requires Valid()
      modifies Filed(id)
      ensures Valid() && View() == old(View())
      ensures id in ops ==>
                var before := old(ops[id].subscribers);
                && (queue !in before ==> ops[id].subscribers == before)
                && (forall i | 0 <= i < |before| && before[i] == queue :: ops[id].subscribers == before[..i] + before[i + 1..])
    {
      if id !in ops {
        return;
      }
      var subscribers := ops[id].subscribers;
      for i := 0 to |subscribers|
        invariant queue !in subscribers[..i]
      {
        if subscribers[i] == queue {
          ops[id].subscribers := subscribers[..i] + subscribers[i + 1..];
          SameView();
          return;
        }
      }
      assert subscribers[..|subscribers|] == subscribers;
    }
  }
}
