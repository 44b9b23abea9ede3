/** The pauses of an operation: the futures its driver waits on, the approval gate, and the replayed
    events that must not move it backwards. */
module ApprovalGates {
  import opened Text
  import opened OperationTypes
  import opened SseQueue

  /** An approval gate pairs the future `POST /approve` resolves with a prompt generation. */
  datatype Gate<F> = Gate(future: F, generation: Option<int>)

  /** The part of an operation its pauses live in. `resolutions` lists every `set_result` made so far
      and `outbox` every broadcast. Futures are compared by identity, whatever `F` is. */
  datatype Pauses<F> = Pauses(
    status: Status, findings: Option<string>, candidates: Option<string>, proposals: Option<string>,
    begin: Option<F>, escalate: Option<F>, gate: Option<Gate<F>>,
    resolutions: seq<F>, outbox: seq<Message>)

  predicate Allows(statuses: set<Status>, s: Status) { s in statuses }

  const FINDINGS_ALLOWED := {Queued, Cloning, Scanning, Assessed}
  const AI_TRIAGE_ALLOWED := {Queued, Cloning, Scanning, Assessed, Applying, AwaitingAiTriage}

  /** Resolving a future if there is one and it is pending. */
  function Resolve<F(==)>(o: Pauses<F>, future: Option<F>): Pauses<F> {
    if future.Some? && future.value !in o.resolutions then o.(resolutions := o.resolutions + [future.value]) else o
  }

  function Send<F>(o: Pauses<F>, event: Event, status: Option<Status>, data: string): Pauses<F> {
    o.(outbox := o.outbox + [Message(event, status, data)])
  }

  function Move<F>(o: Pauses<F>, status: Status): Pauses<F> {
    Send(o.(status := status), StatusChanged, Some(status), "")
  }

  /** `FindingsReady`: ignored once the operation has left the assess pause. */
  function SetFindings<F>(o: Pauses<F>, data: string, created: F): Pauses<F> {
    if !Allows(FINDINGS_ALLOWED, o.status) then o
    else
      var stored := o.(findings := Some(data), begin := if o.begin.None? then Some(created) else o.begin);
      Send(Move(stored, Assessed), Findings, None, data)
  }

  /** A late `AiTriageReady` after escalation: candidates are stored and the answer was given. */
  predicate TriageIsOver<F(==)>(o: Pauses<F>) {
    o.status.Applying? && o.candidates.Some? && (o.escalate.None? || o.escalate.value in o.resolutions)
  }

  /** `AiTriageReady`: releases the begin pause and opens the escalation pause. */
  function SetAiTriage<F(==)>(o: Pauses<F>, data: string, created: F): Pauses<F> {
    if !Allows(AI_TRIAGE_ALLOWED, o.status) || TriageIsOver(o) then o else TriageOpened(o, data, created)
  }

  function TriageOpened<F(==)>(o: Pauses<F>, data: string, created: F): Pauses<F> {
    var stored := Resolve(o, o.begin)
                  .(candidates := Some(data), escalate := if o.escalate.None? then Some(created) else o.escalate);
    Send(Move(stored, AwaitingAiTriage), AiTriage, None, data)
  }

  function GateFuture<F>(o: Pauses<F>): Option<F> {
    if o.gate.Some? then Some(o.gate.value.future) else None
  }

  /** New proposals: every open pause is released and a new gate replaces the old one. The operation
      may have left the registry while the gate lock was awaited; then its status stays. */
  function SetProposals<F(==)>(o: Pauses<F>, data: string, generation: Option<int>, created: F, registered: bool): Pauses<F> {
    var released := Resolve(Resolve(Resolve(o, o.begin), o.escalate), GateFuture(o));
    var gated := released.(proposals := Some(data), gate := Some(Gate(created, generation)));
    Send(if registered then Move(gated, AwaitingApproval) else gated, Proposals, None, data)
  }

  /** The three pause steps, field by field. */
  lemma FindingsSet<F>(o: Pauses<F>, data: string, created: F)
    ensures SetFindings(o, data, created) ==
            if o.status !in {Queued, Cloning, Scanning, Assessed} then o
            else o.(status := Assessed, findings := Some(data), begin := if o.begin.Some? then o.begin else Some(created),
                    outbox := o.outbox + [Message(StatusChanged, Some(Assessed), ""), Message(Findings, None, data)])
  {
  }

  lemma AiTriageSet<F>(o: Pauses<F>, data: string, created: F)
    ensures var r := SetAiTriage(o, data, created);
            if o.status in {Queued, Cloning, Scanning, Assessed, AwaitingAiTriage}
               || (o.status == Applying && (o.candidates.None? || (o.escalate.Some? && o.escalate.value !in o.resolutions)))
            then && r.status == AwaitingAiTriage && r.candidates == Some(data)
                 && r.escalate == (if o.escalate.Some? then o.escalate else Some(created))
                 && (o.begin.Some? ==> o.begin.value in r.resolutions) && o.resolutions <= r.resolutions
                 && (forall f | f in r.resolutions :: f in o.resolutions || o.begin == Some(f))
                 && r.outbox == o.outbox + [Message(StatusChanged, Some(AwaitingAiTriage), ""), Message(AiTriage, None, data)]
                 && (r.begin, r.gate, r.findings, r.proposals) == (o.begin, o.gate, o.findings, o.proposals)
            else r == o
  {
  }

  lemma ProposalsSet<F>(o: Pauses<F>, data: string, generation: Option<int>, created: F, registered: bool)
    ensures var r := SetProposals(o, data, generation, created, registered);
            && r.status == (if registered then AwaitingApproval else o.status) && r.proposals == Some(data)
            && r.gate == Some(Gate(created, generation)) && o.resolutions <= r.resolutions
            && (forall f | o.begin == Some(f) || o.escalate == Some(f) || GateFuture(o) == Some(f) :: f in r.resolutions)
            && (forall f | f in r.resolutions ::
                  f in o.resolutions || o.begin == Some(f) || o.escalate == Some(f) || GateFuture(o) == Some(f))
            && r.outbox == o.outbox + (if registered then [Message(StatusChanged, Some(AwaitingApproval), "")] else [])
                           + [Message(Proposals, None, data)]
            && (r.begin, r.escalate, r.findings, r.candidates) == (o.begin, o.escalate, o.findings, o.candidates)
  {
  }

  // ---------- as the registry runs it ----------

  class Future {
    var done: bool

    constructor ()
      ensures !done
    {
      done := false;
    }

    /** `set_result` raises on a future that is done: no caller may reach it twice. */
    method SetResult()
      requires !done
      modifies this
      ensures done
    {
      done := true;
    }
  }

  class Operation {
    var status: Status
    var findings: Option<string>
    var candidates: Option<string>
    var proposals: Option<string>
    var begin: Option<Future>
    var escalate: Option<Future>
    var gate: Option<Gate<Future>>
    var subscribers: seq<Queue>
    ghost var resolutions: seq<Future>
    ghost var outbox: seq<Message>
    const id: string
    const project: string

    constructor (id: string, project: string)
      ensures this.id == id && this.project == project
      ensures Valid() && State() == Pauses(Queued, None, None, None, None, None, None, [], []) && subscribers == []
    {
      this.id, this.project := id, project;
      status, findings, candidates, proposals := Queued, None, None, None;
      begin, escalate, gate, subscribers := None, None, None, [];
      resolutions, outbox := [], [];
    }

    ghost function State(): Pauses<Future>
      reads this
    {
      Pauses(status, findings, candidates, proposals, begin, escalate, gate, resolutions, outbox)
    }

    ghost function Futures(): set<Future>
      reads this
    {
      (if begin.Some? then {begin.value} else {}) + (if escalate.Some? then {escalate.value} else {})
      + (if gate.Some? then {gate.value.future} else {})
    }

    ghost function Listeners(): set<Queue>
      reads this
    {
      set q | q in subscribers
    }

    /** The futures the operation holds are done exactly when they have been resolved. */
    ghost predicate Valid()
      reads this, Futures()
    {
      Distinct(subscribers) && forall f | f in Futures() :: f.done <==> f in resolutions
    }

    /** Broadcasting offers the message to every subscriber and drops those that cannot take it. */
    method Tell(event: Event, carried: Option<Status>, data: string, ghost watch: set<Queue>)
      requires Distinct(subscribers) && Listeners() <= watch
      modifies this, Listeners()
      ensures Distinct(subscribers) && State() == Send(old(State()), event, carried, data)
      ensures Watched(subscribers, watch) == Sent(old(Watched(subscribers, watch)), Message(event, carried, data))
      ensures Futures() == old(Futures())
      ensures Listeners() <= old(Listeners())
    {
      hide Sent, Distinct;
      subscribers := Broadcast(subscribers, Message(event, carried, data), watch);
      outbox := outbox + [Message(event, carried, data)];
    }

    method MoveTo(next: Status, ghost watch: set<Queue>)
      requires Distinct(subscribers) && Listeners() <= watch
      modifies this, Listeners()
      ensures Distinct(subscribers) && State() == Move(old(State()), next)
      ensures Watched(subscribers, watch) == Sent(old(Watched(subscribers, watch)), Message(StatusChanged, Some(next), ""))
      ensures Futures() == old(Futures())
      ensures Listeners() <= old(Listeners())
    {
      hide Sent;
      status := next;
      Tell(StatusChanged, Some(next), "", watch);
    }

    /** The end of every pause step: the new status, if any, and then the payload. */
    method Announce(next: Option<Status>, event: Event, data: string, ghost watch: set<Queue>)
      requires Valid() && Listeners() <= watch
      modifies this, Listeners()
      ensures Valid() && Futures() == old(Futures())
      ensures State() == Send(if next.Some? then Move(old(State()), next.value) else old(State()), event, None, data)
      ensures old(outbox) <= outbox && Watched(subscribers, watch) == SentAll(old(Watched(subscribers, watch)), outbox[|old(outbox)|..])
    {
      hide Sent, SentAll;
      ghost var inbox, n := Watched(subscribers, watch), |outbox|;
      ghost var payload := Message(event, None, data);
      if next.Some? {
        MoveTo(next.value, watch);
        SentFew(inbox, Message(StatusChanged, next, ""), payload);
      }
      SentFew(inbox, payload, payload);
      Tell(event, None, data, watch);
      assert outbox[n..] == if next.Some? then [Message(StatusChanged, next, ""), payload] else [payload];
    }

    /** The `_close` marker goes to every subscriber with room for it; then all are forgotten. */
    method Close()
      requires Distinct(subscribers)
      modifies this, Listeners()
      ensures subscribers == [] && State() == old(State())
      ensures Watched(subscribers, old(Listeners())) == Shut(old(Watched(subscribers, Listeners())))
      ensures forall q | q in old(subscribers) ::
                q.items == old(q.items) + if q.maxsize == 0 || |old(q.items)| < q.maxsize then [Message.Close] else []
    {
      ghost var before := Watched(subscribers, Listeners());
      for i := 0 to |subscribers|
        invariant subscribers == old(subscribers) && State() == old(State())
        invariant forall j | 0 <= j < i :: subscribers[j].items == Offered(old(subscribers[j].items), subscribers[j].maxsize)
        invariant forall j | i <= j < |subscribers| :: subscribers[j].items == old(subscribers[j].items)
      {
        assert subscribers[i] in Listeners();
        var stored := subscribers[i].PutNowait(Message.Close);
      }
      subscribers := [];
      assert Watched(subscribers, old(Listeners())).items == Shut(before).items;
    }

    /** Resolving a future the operation holds, unless it is done. */
    method Release(future: Option<Future>)
      requires Valid() && (future.Some? ==> future.value in Futures())
      modifies this`resolutions, if future.Some? then {future.value} else {}
      ensures Valid() && State() == Resolve(old(State()), future)
      ensures future.Some? ==> future.value.done
    {
      if future.Some? && !future.value.done {
        future.value.SetResult();
        resolutions := resolutions + [future.value];
      }
    }

    /** A pending begin future is kept; an ignored event leaves everything, queues included, alone. */
    method StoreFindings(data: string) returns (created: Future)
      requires Valid()
      modifies this, Listeners()
      ensures Valid() && State() == SetFindings(old(State()), data, created)
      ensures old(outbox) <= outbox
      ensures Watched(subscribers, old(Listeners())) == SentAll(old(Watched(subscribers, Listeners())), outbox[|old(outbox)|..])
      ensures fresh(created) && !created.done
      ensures !Allows(FINDINGS_ALLOWED, old(status)) ==> unchanged(this) && unchanged(old(Listeners()))
    {
      hide Distinct, Watched;
      created := new Future();
      if status !in FINDINGS_ALLOWED {
        return;
      }
      findings := Some(data);
      if begin.None? {
        begin := Some(created);
      }
      Announce(Some(Assessed), Findings, data, Listeners());
    }

    /** Releases the begin pause and keeps an escalation future that exists. */
    method OpenTriage(data: string, created: Future)
      requires Valid() && created !in Futures() && created !in resolutions && !created.done
      modifies this, Futures(), Listeners()
      ensures Valid() && State() == TriageOpened(old(State()), data, created)
      ensures old(outbox) <= outbox
      ensures Watched(subscribers, old(Listeners())) == SentAll(old(Watched(subscribers, Listeners())), outbox[|old(outbox)|..])
    {
      hide Distinct, SentAll, Watched;
      Release(begin);
      candidates := Some(data);
      if escalate.None? {
        escalate := Some(created);
      }
      Announce(Some(AwaitingAiTriage), AiTriage, data, Listeners());
    }

    /** Late replays change nothing, queues included. */
    method StoreAiTriage(data: string) returns (created: Future)
      requires Valid()
      modifies this, Futures(), Listeners()
      ensures Valid() && State() == SetAiTriage(old(State()), data, created)
      ensures old(outbox) <= outbox
      ensures Watched(subscribers, old(Listeners())) == SentAll(old(Watched(subscribers, Listeners())), outbox[|old(outbox)|..])
      ensures fresh(created)
      ensures !Allows(AI_TRIAGE_ALLOWED, old(status)) || TriageIsOver(old(State()))
              ==> unchanged(this) && unchanged(old(Futures())) && unchanged(old(Listeners()))
    {
      hide TriageOpened, Distinct, Watched;
      created := new Future();
      if status !in AI_TRIAGE_ALLOWED {
        return;
      }
      if status == Applying && candidates.Some? {
        if escalate.None? || escalate.value.done {
          return;
        }
      }
      OpenTriage(data, created);
    }

    /** Releasing every pause the operation is in. */
    method ReleaseAll()
      requires Valid()
      modifies this`resolutions, Futures()
      ensures Valid() && State() == Resolve(Resolve(Resolve(old(State()), begin), escalate), GateFuture(old(State())))
      ensures forall f | f in Futures() :: f.done
    {
      hide Resolve;
      Release(begin);
      Release(escalate);
      Release(if gate.Some? then Some(gate.value.future) else None);
    }

    /** The body run under the gate lock and the broadcasts after it: the new gate is the only
        future of the operation that is still pending. */
    method StoreProposals(data: string, generation: Option<int>, registered: bool) returns (created: Future)
      requires Valid()
      modifies this, Futures(), Listeners()
      ensures Valid() && State() == SetProposals(old(State()), data, generation, created, registered)
      ensures old(outbox) <= outbox
      ensures Watched(subscribers, old(Listeners())) == SentAll(old(Watched(subscribers, Listeners())), outbox[|old(outbox)|..])
      ensures fresh(created) && gate == Some(Gate(created, generation))
      ensures forall f | f in Futures() + old(Futures()) :: f.done <==> f != created
    {
      hide Resolve, Distinct, SentAll, Watched;
      ReleaseAll();
      proposals := Some(data);
      created := new Future();
      gate := Some(Gate(created, generation));
      Announce(if registered then Some(AwaitingApproval) else None, Proposals, data, Listeners());
    }
  }

  // ---------- every run of one operation ----------

  /** The steps of the registry, and what routes and the approval bridge do between them: resolve a
      pending future or drop one that is resolved. */
  datatype Step =
    | FindingsReady(data: string) | AiTriageReady(data: string)
    | ProposalsReady(data: string, generation: Option<int>, registered: bool) | Transition(status: Status)
    | AnswerBegin | AnswerEscalate | AnswerGate
    | DropBegin | DropEscalate | DropGate

  /** An operation with the next unused future and all futures ever made for its three pauses. */
  datatype History = History(op: Pauses<nat>, unused: nat, begins: set<nat>, escalates: set<nat>, gates: set<nat>)

  const CREATED := History(Pauses(Queued, None, None, None, None, None, None, [], []), 0, {}, {}, {})

  predicate Pending(o: Pauses<nat>, f: Option<nat>) { f.Some? && f.value !in o.resolutions }

  predicate Resolved(o: Pauses<nat>, f: Option<nat>) { f.Some? && f.value in o.resolutions }

  predicate Enabled(h: History, step: Step) {
    match step
    case AnswerBegin => Pending(h.op, h.op.begin)
    case AnswerEscalate => Pending(h.op, h.op.escalate)
    case AnswerGate => Pending(h.op, GateFuture(h.op))
    case DropBegin => Resolved(h.op, h.op.begin)
    case DropEscalate => Resolved(h.op, h.op.escalate)
    case DropGate => Resolved(h.op, GateFuture(h.op))
    case _ => true
  }

  /** What a step makes of the operation; `created` is the future it may use. */
  function Effect(o: Pauses<nat>, step: Step, created: nat): Pauses<nat> {
    match step
    case FindingsReady(data) => SetFindings(o, data, created)
    case AiTriageReady(data) => SetAiTriage(o, data, created)
    case ProposalsReady(data, generation, registered) => SetProposals(o, data, generation, created, registered)
    case Transition(status) => Move(o, status)
    case AnswerBegin => Resolve(o, o.begin)
    case AnswerEscalate => Resolve(o, o.escalate)
    case AnswerGate => Resolve(o, GateFuture(o))
    case DropBegin => o.(begin := None)
    case DropEscalate => o.(escalate := None)
    case DropGate => o.(gate := None)
  }

  function Members(f: Option<nat>): set<nat> { if f.Some? then {f.value} else {} }

  function Apply(h: History, step: Step): History {
    var op := Effect(h.op, step, h.unused);
    History(op, h.unused + 1, h.begins + Members(op.begin), h.escalates + Members(op.escalate),
            h.gates + Members(GateFuture(op)))
  }

  ghost predicate Possible(steps: seq<Step>) {
    steps == [] || (Possible(steps[..|steps| - 1]) && Enabled(After(steps[..|steps| - 1]), steps[|steps| - 1]))
  }

  function After(steps: seq<Step>): History {
    if steps == [] then CREATED else Apply(After(steps[..|steps| - 1]), steps[|steps| - 1])
  }

  /** All of these but the current one are resolved. */
  ghost predicate SettledBut(made: set<nat>, current: Option<nat>, resolutions: seq<nat>) {
    forall f | f in made :: f in resolutions || current == Some(f)
  }

  /** Futures are numbered as they are made. */
  ghost predicate Numbered(o: Pauses<nat>, unused: nat) {
    && (forall f | f in o.resolutions :: f < unused)
    && (o.begin.Some? ==> o.begin.value < unused)
    && (o.escalate.Some? ==> o.escalate.value < unused)
    && (o.gate.Some? ==> o.gate.value.future < unused)
  }

  ghost predicate Inv(h: History) {
    && Distinct(h.op.resolutions)
    && Numbered(h.op, h.unused)
    && SettledBut(h.begins, h.op.begin, h.op.resolutions)
    && SettledBut(h.escalates, h.op.escalate, h.op.resolutions)
    && SettledBut(h.gates, GateFuture(h.op), h.op.resolutions)
  }

  lemma {:induction false} ResolveOnce(o: Pauses<nat>, f: Option<nat>, unused: nat)
    requires Distinct(o.resolutions) && Numbered(o, unused) && (f.Some? ==> f.value < unused)
    ensures var o' := Resolve(o, f);
            && o' == o.(resolutions := o'.resolutions)
            && Distinct(o'.resolutions) && Numbered(o', unused)
            && (forall g | g in o.resolutions :: g in o'.resolutions)
            && (f.Some? ==> f.value in o'.resolutions)
  {
  }

  /** A step resolves each future at most once, forgets no resolution and drops no pending future. */
  ghost predicate Settles(o: Pauses<nat>, o': Pauses<nat>, unused: nat) {
    && Distinct(o'.resolutions) && Numbered(o', unused)
    && (forall g | g in o.resolutions :: g in o'.resolutions)
    && (o.begin.Some? ==> o'.begin == o.begin || o.begin.value in o'.resolutions)
    && (o.escalate.Some? ==> o'.escalate == o.escalate || o.escalate.value in o'.resolutions)
    && (o.gate.Some? ==> GateFuture(o') == GateFuture(o) || o.gate.value.future in o'.resolutions)
  }

  lemma {:induction false} ProposalsSettle(o: Pauses<nat>, data: string, generation: Option<int>, created: nat, registered: bool)
    requires Distinct(o.resolutions) && Numbered(o, created)
    ensures var o' := SetProposals(o, data, generation, created, registered);
            && Settles(o, o', created + 1)
            && o'.gate == Some(Gate(created, generation)) && o'.begin == o.begin && o'.escalate == o.escalate
            && created !in o'.resolutions
            && forall f | f in Members(o.begin) + Members(o.escalate) + Members(GateFuture(o)) :: f in o'.resolutions
  {
    hide Resolve, Distinct;
    var once := Resolve(o, o.begin);
    var twice := Resolve(once, o.escalate);
    ResolveOnce(o, o.begin, created);
    ResolveOnce(once, o.escalate, created);
    ResolveOnce(twice, GateFuture(o), created);
  }

  lemma {:induction false} EffectSettles(o: Pauses<nat>, step: Step, created: nat)
    requires Distinct(o.resolutions) && Numbered(o, created)
    requires step.DropBegin? ==> Resolved(o, o.begin)
    requires step.DropEscalate? ==> Resolved(o, o.escalate)
    requires step.DropGate? ==> Resolved(o, GateFuture(o))
    ensures Settles(o, Effect(o, step, created), created + 1)
  {
    hide Resolve, Distinct;
    match step
    case ProposalsReady(data, generation, registered) => ProposalsSettle(o, data, generation, created, registered);
    case AiTriageReady(_) => ResolveOnce(o, o.begin, created);
    case AnswerBegin => ResolveOnce(o, o.begin, created);
    case AnswerEscalate => ResolveOnce(o, o.escalate, created);
    case AnswerGate => ResolveOnce(o, GateFuture(o), created);
    case _ =>
  }

  lemma {:induction false} StepKeepsInv(h: History, step: Step)
    requires Inv(h) && Enabled(h, step)
    ensures Inv(Apply(h, step))
  {
    hide Effect, Distinct, Numbered;
    EffectSettles(h.op, step, h.unused);
  }

  /** In every run of an operation no future is resolved twice, and every future ever made for a pause
      has been resolved unless it is the one the operation holds now. So a replaced approval gate
      never leaves the bridge waiting. */
  lemma {:induction false} RunSettlesFutures(steps: seq<Step>)
    requires Possible(steps)
    ensures Inv(After(steps))
  {
    if steps != [] {
      RunSettlesFutures(steps[..|steps| - 1]);
      StepKeepsInv(After(steps[..|steps| - 1]), steps[|steps| - 1]);
    }
  }

  /** No step of the registry replaces a begin or escalation future that exists. */
  lemma PausesAreKept(o: Pauses<nat>, step: Step, created: nat)
    requires step.FindingsReady? || step.AiTriageReady? || step.ProposalsReady? || step.Transition?
    ensures o.begin.Some? ==> Effect(o, step, created).begin == o.begin
    ensures o.escalate.Some? ==> Effect(o, step, created).escalate == o.escalate
  {
  }

  /** In every run, right after proposals arrive the new gate is the only future that is pending, and
      all gates made before it are resolved. */
  lemma {:induction false} ProposalsLeaveOneGate(steps: seq<Step>, data: string, generation: Option<int>, registered: bool)
    requires Possible(steps)
    ensures var h := After(steps);
            var o := Apply(h, ProposalsReady(data, generation, registered)).op;
            && o.gate == Some(Gate(h.unused, generation))
            && Pending(o, GateFuture(o)) && !Pending(o, o.begin) && !Pending(o, o.escalate)
            && forall g | g in h.gates :: g in o.resolutions
  {
    hide SetProposals;
    var h := After(steps);
    RunSettlesFutures(steps);
    ProposalsSettle(h.op, data, generation, h.unused, registered);
  }

  // ---------- replayed events ----------

  /** One replayed `FindingsReady` or `AiTriageReady`. */
  function Replay<F(==)>(o: Pauses<F>, isFindings: bool, data: string, created: F): Pauses<F> {
    if isFindings then SetFindings(o, data, created) else SetAiTriage(o, data, created)
  }

  function ReplayAll<F(==)>(o: Pauses<F>, events: seq<(bool, string, F)>): Pauses<F>
    decreases |events|
  {
    if events == [] then o else ReplayAll(Replay(o, events[0].0, events[0].1, events[0].2), events[1..])
  }

  /** The operation is past both pauses: its status allows neither event, or triage is over. */
  predicate IsPast<F(==)>(o: Pauses<F>) {
    !Allows(AI_TRIAGE_ALLOWED, o.status) || TriageIsOver(o)
  }

  lemma {:induction false} PastStays<F>(o: Pauses<F>, events: seq<(bool, string, F)>)
    requires IsPast(o)
    ensures ReplayAll(o, events) == o
  {
    if events != [] { PastStays(o, events[1..]); }
  }

  /** Replays of any length leave the operation and everything it broadcast alone exactly when it is
      past both pauses: terminal, awaiting approval, submitting, or applying after triage. */
  lemma {:induction false} ReplayIsHarmless<F(!new)>(o: Pauses<F>, spare: F)
    ensures (forall events :: ReplayAll(o, events) == o) <==> IsPast(o)
  {
    if IsPast(o) {
      forall events ensures ReplayAll(o, events) == o {
        PastStays(o, events);
      }
    } else {
      var data := if o.candidates.Some? then o.candidates.value + "'" else "";
      var events := [(false, data, spare)];
      assert events[1..] == [];
      assert ReplayAll(o, events).candidates == Some(data);
      assert ReplayAll(o, events) != o;
    }
  }

  /** Terminal operations and operations that await approval are past both pauses. */
  lemma TerminalIsPast<F>(o: Pauses<F>)
    ensures IsTerminalStatus(o.status) || o.status.AwaitingApproval? || o.status.SubmittingPr? ==> IsPast(o)
  {
  }
}
