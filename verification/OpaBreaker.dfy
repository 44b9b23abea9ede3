/** The circuit breaker around OPA evaluation: the lock-guarded steps, the calls that interleave them,
    and what every interleaving keeps. */
module OpaBreaker {
  import opened Text

  // ---------- the steps taken under the lock ----------

  datatype Breaker = Breaker(timeouts: nat, disabled: bool, disabledAt: Option<real>, inFlight: bool)

  const CLOSED := Breaker(0, false, None, false)

  /** The cooldown and the limit on consecutive timeouts, both positive. */
  datatype Config = Config(cooldown: real, limit: nat)

  predicate Claimable(b: Breaker, now: real, config: Config) {
    b.disabled && b.disabledAt.Some? && now - b.disabledAt.value >= config.cooldown && !b.inFlight
  }

  function Settle(b: Breaker, ok: bool, now: real): Breaker {
    if ok then CLOSED else b.(disabled := true, disabledAt := Some(now), inFlight := false)
  }

  function CountTimeout(b: Breaker, now: real, config: Config): Breaker {
    var counted := b.(timeouts := b.timeouts + 1);
    if counted.timeouts >= config.limit then counted.(disabled := true, disabledAt := Some(now)) else counted
  }

  /** Clearing the count; the latch time that the code clears beside it is a local variable. */
  function Clear(b: Breaker): Breaker { b.(timeouts := 0) }

  /** How an evaluation ends: `good` output has exit code zero and is valid JSON. */
  datatype Outcome = TimedOut | NoBinary | Output(good: bool) | Crashed

  /** When a call claims a trial, counts a timeout and settles. */
  datatype Times = Times(claim: real, timeout: real, settle: real)

  // ---------- one call, run alone ----------

  class CircuitBreaker {
    var timeouts: nat
    var disabled: bool
    var disabledAt: Option<real>
    var inFlight: bool
    ghost var settles: nat

    constructor ()
      ensures State() == CLOSED && settles == 0
    {
      timeouts, disabled, disabledAt, inFlight, settles := 0, false, None, false, 0;
    }

    ghost function State(): Breaker
      reads this
    {
      Breaker(timeouts, disabled, disabledAt, inFlight)
    }

    method Reset()
      modifies this
      ensures State() == CLOSED && settles == old(settles)
    {
      timeouts, disabled, disabledAt, inFlight := 0, false, None, false;
    }

    method ClaimTrial(now: real, config: Config) returns (mine: bool)
      modifies this`inFlight
      ensures mine <==> old(disabled) && old(disabledAt).Some? && now - old(disabledAt).value >= config.cooldown && !old(inFlight)
      ensures mine == Claimable(old(State()), now, config)
      ensures State() == if mine then old(State()).(inFlight := true) else old(State())
    {
      if !(disabled && disabledAt.Some? && now - disabledAt.value >= config.cooldown && !inFlight) {
        return false;
      }
      inFlight := true;
      return true;
    }

    method SettleTrial(ok: bool, now: real)
      modifies this
      ensures State() == Settle(old(State()), ok, now) && settles == old(settles) + 1
      ensures !inFlight && disabled == !ok && disabledAt == (if ok then None else Some(now))
      ensures timeouts == if ok then 0 else old(timeouts)
    {
      settles := settles + 1;
      inFlight := false;
      if ok {
        timeouts, disabled, disabledAt := 0, false, None;
      } else {
        disabled, disabledAt := true, Some(now);
      }
    }

    method OnTimeout(now: real, config: Config)
      modifies this
      ensures State() == CountTimeout(old(State()), now, config) && settles == old(settles)
      ensures timeouts == old(timeouts) + 1 && inFlight == old(inFlight)
      ensures disabled == (old(disabled) || timeouts >= config.limit)
      ensures disabledAt == if timeouts >= config.limit then Some(now) else old(disabledAt)
    {
      timeouts := timeouts + 1;
      if timeouts >= config.limit {
        disabled, disabledAt := true, Some(now);
      }
    }

    /** `_settle_trial_if_needed`, with the call's two flags. */
    method SettleIfNeeded(isTrial: bool, trialSettled: bool, ok: bool, now: real) returns (settled: bool)
      modifies this
      ensures settled == (isTrial || trialSettled)
      ensures State() == if isTrial && !trialSettled then Settle(old(State()), ok, now) else old(State())
      ensures settles == old(settles) + if isTrial && !trialSettled then 1 else 0
    {
      settled := trialSettled;
      if isTrial && !trialSettled {
        SettleTrial(ok, now);
        settled := true;
      }
    }

    /** A call that nothing interleaves, with the clock as it reads it. It proceeds when the breaker is closed or lends it a trial; a
        trial is settled exactly once, whatever the outcome; only good output closes the breaker. */
    method RunOpa(outcome: Outcome, at: Times, config: Config) returns (rejected: bool, returned: bool)
      modifies this
      ensures State() == Alone(old(State()), outcome, at, config).breaker
      ensures var call := CallOf(Alone(old(State()), outcome, at, config), 0);
              call.phase == Finished && call.trial == (old(disabled) && !rejected) && settles == old(settles) + call.settles
      ensures rejected <==>
              && old(disabled)
              && (old(disabledAt).None? || at.claim - old(disabledAt).value < config.cooldown || old(inFlight))
      ensures rejected ==> State() == old(State()) && settles == old(settles)
      ensures returned <==> !rejected && outcome == Output(true)
      ensures !rejected && old(disabled) ==>
                && settles == old(settles) + 1 && !inFlight
                && timeouts == (if outcome.TimedOut? then old(timeouts) + 1
                                else if outcome in {NoBinary, Output(true)} then 0 else old(timeouts))
                && disabled == (outcome != Output(true)) && disabledAt == (if disabled then Some(at.settle) else None)
      ensures !rejected && !old(disabled) ==>
                && settles == old(settles) && inFlight == old(inFlight)
                && timeouts == (if outcome.TimedOut? then old(timeouts) + 1
                                else if outcome.Crashed? then old(timeouts) else 0)
                && disabled == (outcome.TimedOut? && timeouts >= config.limit)
                && disabledAt == (if disabled then Some(at.timeout) else old(disabledAt))
    {
      hide Alone;
      AloneEnds(State(), outcome, at, config);
      var isTrial, settled := false, false;
      if disabled {
        isTrial := ClaimTrial(at.claim, config);
        if !isTrial {
          return true, false;
        }
      }
      if outcome.Output? {
        if !isTrial {
          timeouts := 0;
        }
        settled := SettleIfNeeded(isTrial, settled, outcome.good, at.settle);
        returned := outcome.good;
      } else if outcome.TimedOut? {
        OnTimeout(at.timeout, config);
        settled := SettleIfNeeded(isTrial, settled, false, at.settle);
        returned := false;
      } else if outcome.NoBinary? {
        settled := SettleIfNeeded(isTrial, settled, false, at.settle);
        timeouts := 0;
        returned := false;
      } else {
        returned := false;
      }
      if isTrial && !settled {
        SettleTrial(false, at.settle);
      }
      return false, returned;
    }
  }

  // ---------- interleaved calls ----------

  /** Where a call stands between two of its steps. */
  datatype Phase =
    | Start | Gated | Evaluating | Failing | Missing | Clearing
    | HasOutput(good: bool) | Checked(good: bool) | Finished

  datatype Call = Call(phase: Phase, trial: bool, settles: nat)

  datatype Event = Timeout | Cleared | Claimed(at: real) | Settled(ok: bool)

  /** The shared state, the calls so far, the call that holds the trial, and what has happened. */
  datatype System = System(breaker: Breaker, calls: map<nat, Call>, owner: Option<nat>, clock: real, log: seq<Event>)

  const INITIAL := System(CLOSED, map[], None, 0.0, [])

  function CallOf(s: System, i: nat): Call {
    if i in s.calls then s.calls[i] else Call(Start, false, 0)
  }

  function MoveTo(s: System, i: nat, phase: Phase): System {
    s.(calls := s.calls[i := CallOf(s, i).(phase := phase)])
  }

  function ClaimStep(s: System, i: nat, now: real, config: Config): System {
    if Claimable(s.breaker, now, config)
    then s.(breaker := s.breaker.(inFlight := true), calls := s.calls[i := CallOf(s, i).(phase := Evaluating, trial := true)],
            owner := Some(i), log := s.log + [Claimed(now)])
    else MoveTo(s, i, Finished)
  }

  function TimeoutStep(s: System, i: nat, now: real, config: Config): System {
    MoveTo(s, i, Failing).(breaker := CountTimeout(s.breaker, now, config), log := s.log + [Timeout])
  }

  function ClearStep(s: System, i: nat, next: Phase): System {
    MoveTo(s, i, next).(breaker := Clear(s.breaker), log := s.log + [Cleared])
  }

  function SettleStep(s: System, i: nat, ok: bool, now: real, next: Phase): System {
    var call := CallOf(s, i);
    if call.trial && call.settles == 0
    then s.(breaker := Settle(s.breaker, ok, now), calls := s.calls[i := Call(next, true, 1)], owner := None,
            log := s.log + [Settled(ok)])
    else MoveTo(s, i, next)
  }

  function Evaluated(s: System, i: nat, now: real, outcome: Outcome, config: Config): System {
    match outcome
    case TimedOut => TimeoutStep(s, i, now, config)
    case NoBinary => MoveTo(s, i, Missing)
    case Output(good) => MoveTo(s, i, HasOutput(good))
    case Crashed => MoveTo(s, i, Failing)
  }

  /** One step of call `i`; the outcome is used when its evaluation ends. */
  function Next(s: System, i: nat, now: real, outcome: Outcome, config: Config): System {
    match CallOf(s, i).phase
    case Start => MoveTo(s, i, if s.breaker.disabled then Gated else Evaluating)
    case Gated => ClaimStep(s, i, now, config)
    case Evaluating => Evaluated(s, i, now, outcome, config)
    case Failing => SettleStep(s, i, false, now, Finished)
    case Missing => SettleStep(s, i, false, now, Clearing)
    case Clearing => ClearStep(s, i, Finished)
    case HasOutput(good) => if CallOf(s, i).trial then MoveTo(s, i, Checked(good)) else ClearStep(s, i, Checked(good))
    case Checked(good) => SettleStep(s, i, good, now, Finished)
    case Finished => s
  }

  /** One step of call 0, at the time it reads off the clock there. */
  function StepAlone(s: System, outcome: Outcome, at: Times, config: Config): System {
    var phase := CallOf(s, 0).phase;
    Next(s, 0, if phase == Gated then at.claim else if phase == Evaluating then at.timeout else at.settle, outcome, config)
  }

  /** The evaluation and what follows it. */
  function FromEvaluation(s: System, outcome: Outcome, at: Times, config: Config): System {
    StepAlone(StepAlone(StepAlone(s, outcome, at, config), outcome, at, config), outcome, at, config)
  }

  /** Call 0 run to its end with no other call between its steps. */
  function Alone(b: Breaker, outcome: Outcome, at: Times, config: Config): System {
    var entered := StepAlone(System(b, map[], None, at.claim, []), outcome, at, config);
    var claimed := if CallOf(entered, 0).phase == Gated then StepAlone(entered, outcome, at, config) else entered;
    if CallOf(claimed, 0).phase == Finished then claimed else FromEvaluation(claimed, outcome, at, config)
  }

  lemma {:induction false} EvaluationEnds(s: System, outcome: Outcome, at: Times, config: Config)
    requires CallOf(s, 0).phase == Evaluating && CallOf(s, 0).settles == 0
    ensures var r, trial, b := FromEvaluation(s, outcome, at, config), CallOf(s, 0).trial, s.breaker;
            && CallOf(r, 0) == Call(Finished, trial, if trial then 1 else 0)
            && r.breaker.timeouts == (if outcome.TimedOut? then b.timeouts + 1
                                      else if outcome in {NoBinary, Output(true)} || (outcome.Output? && !trial) then 0
                                      else b.timeouts)
            && r.breaker.inFlight == (!trial && b.inFlight)
            && (trial ==> && r.breaker.disabled == (outcome != Output(true))
                          && r.breaker.disabledAt == if r.breaker.disabled then Some(at.settle) else None)
            && (!trial ==> var latches := outcome.TimedOut? && b.timeouts + 1 >= config.limit;
                           && r.breaker.disabled == (latches || b.disabled)
                           && r.breaker.disabledAt == if latches then Some(at.timeout) else b.disabledAt)
  {
    var s1 := StepAlone(s, outcome, at, config);
    assert CallOf(s1, 0).trial == CallOf(s, 0).trial && CallOf(s1, 0).settles == 0;
  }

  /** How a call run alone leaves the breaker. */
  lemma {:induction false} AloneEnds(b: Breaker, outcome: Outcome, at: Times, config: Config)
    ensures var s := Alone(b, outcome, at, config);
            var rejected := b.disabled && !Claimable(b, at.claim, config);
            && CallOf(s, 0) == Call(Finished, b.disabled && !rejected, if b.disabled && !rejected then 1 else 0)
            && (rejected ==> s.breaker == b)
            && (!rejected && b.disabled ==>
                  && s.breaker.timeouts == (if outcome.TimedOut? then b.timeouts + 1
                                            else if outcome in {NoBinary, Output(true)} then 0 else b.timeouts)
                  && s.breaker.disabled == (outcome != Output(true)) && !s.breaker.inFlight
                  && s.breaker.disabledAt == (if s.breaker.disabled then Some(at.settle) else None))
            && (!b.disabled ==>
                  && s.breaker.timeouts == (if outcome.TimedOut? then b.timeouts + 1
                                            else if outcome.Crashed? then b.timeouts else 0)
                  && s.breaker.disabled == (outcome.TimedOut? && b.timeouts + 1 >= config.limit)
                  && s.breaker.disabledAt == (if s.breaker.disabled then Some(at.timeout) else b.disabledAt)
                  && s.breaker.inFlight == b.inFlight)
  {
    hide FromEvaluation;
    var entered := StepAlone(System(b, map[], None, at.claim, []), outcome, at, config);
    if !b.disabled {
      EvaluationEnds(entered, outcome, at, config);
    } else if Claimable(b, at.claim, config) {
      EvaluationEnds(StepAlone(entered, outcome, at, config), outcome, at, config);
    }
  }

  /** Timeouts since the count was last cleared. */
  function SinceClear(log: seq<Event>): nat {
    if log == [] then 0
    else match log[|log| - 1]
      case Timeout => SinceClear(log[..|log| - 1]) + 1
      case Cleared => 0
      case Claimed(_) => SinceClear(log[..|log| - 1])
      case Settled(ok) => if ok then 0 else SinceClear(log[..|log| - 1])
  }

  predicate Unsettled(call: Call) { call.trial && call.settles == 0 }

  ghost predicate CallOk(call: Call) {
    && call.settles <= 1 && (call.settles == 1 ==> call.trial)
    && (call.phase in {Start, Gated} ==> !call.trial)
    && (call.phase in {Clearing, Finished} ==> !Unsettled(call))
    && (call.phase !in {Clearing, Finished} ==> call.settles == 0)
  }

  ghost predicate OwnerOk(s: System) {
    && (forall i | i in s.calls :: CallOk(s.calls[i]) && (Unsettled(s.calls[i]) <==> s.owner == Some(i)))
    && (s.owner.Some? ==> s.owner.value in s.calls)
  }

  ghost predicate LatchOk(s: System) {
    && (s.breaker.inFlight <==> s.owner.Some?)
    && (s.breaker.inFlight ==> s.breaker.disabled)
    && (s.breaker.disabled <==> s.breaker.disabledAt.Some?)
  }

  /** Claims lie in the past, and before the latch time while no trial runs. */
  ghost predicate TimesOk(s: System) {
    && (s.breaker.disabledAt.Some? ==> s.breaker.disabledAt.value <= s.clock)
    && forall k | 0 <= k < |s.log| && s.log[k].Claimed? ::
         && s.log[k].at <= s.clock
         && (!s.breaker.inFlight && s.breaker.disabledAt.Some? ==> s.log[k].at <= s.breaker.disabledAt.value)
  }

  ghost predicate Spaced(log: seq<Event>, cooldown: real) {
    forall j, k | 0 <= j < k < |log| && log[j].Claimed? && log[k].Claimed? :: log[k].at - log[j].at >= cooldown
  }

  ghost predicate Inv(s: System, config: Config) {
    OwnerOk(s) && LatchOk(s) && TimesOk(s) && Spaced(s.log, config.cooldown) && s.breaker.timeouts == SinceClear(s.log)
  }

  lemma {:induction false} SinceClearStep(log: seq<Event>, e: Event)
    ensures SinceClear(log + [e]) ==
            if e.Timeout? then SinceClear(log) + 1 else if e.Cleared? || e == Settled(true) then 0 else SinceClear(log)
  {
  }

  lemma {:induction false} MoveKeepsInv(s: System, i: nat, phase: Phase, config: Config)
    requires Inv(s, config) && CallOk(CallOf(s, i).(phase := phase))
    ensures Inv(MoveTo(s, i, phase), config)
  {
  }

  lemma {:induction false} ClaimKeepsInv(s: System, i: nat, config: Config)
    requires Inv(s, config) && CallOf(s, i).phase == Gated
    ensures Inv(ClaimStep(s, i, s.clock, config), config)
  {
    hide SinceClear;
    SinceClearStep(s.log, Claimed(s.clock));
  }

  lemma {:induction false} TimeoutKeepsInv(s: System, i: nat, config: Config)
    requires Inv(s, config) && CallOf(s, i).phase == Evaluating
    ensures Inv(TimeoutStep(s, i, s.clock, config), config)
  {
  }

  lemma {:induction false} ClearKeepsInv(s: System, i: nat, next: Phase, config: Config)
    requires Inv(s, config) && CallOk(CallOf(s, i).(phase := next))
    ensures Inv(ClearStep(s, i, next), config)
  {
  }

  lemma {:induction false} SettleKeepsInv(s: System, i: nat, ok: bool, next: Phase, config: Config)
    requires Inv(s, config) && CallOf(s, i).phase !in {Start, Gated} && next in {Clearing, Finished}
    ensures Inv(SettleStep(s, i, ok, s.clock, next), config)
  {
    hide SinceClear;
    SinceClearStep(s.log, Settled(ok));
  }

  lemma {:induction false} NextKeepsInv(s: System, i: nat, outcome: Outcome, config: Config)
    requires Inv(s, config)
    ensures Inv(Next(s, i, s.clock, outcome, config), config)
  {
    hide Inv, MoveTo, ClaimStep, TimeoutStep, ClearStep, SettleStep;
    var call := CallOf(s, i);
    CallIsOk(s, i, config);
    match call.phase {
      case Start => MoveKeepsInv(s, i, if s.breaker.disabled then Gated else Evaluating, config);
      case Gated => ClaimKeepsInv(s, i, config);
      case Evaluating =>
        match outcome {
          case TimedOut => TimeoutKeepsInv(s, i, config);
          case NoBinary => MoveKeepsInv(s, i, Missing, config);
          case Output(good) => MoveKeepsInv(s, i, HasOutput(good), config);
          case Crashed => MoveKeepsInv(s, i, Failing, config);
        }
      case Failing => SettleKeepsInv(s, i, false, Finished, config);
      case Missing => SettleKeepsInv(s, i, false, Clearing, config);
      case Clearing => ClearKeepsInv(s, i, Finished, config);
      case HasOutput(good) =>
        MoveKeepsInv(s, i, Checked(good), config);
        ClearKeepsInv(s, i, Checked(good), config);
      case Checked(good) => SettleKeepsInv(s, i, good, Finished, config);
      case Finished =>
    }
  }

  lemma CallIsOk(s: System, i: nat, config: Config)
    requires Inv(s, config)
    ensures CallOk(CallOf(s, i))
  {
  }

  // ---------- every run ----------

  /** Call `call` takes a step at time `now`. */
  datatype Move = Move(call: nat, now: real, outcome: Outcome)

  function Run(s: System, moves: seq<Move>, config: Config): System {
    if moves == [] then s
    else
      var before, m := Run(s, moves[..|moves| - 1], config), moves[|moves| - 1];
      Next(before.(clock := m.now), m.call, m.now, m.outcome, config)
  }

  function After(moves: seq<Move>, config: Config): System { Run(INITIAL, moves, config) }

  /** The clock never goes back. */
  ghost predicate Monotone(start: real, moves: seq<Move>) {
    && (moves != [] ==> moves[0].now >= start)
    && forall j, k | 0 <= j < k < |moves| :: moves[j].now <= moves[k].now
  }

  ghost predicate Possible(moves: seq<Move>) { Monotone(INITIAL.clock, moves) }

  /** Every run from a good state ends in a good state. */
  lemma {:induction false} RunKeepsInv(s: System, moves: seq<Move>, config: Config)
    requires Inv(s, config) && Monotone(s.clock, moves)
    ensures Inv(Run(s, moves, config), config)
    ensures Run(s, moves, config).clock == if moves == [] then s.clock else moves[|moves| - 1].now
  {
    hide Inv;
    if moves != [] {
      var n := |moves| - 1;
      var before, m := Run(s, moves[..n], config), moves[n];
      RunKeepsInv(s, moves[..n], config);
      WaitKeepsInv(before, m.now, config);
      NextKeepsInv(before.(clock := m.now), m.call, m.outcome, config);
      NextKeepsClock(before.(clock := m.now), m.call, m.outcome, config);
    }
  }

  lemma InitialIsGood(config: Config)
    ensures Inv(INITIAL, config)
  {
  }

  lemma WaitKeepsInv(s: System, now: real, config: Config)
    requires Inv(s, config) && s.clock <= now
    ensures Inv(s.(clock := now), config)
  {
  }

  lemma NextKeepsClock(s: System, i: nat, outcome: Outcome, config: Config)
    ensures Next(s, i, s.clock, outcome, config).clock == s.clock
  {
  }

  /** At most one call holds a trial that is not settled; the flag is up exactly while one does, and
      then the breaker is latched; the breaker is latched exactly when it has a latch time. */
  lemma {:induction false} TrialIsExclusive(moves: seq<Move>, config: Config)
    requires Possible(moves)
    ensures var s := After(moves, config);
            && (forall i, j | i in s.calls && j in s.calls && Unsettled(s.calls[i]) && Unsettled(s.calls[j]) :: i == j)
            && (s.breaker.inFlight <==> exists i :: i in s.calls && Unsettled(s.calls[i]))
            && (s.breaker.inFlight ==> s.breaker.disabled)
            && (s.breaker.disabled <==> s.breaker.disabledAt.Some?)
  {
    RunKeepsInv(INITIAL, moves, config);
    var s := After(moves, config);
    if s.breaker.inFlight {
      assert Unsettled(s.calls[s.owner.value]);
    }
  }

  /** A finished call has settled its trial exactly once, and a call without one never settles. */
  lemma {:induction false} TrialsSettleOnce(moves: seq<Move>, config: Config, i: nat)
    requires Possible(moves) && i in After(moves, config).calls
    ensures var call := After(moves, config).calls[i];
            && call.settles <= 1
            && (!call.trial ==> call.settles == 0)
            && (call.phase == Finished && call.trial ==> call.settles == 1)
  {
    RunKeepsInv(INITIAL, moves, config);
  }

  /** A gated call is lent a trial exactly when the cooldown since the latch time is over and no trial is
      unsettled; otherwise it finishes without one. */
  lemma {:induction false} GatedCallClaims(moves: seq<Move>, config: Config, m: Move)
    requires Possible(moves + [m]) && CallOf(After(moves, config), m.call).phase == Gated
    ensures var s, s' := After(moves, config), After(moves + [m], config);
            if s.breaker.disabledAt.Some? && m.now - s.breaker.disabledAt.value >= config.cooldown
               && forall i | i in s.calls :: !(s.calls[i].trial && s.calls[i].settles == 0)
            then s'.log == s.log + [Claimed(m.now)] && CallOf(s', m.call) == Call(Evaluating, true, 0)
            else s'.log == s.log && CallOf(s', m.call) == Call(Finished, false, 0)
  {
    hide SinceClear, TimesOk, Spaced;
    assert (moves + [m])[..|moves|] == moves;
    assert forall k | 0 <= k < |moves| :: (moves + [m])[k] == moves[k];
    InitialIsGood(config);
    RunKeepsInv(INITIAL, moves, config);
    CallIsOk(After(moves, config), m.call, config);
    var s := After(moves, config);
    if s.breaker.inFlight { assert Unsettled(s.calls[s.owner.value]); }
  }

  /** A call that has evaluated counts its timeout; the breaker is then latched, now, exactly when the
      timeouts since the last clearing event reach the limit or it was latched before. */
  lemma {:induction false} TimeoutLatches(moves: seq<Move>, config: Config, m: Move)
    requires Possible(moves + [m]) && CallOf(After(moves, config), m.call).phase == Evaluating && m.outcome.TimedOut?
    ensures var s, s' := After(moves, config), After(moves + [m], config);
            && s'.log == s.log + [Timeout] && s'.breaker.timeouts == SinceClear(s.log) + 1
            && s'.breaker.disabled == (s.breaker.disabled || SinceClear(s.log) + 1 >= config.limit)
            && s'.breaker.disabledAt == if SinceClear(s.log) + 1 >= config.limit then Some(m.now) else s.breaker.disabledAt
  {
    hide SinceClear, TimesOk, Spaced, OwnerOk;
    assert (moves + [m])[..|moves|] == moves;
    assert forall k | 0 <= k < |moves| :: (moves + [m])[k] == moves[k];
    InitialIsGood(config);
    RunKeepsInv(INITIAL, moves, config);
  }

  /** Any two claims are at least a cooldown apart. */
  lemma {:induction false} ClaimsAreSpaced(moves: seq<Move>, config: Config, j: nat, k: nat)
    requires Possible(moves)
    requires var log := After(moves, config).log; j < k < |log| && log[j].Claimed? && log[k].Claimed?
    ensures After(moves, config).log[k].at - After(moves, config).log[j].at >= config.cooldown
  {
    RunKeepsInv(INITIAL, moves, config);
  }

  /** The breaker opens only at a timeout, and then the configured number of timeouts happened with no
      clearing event among them. */
  lemma {:induction false} OpensOnlyAtLimit(moves: seq<Move>, config: Config, m: Move) returns (from: nat)
    requires Possible(moves + [m])
    requires !After(moves, config).breaker.disabled && After(moves + [m], config).breaker.disabled
    ensures After(moves + [m], config).log == After(moves, config).log + [Timeout]
    ensures var log := After(moves + [m], config).log;
            && from <= |log| && (forall k | from <= k < |log| :: !log[k].Cleared? && log[k] != Settled(true))
            && |Timeouts(log[from..])| >= config.limit
  {
    hide SinceClear, TimesOk, Spaced, OwnerOk;
    assert (moves + [m])[..|moves|] == moves;
    assert forall k | 0 <= k < |moves| :: (moves + [m])[k] == moves[k];
    InitialIsGood(config);
    RunKeepsInv(INITIAL, moves, config);
    RunKeepsInv(INITIAL, moves + [m], config);
    OwnerIsLatched(After(moves, config), m.call, config);
    from := SinceClearMeans(After(moves + [m], config).log);
  }

  /** An unsettled trial means an open breaker. */
  lemma OwnerIsLatched(s: System, i: nat, config: Config)
    requires Inv(s, config)
    ensures Unsettled(CallOf(s, i)) ==> s.breaker.disabled
  {
  }

  /** The count is the number of timeouts in a part of the log that reaches to its end and holds no
      clearing event. */
  lemma {:induction false} SinceClearMeans(log: seq<Event>) returns (from: nat)
    ensures from <= |log| && (forall k | from <= k < |log| :: !log[k].Cleared? && log[k] != Settled(true))
    ensures |Timeouts(log[from..])| == SinceClear(log)
  {
    from := |log|;
    if log != [] && !log[|log| - 1].Cleared? && log[|log| - 1] != Settled(true) {
      var n := |log| - 1;
      from := SinceClearMeans(log[..n]);
      assert log[from..][..n - from] == log[..n][from..];
      assert log[from..][n - from] == log[n];
    }
  }

  function Timeouts(log: seq<Event>): seq<Event> {
    if log == [] then []
    else Timeouts(log[..|log| - 1]) + if log[|log| - 1].Timeout? then [Timeout] else []
  }

  // ---------- resetting ----------

  /** A reset clears the breaker and leaves the calls where they are. */
  function Cleaned(s: System): System { s.(breaker := CLOSED, log := s.log + [Cleared]) }

  ghost predicate Exclusive(s: System) {
    forall i, j | i in s.calls && j in s.calls && Unsettled(s.calls[i]) && Unsettled(s.calls[j]) :: i == j
  }

  /** The slot is free although call `c` has not settled its trial. */
  ghost predicate Stray(s: System, c: nat) {
    !s.breaker.inFlight && c in s.calls && Unsettled(s.calls[c])
  }

  lemma {:induction false} OneMore(s: System, moves: seq<Move>, m: Move, config: Config)
    requires Monotone(s.clock, moves) && m.now >= (if moves == [] then s.clock else moves[|moves| - 1].now)
    ensures Monotone(s.clock, moves + [m])
    ensures Run(s, moves + [m], config) == Next(Run(s, moves, config).(clock := m.now), m.call, m.now, m.outcome, config)
  {
    assert (moves + [m])[..|moves|] == moves;
  }

  lemma {:induction false} TimeoutCall(s: System, c: nat, i: nat, config: Config)
    requires Stray(s, c) && !s.breaker.disabled && i !in s.calls
    ensures var r := Next(Next(s, i, s.clock, TimedOut, config), i, s.clock, TimedOut, config);
            && Stray(r, c) && r.clock == s.clock && r.breaker.timeouts == s.breaker.timeouts + 1
            && (r.breaker.disabled <==> s.breaker.timeouts + 1 >= config.limit)
            && (r.breaker.disabled ==> r.breaker.disabledAt == Some(s.clock))
  {
  }

  /** Fresh calls that time out, one after the other, open the breaker again. */
  lemma {:induction false} OpenAgain(s: System, moves: seq<Move>, c: nat, config: Config) returns (more: seq<Move>)
    requires Monotone(s.clock, moves) && (moves != [] ==> moves[|moves| - 1].now == s.clock)
    requires var r := Run(s, moves, config); r.clock == s.clock && Stray(r, c) && !r.breaker.disabled
    ensures Monotone(s.clock, more) && (more != [] ==> more[|more| - 1].now == s.clock)
    ensures var r := Run(s, more, config); r.clock == s.clock && Stray(r, c) && r.breaker.disabled && r.breaker.disabledAt == Some(s.clock)
    decreases config.limit - Run(s, moves, config).breaker.timeouts
  {
    hide Next, Stray, Run;
    var r := Run(s, moves, config);
    var i := Above(r.calls.Keys);
    var m := Move(i, s.clock, TimedOut);
    OneMore(s, moves, m, config);
    OneMore(s, moves + [m], m, config);
    assert r.(clock := s.clock) == r;
    NextKeepsClock(r, i, TimedOut, config);
    var r1 := Next(r, i, s.clock, TimedOut, config);
    assert r1.(clock := s.clock) == r1;
    TimeoutCall(r, c, i, config);
    more := moves + [m] + [m];
    if !Run(s, more, config).breaker.disabled {
      more := OpenAgain(s, more, c, config);
    }
  }

  /** After a reset during a trial, another call can be lent a second trial. */
  lemma {:induction false} ResetBreaks(s: System, config: Config) returns (moves: seq<Move>)
    requires Inv(s, config) && s.breaker.inFlight && config.cooldown >= 0.0
    ensures Monotone(s.clock, moves) && !Exclusive(Run(Cleaned(s), moves, config))
  {
    var c, start := s.owner.value, Cleaned(s);
    assert Stray(start, c) && Run(start, [], config) == start;
    moves := OpenAgain(start, [], c, config);
    var r := Run(start, moves, config);
    var j := Above(r.calls.Keys);
    var m, n := Move(j, s.clock, Crashed), Move(j, s.clock + config.cooldown, Crashed);
    OneMore(start, moves, m, config);
    OneMore(start, moves + [m], n, config);
    moves := moves + [m] + [n];
    var end := Run(start, moves, config);
    assert Unsettled(end.calls[c]) && Unsettled(end.calls[j]) && c != j;
  }

  /** A reset keeps trials exclusive in every later run exactly when no trial is in flight. */
  lemma {:induction false} ResetIsSafeWhenIdle(s: System, config: Config)
    requires Inv(s, config) && config.cooldown >= 0.0
    ensures (forall moves | Monotone(s.clock, moves) :: Exclusive(Run(Cleaned(s), moves, config))) <==> !s.breaker.inFlight
  {
    if s.breaker.inFlight {
      var moves := ResetBreaks(s, config);
    } else {
      SinceClearStep(s.log, Cleared);
      forall moves | Monotone(s.clock, moves) ensures Exclusive(Run(Cleaned(s), moves, config)) {
        RunKeepsInv(Cleaned(s), moves, config);
      }
    }
  }
}
