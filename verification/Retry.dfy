/** The retry loop with capped backoff, driven by a circuit breaker. */
module Retries {
  import opened Orders
  import opened CircuitBreakers

  /** Durations are in nanoseconds. */
  datatype RetryConfig = RetryConfig(maxRetries: int, baseDelay: int, maxDelay: int, multiplier: real)

  /** What the surroundings do around one attempt: when the breaker is asked, whether
      the call fails and when that is recorded, and whether the context ends the pause. */
  datatype Turn = Turn(askedAt: int, fails: bool, failedAt: int, cancelled: bool)

  datatype Step = Granted | Refused | Called(failed: bool) | Recorded(failed: bool) | Paused(delay: int)

  datatype Outcome = Success | BreakerOpen(retryAfter: int) | Cancelled | Exhausted

  /** The conversion of a product back to a `time.Duration`: truncation towards zero. */
  function Truncate(x: real): (r: int)
    ensures x >= 0.0 ==> r as real <= x < r as real + 1.0
    ensures x < 0.0 ==> r as real - 1.0 < x <= r as real
  {
    if x >= 0.0 then x.Floor else -(-x).Floor
  }

  function Scaled(cfg: RetryConfig, delay: int): real {
    delay as real * cfg.multiplier
  }

  function NextDelay(cfg: RetryConfig, delay: int): int {
    Min(Truncate(Scaled(cfg, delay)), cfg.maxDelay)
  }

  /** A run of the loop: its steps, its result, and what the breaker then remembers. */
  datatype Run = Run(steps: seq<Step>, outcome: Outcome, memory: Option<Memory>)

  function Ask(m: Option<Memory>, turn: Turn): Option<Memory> {
    if m.None? then None else Some(m.value.Then(Asked(turn.askedAt)))
  }

  function Record(m: Option<Memory>, turn: Turn): Option<Memory> {
    if m.None? then None
    else Some(m.value.Then(if turn.fails then Failed(turn.failedAt) else Succeeded))
  }

  function Blocked(m: Option<Memory>, turn: Turn): bool {
    m.Some? && Refuses(m.value, turn.askedAt)
  }

  /** The steps of one attempt that is let through; the breaker's part only if there is one. */
  function CallSteps(m: Option<Memory>, turn: Turn): seq<Step> {
    if m.None? then [Called(turn.fails)] else [Granted, Called(turn.fails), Recorded(turn.fails)]
  }

  /** The loop from attempt number `attempt` on, with `delay` as the next pause. */
  function RunFrom(cfg: RetryConfig, attempt: nat, delay: int, m: Option<Memory>, turns: seq<Turn>): Run
    requires |turns| > cfg.maxRetries
    decreases Max(0, cfg.maxRetries + 1 - attempt)
  {
    if attempt > cfg.maxRetries then Run([], Exhausted, m)
    else
      var turn := turns[attempt];
      if Blocked(m, turn) then
        Run([Refused], BreakerOpen(m.value.reset - (turn.askedAt - LastFailure(m.value))), Ask(m, turn))
      else
        var done, memory := CallSteps(m, turn), Record(Ask(m, turn), turn);
        if !turn.fails then Run(done, Success, memory)
        else if attempt == cfg.maxRetries then Run(done, Exhausted, memory)
        else if turn.cancelled then Run(done + [Paused(delay)], Cancelled, memory)
        else
          Resumed(done + [Paused(delay)], RunFrom(cfg, attempt + 1, NextDelay(cfg, delay), memory, turns))
  }

  /** A run behind steps that were taken before it. */
  function Resumed(before: seq<Step>, rest: Run): Run {
    rest.(steps := before + rest.steps)
  }

  /** How many attempts a list of steps contains that the breaker let through. */
  function Grants(steps: seq<Step>): nat {
    if steps == [] then 0
    else Grants(steps[..|steps| - 1]) + if steps[|steps| - 1].Granted? then 1 else 0
  }

  function TurnAt(turns: seq<Turn>, i: int): Turn {
    if 0 <= i < |turns| then turns[i] else Turn(0, false, 0, false)
  }

  /** What the steps from attempt `attempt` on mean to the breaker: each question and each
      record at the time that its turn gives, and nothing else. */
  function EventsOf(steps: seq<Step>, attempt: nat, turns: seq<Turn>): seq<Event> {
    if steps == [] then []
    else
      var front := steps[..|steps| - 1];
      EventsOf(front, attempt, turns)
      + match steps[|steps| - 1]
        case Granted => [Asked(TurnAt(turns, attempt + Grants(front)).askedAt)]
        case Refused => [Asked(TurnAt(turns, attempt + Grants(front)).askedAt)]
        case Recorded(true) => [Failed(TurnAt(turns, attempt + Grants(front) - 1).failedAt)]
        case Recorded(false) => [Succeeded]
        case _ => []
  }

  ghost function MemoryOf(breaker: CircuitBreaker?): Option<Memory>
    reads breaker
  {
    if breaker == null then None else Some(breaker.Remembers())
  }

  lemma ResumedTwice(first: seq<Step>, second: seq<Step>, rest: Run)
    ensures Resumed(first, Resumed(second, rest)) == Resumed(first + second, rest)
  {
    assert first + (second + rest.steps) == first + second + rest.steps;
  }

  /** One pass of the loop up to the pause: ask, call, record. */
  method Attempt(breaker: CircuitBreaker?, turn: Turn) returns (blockedFor: Option<int>, steps: seq<Step>)
    requires breaker != null ==> breaker.Valid()
    modifies breaker
    ensures breaker != null ==> breaker.Valid()
    ensures blockedFor.Some? <==> Blocked(old(MemoryOf(breaker)), turn)
    ensures blockedFor.Some? ==>
              && var m := old(MemoryOf(breaker)).value;
              && blockedFor.value == m.reset - (turn.askedAt - LastFailure(m))
              && steps == [Refused] && MemoryOf(breaker) == Ask(old(MemoryOf(breaker)), turn)
    ensures breaker != null ==>
              breaker.history == old(breaker.history) + [Asked(turn.askedAt)]
                                 + if blockedFor.Some? then []
                                   else if turn.fails then [Failed(turn.failedAt)]
                                   else [Succeeded]
    ensures blockedFor.None? ==>
              && steps == CallSteps(old(MemoryOf(breaker)), turn)
              && MemoryOf(breaker) == Record(Ask(old(MemoryOf(breaker)), turn), turn)
  {
    hide Failures, Probed, LastFailure, StateOf, Refuses, CircuitBreaker.Valid;
    blockedFor, steps := None, [];
    if breaker != null {
      var allowed, retryAfter := breaker.Allow(turn.askedAt);
      if !allowed {
        return Some(retryAfter), [Refused];
      }
      steps := [Granted];
    }
    steps := steps + [Called(turn.fails)];
    if breaker != null {
      if turn.fails {
        breaker.RecordFailure(turn.failedAt);
      } else {
        breaker.RecordSuccess();
      }
      steps := steps + [Recorded(turn.fails)];
    }
  }

  /** The backoff at the end of a pass. */
  method LongerDelay(cfg: RetryConfig, delay: int) returns (next: int)
    ensures next == NextDelay(cfg, delay)
  {
    hide Truncate;
    assert delay as real * cfg.multiplier == Scaled(cfg, delay);
    next := Truncate(delay as real * cfg.multiplier);
    if next > cfg.maxDelay {
      next := cfg.maxDelay;
    }
  }

  /** Attempts 0 to `maxRetries`; a nil breaker lets everything through. */
  method Retry(cfg: RetryConfig, breaker: CircuitBreaker?, turns: seq<Turn>)
    returns (outcome: Outcome, steps: seq<Step>)
    requires |turns| > cfg.maxRetries
    requires breaker != null ==> breaker.Valid()
    modifies breaker
    ensures breaker != null ==> breaker.Valid()
    ensures Run(steps, outcome, MemoryOf(breaker)) == RunFrom(cfg, 0, cfg.baseDelay, old(MemoryOf(breaker)), turns)
    ensures breaker != null ==> breaker.history == old(breaker.history) + EventsOf(steps, 0, turns)
  {
    hide LastFailure, Refuses, CircuitBreaker.Valid, CallSteps, Record, Ask, Blocked, NextDelay, EventsOf;
    if breaker != null {
      HistoryIsSteps(cfg, 0, cfg.baseDelay, breaker.Remembers(), turns);
    }
    ghost var whole := RunFrom(cfg, 0, cfg.baseDelay, MemoryOf(breaker), turns);
    steps := [];
    var delay := cfg.baseDelay;
    var attempt := 0;
    while attempt <= cfg.maxRetries
      invariant 0 <= attempt
      invariant breaker != null ==> breaker.Valid()
      invariant whole == Resumed(steps, RunFrom(cfg, attempt, delay, MemoryOf(breaker), turns))
    {
      var turn := turns[attempt];
      var blockedFor, done := Attempt(breaker, turn);
      if blockedFor.Some? {
        return BreakerOpen(blockedFor.value), steps + done;
      }
      if !turn.fails {
        return Success, steps + done;
      }
      if attempt < cfg.maxRetries {
        done := done + [Paused(delay)];
        if turn.cancelled {
          return Cancelled, steps + done;
        }
        delay := LongerDelay(cfg, delay);
      } else {
        assert done + [] == done;
      }
      ResumedTwice(steps, done, RunFrom(cfg, attempt + 1, delay, MemoryOf(breaker), turns));
      steps := steps + done;
      attempt := attempt + 1;
    }
    outcome := Exhausted;
  }

  // ---------------------------------------------------------------- every run

  /** Around each call the breaker is asked before and told after. */
  predicate Guarded(steps: seq<Step>) {
    && (forall j :: 0 <= j < |steps| && steps[j].Granted? ==> j + 1 < |steps| && steps[j + 1].Called?)
    && (forall j :: 0 <= j < |steps| && steps[j].Called? ==>
          && 0 < j && steps[j - 1].Granted?
          && j + 1 < |steps| && steps[j + 1] == Recorded(steps[j].failed))
    && (forall j :: 0 <= j < |steps| && steps[j].Recorded? ==> 0 < j && steps[j - 1] == Called(steps[j].failed))
  }

  lemma GuardedConcat(first: seq<Step>, second: seq<Step>)
    requires Guarded(first) && Guarded(second)
    ensures Guarded(first + second)
  {
    var all := first + second;
    forall j | |first| <= j < |all| ensures all[j] == second[j - |first|] {
    }
    forall j | 0 <= j < |all| && all[j].Called?
      ensures 0 < j && all[j - 1].Granted? && j + 1 < |all| && all[j + 1] == Recorded(all[j].failed)
    {
      if j >= |first| {
        assert second[j - |first|].Called?;
      }
    }
  }

  lemma RoundIsGuarded(m: Memory, turn: Turn, delay: int)
    ensures var done := CallSteps(Some(m), turn);
            && Guarded(done) && Guarded(done + [Paused(delay)])
            && (Called(false) in done <==> !turn.fails)
            && (Called(false) in done + [Paused(delay)] <==> !turn.fails)
  {
  }

  /** Whatever the calls and the context do, with a breaker every call follows one
      granted `Allow` and is followed by the record of its own result; and the run
      reports success exactly when some call did not fail. */
  lemma {:induction false} CallsAreGuarded(cfg: RetryConfig, attempt: nat, delay: int, m: Memory, turns: seq<Turn>)
    requires |turns| > cfg.maxRetries
    ensures var run := RunFrom(cfg, attempt, delay, Some(m), turns);
            Guarded(run.steps) && (run.outcome == Success <==> Called(false) in run.steps)
    decreases Max(0, cfg.maxRetries + 1 - attempt)
  {
    hide Refuses, Truncate, NextDelay, Guarded, CallSteps, Ask, Record, Blocked, LastFailure;
    assert Guarded([]) && Guarded([Step.Refused]) by { FewStepsAreGuarded(); }
    if attempt <= cfg.maxRetries {
      var turn, next := turns[attempt], NextDelay(cfg, delay);
      RoundIsGuarded(m, turn, delay);
      var told := Record(Ask(Some(m), turn), turn);
      assert told.Some? by { BreakerStays(m, turn); }
      CallsAreGuarded(cfg, attempt + 1, next, told.value, turns);
      GuardedConcat(CallSteps(Some(m), turn) + [Paused(delay)], RunFrom(cfg, attempt + 1, next, told, turns).steps);
    }
  }

  lemma FewStepsAreGuarded()
    ensures Guarded([]) && Guarded([Step.Refused])
  {
  }

  lemma BreakerStays(m: Memory, turn: Turn)
    ensures Record(Ask(Some(m), turn), turn).Some?
  {
  }

  function Calls(steps: seq<Step>): nat {
    if steps == [] then 0
    else Calls(steps[..|steps| - 1]) + if steps[|steps| - 1].Called? then 1 else 0
  }

  lemma {:induction false} CallsConcat(first: seq<Step>, second: seq<Step>)
    ensures Calls(first + second) == Calls(first) + Calls(second)
  {
    if second == [] {
      assert first + second == first;
    } else {
      var front := second[..|second| - 1];
      CallsConcat(first, front);
      assert (first + second)[..|first + second| - 1] == first + front;
    }
  }

  lemma OneStep(step: Step)
    ensures Calls([step]) == if step.Called? then 1 else 0
  {
    assert [step][..0] == [];
  }

  lemma RoundHasOneCall(m: Option<Memory>, turn: Turn, delay: int)
    ensures Calls(CallSteps(m, turn)) == 1
    ensures Calls(CallSteps(m, turn) + [Paused(delay)]) == 1
  {
    hide Calls;
    OneStep(Granted);
    OneStep(Called(turn.fails));
    OneStep(Recorded(turn.fails));
    OneStep(Paused(delay));
    CallsConcat([Granted], [Called(turn.fails)]);
    CallsConcat([Granted] + [Called(turn.fails)], [Recorded(turn.fails)]);
    assert [Granted] + [Called(turn.fails)] + [Recorded(turn.fails)] ==
           [Granted, Called(turn.fails), Recorded(turn.fails)];
    CallsConcat(CallSteps(m, turn), [Paused(delay)]);
  }

  /** From attempt `attempt` on everything fails and nobody cancels. */
  predicate AllFail(cfg: RetryConfig, attempt: nat, turns: seq<Turn>)
    requires |turns| > cfg.maxRetries
  {
    forall i :: attempt <= i <= cfg.maxRetries ==> turns[i].fails && !turns[i].cancelled
  }

  /** Every pause is shorter than the reset timeout. */
  predicate ShortPauses(cfg: RetryConfig, attempt: nat, reset: int, turns: seq<Turn>)
    requires |turns| > cfg.maxRetries
  {
    forall i :: attempt < i <= cfg.maxRetries ==> turns[i].askedAt - turns[i - 1].failedAt < reset
  }

  /** How many attempts are left, and how many failures the breaker still tolerates. */
  function Left(cfg: RetryConfig, attempt: nat): nat {
    Max(0, cfg.maxRetries + 1 - attempt)
  }

  /** What a breaker remembers of a call that it let through and that failed. */
  lemma GrantedCallFails(m: Memory, turn: Turn)
    requires turn.fails
    ensures Record(Ask(Some(m), turn), turn).Some?
    ensures var told := Record(Ask(Some(m), turn), turn).value;
            && told.threshold == m.threshold && told.reset == m.reset
            && Failures(told) == Failures(m) + 1
            && LastFailure(told) == turn.failedAt && !Probed(told)
  {
    Remembering(m, Asked(turn.askedAt));
    Remembering(m.Then(Asked(turn.askedAt)), Failed(turn.failedAt));
  }

  lemma AskingIsNoFailure(m: Memory, at: int)
    ensures Failures(m.Then(Asked(at))) == Failures(m)
  {
    Remembering(m, Asked(at));
  }

  lemma BlockedRun(cfg: RetryConfig, attempt: nat, delay: int, m: Memory, turns: seq<Turn>)
    requires |turns| > cfg.maxRetries && attempt <= cfg.maxRetries && Blocked(Some(m), turns[attempt])
    ensures var run := RunFrom(cfg, attempt, delay, Some(m), turns);
            && Calls(run.steps) == 0
            && run.memory.Some? && Failures(run.memory.value) == Failures(m)
            && run.outcome == BreakerOpen(m.reset - (turns[attempt].askedAt - LastFailure(m)))
  {
    hide Failures, Probed, LastFailure, Refuses, Truncate, Blocked, Record, CallSteps, NextDelay, Calls;
    AskingIsNoFailure(m, turns[attempt].askedAt);
    OneStep(Step.Refused);
  }

  /** How many failing calls the breaker lets through from here: as many failures as it
      still tolerates if it is closed, none while it refuses, and one probe otherwise. */
  function Tolerated(cfg: RetryConfig, attempt: nat, m: Memory, turns: seq<Turn>): nat
    requires |turns| > cfg.maxRetries
  {
    if Failures(m) < m.threshold then m.threshold - Failures(m)
    else if attempt <= cfg.maxRetries && Refuses(m, turns[attempt].askedAt) then 0
    else 1
  }

  /** When the failure was recorded that the refusal after `tolerated` calls goes back to. */
  function FailureBefore(attempt: nat, tolerated: nat, m: Memory, turns: seq<Turn>): int
    requires tolerated > 0 ==> attempt + tolerated <= |turns|
  {
    if tolerated == 0 then LastFailure(m) else turns[attempt + tolerated - 1].failedAt
  }

  /** When every attempt fails, a breaker in whatever state lets through as many calls as
      there are attempts, or as it tolerates if these are fewer. It refuses the next
      attempt exactly if there is one, saying what is left of its timeout. */
  lemma {:induction false} FailingCalls(cfg: RetryConfig, attempt: nat, delay: int, m: Memory, turns: seq<Turn>)
    requires |turns| > cfg.maxRetries
    requires AllFail(cfg, attempt, turns) && ShortPauses(cfg, attempt, m.reset, turns)
    ensures var run, tolerated := RunFrom(cfg, attempt, delay, Some(m), turns), Tolerated(cfg, attempt, m, turns);
            && Calls(run.steps) == Min(Left(cfg, attempt), tolerated)
            && run.memory.Some? && Failures(run.memory.value) == Failures(m) + Calls(run.steps)
            && (tolerated >= Left(cfg, attempt) ==> run.outcome == Exhausted)
            && (tolerated < Left(cfg, attempt) ==>
                  run.outcome == BreakerOpen(m.reset - (turns[attempt + tolerated].askedAt
                                                        - FailureBefore(attempt, tolerated, m, turns))))
    decreases Max(0, cfg.maxRetries + 1 - attempt)
  {
    hide Failures, Probed, LastFailure, Refuses, Truncate, Ask, Record, CallSteps, Calls, NextDelay;
    if attempt > cfg.maxRetries {
      NoSteps();
    } else {
      var turn := turns[attempt];
      RefusedIsOpen(m, turn.askedAt);
      if Blocked(Some(m), turn) {
        BlockedRun(cfg, attempt, delay, m, turns);
      } else {
        GrantedCallFails(m, turn);
        RoundHasOneCall(Some(m), turn, delay);
        if attempt < cfg.maxRetries {
          var told, next := Record(Ask(Some(m), turn), turn).value, NextDelay(cfg, delay);
          TooManyFailuresBlock(told, turns[attempt + 1]);
          FailingCalls(cfg, attempt + 1, next, told, turns);
          CallsConcat(CallSteps(Some(m), turn) + [Paused(delay)],
                      RunFrom(cfg, attempt + 1, next, Some(told), turns).steps);
        }
      }
    }
  }

  lemma RefusedIsOpen(m: Memory, now: int)
    ensures Refuses(m, now) ==> Failures(m) >= m.threshold
  {
  }

  lemma NoSteps()
    ensures Calls([]) == 0
  {
  }

  lemma TooManyFailuresBlock(m: Memory, turn: Turn)
    ensures Failures(m) >= m.threshold && !Probed(m) && turn.askedAt - LastFailure(m) < m.reset ==>
              Refuses(m, turn.askedAt)
  {
  }

  /** Without a breaker a retry that fails throughout uses up all its attempts. */
  lemma {:induction false} FailingCallsUnguarded(cfg: RetryConfig, attempt: nat, delay: int, turns: seq<Turn>)
    requires |turns| > cfg.maxRetries && AllFail(cfg, attempt, turns)
    ensures var run := RunFrom(cfg, attempt, delay, None, turns);
            Calls(run.steps) == Left(cfg, attempt) && run.outcome == Exhausted
    decreases Max(0, cfg.maxRetries + 1 - attempt)
  {
    hide Calls, NextDelay, CallSteps;
    if attempt > cfg.maxRetries {
      NoSteps();
    } else {
      RoundHasOneCall(None, turns[attempt], delay);
      if attempt < cfg.maxRetries {
        var next := NextDelay(cfg, delay);
        FailingCallsUnguarded(cfg, attempt + 1, next, turns);
        CallsConcat(CallSteps(None, turns[attempt]) + [Paused(delay)],
                  RunFrom(cfg, attempt + 1, next, None, turns).steps);
      }
    }
  }

  // ---------------------------------------------------------------- backoff

  function Pauses(steps: seq<Step>): seq<int> {
    if steps == [] then []
    else Pauses(steps[..|steps| - 1]) + if steps[|steps| - 1].Paused? then [steps[|steps| - 1].delay] else []
  }

  lemma {:induction false} PausesConcat(first: seq<Step>, second: seq<Step>)
    ensures Pauses(first + second) == Pauses(first) + Pauses(second)
  {
    if second == [] {
      assert first + second == first;
    } else {
      PausesConcat(first, second[..|second| - 1]);
      assert (first + second)[..|first + second| - 1] == first + second[..|second| - 1];
    }
  }

  lemma OnePause(step: Step)
    ensures Pauses([step]) == if step.Paused? then [step.delay] else []
  {
    assert [step][..0] == [];
  }

  lemma RoundHasOnePause(m: Option<Memory>, turn: Turn, delay: int)
    ensures Pauses(CallSteps(m, turn)) == []
    ensures Pauses(CallSteps(m, turn) + [Paused(delay)]) == [delay]
  {
    hide Pauses;
    OnePause(Granted);
    OnePause(Called(turn.fails));
    OnePause(Recorded(turn.fails));
    OnePause(Paused(delay));
    PausesConcat([Granted], [Called(turn.fails)]);
    PausesConcat([Granted] + [Called(turn.fails)], [Recorded(turn.fails)]);
    assert [Granted] + [Called(turn.fails)] + [Recorded(turn.fails)] ==
           [Granted, Called(turn.fails), Recorded(turn.fails)];
    PausesConcat(CallSteps(m, turn), [Paused(delay)]);
  }

  /** Pause `i` of a loop whose next pause is `delay`. */
  function DelayAfter(cfg: RetryConfig, delay: int, i: nat): int
    decreases i
  {
    if i == 0 then delay else DelayAfter(cfg, NextDelay(cfg, delay), i - 1)
  }

  /** The pauses of any run are the successive delays, without gaps. */
  lemma {:induction false} PausesAreDelays(cfg: RetryConfig, attempt: nat, delay: int, m: Option<Memory>,
                                           turns: seq<Turn>, i: nat)
    requires |turns| > cfg.maxRetries
    requires i < |Pauses(RunFrom(cfg, attempt, delay, m, turns).steps)|
    ensures Pauses(RunFrom(cfg, attempt, delay, m, turns).steps)[i] == DelayAfter(cfg, delay, i)
    decreases Max(0, cfg.maxRetries + 1 - attempt)
  {
    hide Pauses, NextDelay, CallSteps, Blocked, Ask, Record, LastFailure;
    assert Pauses([]) == [] by { NoPause(); }
    OnePause(Step.Refused);
    if attempt <= cfg.maxRetries {
      RoundHasOnePause(m, turns[attempt], delay);
      var told := Record(Ask(m, turns[attempt]), turns[attempt]);
      var rest := RunFrom(cfg, attempt + 1, NextDelay(cfg, delay), told, turns);
      PausesConcat(CallSteps(m, turns[attempt]) + [Paused(delay)], rest.steps);
      if 0 < i {
        PausesAreDelays(cfg, attempt + 1, NextDelay(cfg, delay), told, turns, i - 1);
      }
    }
  }

  lemma NoPause()
    ensures Pauses([]) == []
  {
  }

  function Pow(b: int, e: nat): int {
    if e == 0 then 1 else Pow(b, e - 1) * b
  }

  lemma {:induction false} DelayAfterStep(cfg: RetryConfig, delay: int, i: nat)
    ensures DelayAfter(cfg, delay, i + 1) == NextDelay(cfg, DelayAfter(cfg, delay, i))
    decreases i
  {
    hide NextDelay;
    if i > 0 {
      DelayAfterStep(cfg, NextDelay(cfg, delay), i - 1);
    }
  }

  lemma FirstDelay(cfg: RetryConfig)
    ensures DelayAfter(cfg, cfg.baseDelay, 0) == cfg.baseDelay
  {
  }

  /** The `i`-th delay if there were no maximum. */
  function Uncapped(cfg: RetryConfig, i: nat): int {
    if i == 0 then cfg.baseDelay else Truncate(Scaled(cfg, Uncapped(cfg, i - 1)))
  }

  function Times(x: real, y: real): real {
    x * y
  }

  lemma TimesMonotonic(m: real, x: real, y: real)
    requires m >= 0.0 && x <= y
    ensures Times(m, x) <= Times(m, y)
  {
  }

  lemma TimesUnits(x: real)
    ensures Times(x, 0.0) == 0.0 && Times(x, 1.0) == x
  {
  }

  lemma TimesLaws(m: real, x: real, y: real)
    ensures Times(m, x) == Times(x, m)
    ensures Times(m, x - y) == Times(m, x) - Times(m, y)
  {
  }

  lemma TimesTwice(m: real, x: real, y: real)
    ensures Times(m, Times(x, y)) == Times(x, Times(m, y))
  {
  }

  lemma ScaledIsTimes(cfg: RetryConfig, delay: int)
    ensures Scaled(cfg, delay) == Times(delay as real, cfg.multiplier)
  {
  }

  lemma TruncateBounds(x: real, n: int)
    requires x >= 0.0
    ensures 0 <= Truncate(x) && x - 1.0 < Truncate(x) as real <= x
    ensures n as real <= x ==> n <= Truncate(x)
    ensures x <= n as real ==> Truncate(x) <= n
  {
  }

  lemma ScalingUp(cfg: RetryConfig, delay: int)
    requires cfg.multiplier >= 1.0 && delay >= 0
    ensures delay <= Truncate(Scaled(cfg, delay)) && Scaled(cfg, delay) - 1.0 < Truncate(Scaled(cfg, delay)) as real
    ensures Truncate(Scaled(cfg, delay)) as real <= Scaled(cfg, delay)
  {
    hide Times, Scaled, Truncate;
    ScaledIsTimes(cfg, delay);
    TimesUnits(delay as real);
    TimesMonotonic(delay as real, 1.0, cfg.multiplier);
    TruncateBounds(Scaled(cfg, delay), delay);
  }

  lemma ScalingDown(cfg: RetryConfig, delay: int)
    requires 0.0 <= cfg.multiplier <= 1.0 && delay >= 0
    ensures 0 <= Truncate(Scaled(cfg, delay)) <= delay
  {
    hide Times, Scaled, Truncate;
    ScaledIsTimes(cfg, delay);
    TimesUnits(delay as real);
    TimesMonotonic(delay as real, cfg.multiplier, 1.0);
    TimesMonotonic(delay as real, 0.0, cfg.multiplier);
    TruncateBounds(Scaled(cfg, delay), delay);
  }

  /** For any multiplier of at least one, capping on the way is capping at the end: delay
      `i` is what it would be without a maximum, capped; but the first delay is the base
      itself, cap or no cap. */
  lemma {:induction false} Backoff(cfg: RetryConfig, i: nat)
    requires cfg.multiplier >= 1.0 && cfg.maxDelay >= 0
    ensures DelayAfter(cfg, cfg.baseDelay, i) == if i == 0 then cfg.baseDelay else Min(cfg.maxDelay, Uncapped(cfg, i))
  {
    hide Truncate, Scaled, DelayAfter;
    FirstDelay(cfg);
    if i > 0 {
      Backoff(cfg, i - 1);
      DelayAfterStep(cfg, cfg.baseDelay, i - 1);
      if Uncapped(cfg, i - 1) >= cfg.maxDelay {
        ScalingUp(cfg, Uncapped(cfg, i - 1));
        ScalingUp(cfg, cfg.maxDelay);
      }
    }
  }

  function Power(m: real, i: nat): real {
    if i == 0 then 1.0 else Times(m, Power(m, i - 1))
  }

  /** 1 + m + ... + m^(i-1): what cutting off fractions `i` times can cost. */
  function PowerSum(m: real, i: nat): real {
    if i == 0 then 0.0 else Times(m, PowerSum(m, i - 1)) + 1.0
  }

  /** Without a maximum the delay grows as the power of the multiplier, from below, and
      falls behind it by no more than the fractions that are cut off. */
  lemma {:induction false} UncappedGrowth(cfg: RetryConfig, i: nat)
    requires cfg.multiplier >= 1.0 && cfg.baseDelay >= 0
    ensures Uncapped(cfg, i) >= 0
    ensures Times(cfg.baseDelay as real, Power(cfg.multiplier, i)) - PowerSum(cfg.multiplier, i)
         <= Uncapped(cfg, i) as real
         <= Times(cfg.baseDelay as real, Power(cfg.multiplier, i))
  {
    hide Truncate, Scaled, Times;
    var base, m := cfg.baseDelay as real, cfg.multiplier;
    if i == 0 {
      TimesUnits(base);
    } else {
      UncappedGrowth(cfg, i - 1);
      var before, power, lost := Uncapped(cfg, i - 1), Power(m, i - 1), PowerSum(m, i - 1);
      ScalingUp(cfg, before);
      ScaledIsTimes(cfg, before);
      TimesLaws(m, before as real, 0.0);
      TimesMonotonic(m, Times(base, power) - lost, before as real);
      TimesMonotonic(m, before as real, Times(base, power));
      TimesLaws(m, Times(base, power), lost);
      TimesTwice(m, base, power);
    }
  }

  /** For a whole multiplier nothing is cut off. */
  lemma {:induction false} WholeGrowth(cfg: RetryConfig, k: int, i: nat)
    requires cfg.multiplier == k as real
    ensures Uncapped(cfg, i) == cfg.baseDelay * Pow(k, i)
  {
    hide Truncate, Scaled;
    if i > 0 {
      WholeGrowth(cfg, k, i - 1);
      TruncateWhole(cfg, Uncapped(cfg, i - 1), k);
      assert cfg.baseDelay * (Pow(k, i - 1) * k) == cfg.baseDelay * Pow(k, i - 1) * k;
    }
  }

  lemma TruncateWhole(cfg: RetryConfig, delay: int, k: int)
    requires cfg.multiplier == k as real
    ensures Truncate(Scaled(cfg, delay)) == delay * k
  {
    assert Scaled(cfg, delay) == (delay * k) as real;
  }

  /** With a multiplier of at most one the delays only shrink after the first retry, and
      the maximum plays no part any more. */
  lemma {:induction false} BackoffShrinks(cfg: RetryConfig, i: nat)
    requires 0.0 <= cfg.multiplier <= 1.0 && cfg.baseDelay >= 0 && cfg.maxDelay >= 0 && i >= 1
    ensures var now, next := DelayAfter(cfg, cfg.baseDelay, i), DelayAfter(cfg, cfg.baseDelay, i + 1);
            0 <= next == Truncate(Scaled(cfg, now)) <= now <= cfg.maxDelay
  {
    hide Truncate, Scaled, DelayAfter;
    FirstDelay(cfg);
    DelayAfterStep(cfg, cfg.baseDelay, i);
    if i == 1 {
      DelayAfterStep(cfg, cfg.baseDelay, 0);
      ScalingDown(cfg, cfg.baseDelay);
    } else {
      BackoffShrinks(cfg, i - 1);
    }
    ScalingDown(cfg, DelayAfter(cfg, cfg.baseDelay, i));
  }

  /** No pause of a run exceeds `maxDelay`. */
  predicate Capped(cfg: RetryConfig, m: Option<Memory>, turns: seq<Turn>)
    requires |turns| > cfg.maxRetries
  {
    forall i :: 0 <= i < |Pauses(RunFrom(cfg, 0, cfg.baseDelay, m, turns).steps)| ==>
      Pauses(RunFrom(cfg, 0, cfg.baseDelay, m, turns).steps)[i] <= cfg.maxDelay
  }

  /** The maximum is kept by every run exactly when the base delay does not exceed it. */
  lemma CapHoldsIff(cfg: RetryConfig)
    requires cfg.maxRetries > 0
    ensures (forall m: Option<Memory>, turns: seq<Turn> :: |turns| > cfg.maxRetries ==> Capped(cfg, m, turns))
       <==> cfg.baseDelay <= cfg.maxDelay
  {
    hide RunFrom, Pauses;
    if cfg.baseDelay <= cfg.maxDelay {
      forall m: Option<Memory>, turns: seq<Turn> | |turns| > cfg.maxRetries ensures Capped(cfg, m, turns) {
        forall i | 0 <= i < |Pauses(RunFrom(cfg, 0, cfg.baseDelay, m, turns).steps)|
          ensures Pauses(RunFrom(cfg, 0, cfg.baseDelay, m, turns).steps)[i] <= cfg.maxDelay
        {
          PausesAreDelays(cfg, 0, cfg.baseDelay, m, turns, i);
          if i > 0 {
            DelayAfterStep(cfg, cfg.baseDelay, i - 1);
          }
        }
      }
    } else {
      var turns := seq(cfg.maxRetries + 1, i => Turn(0, true, 0, true));
      FirstPause(cfg, turns);
      assert Pauses(RunFrom(cfg, 0, cfg.baseDelay, None, turns).steps)[0] > cfg.maxDelay;
      assert !Capped(cfg, None, turns);
    }
  }

  lemma FirstPause(cfg: RetryConfig, turns: seq<Turn>)
    requires |turns| > cfg.maxRetries > 0 && turns[0].fails && turns[0].cancelled
    ensures Pauses(RunFrom(cfg, 0, cfg.baseDelay, None, turns).steps) == [cfg.baseDelay]
  {
    hide Pauses;
    RoundHasOnePause(None, turns[0], cfg.baseDelay);
  }

  // ---------------------------------------------------------------- what the breaker is told

  lemma {:induction false} GrantsConcat(first: seq<Step>, second: seq<Step>)
    ensures Grants(first + second) == Grants(first) + Grants(second)
  {
    if second == [] {
      assert first + second == first;
    } else {
      GrantsConcat(first, second[..|second| - 1]);
      assert (first + second)[..|first + second| - 1] == first + second[..|second| - 1];
    }
  }

  lemma {:induction false} EventsConcat(first: seq<Step>, second: seq<Step>, attempt: nat, turns: seq<Turn>)
    ensures EventsOf(first + second, attempt, turns)
         == EventsOf(first, attempt, turns) + EventsOf(second, attempt + Grants(first), turns)
  {
    hide Grants, TurnAt;
    if second == [] {
      assert first + second == first;
    } else {
      var front := second[..|second| - 1];
      EventsConcat(first, front, attempt, turns);
      GrantsConcat(first, front);
      assert (first + second)[..|first + second| - 1] == first + front;
    }
  }

  lemma OneEvent(step: Step, attempt: nat, turns: seq<Turn>)
    ensures Grants([step]) == if step.Granted? then 1 else 0
    ensures EventsOf([step], attempt, turns)
         == match step
            case Granted => [Asked(TurnAt(turns, attempt).askedAt)]
            case Refused => [Asked(TurnAt(turns, attempt).askedAt)]
            case Recorded(true) => [Failed(TurnAt(turns, attempt - 1).failedAt)]
            case Recorded(false) => [Succeeded]
            case _ => []
  {
    hide TurnAt;
    assert [step][..0] == [];
    assert Grants([]) == 0 && EventsOf([], attempt, turns) == [];
  }

  /** One attempt that is let through tells the breaker of its question and its result. */
  lemma RoundEvents(m: Memory, attempt: nat, delay: int, turns: seq<Turn>)
    requires attempt < |turns|
    ensures var turn := turns[attempt];
            var done := CallSteps(Some(m), turn);
            && Grants(done) == 1 && Grants(done + [Paused(delay)]) == 1
            && EventsOf(done, attempt, turns) == EventsOf(done + [Paused(delay)], attempt, turns)
               == [Asked(turn.askedAt), if turn.fails then Failed(turn.failedAt) else Succeeded]
  {
    hide Grants, EventsOf;
    var turn := turns[attempt];
    var asked, called, told := [Granted], [Called(turn.fails)], [Recorded(turn.fails)];
    assert CallSteps(Some(m), turn) == asked + called + told;
    OneEvent(Granted, attempt, turns);
    OneEvent(Called(turn.fails), attempt + 1, turns);
    OneEvent(Recorded(turn.fails), attempt + 1, turns);
    OneEvent(Paused(delay), attempt + 1, turns);
    GrantsConcat(asked, called);
    GrantsConcat(asked + called, told);
    GrantsConcat(asked + called + told, [Paused(delay)]);
    EventsConcat(asked, called, attempt, turns);
    EventsConcat(asked + called, told, attempt, turns);
    EventsConcat(asked + called + told, [Paused(delay)], attempt, turns);
  }

  /** In every run the breaker's history grows by exactly what the steps say. */
  lemma {:induction false} HistoryIsSteps(cfg: RetryConfig, attempt: nat, delay: int, m: Memory, turns: seq<Turn>)
    requires |turns| > cfg.maxRetries
    ensures var run := RunFrom(cfg, attempt, delay, Some(m), turns);
            run.memory == Some(m.(history := m.history + EventsOf(run.steps, attempt, turns)))
    decreases Max(0, cfg.maxRetries + 1 - attempt)
  {
    hide Refuses, LastFailure, NextDelay, EventsOf, Grants, CallSteps;
    if attempt > cfg.maxRetries {
      NoEvents(attempt, turns);
      assert m.history + [] == m.history;
    } else {
      var turn, next := turns[attempt], NextDelay(cfg, delay);
      OneEvent(Step.Refused, attempt, turns);
      RoundEvents(m, attempt, delay, turns);
      var told := Record(Ask(Some(m), turn), turn).value;
      assert told.history == m.history + [Asked(turn.askedAt), if turn.fails then Failed(turn.failedAt) else Succeeded];
      HistoryIsSteps(cfg, attempt + 1, next, told, turns);
      var rest := RunFrom(cfg, attempt + 1, next, Some(told), turns).steps;
      EventsConcat(CallSteps(Some(m), turn) + [Paused(delay)], rest, attempt, turns);
      assert told.history + EventsOf(rest, attempt + 1, turns)
          == m.history + ([Asked(turn.askedAt), if turn.fails then Failed(turn.failedAt) else Succeeded]
                          + EventsOf(rest, attempt + 1, turns));
    }
  }

  lemma NoEvents(attempt: nat, turns: seq<Turn>)
    ensures EventsOf([], attempt, turns) == []
  {
  }

  /** A call that succeeds as the probe of an open breaker, or while it is half-open,
      leaves it closed with no failures. */
  lemma SuccessCloses(cfg: RetryConfig, attempt: nat, delay: int, m: Memory, turns: seq<Turn>)
    requires |turns| > cfg.maxRetries && attempt <= cfg.maxRetries && !turns[attempt].fails
    requires m.threshold > 0 && StateOf(m) != Closed && !Refuses(m, turns[attempt].askedAt)
    ensures var run := RunFrom(cfg, attempt, delay, Some(m), turns);
            && run.outcome == Success && Calls(run.steps) == 1
            && run.memory.Some? && StateOf(run.memory.value) == Closed && Failures(run.memory.value) == 0
  {
    hide Calls;
    var turn := turns[attempt];
    RoundHasOneCall(Some(m), turn, delay);
    HistoryIsSteps(cfg, attempt, delay, m, turns);
    RoundEvents(m, attempt, delay, turns);
    var asked := m.Then(Asked(turn.askedAt));
    Remembering(m, Asked(turn.askedAt));
    Remembering(asked, Succeeded);
    assert m.history + [Asked(turn.askedAt), Succeeded] == asked.history + [Succeeded];
  }

  // ---------------------------------------------------------------- how a run ends

  /** What a run with `n` calls from attempt `attempt` on must look like, by its outcome.
      All calls but the last fail with nobody cancelling; and each outcome has its reason. */
  predicate EndsProperly(cfg: RetryConfig, attempt: nat, turns: seq<Turn>, run: Run, n: nat)
    requires |turns| > cfg.maxRetries
  {
    && n <= Left(cfg, attempt)
    && (forall i :: attempt <= i < attempt + n - 1 ==> turns[i].fails && !turns[i].cancelled)
    && match run.outcome
       case Success => n > 0 && !turns[attempt + n - 1].fails && |Pauses(run.steps)| == n - 1
       case Cancelled =>
         && 0 < n < Left(cfg, attempt) && turns[attempt + n - 1].fails && turns[attempt + n - 1].cancelled
         && |Pauses(run.steps)| == n
       case Exhausted =>
         && n == Left(cfg, attempt) && (n > 0 ==> turns[attempt + n - 1].fails)
         && |Pauses(run.steps)| == Max(0, n - 1)
       case BreakerOpen(retryAfter) =>
         && n < Left(cfg, attempt)
         && (n > 0 ==> turns[attempt + n - 1].fails && !turns[attempt + n - 1].cancelled)
         && |Pauses(run.steps)| == n
         && run.memory.Some? && run.memory.value.history != []
         && var before, at := run.memory.value.Before(), turns[attempt + n].askedAt;
         && run.memory.value.Last() == Asked(at) && Refuses(before, at)
         && retryAfter == before.reset - (at - LastFailure(before))
  }

  /** A run that is over with this attempt at the latest. */
  lemma LastRoundEndsProperly(cfg: RetryConfig, attempt: nat, delay: int, m: Option<Memory>, turns: seq<Turn>)
    requires |turns| > cfg.maxRetries
    requires attempt < cfg.maxRetries ==>
               Blocked(m, turns[attempt]) || !turns[attempt].fails || turns[attempt].cancelled
    ensures var run := RunFrom(cfg, attempt, delay, m, turns);
            EndsProperly(cfg, attempt, turns, run, Calls(run.steps))
  {
    hide Refuses, LastFailure, NextDelay, Calls, Pauses, CallSteps, Record;
    if attempt > cfg.maxRetries {
      NoSteps();
      NoPause();
    } else {
      var turn := turns[attempt];
      OneStep(Step.Refused);
      OnePause(Step.Refused);
      RoundHasOneCall(m, turn, delay);
      RoundHasOnePause(m, turn, delay);
      if m.Some? {
        Remembering(m.value, Asked(turn.askedAt));
      }
    }
  }

  /** One more failing round before a run. */
  lemma OneMoreRound(cfg: RetryConfig, attempt: nat, turns: seq<Turn>, first: seq<Step>, rest: Run, n: nat)
    requires |turns| > cfg.maxRetries && attempt < cfg.maxRetries
    requires turns[attempt].fails && !turns[attempt].cancelled && |Pauses(first)| == 1
    requires EndsProperly(cfg, attempt + 1, turns, rest, n)
    ensures EndsProperly(cfg, attempt, turns, Resumed(first, rest), n + 1)
  {
    hide Refuses, LastFailure, Pauses;
    PausesConcat(first, rest.steps);
  }

  /** In every run, with or without a breaker: it goes on exactly while calls fail, nobody
      cancels, attempts are left and the breaker does not refuse, with a pause after each
      call but the last. */
  lemma {:induction false} EveryRunEndsProperly(cfg: RetryConfig, attempt: nat, delay: int, m: Option<Memory>,
                                                turns: seq<Turn>)
    requires |turns| > cfg.maxRetries
    ensures var run := RunFrom(cfg, attempt, delay, m, turns);
            EndsProperly(cfg, attempt, turns, run, Calls(run.steps))
    decreases Max(0, cfg.maxRetries + 1 - attempt)
  {
    hide EndsProperly, Blocked, LastFailure, NextDelay, Calls, Pauses, CallSteps, Record;
    if attempt < cfg.maxRetries && !Blocked(m, turns[attempt]) && turns[attempt].fails && !turns[attempt].cancelled {
      var turn, next := turns[attempt], NextDelay(cfg, delay);
      var round, told := CallSteps(m, turn) + [Paused(delay)], Record(Ask(m, turn), turn);
      var rest := RunFrom(cfg, attempt + 1, next, told, turns);
      RoundHasOneCall(m, turn, delay);
      RoundHasOnePause(m, turn, delay);
      EveryRunEndsProperly(cfg, attempt + 1, next, told, turns);
      CallsConcat(round, rest.steps);
      OneMoreRound(cfg, attempt, turns, round, rest, Calls(rest.steps));
    } else {
      LastRoundEndsProperly(cfg, attempt, delay, m, turns);
    }
  }
}
