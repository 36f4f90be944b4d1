/** The three-state circuit breaker. Its fields are proved against what the history of
    calls says; times and durations are in nanoseconds. */
module CircuitBreakers {

  datatype State = Closed | Open | HalfOpen

  datatype Event = Asked(at: int) | Succeeded | Failed(at: int)

  /** A breaker's settings and everything that happened to it so far. */
  datatype Memory = Memory(threshold: int, reset: int, history: seq<Event>) {

    function Then(e: Event): Memory {
      this.(history := history + [e])
    }

    function Before(): Memory
      requires history != []
    {
      this.(history := history[..|history| - 1])
    }

    function Last(): Event
      requires history != []
    {
      history[|history| - 1]
    }
  }

  /** When the latest failure was recorded. */
  function LastFailure(m: Memory): int
    decreases |m.history|
  {
    if m.history == [] then 0
    else if m.Last().Failed? then m.Last().at
    else LastFailure(m.Before())
  }

  /** Somebody asked, a reset timeout or more after the latest failure. */
  predicate Probed(m: Memory)
    decreases |m.history|
  {
    if m.history == [] || m.Last().Failed? then false
    else Probed(m.Before()) || (m.Last().Asked? && m.Last().at - LastFailure(m.Before()) >= m.reset)
  }

  /** The failures since creation or since the latest successful probe. */
  function Failures(m: Memory): nat
    decreases |m.history|
  {
    if m.history == [] then 0
    else
      var before := Failures(m.Before());
      match m.Last()
      case Failed(_) => before + 1
      case Asked(_) => before
      case Succeeded => if before >= m.threshold && Probed(m.Before()) then 0 else before
  }

  function StateOf(m: Memory): State {
    if Failures(m) < m.threshold then Closed else if Probed(m) then HalfOpen else Open
  }

  /** A call at `now` is refused: too many failures, the last one too recent, and no
      probe since. */
  predicate Refuses(m: Memory, now: int) {
    Failures(m) >= m.threshold && !Probed(m) && now - LastFailure(m) < m.reset
  }

  const SECOND := 1_000_000_000
  const DEFAULT_THRESHOLD := 5
  const DEFAULT_RESET := 30 * SECOND

  class CircuitBreaker {
    var state: State
    var failureCount: int
    var successCount: int
    const failureThreshold: int
    const resetTimeout: int
    var lastFailure: int
    ghost var history: seq<Event>

    ghost function Remembers(): Memory
      reads this
    {
      Memory(failureThreshold, resetTimeout, history)
    }

    /** The fields say what the history says; `successCount` never moves. */
    ghost predicate Valid()
      reads this
    {
      && failureThreshold > 0 && resetTimeout > 0
      && failureCount == Failures(Remembers())
      && state == StateOf(Remembers())
      && lastFailure == LastFailure(Remembers())
      && successCount == 0
    }

    /** Settings that are not positive are replaced by the defaults. */
    constructor (threshold: int, reset: int)
      ensures Valid() && history == []
      ensures failureThreshold == if threshold > 0 then threshold else 5
      ensures resetTimeout == if reset > 0 then reset else 30_000_000_000
    {
      failureThreshold := if threshold <= 0 then DEFAULT_THRESHOLD else threshold;
      resetTimeout := if reset <= 0 then DEFAULT_RESET else reset;
      state, failureCount, successCount, lastFailure := Closed, 0, 0, 0;
      history := [];
    }

    method Allow(now: int) returns (allowed: bool, retryAfter: int)
      requires Valid()
      modifies this
      ensures Valid() && history == old(history) + [Asked(now)]
      ensures allowed <==> !Refuses(old(Remembers()), now)
      ensures retryAfter == if allowed then 0 else resetTimeout - (now - LastFailure(old(Remembers())))
    {
      history := history + [Asked(now)];
      Remembering(old(Remembers()), Asked(now));
      match state {
        case Closed =>
          allowed, retryAfter := true, 0;
        case Open =>
          var since := now - lastFailure;
          if since >= resetTimeout {
            state := HalfOpen;
            allowed, retryAfter := true, 0;
          } else {
            allowed, retryAfter := false, resetTimeout - since;
          }
        case HalfOpen =>
          if successCount > 0 {
            allowed, retryAfter := false, resetTimeout;
          } else {
            allowed, retryAfter := true, 0;
          }
      }
    }

    method RecordSuccess()
      requires Valid()
      modifies this
      ensures Valid() && history == old(history) + [Succeeded]
    {
      history := history + [Succeeded];
      Remembering(old(Remembers()), Succeeded);
      if state == HalfOpen {
        state := Closed;
        failureCount, successCount := 0, 0;
      }
    }

    method RecordFailure(now: int)
      requires Valid()
      modifies this
      ensures Valid() && history == old(history) + [Failed(now)]
    {
      history := history + [Failed(now)];
      Remembering(old(Remembers()), Failed(now));
      lastFailure := now;
      match state {
        case HalfOpen =>
          state := Open;
          failureCount := failureCount + 1;
          successCount := 0;
        case Closed =>
          failureCount := failureCount + 1;
          if failureCount >= failureThreshold {
            state := Open;
            successCount := 0;
          }
        case Open =>
          failureCount := failureCount + 1;
      }
    }

    method GetState() returns (s: State)
      requires Valid()
      ensures s == StateOf(Remembers())
    {
      s := state;
    }
  }

  lemma Remembering(m: Memory, e: Event)
    ensures m.Then(e).Before() == m && m.Then(e).Last() == e
    ensures m.Then(e) == Memory(m.threshold, m.reset, m.history + [e])
  {
    assert (m.history + [e])[..|m.history|] == m.history;
  }

  // ---------------------------------------------------------------- whole histories

  function Prefix(m: Memory, k: nat): Memory
    requires k <= |m.history|
  {
    m.(history := m.history[..k])
  }

  /** Event `k` is a success that finds the breaker half-open. */
  predicate Closes(m: Memory, k: nat)
    requires k < |m.history|
  {
    m.history[k].Succeeded? && StateOf(Prefix(m, k)) == HalfOpen
  }

  function CountFailed(history: seq<Event>): nat {
    if history == [] then 0
    else CountFailed(history[..|history| - 1]) + if history[|history| - 1].Failed? then 1 else 0
  }

  /** The count is that of all failures since `start`, which is the creation or the
      latest success that found the breaker half-open: no other success counts. */
  lemma {:induction false} FailuresSinceClosing(m: Memory, start: nat)
    requires start <= |m.history|
    requires start == 0 || Closes(m, start - 1)
    requires forall j :: start <= j < |m.history| ==> !Closes(m, j)
    ensures Failures(m) == CountFailed(m.history[start..])
    decreases |m.history|
  {
    if start == |m.history| {
      if start > 0 {
        assert Prefix(m, start - 1) == m.Before();
      }
    } else {
      var last := |m.history| - 1;
      var before := m.Before();
      assert Prefix(m, last) == before;
      forall j | 0 <= j < last ensures Closes(before, j) == Closes(m, j) {
        assert Prefix(before, j) == Prefix(m, j);
      }
      FailuresSinceClosing(before, start);
      assert m.history[start..][..last - start] == before.history[start..];
      assert !Closes(m, last);
    }
  }

  /** A refused call leaves no trace: the next one is refused by the same rule, so that
      it is granted once the remaining time it was told is over. */
  lemma RefusalLeavesNoTrace(m: Memory, now: int, later: int)
    requires Refuses(m, now)
    ensures StateOf(m.Then(Asked(now))) == StateOf(m) == Open
    ensures Refuses(m.Then(Asked(now)), later) <==> later - now < m.reset - (now - LastFailure(m))
  {
    Remembering(m, Asked(now));
  }

  /** The call that ends the waiting decides: its success closes the breaker and forgets
      all failures, its failure starts a new full timeout. */
  lemma ProbeDecides(m: Memory, probe: int, end: int, later: int)
    requires m.threshold > 0 && StateOf(m) == Open && !Refuses(m, probe)
    ensures var probed := m.Then(Asked(probe));
            && StateOf(probed) == HalfOpen
            && StateOf(probed.Then(Succeeded)) == Closed && Failures(probed.Then(Succeeded)) == 0
            && StateOf(probed.Then(Failed(end))) == Open
            && (Refuses(probed.Then(Failed(end)), later) <==> later - end < m.reset)
  {
    var probed := m.Then(Asked(probe));
    Remembering(m, Asked(probe));
    Remembering(probed, Succeeded);
    Remembering(probed, Failed(end));
  }

  function Asks(times: seq<int>): seq<Event> {
    seq(|times|, i requires 0 <= i < |times| => Asked(times[i]))
  }

  /** Half-open does not mean one call at a time: until one of them reports back, every
      call is let through. */
  lemma {:induction false} HalfOpenAdmitsEverybody(m: Memory, times: seq<int>, now: int)
    requires StateOf(m) == HalfOpen
    ensures var asked := m.(history := m.history + Asks(times));
            StateOf(asked) == HalfOpen && !Refuses(asked, now)
  {
    if times == [] {
      assert m.history + Asks(times) == m.history;
    } else {
      var n := |times| - 1;
      HalfOpenAdmitsEverybody(m, times[..n], now);
      var before := m.(history := m.history + Asks(times[..n]));
      Remembering(before, Asked(times[n]));
      assert m.history + Asks(times) == before.history + [Asked(times[n])];
    }
  }

  /** The failures since the latest success or creation: what the documentation counts. */
  function Streak(history: seq<Event>): nat {
    if history == [] then 0
    else
      match history[|history| - 1]
      case Failed(_) => Streak(history[..|history| - 1]) + 1
      case Asked(_) => Streak(history[..|history| - 1])
      case Succeeded => 0
  }

  /** From closed, the next failure opens the breaker exactly when it is the
      `threshold`-th consecutive one. */
  predicate OpensOnStreak(m: Memory, at: int) {
    StateOf(m) == Closed ==>
      (StateOf(m.Then(Failed(at))) == Open <==> Streak(m.history) + 1 >= m.threshold)
  }

  lemma {:induction false} StreakIsNoMore(m: Memory)
    requires StateOf(m) == Closed
    ensures Streak(m.history) <= Failures(m)
    decreases |m.history|
  {
    if m.history != [] && !m.Last().Succeeded? {
      StreakIsNoMore(m.Before());
    }
  }

  function Repeated(e: Event, n: nat): seq<Event> {
    if n == 0 then [] else Repeated(e, n - 1) + [e]
  }

  lemma {:induction false} FailuresAfterSuccess(threshold: int, reset: int, n: nat)
    requires 1 < threshold && 2 + n <= threshold
    ensures var m := Memory(threshold, reset, [Failed(0), Succeeded] + Repeated(Failed(0), n));
            Failures(m) == n + 1 && Streak(m.history) == n
  {
    if n == 0 {
      var empty := Memory(threshold, reset, []);
      var first := empty.Then(Failed(0));
      Remembering(empty, Failed(0));
      assert Failures(empty) == 0 && Failures(first) == 1;
      Remembering(first, Succeeded);
      assert [Failed(0), Succeeded] + Repeated(Failed(0), 0) == first.history + [Succeeded];
    } else {
      FailuresAfterSuccess(threshold, reset, n - 1);
      var before := Memory(threshold, reset, [Failed(0), Succeeded] + Repeated(Failed(0), n - 1));
      Remembering(before, Failed(0));
      assert [Failed(0), Succeeded] + Repeated(Failed(0), n) == before.history + [Failed(0)];
    }
  }

  /** The documented rule, "after that many consecutive failures", is the one implemented
      exactly for a threshold of one. */
  lemma ConsecutiveIff(threshold: int, reset: int)
    requires threshold > 0
    ensures (forall history: seq<Event>, at: int :: OpensOnStreak(Memory(threshold, reset, history), at))
       <==> threshold == 1
  {
    if threshold == 1 {
      forall history: seq<Event>, at: int ensures OpensOnStreak(Memory(threshold, reset, history), at) {
        Remembering(Memory(threshold, reset, history), Failed(at));
      }
    } else {
      var history := [Failed(0), Succeeded] + Repeated(Failed(0), threshold - 2);
      var m := Memory(threshold, reset, history);
      FailuresAfterSuccess(threshold, reset, threshold - 2);
      Remembering(m, Failed(0));
      assert !OpensOnStreak(m, 0);
    }
  }
}
