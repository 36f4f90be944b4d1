/** The token bucket and the limiter that keeps one bucket per identity. Times are in
    seconds and tokens are reals, as exact quantities. */
module RateLimits {

  /** Tokens per second, and the most a bucket can hold. */
  datatype Rates = Rates(rate: real, burst: real)

  datatype Bucket = Bucket(tokens: real, lastRefill: real)

  /** The tokens that come in over a stretch of time. */
  function Gain(p: Rates, elapsed: real): real {
    elapsed * p.rate
  }

  function Refilled(p: Rates, b: Bucket, now: real): Bucket {
    var tokens := b.tokens + Gain(p, now - b.lastRefill);
    Bucket(if tokens > p.burst then p.burst else tokens, now)
  }

  predicate Grants(p: Rates, b: Bucket, now: real) {
    Refilled(p, b, now).tokens >= 1.0
  }

  function Taken(p: Rates, b: Bucket, now: real): Bucket {
    var r := Refilled(p, b, now);
    if r.tokens >= 1.0 then r.(tokens := r.tokens - 1.0) else r
  }

  class TokenBucket {
    var tokens: real
    const maxTokens: real
    const refillRate: real
    var lastRefill: real

    function Settings(): Rates {
      Rates(refillRate, maxTokens)
    }

    function Level(): Bucket
      reads this
    {
      Bucket(tokens, lastRefill)
    }

    constructor (rate: real, burst: real, now: real)
      ensures Settings() == Rates(rate, burst) && Level() == Bucket(burst, now)
    {
      tokens, maxTokens, refillRate, lastRefill := burst, burst, rate, now;
    }

    method Allow(now: real) returns (allowed: bool)
      modifies this
      ensures allowed == Grants(Settings(), old(Level()), now)
      ensures Level() == Taken(Settings(), old(Level()), now)
    {
      var elapsed := now - lastRefill;
      assert elapsed * refillRate == Gain(Settings(), elapsed);
      tokens := tokens + elapsed * refillRate;
      if tokens > maxTokens {
        tokens := maxTokens;
      }
      lastRefill := now;
      if tokens >= 1.0 {
        tokens := tokens - 1.0;
        return true;
      }
      allowed := false;
    }
  }

  /** One call on behalf of an identity. `created` is the clock when a bucket would be
      made for it, `now` the clock when the bucket is asked. */
  datatype Call = Call(id: string, created: real, now: real)

  type Table = map<string, Bucket>

  function BucketFor(p: Rates, t: Table, c: Call): Bucket {
    if c.id in t then t[c.id] else Bucket(p.burst, c.created)
  }

  function Served(p: Rates, t: Table, c: Call): Table {
    t[c.id := Taken(p, BucketFor(p, t, c), c.now)]
  }

  /** An identity's first call meets a full bucket. */
  lemma NewcomerIsServed(p: Rates, c: Call)
    requires c.created <= c.now && p.rate >= 0.0
    ensures Grants(p, Bucket(p.burst, c.created), c.now) <==> p.burst >= 1.0
  {
    hide Gain;
    GainIsPositive(p, c.now - c.created);
  }

  class RateLimiter {
    var limiter: map<string, TokenBucket>
    const defaultR: real
    const defaultB: real

    function Settings(): Rates {
      Rates(defaultR, defaultB)
    }

    /** No two identities share a bucket, and all buckets have the same settings. */
    ghost predicate Valid()
      reads this, limiter.Values
    {
      && (forall i, j :: i in limiter && j in limiter && i != j ==> limiter[i] != limiter[j])
      && (forall i <- limiter :: limiter[i].Settings() == Settings())
    }

    ghost function Levels(): Table
      reads this, limiter.Values
    {
      map i <- limiter :: limiter[i].Level()
    }

    constructor (rate: real, burst: real)
      ensures Valid() && Settings() == Rates(rate, burst) && Levels() == map[]
      ensures limiter == map[]
    {
      limiter := map[];
      defaultR, defaultB := rate, burst;
    }

    method Allow(c: Call) returns (allowed: bool)
      requires Valid()
      modifies this, limiter.Values
      ensures Valid() && fresh(limiter.Values - old(limiter.Values))
      ensures allowed == Grants(Settings(), BucketFor(Settings(), old(Levels()), c), c.now)
      ensures Levels() == Served(Settings(), old(Levels()), c)
      ensures c.id !in old(limiter) && c.created <= c.now && defaultR >= 0.0 ==> (allowed <==> defaultB >= 1.0)
    {
      hide Grants, Taken, Refilled, Gain;
      if c.created <= c.now && defaultR >= 0.0 {
        NewcomerIsServed(Settings(), c);
      }
      var tb: TokenBucket;
      if c.id in limiter {
        tb := limiter[c.id];
      } else {
        tb := new TokenBucket(defaultR, defaultB, c.created);
        limiter := limiter[c.id := tb];
      }
      allowed := tb.Allow(c.now);
    }
  }

  // ---------------------------------------------------------------- one bucket

  /** The bucket after the first `n` calls. */
  function LevelAfter(p: Rates, b: Bucket, times: seq<real>, n: nat): Bucket
    requires n <= |times|
  {
    if n == 0 then b else Taken(p, LevelAfter(p, b, times, n - 1), times[n - 1])
  }

  predicate Answer(p: Rates, b: Bucket, times: seq<real>, k: nat)
    requires k < |times|
  {
    Grants(p, LevelAfter(p, b, times, k), times[k])
  }

  /** How many of the calls `i` to `j - 1` are allowed. */
  function Allowed(p: Rates, b: Bucket, times: seq<real>, i: nat, j: nat): nat
    requires i <= j <= |times|
  {
    if i == j then 0 else Allowed(p, b, times, i, j - 1) + if Answer(p, b, times, j - 1) then 1 else 0
  }

  /** The clock never runs backwards. */
  predicate InOrder(b: Bucket, times: seq<real>) {
    && (forall k :: 0 <= k < |times| ==> b.lastRefill <= times[k])
    && (forall j, k :: 0 <= j < k < |times| ==> times[j] <= times[k])
  }

  lemma GainAdds(p: Rates, first: real, second: real)
    ensures Gain(p, first + second) == Gain(p, first) + Gain(p, second)
  {
  }

  lemma GainIsPositive(p: Rates, elapsed: real)
    requires p.rate >= 0.0 && elapsed >= 0.0
    ensures Gain(p, elapsed) >= 0.0
  {
  }

  /** Refilling on the way changes nothing. */
  lemma RefilledTwice(p: Rates, b: Bucket, middle: real, now: real)
    requires p.rate >= 0.0 && middle <= now
    ensures Refilled(p, Refilled(p, b, middle), now) == Refilled(p, b, now)
  {
    hide Gain;
    GainIsPositive(p, now - middle);
    GainAdds(p, middle - b.lastRefill, now - middle);
    assert middle - b.lastRefill + (now - middle) == now - b.lastRefill;
  }

  /** A bucket holds between nothing and its burst, after any calls. */
  lemma {:induction false} LevelInRange(p: Rates, b: Bucket, times: seq<real>, n: nat)
    requires p.rate >= 0.0 && p.burst >= 0.0 && InOrder(b, times) && n <= |times|
    requires 0.0 <= b.tokens <= p.burst
    ensures 0.0 <= LevelAfter(p, b, times, n).tokens <= p.burst
    ensures LevelAfter(p, b, times, n).lastRefill == if n == 0 then b.lastRefill else times[n - 1]
  {
    hide Gain;
    if n > 0 {
      LevelInRange(p, b, times, n - 1);
      GainIsPositive(p, times[n - 1] - LevelAfter(p, b, times, n - 1).lastRefill);
    }
  }

  /** The calls allowed since call `i`, and what is left, are paid for by a full bucket
      and the tokens that came in meanwhile. */
  lemma {:induction false} AllowedArePaidFor(p: Rates, b: Bucket, times: seq<real>, i: nat, j: nat)
    requires p.rate >= 0.0 && InOrder(b, times) && i < j <= |times|
    ensures Allowed(p, b, times, i, j) as real + LevelAfter(p, b, times, j).tokens
            <= p.burst + Gain(p, times[j - 1] - times[i])
    ensures LevelAfter(p, b, times, j).lastRefill == times[j - 1]
    decreases j
  {
    hide Gain;
    if i + 1 == j {
      GainIsPositive(p, 0.0);
    } else {
      AllowedArePaidFor(p, b, times, i, j - 1);
      GainAdds(p, times[j - 2] - times[i], times[j - 1] - times[j - 2]);
      assert times[j - 2] - times[i] + (times[j - 1] - times[j - 2]) == times[j - 1] - times[i];
    }
  }

  lemma {:induction false} NothingBelowOne(p: Rates, b: Bucket, times: seq<real>, i: nat, j: nat)
    requires p.burst < 1.0 && i <= j <= |times|
    ensures Allowed(p, b, times, i, j) == 0
    decreases j
  {
    hide Gain;
    if i < j {
      NothingBelowOne(p, b, times, i, j - 1);
    }
  }

  /** In any window, from the first to the last call in it, no more calls are allowed
      than the burst and what the rate brings in over that time. */
  lemma RateBound(p: Rates, b: Bucket, times: seq<real>, i: nat, j: nat)
    requires p.rate >= 0.0 && InOrder(b, times) && i < j <= |times|
    requires 0.0 <= b.tokens <= p.burst
    ensures Allowed(p, b, times, i, j) as real <= p.burst + Gain(p, times[j - 1] - times[i])
  {
    AllowedArePaidFor(p, b, times, i, j);
    LevelInRange(p, b, times, j);
  }

  /** The bound is reached: of calls made at once on a full bucket, exactly the first
      `burst` are allowed. */
  lemma {:induction false} FullBurst(p: Rates, times: seq<real>, k: nat, at: real)
    requires k < |times| && forall j :: 0 <= j < |times| ==> times[j] == at
    requires p.burst >= 0.0
    ensures Answer(p, Bucket(p.burst, at), times, k) <==> (k + 1) as real <= p.burst
    ensures k as real <= p.burst ==> LevelAfter(p, Bucket(p.burst, at), times, k) == Bucket(p.burst - k as real, at)
    ensures k as real > p.burst ==> LevelAfter(p, Bucket(p.burst, at), times, k).tokens < 1.0
                                    && LevelAfter(p, Bucket(p.burst, at), times, k).lastRefill == at
  {
    hide Gain;
    assert Gain(p, 0.0) == 0.0 by { NoTimeNoGain(p); }
    if k > 0 {
      FullBurst(p, times, k - 1, at);
    }
  }

  lemma NoTimeNoGain(p: Rates)
    ensures Gain(p, 0.0) == 0.0
  {
  }

  function Without(times: seq<real>, k: nat): seq<real>
    requires k < |times|
  {
    times[..k] + times[k + 1..]
  }

  /** A denied call leaves no trace: leaving it out changes neither the later answers
      nor the bucket that they leave. */
  lemma {:induction false} DeniedCallLeavesNoTrace(p: Rates, b: Bucket, times: seq<real>, k: nat, n: nat)
    requires p.rate >= 0.0 && InOrder(b, times) && k < |times| && !Answer(p, b, times, k)
    requires k + 1 < n <= |times|
    ensures LevelAfter(p, b, Without(times, k), n - 1) == LevelAfter(p, b, times, n)
    ensures Answer(p, b, Without(times, k), n - 2) == Answer(p, b, times, n - 1)
    decreases n
  {
    hide Gain;
    if n == k + 2 {
      LevelOfPrefix(p, b, times, Without(times, k), k);
      RefilledTwice(p, LevelAfter(p, b, times, k), times[k], times[k + 1]);
    } else {
      DeniedCallLeavesNoTrace(p, b, times, k, n - 1);
    }
  }

  lemma {:induction false} LevelOfPrefix(p: Rates, b: Bucket, times: seq<real>, others: seq<real>, n: nat)
    requires n <= |times| && n <= |others| && times[..n] == others[..n]
    ensures LevelAfter(p, b, times, n) == LevelAfter(p, b, others, n)
  {
    hide Taken;
    if n > 0 {
      assert times[..n][..n - 1] == others[..n][..n - 1];
      assert times[..n][n - 1] == others[..n][n - 1];
      assert times[..n - 1] == others[..n - 1];
      LevelOfPrefix(p, b, times, others, n - 1);
    }
  }

  /** A denied caller is allowed again, with nobody in between, exactly when the bucket
      can hold a token at all and the missing fraction has come in. */
  lemma AllowedAgainIff(p: Rates, b: Bucket, denied: real, now: real)
    requires p.rate >= 0.0 && denied <= now && !Grants(p, b, denied)
    ensures var left := Taken(p, b, denied);
            Grants(p, left, now) <==> p.burst >= 1.0 && Gain(p, now - denied) >= 1.0 - left.tokens
  {
    hide Gain;
  }

  /** With a positive rate the wait has a known end. */
  lemma WaitingEnds(p: Rates, missing: real, elapsed: real)
    requires p.rate > 0.0
    ensures Gain(p, elapsed) >= missing <==> elapsed >= missing / p.rate
  {
    var wait := missing / p.rate;
    assert wait * p.rate == missing;
    assert (elapsed - wait) * p.rate == Gain(p, elapsed) - missing;
    if elapsed >= wait {
      GainIsPositive(p, elapsed - wait);
    } else {
      GainIsPositive(p, wait - elapsed);
      assert (wait - elapsed) * p.rate > 0.0;
    }
  }

  // ---------------------------------------------------------------- many identities

  /** The limiter's buckets after the first `n` calls. */
  function TableAfter(p: Rates, calls: seq<Call>, n: nat): Table
    requires n <= |calls|
  {
    if n == 0 then map[] else Served(p, TableAfter(p, calls, n - 1), calls[n - 1])
  }

  /** The limiter's answer to call `k`. */
  predicate LimiterAnswer(p: Rates, calls: seq<Call>, k: nat)
    requires k < |calls|
  {
    Grants(p, BucketFor(p, TableAfter(p, calls, k), calls[k]), calls[k].now)
  }

  /** The calls of one identity among the first `n`. */
  function Own(calls: seq<Call>, n: nat, id: string): seq<Call>
    requires n <= |calls|
  {
    if n == 0 then [] else Own(calls, n - 1, id) + if calls[n - 1].id == id then [calls[n - 1]] else []
  }

  function Times(calls: seq<Call>): seq<real> {
    seq(|calls|, i requires 0 <= i < |calls| => calls[i].now)
  }

  /** A bucket of its own, created full at the first of `own`, which answers `own` alone. */
  function OwnLevel(p: Rates, own: seq<Call>, n: nat): Bucket
    requires own != [] && n <= |own|
  {
    LevelAfter(p, Bucket(p.burst, own[0].created), Times(own), n)
  }

  lemma {:induction false} TableIsOwnLevels(p: Rates, calls: seq<Call>, n: nat, id: string)
    requires n <= |calls|
    ensures var own := Own(calls, n, id);
            && (id in TableAfter(p, calls, n) <==> own != [])
            && (own != [] ==> TableAfter(p, calls, n)[id] == OwnLevel(p, own, |own|))
  {
    hide Taken;
    if n > 0 {
      TableIsOwnLevels(p, calls, n - 1, id);
      if calls[n - 1].id == id {
        OwnCallIsNext(p, Own(calls, n - 1, id), calls[n - 1]);
      } else {
        assert Own(calls, n, id) == Own(calls, n - 1, id);
      }
    }
  }

  /** One more call of one's own. */
  lemma OwnCallIsNext(p: Rates, own: seq<Call>, c: Call)
    ensures var more := own + [c];
            var before := if own == [] then Bucket(p.burst, c.created) else OwnLevel(p, own, |own|);
            && OwnLevel(p, more, |own|) == before
            && OwnLevel(p, more, |more|) == Taken(p, before, c.now)
  {
    hide Taken;
    var more := own + [c];
    assert Times(more)[..|own|] == Times(own);
    if own != [] {
      LevelOfPrefix(p, Bucket(p.burst, own[0].created), Times(own), Times(more), |own|);
    }
  }

  /** Isolation: whatever other identities do in between, call `k` is answered as by a
      bucket that only its own identity ever used. */
  lemma Isolation(p: Rates, calls: seq<Call>, k: nat)
    requires k < |calls|
    ensures var own := Own(calls, k + 1, calls[k].id);
            && own != [] && own[|own| - 1] == calls[k]
            && LimiterAnswer(p, calls, k)
               == Answer(p, Bucket(p.burst, own[0].created), Times(own), |own| - 1)
  {
    hide Taken, Grants, LevelAfter;
    var id := calls[k].id;
    TableIsOwnLevels(p, calls, k, id);
    OwnCallIsNext(p, Own(calls, k, id), calls[k]);
  }

  /** How many of the calls `i` to `j - 1` are made by `id` and allowed. */
  function LimiterAllowed(p: Rates, calls: seq<Call>, i: nat, j: nat, id: string): nat
    requires i <= j <= |calls|
  {
    if i == j then 0
    else LimiterAllowed(p, calls, i, j - 1, id)
         + if calls[j - 1].id == id && LimiterAnswer(p, calls, j - 1) then 1 else 0
  }

  predicate ClockNeverRunsBack(calls: seq<Call>) {
    && (forall k :: 0 <= k < |calls| ==> calls[k].created <= calls[k].now)
    && (forall j, k :: 0 <= j < k < |calls| ==> calls[j].now <= calls[k].now)
  }

  lemma {:induction false} AllowedOfPrefix(p: Rates, b: Bucket, times: seq<real>, others: seq<real>, i: nat, j: nat)
    requires i <= j <= |times| <= |others| && times == others[..|times|]
    ensures Allowed(p, b, times, i, j) == Allowed(p, b, others, i, j)
    decreases j
  {
    hide Grants, LevelAfter;
    if i < j {
      AllowedOfPrefix(p, b, times, others, i, j - 1);
      assert times[..j - 1] == others[..j - 1];
      LevelOfPrefix(p, b, times, others, j - 1);
    }
  }

  lemma {:induction false} OwnGrows(calls: seq<Call>, i: nat, j: nat, id: string)
    requires i <= j <= |calls|
    ensures |Own(calls, i, id)| <= |Own(calls, j, id)| && Own(calls, i, id) == Own(calls, j, id)[..|Own(calls, i, id)|]
    decreases j
  {
    if i < j {
      OwnGrows(calls, i, j - 1, id);
    }
  }

  /** An identity's calls come in the order of the clock. */
  lemma {:induction false} OwnInOrder(calls: seq<Call>, j: nat, id: string)
    requires ClockNeverRunsBack(calls) && j <= |calls|
    ensures ClockNeverRunsBack(Own(calls, j, id))
    ensures forall c <- Own(calls, j, id) :: j > 0 && c.now <= calls[j - 1].now
  {
    if j > 0 {
      OwnInOrder(calls, j - 1, id);
      var before, last := Own(calls, j - 1, id), calls[j - 1];
      forall k | 0 <= k < |before| ensures before[k].now <= last.now {
        assert before[k] in before && calls[j - 2].now <= last.now;
      }
    }
  }

  /** Those that come after the first `i` calls are not earlier than call `i`. */
  lemma {:induction false} OwnSince(calls: seq<Call>, i: nat, j: nat, id: string)
    requires ClockNeverRunsBack(calls) && i <= j <= |calls|
    ensures forall k :: |Own(calls, i, id)| <= k < |Own(calls, j, id)| ==> calls[i].now <= Own(calls, j, id)[k].now
    decreases j
  {
    if i < j {
      OwnSince(calls, i, j - 1, id);
    }
  }

  /** How many of an identity's own calls `i` to `j - 1` a bucket of its own allows. */
  function OwnAllowed(p: Rates, own: seq<Call>, i: nat, j: nat): nat
    requires own != [] && i <= j <= |own|
  {
    Allowed(p, Bucket(p.burst, own[0].created), Times(own), i, j)
  }

  lemma OwnAllowedStep(p: Rates, own: seq<Call>, i: nat)
    requires i < |own|
    ensures var answer := Answer(p, Bucket(p.burst, own[0].created), Times(own), |own| - 1);
            OwnAllowed(p, own, i, |own|) == OwnAllowed(p, own, i, |own| - 1) + if answer then 1 else 0
  {
    hide Answer;
  }

  lemma OwnAllowedBefore(p: Rates, before: seq<Call>, c: Call, i: nat)
    requires before != [] && i <= |before|
    ensures OwnAllowed(p, before + [c], i, |before|) == OwnAllowed(p, before, i, |before|)
  {
    hide Allowed;
    assert Times(before) == Times(before + [c])[..|before|];
    AllowedOfPrefix(p, Bucket(p.burst, before[0].created), Times(before), Times(before + [c]), i, |before|);
  }

  lemma OwnAllowedNone(p: Rates, own: seq<Call>, i: nat)
    requires own != [] && i <= |own|
    ensures OwnAllowed(p, own, i, i) == 0
  {
  }

  lemma OwnStep(calls: seq<Call>, j: nat, id: string)
    requires 0 < j <= |calls|
    ensures calls[j - 1].id == id ==> Own(calls, j, id) == Own(calls, j - 1, id) + [calls[j - 1]]
    ensures calls[j - 1].id != id ==> Own(calls, j, id) == Own(calls, j - 1, id)
  {
  }

  lemma LimiterStep(p: Rates, calls: seq<Call>, i: nat, j: nat, id: string)
    requires i < j <= |calls|
    ensures LimiterAllowed(p, calls, i, j, id)
         == LimiterAllowed(p, calls, i, j - 1, id)
            + if calls[j - 1].id == id && LimiterAnswer(p, calls, j - 1) then 1 else 0
  {
    hide LimiterAnswer;
  }

  lemma LimiterNone(p: Rates, calls: seq<Call>, i: nat, id: string)
    requires i <= |calls|
    ensures LimiterAllowed(p, calls, i, i, id) == 0
  {
  }

  lemma {:induction false} CountsAgree(p: Rates, calls: seq<Call>, i: nat, j: nat, id: string)
    requires i <= j <= |calls| && Own(calls, j, id) != []
    ensures |Own(calls, i, id)| <= |Own(calls, j, id)|
    ensures LimiterAllowed(p, calls, i, j, id)
         == OwnAllowed(p, Own(calls, j, id), |Own(calls, i, id)|, |Own(calls, j, id)|)
    decreases j
  {
    hide LimiterAnswer, LimiterAllowed, Answer, Own, OwnAllowed, Times;
    OwnGrows(calls, i, j, id);
    if i == j {
      LimiterNone(p, calls, i, id);
      OwnAllowedNone(p, Own(calls, j, id), |Own(calls, i, id)|);
    } else {
      OwnGrows(calls, i, j - 1, id);
      OwnStep(calls, j, id);
      LimiterStep(p, calls, i, j, id);
      if calls[j - 1].id == id {
        OneMoreOwn(p, calls, i, j, id);
      } else {
        CountsAgree(p, calls, i, j - 1, id);
      }
    }
  }

  lemma {:induction false} OneMoreOwn(p: Rates, calls: seq<Call>, i: nat, j: nat, id: string)
    requires i < j <= |calls| && calls[j - 1].id == id
    ensures |Own(calls, i, id)| < |Own(calls, j, id)|
    ensures LimiterAllowed(p, calls, i, j, id)
         == OwnAllowed(p, Own(calls, j, id), |Own(calls, i, id)|, |Own(calls, j, id)|)
    decreases j, 0
  {
    hide LimiterAnswer, LimiterAllowed, Answer, Own, OwnAllowed, Times;
    var before, c, first := Own(calls, j - 1, id), calls[j - 1], |Own(calls, i, id)|;
    OwnGrows(calls, i, j - 1, id);
    OwnStep(calls, j, id);
    LimiterStep(p, calls, i, j, id);
    Isolation(p, calls, j - 1);
    OwnAllowedStep(p, before + [c], first);
    if before == [] {
      NobodyAllowed(p, calls, i, j - 1, id);
      OwnAllowedNone(p, before + [c], 0);
    } else {
      CountsAgree(p, calls, i, j - 1, id);
      OwnAllowedBefore(p, before, c, first);
    }
  }

  lemma {:induction false} NobodyAllowed(p: Rates, calls: seq<Call>, i: nat, j: nat, id: string)
    requires i <= j <= |calls| && Own(calls, j, id) == []
    ensures LimiterAllowed(p, calls, i, j, id) == 0
    decreases j
  {
    hide LimiterAnswer;
    if i < j {
      NobodyAllowed(p, calls, i, j - 1, id);
    }
  }

  lemma GainGrows(p: Rates, shorter: real, longer: real)
    requires p.rate >= 0.0 && shorter <= longer
    ensures Gain(p, shorter) <= Gain(p, longer)
  {
    hide Gain;
    GainIsPositive(p, longer - shorter);
    GainAdds(p, shorter, longer - shorter);
    assert shorter + (longer - shorter) == longer;
  }

  lemma OwnTimesInOrder(p: Rates, own: seq<Call>)
    requires own != [] && ClockNeverRunsBack(own)
    ensures InOrder(Bucket(p.burst, own[0].created), Times(own))
  {
  }

  /** The bound for an identity's own calls from `first` on, all of them in a window. */
  lemma OwnRateBound(p: Rates, own: seq<Call>, first: nat, since: real, until: real)
    requires p.rate >= 0.0 && p.burst >= 0.0 && first < |own| && ClockNeverRunsBack(own)
    requires since <= own[first].now && own[|own| - 1].now <= until
    ensures OwnAllowed(p, own, first, |own|) as real <= p.burst + Gain(p, until - since)
  {
    hide Gain, InOrder, Allowed, ClockNeverRunsBack;
    OwnTimesInOrder(p, own);
    RateBound(p, Bucket(p.burst, own[0].created), Times(own), first, |own|);
    GainGrows(p, own[|own| - 1].now - own[first].now, until - since);
  }

  /** The bound for the whole limiter: in any window of any interleaved traffic, each
      identity is allowed no more than its own burst and what its own rate brings in. */
  lemma IdentityRateBound(p: Rates, calls: seq<Call>, i: nat, j: nat, id: string)
    requires p.rate >= 0.0 && p.burst >= 0.0 && ClockNeverRunsBack(calls) && i < j <= |calls|
    ensures LimiterAllowed(p, calls, i, j, id) as real <= p.burst + Gain(p, calls[j - 1].now - calls[i].now)
  {
    hide Gain, LimiterAllowed, Own, OwnAllowed;
    var own, first := Own(calls, j, id), |Own(calls, i, id)|;
    assert calls[i].now <= calls[j - 1].now;
    GainIsPositive(p, calls[j - 1].now - calls[i].now);
    if own == [] {
      NobodyAllowed(p, calls, i, j, id);
    } else {
      CountsAgree(p, calls, i, j, id);
      if first == |own| {
        OwnAllowedNone(p, own, first);
      } else {
        OwnInOrder(calls, j, id);
        OwnSince(calls, i, j, id);
        assert own[|own| - 1] in own;
        OwnRateBound(p, own, first, calls[i].now, calls[j - 1].now);
      }
    }
  }
}
