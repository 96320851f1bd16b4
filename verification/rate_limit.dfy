/**
 * The two token buckets of `OpenAIBackend`: one for requests, one for
 * tokens, each refilled continuously at its per-minute limit and capped at
 * it, and an acquire loop that polls until the bucket holds enough.
 *
 * The event-loop clock is an input: each refill and each poll of the
 * acquire loop is given the time it reads. Python floats are idealised as
 * `real`.
 */
module RateLimit {
  import opened Wrappers

  /** One bucket: what is left, and when it was last refilled. */
  datatype Bucket = Bucket(level: real, lastRefill: real)

  /** A bucket that has not gone below zero nor above its per-minute limit. */
  predicate InRange(capacity: real, b: Bucket) {
    0.0 <= b.level <= capacity
  }

  function Min(a: real, b: real): real {
    if a <= b then a else b
  }

  /**
   * `_refill_request_bucket` / `_refill_token_bucket`: credit the elapsed
   * time at `capacity / 60` per second, capped at `capacity`, and restart
   * the clock.
   */
  function Refill(capacity: real, b: Bucket, now: real): (r: Bucket)
    ensures r.lastRefill == now
    ensures r.level <= capacity
    ensures capacity >= 0.0 && now >= b.lastRefill && b.level <= capacity ==> b.level <= r.level
    ensures capacity >= 0.0 && now >= b.lastRefill && InRange(capacity, b) ==> InRange(capacity, r)
    ensures r.level < capacity ==> r.level == b.level + (now - b.lastRefill) * (capacity / 60.0)
    ensures r.level <= b.level + (now - b.lastRefill) * (capacity / 60.0)
    ensures r.level == capacity || r.level == b.level + (now - b.lastRefill) * (capacity / 60.0)
  {
    var credited := b.level + (now - b.lastRefill) * (capacity / 60.0);
    assert capacity >= 0.0 && now >= b.lastRefill ==> (now - b.lastRefill) * (capacity / 60.0) >= 0.0 by {
      if capacity >= 0.0 && now >= b.lastRefill {
        NonNegProduct(now - b.lastRefill, capacity / 60.0);
      }
    }
    Bucket(Min(capacity, credited), now)
  }

  lemma NonNegProduct(x: real, y: real)
    requires x >= 0.0 && y >= 0.0
    ensures x * y >= 0.0
  {
  }

  /**
   * Refilling at `t1` and again at `t2` leaves the same level as a single
   * refill at `t2`: the cap never discards credit that a later refill would
   * have kept.
   */
  lemma RefillTwice(capacity: real, b: Bucket, t1: real, t2: real)
    requires capacity >= 0.0 && b.lastRefill <= t1 <= t2
    ensures Refill(capacity, Refill(capacity, b, t1), t2) == Refill(capacity, b, t2)
  {
    var rate := capacity / 60.0;
    var d1 := (t1 - b.lastRefill) * rate;
    var d2 := (t2 - t1) * rate;
    NonNegProduct(t2 - t1, rate);
    assert (t2 - b.lastRefill) * rate == d1 + d2 by {
      Distribute(t1 - b.lastRefill, t2 - t1, rate);
    }
  }

  lemma Distribute(x: real, y: real, z: real)
    ensures (x + y) * z == x * z + y * z
  {
  }

  /**
   * One pass of the acquire loop: refill, then take `amount` if the bucket
   * holds at least that much; otherwise leave the refilled bucket for the
   * next poll.
   */
  function AcquireStep(capacity: real, b: Bucket, now: real, amount: real): (r: (bool, Bucket))
    ensures r.1.lastRefill == now
    ensures r.0 <==> Refill(capacity, b, now).level >= amount
    ensures r.0 ==> r.1.level == Refill(capacity, b, now).level - amount
    ensures !r.0 ==> r.1 == Refill(capacity, b, now)
    ensures r.0 ==> r.1.level >= 0.0
  {
    var refilled := Refill(capacity, b, now);
    if refilled.level >= amount then (true, Bucket(refilled.level - amount, now))
    else (false, refilled)
  }

  /** A non-negative amount taken from a bucket in range leaves it in range. */
  lemma AcquireStepInRange(capacity: real, b: Bucket, now: real, amount: real)
    requires capacity >= 0.0 && now >= b.lastRefill && InRange(capacity, b) && amount >= 0.0
    ensures InRange(capacity, AcquireStep(capacity, b, now, amount).1)
  {
  }

  /**
   * The bucket as the `j`-th pass of the acquire loop finds it: the passes
   * before it all failed, and a failed pass only refills.
   */
  function Polled(capacity: real, b: Bucket, polls: seq<real>, j: nat): Bucket
    requires j <= |polls|
    decreases j
  {
    if j == 0 then b else Polled(capacity, Refill(capacity, b, polls[0]), polls[1..], j - 1)
  }

  /**
   * `_acquire_requests` / `_acquire_tokens` over the clock readings `polls`
   * of successive passes: the index of the pass that succeeded and the
   * bucket after it, or `None` when no pass in the schedule succeeded (the
   * code would keep sleeping 0.1 s and polling).
   */
  function Acquire(capacity: real, b: Bucket, polls: seq<real>, amount: real): (r: Option<(nat, Bucket)>)
    ensures r.Some? ==> r.value.0 < |polls|
    ensures r.Some? ==> r.value.1.level >= 0.0 && r.value.1.lastRefill == polls[r.value.0]
    ensures r.None? <==> forall j :: 0 <= j < |polls| ==> !AcquireStep(capacity, Polled(capacity, b, polls, j), polls[j], amount).0
    ensures r.Some? ==>
              && (forall j :: 0 <= j < r.value.0 ==> !AcquireStep(capacity, Polled(capacity, b, polls, j), polls[j], amount).0)
              && Refill(capacity, Polled(capacity, b, polls, r.value.0), polls[r.value.0]).level >= amount
              && r.value.1.level == Refill(capacity, Polled(capacity, b, polls, r.value.0), polls[r.value.0]).level - amount
    decreases |polls|
  {
    if polls == [] then None
    else
      var (ok, b') := AcquireStep(capacity, b, polls[0], amount);
      if ok then Some((0, b'))
      else
        PolledShift(capacity, b, polls, amount);
        match Acquire(capacity, b', polls[1..], amount)
        case None => None
        case Some((i, b'')) => Some((i + 1, b''))
  }

  /** After a failed first pass, the passes of the rest of the schedule are those of the whole schedule, one on. */
  lemma PolledShift(capacity: real, b: Bucket, polls: seq<real>, amount: real)
    requires polls != [] && !AcquireStep(capacity, b, polls[0], amount).0
    ensures forall j :: 0 <= j < |polls| - 1 ==>
              Polled(capacity, AcquireStep(capacity, b, polls[0], amount).1, polls[1..], j) == Polled(capacity, b, polls, j + 1)
    ensures (forall j :: 0 <= j < |polls| ==> !AcquireStep(capacity, Polled(capacity, b, polls, j), polls[j], amount).0) <==>
              forall j :: 0 <= j < |polls| - 1 ==>
                !AcquireStep(capacity, Polled(capacity, AcquireStep(capacity, b, polls[0], amount).1, polls[1..], j), polls[1..][j], amount).0
  {
    var b' := AcquireStep(capacity, b, polls[0], amount).1;
    assert forall j :: 0 <= j < |polls| - 1 ==> Polled(capacity, b', polls[1..], j) == Polled(capacity, b, polls, j + 1);
    assert forall j :: 1 <= j < |polls| ==> polls[j] == polls[1..][j - 1] && Polled(capacity, b, polls, j) == Polled(capacity, b', polls[1..], j - 1);
  }

  /**
   * With clock readings that never run backwards, the bucket each pass finds
   * is the starting bucket refilled once, at the previous pass.
   */
  lemma {:induction false} PolledIsOneRefill(capacity: real, b: Bucket, polls: seq<real>, j: nat)
    requires capacity >= 0.0 && 0 < j <= |polls|
    requires b.lastRefill <= polls[0]
    requires forall k :: 0 <= k < |polls| - 1 ==> polls[k] <= polls[k + 1]
    ensures Polled(capacity, b, polls, j) == Refill(capacity, b, polls[j - 1])
    decreases j
  {
    if j > 1 {
      var b1 := Refill(capacity, b, polls[0]);
      assert forall k :: 0 <= k < |polls[1..]| - 1 ==> polls[1..][k] <= polls[1..][k + 1];
      PolledIsOneRefill(capacity, b1, polls[1..], j - 1);
      RefillTwice(capacity, b, polls[0], polls[j - 1]) by {
        MonotoneSchedule(polls, 0, j - 1);
      }
    }
  }

  lemma {:induction false} MonotoneSchedule(polls: seq<real>, i: nat, j: nat)
    requires i <= j < |polls|
    requires forall k :: 0 <= k < |polls| - 1 ==> polls[k] <= polls[k + 1]
    ensures polls[i] <= polls[j]
    decreases j - i
  {
    if i < j {
      MonotoneSchedule(polls, i + 1, j);
    }
  }

  /** Over any schedule, an amount above the bucket's limit is never granted: the loop spins forever. */
  lemma {:induction false} OverCapacityNeverAcquired(capacity: real, b: Bucket, polls: seq<real>, amount: real)
    requires amount > capacity
    ensures Acquire(capacity, b, polls, amount).None?
    decreases |polls|
  {
    if polls != [] {
      var (ok, b') := AcquireStep(capacity, b, polls[0], amount);
      OverCapacityNeverAcquired(capacity, b', polls[1..], amount);
    }
  }

  /**
   * Waiting long enough always succeeds for an amount within the limit: once
   * `60 × (amount − level) / capacity` seconds have passed, one poll takes it.
   */
  lemma WaitingSucceeds(capacity: real, b: Bucket, now: real, amount: real)
    requires capacity > 0.0 && 0.0 <= b.level && amount <= capacity && now >= b.lastRefill
    requires now - b.lastRefill >= 60.0 * (amount - b.level) / capacity
    ensures AcquireStep(capacity, b, now, amount).0
  {
    var rate := capacity / 60.0;
    var dt := now - b.lastRefill;
    if amount > b.level {
      assert dt * capacity >= 60.0 * (amount - b.level) by {
        MulLe(60.0 * (amount - b.level) / capacity, dt, capacity);
      }
      assert dt * rate == dt * capacity / 60.0;
      assert b.level + dt * rate >= amount;
    } else {
      NonNegProduct(dt, rate);
    }
  }

  lemma MulLe(x: real, y: real, c: real)
    requires c > 0.0 && x <= y
    ensures x * c <= y * c
  {
  }

  /** Both buckets of one backend and their per-minute limits. */
  datatype Limiter = Limiter(maxRequests: real, maxTokens: real, requests: Bucket, tokens: Bucket)

  /** The constructor: both buckets start full, their clocks at `now`. */
  function NewLimiter(maxRequests: real, maxTokens: real, now: real): (r: Limiter)
    ensures r.requests.level == maxRequests && r.tokens.level == maxTokens
    ensures maxRequests >= 0.0 && maxTokens >= 0.0 ==> InRange(r.maxRequests, r.requests) && InRange(r.maxTokens, r.tokens)
  {
    Limiter(maxRequests, maxTokens, Bucket(maxRequests, now), Bucket(maxTokens, now))
  }

  /**
   * The rate-limited prologue of one API call: acquire the requests first
   * (polling at `requestPolls`), then the tokens (at `tokenPolls`). `None`
   * when either loop does not finish within its schedule.
   */
  function Reserve(l: Limiter, requests: real, tokens: real, requestPolls: seq<real>, tokenPolls: seq<real>): (r: Option<Limiter>)
    ensures r.Some? ==> r.value.maxRequests == l.maxRequests && r.value.maxTokens == l.maxTokens
    ensures r.Some? ==> r.value.requests.level >= 0.0 && r.value.tokens.level >= 0.0
    ensures r.Some? <==>
              Acquire(l.maxRequests, l.requests, requestPolls, requests).Some? &&
              Acquire(l.maxTokens, l.tokens, tokenPolls, tokens).Some?
    ensures r.Some? ==>
              var i := Acquire(l.maxRequests, l.requests, requestPolls, requests).value.0;
              var k := Acquire(l.maxTokens, l.tokens, tokenPolls, tokens).value.0;
              && r.value.requests.level == Refill(l.maxRequests, Polled(l.maxRequests, l.requests, requestPolls, i), requestPolls[i]).level - requests
              && r.value.tokens.level == Refill(l.maxTokens, Polled(l.maxTokens, l.tokens, tokenPolls, k), tokenPolls[k]).level - tokens
  {
    match Acquire(l.maxRequests, l.requests, requestPolls, requests)
    case None => None
    case Some((_, rb)) =>
      match Acquire(l.maxTokens, l.tokens, tokenPolls, tokens)
      case None => None
      case Some((_, tb)) => Some(l.(requests := rb, tokens := tb))
  }

  /** A call asking for more than either per-minute limit never gets past its reservation. */
  lemma ReserveOverCapacity(l: Limiter, requests: real, tokens: real, requestPolls: seq<real>, tokenPolls: seq<real>)
    requires requests > l.maxRequests || tokens > l.maxTokens
    ensures Reserve(l, requests, tokens, requestPolls, tokenPolls).None?
  {
    if requests > l.maxRequests {
      OverCapacityNeverAcquired(l.maxRequests, l.requests, requestPolls, requests);
    } else {
      OverCapacityNeverAcquired(l.maxTokens, l.tokens, tokenPolls, tokens);
    }
  }
}
