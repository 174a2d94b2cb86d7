/**
 * The retry loop around the Control fetch (config_cache.go fetchControlConfigWithRetry, rateLimitWaitDuration,
 * configRetryBudget; control.go parseRetryAfterHeader). int and time.Duration are 64 bits wide and wrap;
 * durations and instants are in nanoseconds. Control, the time a fetch takes and how long a sleep overruns
 * are parameters.
 */
module ConfigRetry {
  import opened Text

  /** A configuration; the loop only passes it on. */
  type Config = map<string, string>

  const SECOND: int := 1_000_000_000

  /******* 64-bit arithmetic *******/

  const TWO_TO_64: int := 0x1_0000_0000_0000_0000

  function Wrap64(x: int): (r: int)
    ensures MIN_INT64 <= r <= MAX_INT64
    ensures MIN_INT64 <= x <= MAX_INT64 ==> r == x
  {
    (x - MIN_INT64) % TWO_TO_64 + MIN_INT64
  }

  function Pow2(n: nat): (p: nat)
    ensures p >= 1
  {
    if n == 0 then 1 else 2 * Pow2(n - 1)
  }

  /** 1 << n on a 64-bit int. */
  function ShiftOne(n: nat): int {
    if n < 63 then Pow2(n) else if n == 63 then MIN_INT64 else 0
  }

  lemma {:induction false} Pow2Add(a: nat, b: nat)
    ensures Pow2(a + b) == Pow2(a) * Pow2(b)
  {
    if a > 0 { Pow2Add(a - 1, b); }
  }

  lemma Pow2At60()
    ensures Pow2(60) == 0x1000_0000_0000_0000
  {
    assert Pow2(5) == 32;
    Pow2Add(5, 5);
    Pow2Add(10, 10);
    Pow2Add(20, 20);
    Pow2Add(40, 20);
  }

  lemma {:induction false} Pow2Monotone(a: nat, b: nat)
    requires a <= b
    ensures Pow2(a) <= Pow2(b)
  {
    Pow2Add(a, b - a);
  }

  /******* How long to wait *******/

  /** The two places of the body that may carry a hint; a body that is blank or not JSON has none. */
  datatype Body = NoHints | Hints(retryAfter: int, detailsRetryAfter: int)

  function BodyRetryAfter(body: Body): int {
    match body
    case NoHints => 0
    case Hints(top, details) => if top > 0 then top else details
  }

  /** parseRetryAfterHeader: delay-seconds in the header win, any other header text is ignored. */
  function RetryAfter(header: string, body: Body): int {
    var h := Atoi(TrimSpace(header));
    if TrimSpace(header) != "" && h.Some? && h.value > 0 then h.value else BodyRetryAfter(body)
  }

  lemma DelaySecondsAreRead(n: int, body: Body)
    requires 0 < n <= MAX_INT64
    ensures RetryAfter(Itoa(n), body) == n
  {
    AtoiItoa(n);
    ItoaTrimmed(n);
  }

  /** The header counts if it holds a positive number, whatever the body; else the body, where the outer hint comes first. */
  lemma RetryAfterIs(header: string, top: int, details: int)
    ensures Atoi(TrimSpace(header)).Some? && Atoi(TrimSpace(header)).value > 0 ==>
              RetryAfter(header, NoHints) == RetryAfter(header, Hints(top, details)) == Atoi(TrimSpace(header)).value
    ensures !(Atoi(TrimSpace(header)).Some? && Atoi(TrimSpace(header)).value > 0) ==>
              && RetryAfter(header, NoHints) == 0
              && RetryAfter(header, Hints(top, details)) == if top > 0 then top else details
  {}

  predicate Hinted(retryAfter: int, body: Body) {
    retryAfter > 0 || BodyRetryAfter(body) > 0
  }

  function Seconds(retryAfter: int, body: Body): int {
    var sec := if retryAfter > 0 then retryAfter else BodyRetryAfter(body);
    var known := if sec <= 0 then 5 else sec;
    if known < 1 then 1 else if known > 60 then 60 else known
  }

  function Min(a: int, b: int): int {
    if a <= b then a else b
  }

  /** rateLimitWaitDuration, with the wrap-around of both products. */
  function WaitDuration(retryAfter: int, body: Body, attempt: nat): int {
    var sec := Seconds(retryAfter, body);
    if attempt > 0 && !Hinted(retryAfter, body)
    then Wrap64(Min(Wrap64(sec * ShiftOne(attempt)), 60) * SECOND)
    else Wrap64(sec * SECOND)
  }

  /** A hint is honoured up to a minute, at every attempt; the header's comes first. */
  lemma HintedWait(retryAfter: int, body: Body, attempt: nat)
    requires Hinted(retryAfter, body)
    ensures WaitDuration(retryAfter, body, attempt) == Min(if retryAfter > 0 then retryAfter else BodyRetryAfter(body), 60) * SECOND
    ensures WaitDuration(retryAfter, body, attempt) ==
              (var hint := if retryAfter > 0 then retryAfter
                           else if body.retryAfter > 0 then body.retryAfter else body.detailsRetryAfter;
               if hint < 60 then hint * 1_000_000_000 else 60_000_000_000)
  {}

  /** 5 * 2^attempt seconds, at most a minute: the backoff that is meant. */
  function Backoff(attempt: nat): int {
    Min(5 * Pow2(attempt), 60) * SECOND
  }

  lemma BackoffIs(attempt: nat)
    ensures Backoff(attempt) == if attempt < 4 then [5, 10, 20, 40][attempt] * 1_000_000_000 else 60_000_000_000
  {
    if attempt >= 4 {
      Pow2Monotone(4, attempt);
    } else {
      assert Pow2(0) == 1 && Pow2(1) == 2 && Pow2(2) == 4 && Pow2(3) == 8;
    }
  }

  lemma ShiftOverflowsTo(attempt: nat)
    requires attempt >= 61
    ensures attempt == 62 ==> Wrap64(5 * ShiftOne(attempt)) == 0x4000_0000_0000_0000
    ensures attempt != 62 ==> Wrap64(Min(Wrap64(5 * ShiftOne(attempt)), 60) * SECOND) == 0
  {
    Pow2At60();
    assert Pow2(61) == 2 * Pow2(60) && Pow2(62) == 2 * Pow2(61);
    assert attempt >= 64 ==> ShiftOne(attempt) == 0;
  }

  /**
   * Without a hint the wait is the backoff exactly as long as the product does not overflow, and by accident
   * once more; at every other attempt it is 0, at which the loop gives up.
   */
  lemma UnhintedWaitIff(retryAfter: int, body: Body, attempt: nat)
    requires !Hinted(retryAfter, body)
    ensures WaitDuration(retryAfter, body, attempt) == Backoff(attempt) <==> attempt <= 60 || attempt == 62
    ensures Backoff(attempt) == if attempt < 4 then [5, 10, 20, 40][attempt] * 1_000_000_000 else 60_000_000_000
    ensures WaitDuration(retryAfter, body, attempt) == 0 <==> !(attempt <= 60 || attempt == 62)
  {
    Pow2At60();
    BackoffIs(attempt);
    if attempt <= 60 {
      Pow2Monotone(attempt, 60);
      assert ShiftOne(attempt) == Pow2(attempt);
    } else {
      Pow2Monotone(60, attempt);
      ShiftOverflowsTo(attempt);
    }
  }

  lemma ProductFitsIff(attempt: nat)
    ensures MIN_INT64 <= 5 * Pow2(attempt) <= MAX_INT64 <==> attempt <= 60
  {
    Pow2At60();
    if attempt <= 60 {
      Pow2Monotone(attempt, 60);
    } else {
      Pow2Monotone(61, attempt);
      assert Pow2(61) == 2 * Pow2(60);
    }
  }

  /** A wait is never short: it is 0 or from one second to a minute. */
  lemma WaitRange(retryAfter: int, body: Body, attempt: nat)
    ensures var w := WaitDuration(retryAfter, body, attempt); w == 0 || SECOND <= w <= 60 * SECOND
    ensures WaitDuration(retryAfter, body, attempt) > 0 <==> Hinted(retryAfter, body) || attempt <= 60 || attempt == 62
  {
    if Hinted(retryAfter, body) {
      HintedWait(retryAfter, body, attempt);
    } else {
      UnhintedWaitIff(retryAfter, body, attempt);
    }
  }

  /******* The loop *******/

  /** configRetryBudget for the text of MCP_CONFIG_RETRY_BUDGET_SEC. */
  function Budget(env: string): int {
    var s := TrimSpace(env);
    var sec := if s != "" && Atoi(s).Some? && Atoi(s).value > 0 then Atoi(s).value else 30;
    Wrap64(sec * SECOND)
  }

  /** A positive number of seconds is the budget, unless it overflows; anything else that can be read gives 30 s. */
  lemma BudgetReads(n: int)
    requires MIN_INT64 <= n <= MAX_INT64
    ensures n <= 0 ==> Budget(Itoa(n)) == 30_000_000_000
    ensures n > 0 ==> (Budget(Itoa(n)) == n * 1_000_000_000 <==> n * 1_000_000_000 <= MAX_INT64)
    ensures Budget("") == 30_000_000_000
  {
    AtoiItoa(n);
    ItoaTrimmed(n);
  }

  /** Space around the number does not matter, and what is no number counts as 30. */
  lemma BudgetOfText(env: string)
    ensures Atoi(TrimSpace(env)).None? ==> Budget(env) == 30_000_000_000
    ensures Atoi(TrimSpace(env)).Some? ==> Budget(env) == Budget(Itoa(Atoi(TrimSpace(env)).value))
  {
    var n := Atoi(TrimSpace(env));
    if n.Some? {
      AtoiItoa(n.value);
      ItoaTrimmed(n.value);
    }
  }

  /** What one POST to Control comes to. */
  datatype Reply =
    | Payload(config: Option<Config>)
    | RateLimited(retryAfter: int, body: Body)  // status 429: the ControlError's fields
    | Failure(status: Option<int>)            // another status, or no answer at all

  datatype Outcome = Fetched(config: Config) | Failed(reply: Reply)

  /** The world of one call: Control's replies, how long each fetch takes, and how much longer than asked each sleep takes. */
  datatype World = World(start: int, reply: nat -> Reply, fetchTime: nat -> nat, overSleep: nat -> nat)

  function WaitAt(w: World, k: nat): int {
    match w.reply(k)
    case RateLimited(after, body) => WaitDuration(after, body, k)
    case _ => 0
  }

  /** When attempt k is sent. */
  function SentAt(w: World, k: nat): int {
    if k == 0 then w.start else RepliedAt(w, k - 1) + WaitAt(w, k - 1) + w.overSleep(k - 1)
  }

  /** When its reply is there. */
  function RepliedAt(w: World, k: nat): int {
    if k == 0 then w.start + w.fetchTime(0)
    else RepliedAt(w, k - 1) + WaitAt(w, k - 1) + w.overSleep(k - 1) + w.fetchTime(k)
  }

  /** After attempt k another follows: it was rate limited, and a wait is due and fits the budget. */
  predicate Retried(w: World, budget: int, k: nat) {
    w.reply(k).RateLimited? && WaitAt(w, k) > 0 && RepliedAt(w, k) + WaitAt(w, k) <= w.start + budget
  }

  function Slept(w: World, k: nat): int {
    if k == 0 then 0 else Slept(w, k - 1) + WaitAt(w, k - 1)
  }

  function Conclude(reply: Reply): Outcome {
    match reply
    case Payload(None) => Fetched(map[])
    case Payload(Some(config)) => Fetched(config)
    case _ => Failed(reply)
  }

  lemma RepliedAfterSent(w: World, k: nat)
    ensures RepliedAt(w, k) == SentAt(w, k) + w.fetchTime(k)
    ensures SentAt(w, 0) == w.start && SentAt(w, k + 1) == RepliedAt(w, k) + WaitAt(w, k) + w.overSleep(k)
  {}

  /** k retries sleep at least k seconds, and no more than the budget. */
  lemma {:induction false} RetriesFitBudget(w: World, budget: int, k: nat)
    requires forall i :: 0 <= i < k ==> Retried(w, budget, i)
    ensures k * SECOND <= Slept(w, k)
    ensures w.start + Slept(w, k) <= SentAt(w, k) <= RepliedAt(w, k)
    ensures k > 0 ==> Slept(w, k) <= budget
  {
    if k > 0 {
      RetriesFitBudget(w, budget, k - 1);
      assert Retried(w, budget, k - 1);
      WaitRange(w.reply(k - 1).retryAfter, w.reply(k - 1).body, k - 1);
    }
  }

  /** A payload that is reached is where the loop ends. */
  lemma OneEnd(w: World, budget: int, attempt: nat)
    requires forall i :: 0 <= i < attempt ==> Retried(w, budget, i)
    ensures !Retried(w, budget, attempt) ==>
              forall k: nat :: w.reply(k).Payload? && (forall i :: 0 <= i < k ==> Retried(w, budget, i)) ==> k == attempt
  {
    forall k: nat | w.reply(k).Payload? && (forall i :: 0 <= i < k ==> Retried(w, budget, i)) && !Retried(w, budget, attempt)
      ensures k == attempt
    {
      assert !Retried(w, budget, k);
    }
  }

  /**
   * fetchControlConfigWithRetry: for every world it ends, at the first attempt that is not retried, with the
   * outcome of that attempt's reply.
   */
  method FetchWithRetry(w: World, budget: int) returns (outcome: Outcome, attempts: nat)
    ensures attempts >= 1
    ensures outcome == Conclude(w.reply(attempts - 1))
    ensures w.reply(attempts - 1).Payload? ==>
              outcome == Fetched(if w.reply(attempts - 1).config.Some? then w.reply(attempts - 1).config.value else map[])
    ensures !w.reply(attempts - 1).Payload? ==> outcome == Failed(w.reply(attempts - 1))
    ensures forall k: nat :: w.reply(k).Payload? && (forall i :: 0 <= i < k ==> Retried(w, budget, i)) ==>
              attempts == k + 1 && outcome == Fetched(if w.reply(k).config.Some? then w.reply(k).config.value else map[])
    ensures forall i :: 0 <= i < attempts - 1 ==> Retried(w, budget, i)
    ensures forall i :: 0 <= i < attempts - 1 ==> w.reply(i).RateLimited?
    ensures !Retried(w, budget, attempts - 1)
    ensures budget <= 0 ==> attempts == 1
    ensures attempts > 1 ==> (attempts - 1) * SECOND <= Slept(w, attempts - 1) <= budget
  {
    var now, deadline := w.start, w.start + budget;
    var attempt := 0;
    while true
      invariant now == SentAt(w, attempt) && deadline == w.start + budget
      invariant forall i :: 0 <= i < attempt ==> Retried(w, budget, i)
      invariant forall i :: 0 <= i < attempt ==> w.reply(i).RateLimited?
      decreases deadline - now
    {
      RetriesFitBudget(w, budget, attempt);
      RepliedAfterSent(w, attempt);
      OneEnd(w, budget, attempt);
      var reply := w.reply(attempt);
      now := now + w.fetchTime(attempt);
      if reply.Payload? {
        return Fetched(if reply.config.None? then map[] else reply.config.value), attempt + 1;
      }
      if !reply.RateLimited? {
        return Failed(reply), attempt + 1;
      }
      var wait := WaitDuration(reply.retryAfter, reply.body, attempt);
      WaitRange(reply.retryAfter, reply.body, attempt);
      assert wait == WaitAt(w, attempt);
      if wait <= 0 || now + wait > deadline {
        return Failed(reply), attempt + 1;
      }
      now := now + wait + w.overSleep(attempt);
      attempt := attempt + 1;
    }
  }

  /**
   * With a budget of up to a minute the attempt index stays at 60 or below, so nothing overflows: every
   * rate-limited attempt reached has a wait of 1 to 60 s, the backoff exactly where there is no hint, and the
   * loop gives up only for lack of time.
   */
  lemma MinuteBudgetNeverOverflows(w: World, budget: int, k: nat)
    requires budget <= 60 * SECOND && w.reply(k).RateLimited?
    requires forall i :: 0 <= i < k ==> Retried(w, budget, i)
    ensures k <= 60 && MIN_INT64 <= 5 * Pow2(k) <= MAX_INT64
    ensures SECOND <= WaitAt(w, k) <= 60 * SECOND
    ensures !Hinted(w.reply(k).retryAfter, w.reply(k).body) ==> WaitAt(w, k) == Backoff(k)
    ensures Retried(w, budget, k) <==> RepliedAt(w, k) + WaitAt(w, k) <= w.start + budget
  {
    var body, after := w.reply(k).body, w.reply(k).retryAfter;
    RetriesFitBudget(w, budget, k);
    ProductFitsIff(k);
    WaitRange(after, body, k);
    if !Hinted(after, body) { UnhintedWaitIff(after, body, k); }
  }

  /** The wait that is meant: the hint, up to a minute, or the backoff. */
  function Intended(w: World, k: nat): int
    requires w.reply(k).RateLimited?
  {
    if Hinted(w.reply(k).retryAfter, w.reply(k).body) then WaitAt(w, k) else Backoff(k)
  }

  /** If attempt k is reached and rate limited, it is retried exactly if the wait that is meant fits the budget. */
  ghost predicate OnlyTimeEnds(w: World, budget: int, k: nat) {
    w.reply(k).RateLimited? && (forall i :: 0 <= i < k ==> Retried(w, budget, i)) ==>
      (Retried(w, budget, k) <==> RepliedAt(w, k) + Intended(w, k) <= w.start + budget)
  }

  /** An attempt whose backoff overflows comes after 61 s at least, and the backoff meant there is a minute. */
  lemma ShortBudgetKeepsTime(w: World, budget: int, k: nat)
    requires budget < 121 * SECOND
    ensures OnlyTimeEnds(w, budget, k)
  {
    if w.reply(k).RateLimited? && forall i :: 0 <= i < k ==> Retried(w, budget, i) {
      var body, after := w.reply(k).body, w.reply(k).retryAfter;
      RetriesFitBudget(w, budget, k);
      WaitRange(after, body, k);
      if !Hinted(after, body) {
        UnhintedWaitIff(after, body, k);
        if k > 60 { BackoffIs(k); }
      }
    }
  }

  lemma OverflowEnds(w: World, budget: int, k: nat)
    requires k == 61 && w.reply(k).RateLimited? && !Hinted(w.reply(k).retryAfter, w.reply(k).body)
    requires forall i :: 0 <= i < k ==> Retried(w, budget, i)
    requires RepliedAt(w, k) + 60 * SECOND <= w.start + budget
    ensures !OnlyTimeEnds(w, budget, k)
  {
    UnhintedWaitIff(w.reply(k).retryAfter, w.reply(k).body, k);
    BackoffIs(k);
  }

  /** 61 hints of one second, then none. */
  function HintsStop(): World {
    World(0, k => if k < 61 then RateLimited(1, NoHints) else RateLimited(0, NoHints), _ => 0, _ => 0)
  }

  lemma {:induction false} OneSecondEach(budget: int, n: nat)
    requires n <= 61 && 61 * SECOND <= budget
    ensures RepliedAt(HintsStop(), n) == n * SECOND
    ensures forall k :: 0 <= k < n ==> Retried(HintsStop(), budget, k)
  {
    if n > 0 {
      OneSecondEach(budget, n - 1);
      HintedWait(1, NoHints, n - 1);
    }
  }

  /** With 121 s the overflow can be reached: attempt 61 is not retried, although a minute would fit. */
  lemma LongBudgetGivesUpEarly(budget: int)
    requires 121 * SECOND <= budget
    ensures !OnlyTimeEnds(HintsStop(), budget, 61)
  {
    OneSecondEach(budget, 61);
    OverflowEnds(HintsStop(), budget, 61);
  }

  /**
   * In every world the loop ends its retries only for lack of time, if and only if the budget is below 121 s: up to
   * there the overflow of the backoff is not reached or makes no difference.
   */
  lemma OnlyTimeEndsIff(budget: int)
    ensures (forall w, k :: OnlyTimeEnds(w, budget, k)) <==> budget < 121_000_000_000
  {
    if budget < 121 * SECOND {
      forall w, k ensures OnlyTimeEnds(w, budget, k) { ShortBudgetKeepsTime(w, budget, k); }
    } else {
      LongBudgetGivesUpEarly(budget);
    }
  }
}
