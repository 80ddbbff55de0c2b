/** The client's request loop: exponential backoff, Retry-After, and idempotency gating. */
module RetryLoop {
  import opened Wrappers
  import opened MonotoneClock

  datatype Config = Config(maxRetries: nat, baseDelay: nat, maxDelay: nat)

  /** `hasGetBody` says whether the request carries a way to rebuild its body. */
  datatype Request = Request(httpMethod: string, hasGetBody: bool)

  /** `retryAfter` is the header when it parses as a decimal integer. */
  datatype Reply =
    | TransportError
    | Response(status: int, retryAfter: Option<int>, body: Option<string>)

  datatype Failure =
    | BodyReset
    | ContextDone
    | LimiterRefused
    | FetchFailed
    | RateLimited(status: int)
    | BadStatus(status: int)
    | Unreadable

  /** What the surroundings do in one pass of the loop. */
  datatype Turn = Turn(resetOk: bool, doneWhileSleeping: bool, limiterOk: bool, reply: Reply)

  predicate IsRetryableMethod(httpMethod: string) {
    httpMethod in ["GET", "HEAD", "OPTIONS", "TRACE", "PUT", "DELETE"]
  }

  predicate IsRequestReplayable(req: Request) {
    req.httpMethod in ["GET", "HEAD", "OPTIONS", "TRACE"] || req.hasGetBody
  }

  predicate ShouldRetryStatus(status: int) {
    status in [408, 425, 429, 500, 502, 503, 504]
  }

  function MinDuration(a: nat, b: nat): nat {
    if a < b then a else b
  }

  function MaxAttempts(cfg: Config, req: Request): nat {
    if IsRetryableMethod(req.httpMethod) && IsRequestReplayable(req) then cfg.maxRetries + 1 else 1
  }

  // ----- What each pass may do -----

  /** Section 9.2.2 of RFC 9110 lists the idempotent methods; of these, those that may carry a body are
      sent again only if it can be rebuilt. */
  ghost function Limit(cfg: Config, req: Request): nat {
    if req.httpMethod in {"GET", "HEAD", "OPTIONS", "TRACE"} || (req.httpMethod in {"PUT", "DELETE"} && req.hasGetBody)
    then cfg.maxRetries + 1 else 1
  }

  /** Whether pass `n` gets as far as sending the request. */
  ghost predicate Sends(req: Request, turn: Turn, n: nat) {
    (req.hasGetBody ==> turn.resetOk) && (n > 0 ==> !turn.doneWhileSleeping) && turn.limiterOk
  }

  /** A failure that may be transient: the request went out, and met a transport error, a listed status
      or an unreadable answer. */
  ghost predicate MayTryAgain(req: Request, turn: Turn, n: nat) {
    && Sends(req, turn, n)
    && (turn.reply.TransportError?
        || turn.reply.status in {408, 425, 429, 500, 502, 503, 504}
        || (turn.reply.status == 200 && turn.reply.body.None?))
  }

  /** What the caller gets if pass `n` is the last. */
  ghost function Answer(req: Request, turn: Turn, n: nat): Result<string, Failure> {
    if req.hasGetBody && !turn.resetOk then Err(BodyReset)
    else if n > 0 && turn.doneWhileSleeping then Err(ContextDone)
    else if !turn.limiterOk then Err(LimiterRefused)
    else
      match turn.reply
      case TransportError => Err(FetchFailed)
      case Response(status, _, body) =>
        if status == 200 then if body.Some? then Ok(body.value) else Err(Unreadable)
        else if status in {429, 503} then Err(RateLimited(status))
        else Err(BadStatus(status))
  }

  /** The loop's last pass: every earlier one met a failure that may be transient, and this one did not
      or there is no pass left. */
  ghost predicate StopsAt(req: Request, world: nat -> Turn, limit: nat, n: nat) {
    && n < limit
    && (forall i: nat :: i < n ==> MayTryAgain(req, world(i), i))
    && (!MayTryAgain(req, world(n), n) || n == limit - 1)
  }

  // ----- How long it sleeps -----

  ghost function Pow2(n: nat): nat {
    if n == 0 then 1 else 2 * Pow2(n - 1)
  }

  /** The lifetime of a usable Retry-After: a positive number of seconds on a 429 or 503. */
  ghost function Hint(reply: Reply): Option<nat> {
    if reply.Response? && (reply.status == 429 || reply.status == 503)
       && reply.retryAfter.Some? && reply.retryAfter.value > 0
    then Some(reply.retryAfter.value * 1_000_000_000)
    else None
  }

  /** The latest hint of a history, else the configured base. */
  ghost function Base(cfg: Config, history: seq<Reply>): nat {
    if history == [] then cfg.baseDelay
    else if Hint(history[|history| - 1]).Some? then Hint(history[|history| - 1]).value
    else Base(cfg, history[..|history| - 1])
  }

  /** Failures counted from the one that carried the latest hint, else all of them. */
  ghost function Failures(history: seq<Reply>): nat {
    if history == [] then 0
    else if Hint(history[|history| - 1]).Some? then 1
    else 1 + Failures(history[..|history| - 1])
  }

  ghost function Capped(delay: nat, cap: nat): nat {
    if delay <= cap then delay else cap
  }

  /** The sleep after a history of failures, in closed form. */
  ghost function Backoff(cfg: Config, history: seq<Reply>): nat {
    Capped(Base(cfg, history) * Pow2(Failures(history)), cfg.maxDelay)
  }

  /** Doubling and capping at every failure amounts to the closed form. */
  lemma BackoffDoubles(cfg: Config, history: seq<Reply>, reply: Reply, delay: nat)
    requires delay == if history == [] then cfg.baseDelay else Backoff(cfg, history)
    ensures var hinted := if Hint(reply).Some? then Hint(reply).value else delay;
      Backoff(cfg, history + [reply]) == Capped(hinted * 2, cfg.maxDelay)
  {
    var longer := history + [reply];
    assert longer[..|longer| - 1] == history;
    assert Pow2(1) == 2 * Pow2(0);
    if Hint(reply).None? {
      var base, j := Base(cfg, history), Failures(history);
      assert base * Pow2(j + 1) == base * Pow2(j) * 2;
    }
  }

  /** A sleep honours the Retry-After it follows exactly when that does not exceed the cap. */
  lemma HonoursRetryAfterIff(cfg: Config, history: seq<Reply>, reply: Reply)
    requires Hint(reply).Some?
    ensures Backoff(cfg, history + [reply]) >= Hint(reply).value <==> Hint(reply).value <= cfg.maxDelay
  {
    BackoffDoubles(cfg, history, reply, if history == [] then cfg.baseDelay else Backoff(cfg, history));
  }

  ghost function Replies(world: nat -> Turn, n: nat): seq<Reply> {
    seq(n, i requires 0 <= i => world(i).reply)
  }

  ghost function Sum(sleeps: seq<nat>): nat {
    if sleeps == [] then 0 else sleeps[0] + Sum(sleeps[1..])
  }

  lemma {:induction false} SumAtMost(sleeps: seq<nat>, each: nat)
    requires forall i :: 0 <= i < |sleeps| ==> sleeps[i] <= each
    ensures Sum(sleeps) <= |sleeps| * each
  {
    if sleeps != [] {
      SumAtMost(sleeps[1..], each);
    }
  }

  lemma MonotoneProduct(a: nat, b: nat, each: nat)
    requires a <= b
    ensures a * each <= b * each
  {
    assert b * each == a * each + (b - a) * each;
  }

  /** Sleep `i` is the backoff after the first `i + 1` replies, and within the cap. */
  ghost predicate SleepsInClosedForm(cfg: Config, world: nat -> Turn, sleeps: seq<nat>) {
    forall i: nat :: i < |sleeps| ==> sleeps[i] == Backoff(cfg, Replies(world, i + 1)) <= cfg.maxDelay
  }

  lemma NoSleepsYet(cfg: Config, world: nat -> Turn)
    ensures SleepsInClosedForm(cfg, world, [])
  {
  }

  lemma OneMoreSleep(cfg: Config, world: nat -> Turn, sleeps: seq<nat>, delay: nat)
    requires SleepsInClosedForm(cfg, world, sleeps) && delay == Backoff(cfg, Replies(world, |sleeps| + 1)) <= cfg.maxDelay
    ensures SleepsInClosedForm(cfg, world, sleeps + [delay])
  {
  }

  // ----- The loop -----

  /**
   Sends the request until a pass is final or none is left. `turns` counts the passes begun, `sent`
   the requests that went out, and `sleeps` the delays it asked a timer for.
   */
  method DoRequestWithRetry(cfg: Config, req: Request, world: nat -> Turn)
    returns (result: Result<string, Failure>, turns: nat, sent: nat, sleeps: seq<nat>)
    ensures 1 <= turns && StopsAt(req, world, Limit(cfg, req), turns - 1)
    ensures result == Answer(req, world(turns - 1), turns - 1)
    ensures sent == turns - (if Sends(req, world(turns - 1), turns - 1) then 0 else 1)
    ensures sent <= cfg.maxRetries + 1
    ensures req.httpMethod !in {"GET", "HEAD", "OPTIONS", "TRACE", "PUT", "DELETE"} ==> sent <= 1
    ensures result.Ok? ==>
      sent == turns && world(turns - 1).reply.Response? && world(turns - 1).reply.status == 200
      && world(turns - 1).reply.body == Some(result.value)
    ensures |sleeps| == if turns > 1 && result == Err(BodyReset) then turns - 2 else turns - 1
    ensures SleepsInClosedForm(cfg, world, sleeps)
    ensures Sum(sleeps) <= cfg.maxRetries * cfg.maxDelay
  {
    hide Backoff, Sum, SleepsInClosedForm;
    NoSleepsYet(cfg, world);
    var lastErr: Option<Failure> := None;
    var delay := cfg.baseDelay;
    var maxAttempts := MaxAttempts(cfg, req);
    turns, sent, sleeps := 0, 0, [];
    for attempt := 0 to maxAttempts
      invariant sent == turns == attempt
      invariant |sleeps| == if attempt == 0 then 0 else attempt - 1
      invariant forall i: nat :: i < attempt ==> MayTryAgain(req, world(i), i)
      invariant attempt > 0 ==> lastErr.Some? && Answer(req, world(attempt - 1), attempt - 1) == Err(lastErr.value)
      invariant delay == if attempt == 0 then cfg.baseDelay else Backoff(cfg, Replies(world, attempt))
      invariant attempt > 0 ==> delay <= cfg.maxDelay
      invariant SleepsInClosedForm(cfg, world, sleeps)
    {
      var turn := world(attempt);
      turns := attempt + 1;
      if req.hasGetBody && !turn.resetOk {
        TotalSleep(cfg, world, sleeps);
        return Err(BodyReset), turns, sent, sleeps;
      }
      if attempt > 0 {
        OneMoreSleep(cfg, world, sleeps, delay);
        sleeps := sleeps + [delay];
        if turn.doneWhileSleeping {
          TotalSleep(cfg, world, sleeps);
          return Err(ContextDone), turns, sent, sleeps;
        }
      }
      if !turn.limiterOk {
        TotalSleep(cfg, world, sleeps);
        return Err(LimiterRefused), turns, sent, sleeps;
      }
      sent := sent + 1;
      assert Replies(world, attempt + 1) == Replies(world, attempt) + [turn.reply];
      BackoffDoubles(cfg, Replies(world, attempt), turn.reply, delay);
      match turn.reply
      case TransportError =>
        lastErr := Some(FetchFailed);
        delay := MinDuration(delay * 2, cfg.maxDelay);
      case Response(status, retryAfter, body) =>
        if status == 429 || status == 503 {
          if retryAfter.Some? && retryAfter.value > 0 {
            delay := retryAfter.value * SECOND;
          }
          lastErr := Some(RateLimited(status));
          delay := MinDuration(delay * 2, cfg.maxDelay);
        } else if status != 200 {
          lastErr := Some(BadStatus(status));
          if !ShouldRetryStatus(status) {
            TotalSleep(cfg, world, sleeps);
            return Err(BadStatus(status)), turns, sent, sleeps;
          }
          delay := MinDuration(delay * 2, cfg.maxDelay);
        } else if body.None? {
          lastErr := Some(Unreadable);
          delay := MinDuration(delay * 2, cfg.maxDelay);
        } else {
          TotalSleep(cfg, world, sleeps);
          return Ok(body.value), turns, sent, sleeps;
        }
    }
    TotalSleep(cfg, world, sleeps);
    return Err(lastErr.value), turns, sent, sleeps;
  }

  lemma TotalSleep(cfg: Config, world: nat -> Turn, sleeps: seq<nat>)
    requires |sleeps| <= cfg.maxRetries && SleepsInClosedForm(cfg, world, sleeps)
    ensures Sum(sleeps) <= cfg.maxRetries * cfg.maxDelay
  {
    SumAtMost(sleeps, cfg.maxDelay);
    MonotoneProduct(|sleeps|, cfg.maxRetries, cfg.maxDelay);
  }
}
