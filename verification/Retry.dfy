/** The connector client's retry loop and its capped exponential delays. What a send does is
    an arbitrary stream of outcomes; time is a real number of seconds. */
module Retry {
  import opened Common

  datatype Policy = Policy(maxRetries: int, baseDelay: real, maxDelay: real, jitterFactor: real)

  /** What one attempt to send produces: a response, or an exception of one of the kinds the
      loop distinguishes. */
  datatype Send =
    | Response(status: int, size: nat, hasScript: bool)
    | RaisedTimeout
    | RaisedConnectorError(code: string, retryable: bool)
    | RaisedHttpTimeout
    | RaisedHttpError
    | RaisedOther(code: string)

  datatype Error =
    | ResponseTooLarge | UntrustedScript | AuthFailed | Forbidden | RateLimited | UpstreamError | RedirectBlocked
    | Connector(code: string) | TimedOut | TransportFailed | Other(code: string)

  /** A failed attempt carries the error to raise if it is not retried. */
  datatype Verdict = Success | Failure(error: Error, retryable: bool)

  const REDIRECTS := {301, 302, 303, 307, 308}

  function Judge(send: Send, maxBytes: int): Verdict {
    match send
    case Response(status, size, hasScript) =>
      if size > maxBytes then Failure(ResponseTooLarge, false)
      else if hasScript then Failure(UntrustedScript, false)
      else if status == 401 then Failure(AuthFailed, false)
      else if status == 403 then Failure(Forbidden, false)
      else if status == 429 then Failure(RateLimited, true)
      else if status >= 500 then Failure(UpstreamError, true)
      else if status in REDIRECTS then Failure(RedirectBlocked, false)
      else Success
    case RaisedTimeout => Failure(TimedOut, true)
    case RaisedConnectorError(code, retryable) => Failure(Connector(code), retryable)
    case RaisedHttpTimeout => Failure(TimedOut, true)
    case RaisedHttpError => Failure(TransportFailed, true)
    case RaisedOther(code) => Failure(Other(code), false)
  }

  predicate Retryable(send: Send, maxBytes: int) {
    Judge(send, maxBytes).Failure? && Judge(send, maxBytes).retryable
  }

  function Power2(n: nat): (p: nat)
    ensures p >= 1
  {
    if n == 0 then 1 else 2 * Power2(n - 1)
  }

  function MinReal(a: real, b: real): real {
    if b < a then b else a
  }

  /** A product, named so that it can be kept whole in a proof. */
  function Times(a: real, b: real): real {
    a * b
  }

  /** The delay without jitter before the given attempt. */
  function PlainDelay(p: Policy, attempt: int): real {
    if attempt <= 0 then 0.0 else MinReal(Times(p.baseDelay, Power2(attempt - 1) as real), p.maxDelay)
  }

  /** `draw` is where in its range the uniform jitter falls. */
  function DelayFor(p: Policy, attempt: int, draw: real): real {
    if attempt <= 0 then 0.0 else PlainDelay(p, attempt) + Times(draw, Times(p.jitterFactor, PlainDelay(p, attempt)))
  }

  datatype Outcome = Delivered(status: int, retryCount: nat) | Raised(error: Error)

  /** How many retries a policy really allows. */
  function Limit(p: Policy): nat {
    Max(0, p.maxRetries)
  }

  /** What the loop does with a stream of sends: it stays within the limit, goes on only
      after retryable failures, and ends with the first success or the first error it may
      not retry. */
  ghost predicate IsRun(p: Policy, maxBytes: int, sends: nat -> Send, outcome: Outcome, sent: nat) {
    && 1 <= sent <= Limit(p) + 1
    && (forall i | 0 <= i < sent - 1 :: Retryable(sends(i), maxBytes))
    && (outcome.Delivered? ==>
          && Judge(sends(sent - 1), maxBytes) == Success
          && sends(sent - 1).Response? && outcome == Delivered(sends(sent - 1).status, sent - 1))
    && (outcome.Raised? ==>
          var last := Judge(sends(sent - 1), maxBytes);
          && last.Failure? && outcome.error == last.error && (last.retryable ==> sent == Limit(p) + 1))
  }

  /** `sent` and `slept` record what the loop did. */
  method Request(p: Policy, maxBytes: int, sends: nat -> Send, draws: nat -> real)
    returns (outcome: Outcome, sent: nat, slept: seq<real>)
    ensures IsRun(p, maxBytes, sends, outcome, sent)
    ensures |slept| == sent - 1
    ensures forall i | 0 <= i < |slept| :: slept[i] == DelayFor(p, i + 1, draws(i))
  {
    var attempt := 0;
    sent, slept := 0, [];
    while true
      invariant sent == attempt == |slept| <= Limit(p)
      invariant forall i | 0 <= i < attempt :: Retryable(sends(i), maxBytes)
      invariant forall i | 0 <= i < |slept| :: slept[i] == DelayFor(p, i + 1, draws(i))
      decreases Limit(p) - attempt
    {
      var send := sends(sent);
      sent := sent + 1;
      match Judge(send, maxBytes) {
        case Success =>
          return Delivered(send.status, attempt), sent, slept;
        case Failure(error, retryable) =>
          if !retryable || attempt >= p.maxRetries {
            return Raised(error), sent, slept;
          }
      }
      attempt := attempt + 1;
      slept := slept + [DelayFor(p, attempt, draws(attempt - 1))];
    }
  }

  /** What becomes of one attempt: every response is judged by size, script and status in that
      order; throttling, server errors and transport failures are worth another try. */
  lemma VerdictIsExact(send: Send, maxBytes: int)
    ensures match send
            case Response(status, size, hasScript) =>
              var outcome := Common.Outcome<Verdict>.Pass
                .Check(size <= maxBytes, Failure(ResponseTooLarge, false))
                .Check(!hasScript, Failure(UntrustedScript, false))
                .Check(status != 401, Failure(AuthFailed, false))
                .Check(status != 403, Failure(Forbidden, false))
                .Check(status != 429, Failure(RateLimited, true))
                .Check(status < 500, Failure(UpstreamError, true))
                .Check(status != 301 && status != 302 && status != 303 && status != 307 && status != 308,
                       Failure(RedirectBlocked, false));
              Judge(send, maxBytes) == (match outcome case Pass => Success case Fail(verdict) => verdict)
            case RaisedConnectorError(code, retryable) => Judge(send, maxBytes) == Failure(Connector(code), retryable)
            case RaisedOther(code) => Judge(send, maxBytes) == Failure(Other(code), false)
            case RaisedHttpError => Judge(send, maxBytes) == Failure(TransportFailed, true)
            case _ => Judge(send, maxBytes) == Failure(TimedOut, true)
  {
  }

  /** Exactly which attempts are tried again. */
  lemma RetryableIff(send: Send, maxBytes: int)
    ensures Retryable(send, maxBytes) <==>
            || (send.Response? && send.size <= maxBytes && !send.hasScript && (send.status == 429 || send.status >= 500))
            || send.RaisedTimeout? || send.RaisedHttpTimeout? || send.RaisedHttpError?
            || (send.RaisedConnectorError? && send.retryable)
  {
  }

  /** A request succeeds exactly when, within the limit, some attempt succeeds after
      nothing but retryable failures. */
  lemma SucceedsIff(p: Policy, maxBytes: int, sends: nat -> Send, outcome: Outcome, sent: nat)
    requires IsRun(p, maxBytes, sends, outcome, sent)
    ensures outcome.Delivered? <==>
            exists i: nat :: (i == 0 || i <= p.maxRetries) && Judge(sends(i), maxBytes).Success?
                             && forall j: nat | j < i :: Retryable(sends(j), maxBytes)
  {
  }

  /** The stream decides the run: no two runs over one stream differ. */
  lemma RunIsDetermined(p: Policy, maxBytes: int, sends: nat -> Send, o1: Outcome, n1: nat, o2: Outcome, n2: nat)
    requires IsRun(p, maxBytes, sends, o1, n1) && IsRun(p, maxBytes, sends, o2, n2)
    ensures n1 == n2 && o1 == o2
  {
  }

  // ---- how long it sleeps

  function Total(slept: seq<real>): real {
    if slept == [] then 0.0 else Total(slept[..|slept| - 1]) + slept[|slept| - 1]
  }

  /** The sum of the first n delays without jitter. */
  function PlainTotal(p: Policy, n: nat): real {
    if n == 0 then 0.0 else PlainTotal(p, n - 1) + PlainDelay(p, n)
  }

  predicate Sensible(p: Policy) {
    p.baseDelay >= 0.0 && p.maxDelay >= 0.0 && p.jitterFactor >= 0.0
  }

  lemma Grows(f: real, a: real, b: real)
    requires f >= 0.0 && a <= b
    ensures Times(f, a) <= Times(f, b)
  {
  }

  lemma Spreads(f: real, a: real, b: real)
    ensures Times(f, a + b) == Times(f, a) + Times(f, b)
    ensures Times(a + b, f) == Times(a, f) + Times(b, f)
  {
  }

  lemma Units(a: real)
    ensures Times(1.0, a) == Times(a, 1.0) == a
    ensures Times(0.0, a) == Times(a, 0.0) == 0.0
  {
  }

  lemma JitterIsBounded(p: Policy, n: nat, draw: real)
    requires Sensible(p) && n > 0 && 0.0 <= draw <= 1.0
    ensures 0.0 <= PlainDelay(p, n) <= DelayFor(p, n, draw) <= Times(1.0 + p.jitterFactor, PlainDelay(p, n))
  {
    hide Times;
    var plain := PlainDelay(p, n);
    Grows(p.baseDelay, 0.0, Power2(n - 1) as real);
    Units(p.baseDelay);
    Units(p.jitterFactor);
    Grows(p.jitterFactor, 0.0, plain);
    var jitter := Times(p.jitterFactor, plain);
    JitterDraw(draw, jitter);
    Units(plain);
    Spreads(plain, 1.0, p.jitterFactor);
  }

  lemma JitterDraw(draw: real, jitter: real)
    requires 0.0 <= draw <= 1.0 && jitter >= 0.0
    ensures 0.0 <= Times(draw, jitter) <= jitter
  {
    assert Times(draw, jitter) == Times(jitter, draw);
    hide Times;
    Grows(jitter, 0.0, draw);
    Grows(jitter, draw, 1.0);
    Units(jitter);
  }

  /** Whatever the jitter, the loop sleeps at least the plain total and at most that total
      raised by the jitter factor. */
  lemma {:induction false} SleepIsSandwiched(p: Policy, slept: seq<real>, draws: nat -> real)
    requires Sensible(p)
    requires forall i: nat :: 0.0 <= draws(i) <= 1.0
    requires forall i | 0 <= i < |slept| :: slept[i] == DelayFor(p, i + 1, draws(i))
    ensures PlainTotal(p, |slept|) <= Total(slept) <= Times(1.0 + p.jitterFactor, PlainTotal(p, |slept|))
  {
    hide Times, DelayFor, PlainDelay, Sensible;
    var n := |slept|;
    if n == 0 {
      Units(1.0 + p.jitterFactor);
    } else {
      SleepIsSandwiched(p, slept[..n - 1], draws);
      JitterIsBounded(p, n, draws(n - 1));
      Spreads(1.0 + p.jitterFactor, PlainTotal(p, n - 1), PlainDelay(p, n));
    }
  }

  /** Each delay is twice the one before it until the cap is met, starting from the base. */
  lemma DelaysDouble(p: Policy, n: nat)
    requires p.baseDelay >= 0.0 && p.maxDelay >= 0.0
    ensures PlainDelay(p, 1) == MinReal(p.baseDelay, p.maxDelay)
    ensures n >= 1 ==> PlainDelay(p, n + 1) == MinReal(PlainDelay(p, n) + PlainDelay(p, n), p.maxDelay)
  {
    Units(p.baseDelay);
    if n >= 1 {
      var power := Power2(n - 1) as real;
      Spreads(p.baseDelay, power, power);
      Grows(p.baseDelay, 0.0, power);
      Units(p.baseDelay);
      assert Power2(n) as real == power + power;
    }
    hide Times;
  }

  /** The plain total stays below both the uncapped geometric sum and n full caps. */
  lemma {:induction false} PlainTotalIsBounded(p: Policy, n: nat)
    ensures PlainTotal(p, n) <= Times(p.baseDelay, (Power2(n) - 1) as real)
    ensures PlainTotal(p, n) <= Times(n as real, p.maxDelay)
  {
    hide Times;
    if n == 0 {
      Units(p.baseDelay);
      Units(p.maxDelay);
    } else {
      PlainTotalIsBounded(p, n - 1);
      var power := Power2(n - 1) as real;
      assert (Power2(n) - 1) as real == (Power2(n - 1) - 1) as real + power;
      Spreads(p.baseDelay, (Power2(n - 1) - 1) as real, power);
      assert n as real == (n - 1) as real + 1.0;
      Spreads(p.maxDelay, (n - 1) as real, 1.0);
      Units(p.maxDelay);
    }
  }

  /** The closed bound on all the sleeping one request can do. */
  lemma SleepIsBounded(p: Policy, slept: seq<real>, draws: nat -> real)
    requires Sensible(p)
    requires forall i: nat :: 0.0 <= draws(i) <= 1.0
    requires forall i | 0 <= i < |slept| :: slept[i] == DelayFor(p, i + 1, draws(i))
    ensures var n := |slept|;
            Total(slept) <= Times(1.0 + p.jitterFactor,
                                  MinReal(Times(p.baseDelay, (Power2(n) - 1) as real), Times(n as real, p.maxDelay)))
  {
    hide Times, DelayFor, PlainTotal, Total, Power2;
    var n := |slept|;
    SleepIsSandwiched(p, slept, draws);
    PlainTotalIsBounded(p, n);
    Grows(1.0 + p.jitterFactor, PlainTotal(p, n),
          MinReal(Times(p.baseDelay, (Power2(n) - 1) as real), Times(n as real, p.maxDelay)));
  }
}
