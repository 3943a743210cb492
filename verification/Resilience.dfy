/** Retry and circuit breaker around a fallible backend (`core/resilience.py`), as the LLM and storage
    clients combine them: the breaker around the retries. Times are in seconds. */
module Resilience {
  import opened Options

  /** How one invocation of the backend ends. */
  datatype Outcome = Done | Retryable | Fatal

  /** Index of the first invocation that is not retried, or `n` if the first `n` all are. */
  function Decisive(backend: nat -> Outcome, n: nat): (k: nat)
    ensures k <= n && (forall i | 0 <= i < k :: backend(i) == Retryable)
    ensures k < n ==> backend(k) != Retryable
  {
    if n == 0 then 0
    else
      var k := Decisive(backend, n - 1);
      if k < n - 1 || backend(k) != Retryable then k else n
  }

  /** The pause after invocation `n`. */
  function Pause(delay: real, factor: real, n: nat): real
    decreases n
  {
    if n == 0 then delay else Pause(delay, factor, n - 1) * factor
  }

  /** Total delay before invocation `n`. */
  function Slept(delay: real, factor: real, n: nat): real
    decreases n
  {
    if n == 0 then 0.0 else Slept(delay, factor, n - 1) + Pause(delay, factor, n - 1)
  }

  /** The pauses: the first is the delay itself, and each later one is the one before it times the factor. */
  lemma {:induction false} SleptFromFirst(delay: real, factor: real, n: nat)
    ensures Slept(delay, factor, 0) == 0.0
    ensures Slept(delay, factor, n + 1) == delay + Slept(delay * factor, factor, n)
    ensures Pause(delay, factor, n + 1) == Pause(delay * factor, factor, n)
    decreases n
  {
    if n > 0 {
      SleptFromFirst(delay, factor, n - 1);
    }
  }

  datatype Policy = Policy(maxAttempts: int, baseDelay: real, backoffFactor: real)

  function Attempts(p: Policy): nat {
    if p.maxAttempts < 0 then 0 else p.maxAttempts
  }

  /** How often the backend is invoked, and whether the operation returns. */
  function Invocations(p: Policy, backend: nat -> Outcome): (n: nat)
    ensures n <= Attempts(p)
    ensures forall i | 0 <= i < n - 1 :: backend(i) == Retryable
    ensures n < Attempts(p) ==> n > 0 && backend(n - 1) != Retryable
  {
    var k := Decisive(backend, Attempts(p));
    if k < Attempts(p) then k + 1 else k
  }

  predicate Returns(p: Policy, backend: nat -> Outcome) {
    var k := Decisive(backend, Attempts(p));
    k < Attempts(p) && backend(k) == Done
  }

  /** Invokes the backend until an invocation is decisive, `maxAttempts` times at most, pausing between
      invocations and never after the last. With no attempt allowed the code raises without calling. */
  method WithRetry(backend: nat -> Outcome, p: Policy) returns (returned: bool, invocations: nat, slept: real)
    ensures invocations == Invocations(p, backend) && returned == Returns(p, backend)
    ensures slept == Slept(p.baseDelay, p.backoffFactor, if invocations == 0 then 0 else invocations - 1)
    ensures returned <==> exists k: nat ::
              k < p.maxAttempts && backend(k) == Done && forall i: nat | i < k :: backend(i) == Retryable
    ensures (forall i: nat | i < p.maxAttempts :: backend(i) == Retryable) ==>
              invocations == if p.maxAttempts < 0 then 0 else p.maxAttempts
    ensures forall k: nat ::
              k < p.maxAttempts && backend(k) != Retryable && (forall i: nat | i < k :: backend(i) == Retryable)
              ==> invocations == k + 1
  {
    var delay := p.baseDelay;
    invocations, slept, returned := 0, 0.0, false;
    while invocations < p.maxAttempts
      invariant 0 <= invocations <= Attempts(p)
      invariant forall i | 0 <= i < invocations :: backend(i) == Retryable
      invariant !returned && delay == Pause(p.baseDelay, p.backoffFactor, invocations)
      invariant invocations < p.maxAttempts || invocations == 0
                ==> slept == Slept(p.baseDelay, p.backoffFactor, invocations)
      invariant invocations == p.maxAttempts && p.maxAttempts > 0
                ==> slept == Slept(p.baseDelay, p.backoffFactor, p.maxAttempts - 1)
    {
      var o := backend(invocations);
      invocations := invocations + 1;
      if o != Retryable {
        returned := o == Done;
        break;
      }
      if invocations < p.maxAttempts {
        slept := slept + delay;
      }
      delay := delay * p.backoffFactor;
    }
  }

  // ---- The breaker ----------------------------------------------------------------------------------

  datatype State = State(failures: nat, openedAt: Option<real>)

  datatype Config = Config(failureThreshold: int, resetTimeout: real, policy: Policy)

  /** A guarded call: when it begins, when its operation ends, and what the backend would answer to each invocation. */
  datatype Call = Call(begin: real, end: real, backend: nat -> Outcome)

  predicate IsOpen(s: State, cfg: Config, now: real) {
    s.openedAt.Some? && now - s.openedAt.value < cfg.resetTimeout
  }

  function After(s: State, cfg: Config, c: Call): State {
    if IsOpen(s, cfg, c.begin) then s
    else if Returns(cfg.policy, c.backend) then State(0, None)
    else State(s.failures + 1, if s.failures + 1 >= cfg.failureThreshold then Some(c.end) else s.openedAt)
  }

  class CircuitBreaker {
    const cfg: Config
    var failures: nat
    var openedAt: Option<real>

    constructor (cfg: Config)
      ensures this.cfg == cfg && failures == 0 && openedAt == None
    {
      this.cfg := cfg;
      failures, openedAt := 0, None;
    }

    ghost function View(): State
      reads this
    {
      State(failures, openedAt)
    }

    /** The operation guarded is the backend with its retries. */
    method Guard(c: Call) returns (invoked: bool, invocations: nat, returned: bool)
      modifies this
      ensures invoked <==> !IsOpen(old(View()), cfg, c.begin)
      ensures invocations == Uses(cfg, old(View()), c) && returned == (invoked && Returns(cfg.policy, c.backend))
      ensures View() == After(old(View()), cfg, c)
      ensures invoked <==> old(openedAt) == None || c.begin - old(openedAt).value >= cfg.resetTimeout
      ensures !invoked ==> !returned && invocations == 0 && failures == old(failures) && openedAt == old(openedAt)
      ensures returned ==> failures == 0 && openedAt == None
      ensures invoked && !returned ==>
                && failures == old(failures) + 1
                && openedAt == if failures >= cfg.failureThreshold then Some(c.end) else old(openedAt)
    {
      if openedAt.Some? && !(c.begin - openedAt.value >= cfg.resetTimeout) {
        return false, 0, false;
      }
      var slept;
      returned, invocations, slept := WithRetry(c.backend, cfg.policy);
      if returned {
        failures := 0;
        openedAt := None;
      } else {
        failures := failures + 1;
        if failures >= cfg.failureThreshold {
          openedAt := Some(c.end);
        }
      }
      return true, invocations, returned;
    }
  }

  /** What one call costs the backend. */
  function Uses(cfg: Config, s: State, c: Call): nat {
    if IsOpen(s, cfg, c.begin) then 0 else Invocations(cfg.policy, c.backend)
  }

  /** One caller at a time: each call ends before the next begins. */
  ghost predicate Sequential(calls: seq<Call>) {
    && (forall i | 0 <= i < |calls| :: calls[i].begin <= calls[i].end)
    && (forall i, j | 0 <= i < j < |calls| :: calls[i].end <= calls[j].begin)
  }

  function Final(cfg: Config, calls: seq<Call>): State {
    if calls == [] then State(0, None) else After(Final(cfg, calls[..|calls| - 1]), cfg, calls[|calls| - 1])
  }

  function Invoked(cfg: Config, calls: seq<Call>): nat {
    if calls == [] then 0
    else
      var r := calls[..|calls| - 1];
      Invoked(cfg, r) + if IsOpen(Final(cfg, r), cfg, calls[|calls| - 1].begin) then 0 else 1
  }

  /** Invocations of the backend over a run. */
  function BackendUses(cfg: Config, calls: seq<Call>): nat {
    if calls == [] then 0
    else
      var r := calls[..|calls| - 1];
      BackendUses(cfg, r) + Uses(cfg, Final(cfg, r), calls[|calls| - 1])
  }

  function Threshold(cfg: Config): nat {
    if cfg.failureThreshold < 1 then 1 else cfg.failureThreshold
  }

  /** `n` times `r`. */
  function Times(n: nat, r: real): real
    decreases n
  {
    if n == 0 then 0.0 else Times(n - 1, r) + r
  }

  lemma {:induction false} TimesIsProduct(n: nat, r: real)
    ensures Times(n, r) == n as real * r
    decreases n
  {
    if n > 0 {
      TimesIsProduct(n - 1, r);
      assert n as real * r == (n - 1) as real * r + r;
    }
  }

  lemma FloorBound(n: nat, r: real, span: real)
    requires r > 0.0 && n as real * r <= span
    ensures n <= (span / r).Floor
  {
    var q := span / r;
    assert q * r == span;
    assert (n as real - q) * r <= 0.0;
    assert n as real - q <= 0.0;
  }

  /** The backend never answers. */
  ghost predicate Broken(c: Call) {
    forall i: nat :: c.backend(i) != Done
  }

  /** After `k` calls let through a broken backend: the breaker opened at the end of the last one, and the
      calls beyond the threshold were spaced by the timeout. */
  ghost predicate OutageState(cfg: Config, s: State, k: nat, t0: real, last: real) {
    var thr := Threshold(cfg);
    && s.failures == k
    && (k < thr ==> s.openedAt == None)
    && (k >= thr ==> s.openedAt.Some? && t0 + Times(k - thr, cfg.resetTimeout) <= s.openedAt.value <= last)
  }

  /** What the invariant says after `k` calls let through, `t1` being the end of the outage. */
  ghost predicate Spaced(cfg: Config, s: State, k: nat, t0: real, t1: real, last: real) {
    OutageState(cfg, s, k, t0, last)
    && (k > Threshold(cfg) ==> t0 + Times(k - Threshold(cfg), cfg.resetTimeout) <= t1)
  }

  lemma SpacedStep(cfg: Config, s: State, k: nat, t0: real, t1: real, last: real, c: Call)
    requires Spaced(cfg, s, k, t0, t1, last) && Broken(c) && t0 <= c.begin <= c.end && last <= c.begin <= t1
    ensures Spaced(cfg, After(s, cfg, c), k + if IsOpen(s, cfg, c.begin) then 0 else 1, t0, t1, c.end)
  {
  }

  lemma {:induction false} OutageInvariant(cfg: Config, calls: seq<Call>, t0: real, t1: real)
    requires Sequential(calls) && (forall c | c in calls :: Broken(c) && t0 <= c.begin <= t1)
    ensures Spaced(cfg, Final(cfg, calls), Invoked(cfg, calls), t0, t1,
                   if calls == [] then t0 else calls[|calls| - 1].end)
  {
    if calls != [] {
      var r, c := calls[..|calls| - 1], calls[|calls| - 1];
      assert forall d | d in r :: d in calls;
      assert c in calls;
      OutageInvariant(cfg, r, t0, t1);
      SpacedStep(cfg, Final(cfg, r), Invoked(cfg, r), t0, t1, if r == [] then t0 else r[|r| - 1].end, c);
    }
  }

  /** Each call let through costs at most the attempts of the policy, and all of them when every failure is retried. */
  lemma {:induction false} UsesOfInvoked(cfg: Config, calls: seq<Call>)
    ensures BackendUses(cfg, calls) <= Attempts(cfg.policy) * Invoked(cfg, calls)
    ensures (forall c | c in calls :: forall i: nat :: c.backend(i) == Retryable)
            ==> BackendUses(cfg, calls) == Attempts(cfg.policy) * Invoked(cfg, calls)
  {
    if calls != [] {
      var r, c := calls[..|calls| - 1], calls[|calls| - 1];
      assert calls == r + [c];
      UsesOfInvoked(cfg, r);
      MulSucc(Attempts(cfg.policy), Invoked(cfg, r));
      assert c in calls && forall d | d in r :: d in calls;
    }
  }

  lemma MulSucc(m: nat, n: nat)
    ensures m * (n + 1) == m * n + m && m * 0 == 0
  {
  }

  /** During an outage of length `span`, sequential callers invoke the backend, retries included, at most
      `max_attempts * (threshold + floor(span / reset_timeout))` times. */
  lemma OutageBound(cfg: Config, calls: seq<Call>, t0: real, span: real)
    requires Sequential(calls) && (forall c | c in calls :: Broken(c) && t0 <= c.begin <= t0 + span)
    requires cfg.resetTimeout > 0.0 && span >= 0.0
    ensures Invoked(cfg, calls) <= Threshold(cfg) + (span / cfg.resetTimeout).Floor
    ensures BackendUses(cfg, calls) <= Attempts(cfg.policy) * (Threshold(cfg) + (span / cfg.resetTimeout).Floor)
  {
    CallsLetThrough(cfg, calls, t0, span);
    UsesOfInvoked(cfg, calls);
    MulMono(Attempts(cfg.policy), Invoked(cfg, calls), Threshold(cfg) + (span / cfg.resetTimeout).Floor);
  }

  lemma CallsLetThrough(cfg: Config, calls: seq<Call>, t0: real, span: real)
    requires Sequential(calls) && (forall c | c in calls :: Broken(c) && t0 <= c.begin <= t0 + span)
    requires cfg.resetTimeout > 0.0 && span >= 0.0
    ensures Invoked(cfg, calls) <= Threshold(cfg) + (span / cfg.resetTimeout).Floor
  {
    var k, thr, r := Invoked(cfg, calls), Threshold(cfg), cfg.resetTimeout;
    OutageInvariant(cfg, calls, t0, t0 + span);
    var n := if k > thr then k - thr else 0;
    TimesIsProduct(n, r);
    FloorBound(n, r, span);
  }

  lemma MulMono(m: nat, a: int, b: int)
    requires a <= b
    ensures m * a <= m * b
  {
  }

  // ---- Opening and closing ------------------------------------------------------------------------------------------

  lemma FinalSnoc(cfg: Config, calls: seq<Call>, c: Call)
    ensures Final(cfg, calls + [c]) == After(Final(cfg, calls), cfg, c)
    ensures Invoked(cfg, calls + [c]) == Invoked(cfg, calls) + if IsOpen(Final(cfg, calls), cfg, c.begin) then 0 else 1
  {
    assert (calls + [c])[..|calls|] == calls;
  }

  lemma {:induction false} OpenedByACall(cfg: Config, calls: seq<Call>)
    ensures var o := Final(cfg, calls).openedAt; o.Some? ==> exists c :: c in calls && c.end == o.value
  {
    if calls != [] {
      var r, c := calls[..|calls| - 1], calls[|calls| - 1];
      assert calls == r + [c];
      OpenedByACall(cfg, r);
    }
  }

  /** An open breaker never stays so: once the timeout has passed since the last call ended, whatever the calls were,
      the next one is let through. */
  lemma LetsThroughAgain(cfg: Config, calls: seq<Call>, now: real)
    requires forall c | c in calls :: now - c.end >= cfg.resetTimeout
    ensures !IsOpen(Final(cfg, calls), cfg, now)
  {
    OpenedByACall(cfg, calls);
  }

  /** A call let through that succeeds closes it, as at the start. */
  lemma SuccessCloses(cfg: Config, calls: seq<Call>, c: Call)
    requires !IsOpen(Final(cfg, calls), cfg, c.begin) && Returns(cfg.policy, c.backend)
    ensures Final(cfg, calls + [c]) == Final(cfg, [])
  {
    FinalSnoc(cfg, calls, c);
  }

  /** From a closed breaker, a broken backend is called until the threshold, and the call that reaches it opens the
      breaker for exactly the timeout. */
  lemma {:induction false} OpensAtTheThreshold(cfg: Config, before: seq<Call>, calls: seq<Call>, now: real)
    requires Final(cfg, before) == State(0, None) && calls != [] && |calls| <= Threshold(cfg)
    requires forall c | c in calls :: Broken(c)
    ensures Invoked(cfg, before + calls) == Invoked(cfg, before) + |calls|
    ensures IsOpen(Final(cfg, before + calls), cfg, now)
            <==> |calls| == Threshold(cfg) && now - calls[|calls| - 1].end < cfg.resetTimeout
    ensures Final(cfg, before + calls).failures == |calls|
    decreases |calls|
  {
    var r, c := calls[..|calls| - 1], calls[|calls| - 1];
    assert before + calls == before + r + [c] && c in calls;
    FinalSnoc(cfg, before + r, c);
    if r == [] {
      assert before + r == before;
    } else {
      assert forall d | d in r :: d in calls;
      OpensAtTheThreshold(cfg, before, r, c.begin);
      NotOpenBelow(cfg, before + r);
    }
  }

  /** Below the threshold nothing is ever noted as opened. */
  lemma {:induction false} NotOpenBelow(cfg: Config, calls: seq<Call>)
    ensures Final(cfg, calls).failures < Threshold(cfg) ==> Final(cfg, calls).openedAt == None
  {
    if calls != [] {
      NotOpenBelow(cfg, calls[..|calls| - 1]);
    }
  }
}
