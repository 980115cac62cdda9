/** The circuit breaker: its two critical sections as functions on a value, and the
    class whose methods update the fields in place. `BreakerRuns` proves what the
    functions mean over whole runs of overlapping calls. */
module Breaker {

  datatype State = Closed | Open | HalfOpen

  /** Times and durations are in nanoseconds. */
  const DEFAULT_FAILURE_THRESHOLD := 5
  const DEFAULT_SUCCESS_THRESHOLD := 3
  const DEFAULT_HALF_OPEN_MAX := 2
  const DEFAULT_RESET_TIMEOUT := 10_000_000_000

  datatype Config = Config(
    failureThreshold: nat,
    successThreshold: nat,
    halfOpenMaxRequests: nat,
    resetTimeout: int)
  {
    /** What the constructor guarantees of the configuration it keeps. */
    predicate Usable() {
      failureThreshold >= 1 && successThreshold >= 1 && halfOpenMaxRequests >= 1
    }
  }

  /** The mutable part of the breaker. */
  datatype Cell = Cell(
    state: State,
    failures: nat,
    successes: nat,
    lastFailureTime: int,
    halfOpenAttempts: nat,
    totalRequests: nat,
    totalSuccesses: nat,
    totalFailures: nat)

  datatype Verdict = Admitted | CircuitOpen | TooManyRequests

  const FRESH := Cell(Closed, 0, 0, 0, 0, 0, 0, 0)

  /** The critical section that Execute runs before calling the protected function. */
  function Admit(c: Config, b: Cell, now: int): (Cell, Verdict) {
    match b.state
    case Closed =>
      (b.(totalRequests := b.totalRequests + 1), Admitted)
    case Open =>
      if now - b.lastFailureTime < c.resetTimeout then (b, CircuitOpen)
      else (b.(state := HalfOpen, halfOpenAttempts := 0, successes := 0,
               totalRequests := b.totalRequests + 1), Admitted)
    case HalfOpen =>
      if b.halfOpenAttempts >= c.halfOpenMaxRequests then (b, TooManyRequests)
      else (b.(halfOpenAttempts := b.halfOpenAttempts + 1,
               totalRequests := b.totalRequests + 1), Admitted)
  }

  function OnFailure(c: Config, b: Cell, now: int): Cell {
    match b.state
    case Closed =>
      var b' := b.(failures := b.failures + 1);
      if b'.failures >= c.failureThreshold then b'.(state := Open, lastFailureTime := now) else b'
    case HalfOpen => b.(state := Open, lastFailureTime := now, halfOpenAttempts := 0)
    case Open => b
  }

  function OnSuccess(c: Config, b: Cell): Cell {
    match b.state
    case Closed => b.(failures := 0)
    case HalfOpen =>
      if b.successes + 1 >= c.successThreshold
      then b.(state := Closed, failures := 0, successes := 0, halfOpenAttempts := 0)
      else b.(successes := b.successes + 1)
    case Open => b
  }

  /** The critical section that Execute runs after the protected function returned. */
  function Finish(c: Config, b: Cell, ok: bool, now: int): Cell {
    if ok then OnSuccess(c, b.(totalSuccesses := b.totalSuccesses + 1))
    else OnFailure(c, b.(totalFailures := b.totalFailures + 1), now)
  }

  class CircuitBreaker {
    const cfg: Config
    var state: State
    var failures: nat
    var successes: nat
    var lastFailureTime: int
    var halfOpenAttempts: nat
    var totalRequests: nat
    var totalSuccesses: nat
    var totalFailures: nat

    ghost function View(): Cell
      reads this
    {
      Cell(state, failures, successes, lastFailureTime, halfOpenAttempts,
           totalRequests, totalSuccesses, totalFailures)
    }

    /** Every zero field of the configuration gets its default, so that every threshold
        is at least one; a field that was set is kept. */
    constructor (config: Config)
      ensures View() == FRESH
      ensures cfg.Usable() && cfg.resetTimeout != 0
      ensures cfg == Config(
                if config.failureThreshold == 0 then DEFAULT_FAILURE_THRESHOLD else config.failureThreshold,
                if config.successThreshold == 0 then DEFAULT_SUCCESS_THRESHOLD else config.successThreshold,
                if config.halfOpenMaxRequests == 0 then DEFAULT_HALF_OPEN_MAX else config.halfOpenMaxRequests,
                if config.resetTimeout == 0 then DEFAULT_RESET_TIMEOUT else config.resetTimeout)
      ensures config == Config(0, 0, 0, 0) ==> cfg == Config(5, 3, 2, 10_000_000_000)
    {
      var kept := config;
      if kept.failureThreshold == 0 { kept := kept.(failureThreshold := DEFAULT_FAILURE_THRESHOLD); }
      if kept.successThreshold == 0 { kept := kept.(successThreshold := DEFAULT_SUCCESS_THRESHOLD); }
      if kept.halfOpenMaxRequests == 0 { kept := kept.(halfOpenMaxRequests := DEFAULT_HALF_OPEN_MAX); }
      if kept.resetTimeout == 0 { kept := kept.(resetTimeout := DEFAULT_RESET_TIMEOUT); }
      cfg := kept;
      state := Closed;
      failures, successes, lastFailureTime, halfOpenAttempts := 0, 0, 0, 0;
      totalRequests, totalSuccesses, totalFailures := 0, 0, 0;
    }

    /** First half of Execute, under the lock. */
    method TryAdmit(now: int) returns (v: Verdict)
      modifies this
      ensures (View(), v) == Admit(cfg, old(View()), now)
    {
      match state {
        case Open =>
          if now - lastFailureTime < cfg.resetTimeout {
            return CircuitOpen;
          }
          state := HalfOpen;
          halfOpenAttempts := 0;
          successes := 0;
        case HalfOpen =>
          if halfOpenAttempts >= cfg.halfOpenMaxRequests {
            return TooManyRequests;
          }
          halfOpenAttempts := halfOpenAttempts + 1;
        case Closed =>
      }
      totalRequests := totalRequests + 1;
      v := Admitted;
    }

    method RecordFailure(now: int)
      modifies this
      ensures View() == OnFailure(cfg, old(View()), now)
    {
      match state
      case Closed =>
        failures := failures + 1;
        if failures >= cfg.failureThreshold {
          state := Open;
          lastFailureTime := now;
        }
      case HalfOpen =>
        state := Open;
        lastFailureTime := now;
        halfOpenAttempts := 0;
      case Open =>
    }

    method RecordSuccess()
      modifies this
      ensures View() == OnSuccess(cfg, old(View()))
    {
      match state
      case Closed =>
        failures := 0;
      case HalfOpen =>
        successes := successes + 1;
        if successes >= cfg.successThreshold {
          state := Closed;
          failures := 0;
          successes := 0;
          halfOpenAttempts := 0;
        }
      case Open =>
    }

    /** Second half of Execute, under the lock. */
    method Record(ok: bool, now: int)
      modifies this
      ensures View() == Finish(cfg, old(View()), ok, now)
    {
      if ok {
        totalSuccesses := totalSuccesses + 1;
        RecordSuccess();
      } else {
        totalFailures := totalFailures + 1;
        RecordFailure(now);
      }
    }

    method GetStats() returns (total: nat, success: nat, failure: nat)
      ensures total == totalRequests && success == totalSuccesses && failure == totalFailures
    {
      return totalRequests, totalSuccesses, totalFailures;
    }
  }
}
