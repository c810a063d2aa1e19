/** The circuit breaker of internal/circuitbreaker/breaker.go, as a function of
    its event trace. */
module CircuitBreaker {

  datatype Mode = Closed | Open | HalfOpen

  datatype Config = Config(failureThreshold: int, recoveryTimeout: int, successThreshold: int)

  /** `testing` tells that the one-place channel `allowed` is full.  Nothing
      receives from the channel, so it stays full once it is. */
  datatype Breaker = Breaker(cfg: Config, mode: Mode, failures: nat, successes: nat, lastFailure: int, testing: bool)

  const SECONDS := 1_000_000_000

  ghost predicate Usable(cfg: Config) {
    cfg.failureThreshold >= 1 && cfg.recoveryTimeout >= 1 && cfg.successThreshold >= 1
  }

  function New(cfg: Config): (b: Breaker)
    ensures Usable(b.cfg) && b.mode == Closed && b.failures == b.successes == 0 && !b.testing
    ensures b.cfg.failureThreshold == if cfg.failureThreshold > 0 then cfg.failureThreshold else 5
    ensures b.cfg.recoveryTimeout == if cfg.recoveryTimeout > 0 then cfg.recoveryTimeout else 30_000_000_000
    ensures b.cfg.successThreshold == if cfg.successThreshold > 0 then cfg.successThreshold else 3
  {
    var normal := Config(
      if cfg.failureThreshold <= 0 then 5 else cfg.failureThreshold,
      if cfg.recoveryTimeout <= 0 then 30 * SECONDS else cfg.recoveryTimeout,
      if cfg.successThreshold <= 0 then 3 else cfg.successThreshold);
    Breaker(normal, Closed, 0, 0, 0, false)
  }

  function Allow(b: Breaker, now: int): (Breaker, bool) {
    match b.mode
    case Closed => (b, true)
    case Open =>
      if now - b.lastFailure > b.cfg.recoveryTimeout then (b.(mode := HalfOpen, successes := 0), true) else (b, false)
    case HalfOpen => if b.testing then (b, false) else (b.(testing := true), true)
  }

  function RecordSuccess(b: Breaker): Breaker {
    match b.mode
    case HalfOpen =>
      if b.successes + 1 >= b.cfg.successThreshold then b.(mode := Closed, failures := 0, successes := 0)
      else b.(successes := b.successes + 1)
    case Closed => b.(failures := 0)
    case Open => b
  }

  function RecordFailure(b: Breaker, now: int): Breaker {
    var c := b.(lastFailure := now);
    match b.mode
    case Closed =>
      if b.failures + 1 >= b.cfg.failureThreshold then c.(failures := b.failures + 1, mode := Open)
      else c.(failures := b.failures + 1)
    case HalfOpen => c.(mode := Open, successes := 0)
    case Open => c
  }

  function Reset(b: Breaker): Breaker {
    b.(mode := Closed, failures := 0, successes := 0)
  }

  class CircuitBreaker {
    const cfg: Config
    var mode: Mode
    var failures: nat
    var successes: nat
    var lastFailure: int
    var testing: bool

    function View(): Breaker
      reads this
    {
      Breaker(cfg, mode, failures, successes, lastFailure, testing)
    }

    constructor (cfg: Config)
      ensures View() == New(cfg)
    {
      this.cfg := New(cfg).cfg;
      mode, failures, successes, lastFailure, testing := Closed, 0, 0, 0, false;
    }

    method TryAllow(now: int) returns (ok: bool)
      modifies this
      ensures (View(), ok) == Allow(old(View()), now)
    {
      match mode {
        case Closed => return true;
        case Open =>
          if now - lastFailure > cfg.recoveryTimeout {
            mode := HalfOpen;
            successes := 0;
            return true;
          }
          return false;
        case HalfOpen =>
          if testing {
            return false;
          }
          testing := true;
          return true;
      }
    }

    method Succeed()
      modifies this
      ensures View() == RecordSuccess(old(View()))
    {
      match mode {
        case HalfOpen =>
          successes := successes + 1;
          if successes >= cfg.successThreshold {
            mode := Closed;
            failures := 0;
            successes := 0;
          }
        case Closed => failures := 0;
        case Open =>
      }
    }

    method Fail(now: int)
      modifies this
      ensures View() == RecordFailure(old(View()), now)
    {
      lastFailure := now;
      match mode {
        case Closed =>
          failures := failures + 1;
          if failures >= cfg.failureThreshold {
            mode := Open;
          }
        case HalfOpen =>
          mode := Open;
          successes := 0;
        case Open =>
      }
    }

    method ResetAll()
      modifies this
      ensures View() == Reset(old(View()))
    {
      mode := Closed;
      failures := 0;
      successes := 0;
    }
  }

  // ---- Traces ------------------------------------------------------------------------------

  datatype Event = Asked(now: int) | Succeeded | Failed(now: int) | WasReset

  function Step(b: Breaker, e: Event): Breaker {
    match e
    case Asked(now) => Allow(b, now).0
    case Succeeded => RecordSuccess(b)
    case Failed(now) => RecordFailure(b, now)
    case WasReset => Reset(b)
  }

  function After(cfg: Config, trace: seq<Event>): (b: Breaker)
    ensures b.cfg == New(cfg).cfg
  {
    if trace == [] then New(cfg) else Step(After(cfg, trace[..|trace| - 1]), trace[|trace| - 1])
  }

  /** Failures since the last success or reset. */
  ghost function FailureStreak(trace: seq<Event>): nat {
    if trace == [] then 0
    else
      var init := trace[..|trace| - 1];
      match trace[|trace| - 1]
      case Asked(_) => FailureStreak(init)
      case Failed(_) => FailureStreak(init) + 1
      case _ => 0
  }

  /** The time of the latest failure (0 before the first). */
  ghost function LatestFailure(trace: seq<Event>): int {
    if trace == [] then 0
    else
      match trace[|trace| - 1]
      case Failed(now) => now
      case _ => LatestFailure(trace[..|trace| - 1])
  }

  /** Successes since the request that began the current half-open episode. */
  ghost function EpisodeSuccesses(cfg: Config, trace: seq<Event>): nat {
    if trace == [] || After(cfg, trace).mode != HalfOpen then 0
    else
      var init := trace[..|trace| - 1];
      if After(cfg, init).mode != HalfOpen then 0
      else EpisodeSuccesses(cfg, init) + (if trace[|trace| - 1].Succeeded? then 1 else 0)
  }

  /** The state is determined by the trace: while closed the counter is the
      failure streak and below the threshold; the last failure time is that of
      the trace; while half-open the counter is the episode's successes and below
      its threshold. */
  lemma {:induction false} TraceInvariant(cfg: Config, trace: seq<Event>)
    ensures var b := After(cfg, trace);
            && b.lastFailure == LatestFailure(trace)
            && (b.mode == Closed ==> b.failures == FailureStreak(trace) < b.cfg.failureThreshold)
            && (b.mode == HalfOpen ==> b.successes == EpisodeSuccesses(cfg, trace) < b.cfg.successThreshold)
            && (b.mode != HalfOpen ==> b.successes == 0)
  {
    if trace != [] {
      TraceInvariant(cfg, trace[..|trace| - 1]);
    }
  }

  /** When the breaker opens: a failure completes a streak of exactly the
      threshold, or any failure strikes a half-open episode. */
  lemma OpensExactly(cfg: Config, trace: seq<Event>, e: Event)
    ensures var b := After(cfg, trace);
            b.mode != Open ==>
              (Step(b, e).mode == Open <==>
               e.Failed? && (b.mode == HalfOpen || FailureStreak(trace + [e]) == b.cfg.failureThreshold))
  {
    TraceInvariant(cfg, trace);
    assert (trace + [e])[..|trace|] == trace;
  }

  /** While open, a request passes exactly when the timeout since the latest
      failure is over, and it is what ends the open state, but for a reset. */
  lemma OpenUntilTimeout(cfg: Config, trace: seq<Event>, e: Event)
    requires After(cfg, trace).mode == Open
    ensures var b := After(cfg, trace);
            && (e.Asked? ==> (Allow(b, e.now).1 <==> e.now - LatestFailure(trace) > b.cfg.recoveryTimeout))
            && (Step(b, e).mode != Open <==>
                e == WasReset || (e.Asked? && e.now - LatestFailure(trace) > b.cfg.recoveryTimeout))
  {
    TraceInvariant(cfg, trace);
  }

  /** A half-open breaker closes on a reset, or on the success that completes the
      threshold in an episode without failure. */
  lemma ClosesExactly(cfg: Config, trace: seq<Event>, e: Event)
    requires After(cfg, trace).mode == HalfOpen
    ensures var b := After(cfg, trace);
            Step(b, e).mode == Closed <==>
            e == WasReset || (e == Succeeded && EpisodeSuccesses(cfg, trace) + 1 == b.cfg.successThreshold)
  {
    TraceInvariant(cfg, trace);
  }

  // ---- Admissions ------------------------------------------------------------------------------

  /** Requests let through while the breaker was already half-open. */
  ghost function Tests(cfg: Config, trace: seq<Event>): nat {
    if trace == [] then 0
    else
      var b, e := After(cfg, trace[..|trace| - 1]), trace[|trace| - 1];
      Tests(cfg, trace[..|trace| - 1]) + (if e.Asked? && b.mode == HalfOpen && Allow(b, e.now).1 then 1 else 0)
  }

  /** In its whole life the breaker lets through one such request, because the
      channel is never drained.  So a half-open episode admits at most two
      requests, the one that began it included, and all but one of the episodes
      admit only that one. */
  lemma {:induction false} OneTestEver(cfg: Config, trace: seq<Event>)
    ensures Tests(cfg, trace) == if After(cfg, trace).testing then 1 else 0
  {
    if trace != [] {
      OneTestEver(cfg, trace[..|trace| - 1]);
    }
  }

  /** A request passes exactly if the breaker is closed, or open beyond the
      timeout, or half-open with its one test place never taken. */
  lemma AdmitsExactly(cfg: Config, trace: seq<Event>, now: int)
    ensures var b := After(cfg, trace);
            Allow(b, now).1 <==>
            || b.mode == Closed
            || (b.mode == Open && now - LatestFailure(trace) > b.cfg.recoveryTimeout)
            || (b.mode == HalfOpen && Tests(cfg, trace) == 0)
  {
    TraceInvariant(cfg, trace);
    OneTestEver(cfg, trace);
  }

  /** Requests let through in the current half-open episode. */
  ghost function EpisodeAdmissions(cfg: Config, trace: seq<Event>): nat {
    if trace == [] || After(cfg, trace).mode != HalfOpen then 0
    else
      var init, e := trace[..|trace| - 1], trace[|trace| - 1];
      var b := After(cfg, init);
      if b.mode != HalfOpen then 1
      else EpisodeAdmissions(cfg, init) + (if e.Asked? && Allow(b, e.now).1 then 1 else 0)
  }

  lemma {:induction false} AtMostTwoPerEpisode(cfg: Config, trace: seq<Event>)
    ensures EpisodeAdmissions(cfg, trace) <= 1 + Tests(cfg, trace) <= 2
  {
    OneTestEver(cfg, trace);
    if trace != [] {
      AtMostTwoPerEpisode(cfg, trace[..|trace| - 1]);
    }
  }

  // ---- A client that reports each admitted request before the next ---------------------------------

  /** One request: when it is made and whether it succeeds if let through. */
  datatype Request = Request(now: int, ok: bool)

  function Serve(b: Breaker, r: Request): Breaker {
    var (c, admitted) := Allow(b, r.now);
    if !admitted then c else if r.ok then RecordSuccess(c) else RecordFailure(c, r.now)
  }

  function ServeAll(b: Breaker, rs: seq<Request>): Breaker {
    if rs == [] then b else Serve(ServeAll(b, rs[..|rs| - 1]), rs[|rs| - 1])
  }

  /** Successes a half-open episode can still collect. */
  function Chances(b: Breaker): nat {
    if b.testing then 0 else 1
  }

  /** Not enough admissions are left for the success threshold. */
  predicate Stuck(b: Breaker) {
    || (b.mode == Open && 1 + Chances(b) < b.cfg.successThreshold)
    || (b.mode == HalfOpen && b.successes >= 1 && b.successes + Chances(b) < b.cfg.successThreshold)
  }

  lemma {:induction false} StuckForever(b: Breaker, rs: seq<Request>)
    requires Stuck(b)
    ensures Stuck(ServeAll(b, rs)) && ServeAll(b, rs).cfg == b.cfg
  {
    if rs != [] {
      StuckForever(b, rs[..|rs| - 1]);
    }
  }

  /** Without a reset, such a client can bring an open breaker back to closed if
      and only if the success threshold is at most 2, or at most 1 once the test
      place has been taken.  The default threshold is 3. */
  lemma RecoversExactly(b: Breaker) returns (witness_: seq<Request>)
    requires b.mode == Open && Usable(b.cfg)
    ensures b.cfg.successThreshold <= 1 + Chances(b) ==> ServeAll(b, witness_).mode == Closed
    ensures b.cfg.successThreshold > 1 + Chances(b) ==> forall rs :: ServeAll(b, rs).mode != Closed
  {
    var r := Request(b.lastFailure + b.cfg.recoveryTimeout + 1, true);
    if b.cfg.successThreshold == 1 {
      witness_ := [r];
      assert witness_[..0] == [];
    } else {
      witness_ := [r, r];
      assert witness_[..1] == [r] && [r][..0] == [];
      assert b.cfg.successThreshold == 2 ==> ServeAll(b, [r]) == b.(mode := HalfOpen, successes := 1);
    }
    forall rs | b.cfg.successThreshold > 1 + Chances(b) ensures ServeAll(b, rs).mode != Closed {
      StuckForever(b, rs);
    }
  }
}
