/** The circuit breaker as a function of its state, the clock and the outcome of each permit. */
module BreakerModel {
  import opened Prelude
  import W = WindowModel

  const NANOS_PER_SECOND: nat := 1_000_000_000
  const HARD_MAX_OPEN_DURATION: nat := 120 * NANOS_PER_SECOND
  /** The longest representable duration. */
  const DURATION_MAX: nat := U64_MAX * NANOS_PER_SECOND + 999_999_999

  /** Durations are nanoseconds; the failure ratio is a real. */
  datatype Config = Config(
    window: nat,
    buckets: nat,
    minimumSamples: nat,
    failureRatio: real,
    openDuration: nat,
    maxOpenDuration: nat,
    halfOpenConcurrency: nat,
    closeSuccesses: nat)

  /** What the constructor demands of its caller. */
  ghost predicate ValidRequest(c: Config) {
    && 1 <= c.window && 1 <= c.buckets && 1 <= c.minimumSamples && 0.0 <= c.failureRatio <= 1.0
    && 1 <= c.openDuration && 1 <= c.maxOpenDuration
    && 1 <= c.halfOpenConcurrency <= U32_MAX && 1 <= c.closeSuccesses <= U32_MAX
  }

  /** The configuration a breaker gets for a request, whose maximum open duration has a hard cap. */
  function NewConfig(requested: Config): Config {
    requested.(maxOpenDuration := Min(requested.maxOpenDuration, HARD_MAX_OPEN_DURATION))
  }

  /** A configuration that some request leads to; applying the cap again changes nothing. */
  ghost predicate ValidConfig(c: Config) {
    ValidRequest(c) && c == NewConfig(c)
  }

  function InitialOpenDuration(c: Config): nat {
    Min(c.openDuration, c.maxOpenDuration)
  }

  function NextOpenDuration(c: Config, previous: nat): nat {
    Min(if previous * 2 > DURATION_MAX then c.maxOpenDuration else previous * 2, c.maxOpenDuration)
  }

  datatype FailureClass =
    | Connect | Transport | Timeout | Unavailable | Overloaded | RemoteServer | RemoteFailure | ProtocolFailure
    | Application | InvalidRequest | Cancelled | LocalRejection

  datatype Impact = Success | Failure | Ignore | Unattempted

  function BreakerImpact(f: FailureClass): Impact {
    match f
    case Connect => Failure
    case Transport => Failure
    case Timeout => Failure
    case Unavailable => Failure
    case RemoteServer => Failure
    case RemoteFailure => Failure
    case ProtocolFailure => Failure
    case Application => Success
    case Overloaded => Ignore
    case InvalidRequest => Ignore
    case Cancelled => Ignore
    case LocalRejection => Ignore
  }

  datatype Outcome = Succeeded | FailedWith(failure: FailureClass) | Abandoned | Released

  function ImpactOf(o: Outcome): Impact {
    match o
    case Succeeded => Success
    case FailedWith(failure) => BreakerImpact(failure)
    case Abandoned => Ignore
    case Released => Unattempted
  }

  datatype Machine =
    | Closed(window: W.Window)
    | Open(until: nat, duration: nat)
    | HalfOpen(inFlight: nat, successes: nat, previous: nat)

  datatype Breaker = Breaker(epoch: nat, machine: Machine)

  datatype Phase = ClosedPhase | OpenPhase | HalfOpenPhase

  datatype PermitPhase = IssuedClosed | IssuedHalfOpen

  datatype Token = Token(epoch: nat, phase: PermitPhase)

  datatype Rejection = StillOpen(retryAfter: nat) | HalfOpenSaturated

  /** An operation's new state, its answer, and the phase its observer is told of. */
  datatype Reply<T> = Reply(breaker: Breaker, answer: T, transition: Option<Phase>)

  function Init(c: Config, now: nat): Breaker
    requires 1 <= c.buckets
  {
    Breaker(0, Closed(W.New(c.window, c.buckets, now)))
  }

  function TryAcquire(c: Config, b: Breaker, now: nat): Reply<Result<Token, Rejection>>
    requires b.machine.Closed? ==> 1 <= b.machine.window.width
  {
    match b.machine
    case Closed(window) =>
      Reply(b.(machine := Closed(W.Advance(window, now))), Ok(Token(b.epoch, IssuedClosed)), None)
    case Open(until, duration) =>
      if now < until then Reply(b, Err(StillOpen(until - now)), None)
      else Probe(c, Breaker(b.epoch + 1, HalfOpen(0, 0, duration)), Some(HalfOpenPhase))
    case HalfOpen(_, _, _) => Probe(c, b, None)
  }

  /** Issues a half-open permit while the probe limit allows it. */
  function Probe(c: Config, b: Breaker, transition: Option<Phase>): Reply<Result<Token, Rejection>>
    requires b.machine.HalfOpen?
  {
    if b.machine.inFlight >= c.halfOpenConcurrency then Reply(b, Err(HalfOpenSaturated), transition)
    else
      Reply(b.(machine := b.machine.(inFlight := b.machine.inFlight + 1)), Ok(Token(b.epoch, IssuedHalfOpen)), transition)
  }

  predicate ThresholdExceeded(c: Config, successes: nat, failures: nat) {
    var samples := successes + failures;
    samples > 0 && samples >= c.minimumSamples && failures as real / samples as real >= c.failureRatio
  }

  function Complete(c: Config, b: Breaker, token: Token, outcome: Outcome, now: nat): Reply<()>
    requires 1 <= c.buckets && (b.machine.Closed? ==> 1 <= b.machine.window.width)
  {
    if token.epoch != b.epoch then Reply(b, (), None)
    else match token.phase
      case IssuedClosed => CompleteClosed(c, b, ImpactOf(outcome), now)
      case IssuedHalfOpen => CompleteHalfOpen(c, b, ImpactOf(outcome), now)
  }

  function CompleteClosed(c: Config, b: Breaker, impact: Impact, now: nat): Reply<()>
    requires b.machine.Closed? ==> 1 <= b.machine.window.width
  {
    if !b.machine.Closed? then Reply(b, (), None)
    else
      var window := W.Advance(b.machine.window, now);
      if impact.Ignore? || impact.Unattempted? then Reply(b.(machine := Closed(window)), (), None)
      else
        var recorded := W.Record(window, impact.Failure?);
        if impact.Failure? && ThresholdExceeded(c, W.Counts(recorded, false), W.Counts(recorded, true)) then
          var duration := InitialOpenDuration(c);
          Reply(Breaker(b.epoch + 1, Open(now + duration, duration)), (), Some(OpenPhase))
        else Reply(b.(machine := Closed(recorded)), (), None)
  }

  function CompleteHalfOpen(c: Config, b: Breaker, impact: Impact, now: nat): Reply<()>
    requires 1 <= c.buckets
  {
    if !b.machine.HalfOpen? then Reply(b, (), None)
    else
      var inFlight := if b.machine.inFlight == 0 then 0 else b.machine.inFlight - 1;
      var successes := if impact.Success? then Min(U32_MAX, b.machine.successes + 1) else b.machine.successes;
      if impact.Success? && successes >= c.closeSuccesses then
        Reply(Breaker(b.epoch + 1, Closed(W.New(c.window, c.buckets, now))), (), Some(ClosedPhase))
      else if impact.Failure? then
        var duration := NextOpenDuration(c, b.machine.previous);
        Reply(Breaker(b.epoch + 1, Open(now + duration, duration)), (), Some(OpenPhase))
      else Reply(b.(machine := HalfOpen(inFlight, successes, b.machine.previous)), (), None)
  }
}
