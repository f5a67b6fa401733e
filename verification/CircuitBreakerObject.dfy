/** The circuit breaker and its permits as objects. */
module CircuitBreakerObject {
  import opened Prelude
  import opened BreakerModel
  import W = WindowModel
  import opened RollingWindowObject

  datatype MachineState =
    | ClosedState(window: RollingWindow)
    | OpenState(until: nat, duration: nat)
    | HalfOpenState(inFlight: nat, successes: nat, previous: nat)

  class CircuitBreaker {
    const config: Config
    var epoch: nat
    var state: MachineState
    ghost var Repr: set<object>

    ghost predicate Valid()
      reads this, Repr
      ensures Valid() ==> this in Repr
    {
      && this in Repr && ValidConfig(config)
      && (state.ClosedState? ==>
            && state.window in Repr && state.window.buckets in Repr
            && state.window.Valid())
    }

    /** The breaker as the model sees it. */
    ghost function View(): Breaker
      reads this, Repr
      requires Valid()
    {
      Breaker(epoch,
              match state
              case ClosedState(window) => Closed(window.Model())
              case OpenState(until, duration) => Open(until, duration)
              case HalfOpenState(inFlight, successes, previous) => HalfOpen(inFlight, successes, previous))
    }

    constructor (config: Config, now: nat)
      requires ValidConfig(config)
      ensures Valid() && fresh(Repr) && this.config == config && View() == Init(config, now)
    {
      this.config := config;
      epoch := 0;
      var window := new RollingWindow(config.window, config.buckets, now);
      state := ClosedState(window);
      Repr := {this, window, window.buckets};
    }

    /** The loop runs again only after an expired opening has become half-open, so at most twice. */
    method TryAcquire(now: nat) returns (answer: Result<Token, Rejection>, transition: Option<Phase>)
      requires Valid()
      modifies Repr
      ensures Valid() && Repr == old(Repr)
      ensures Reply(View(), answer, transition) == BreakerModel.TryAcquire(config, old(View()), now)
    {
      transition := None;
      ghost var turns := 0;
      while true
        invariant Valid() && Repr == old(Repr)
        invariant turns == 0 ==> View() == old(View()) && transition.None?
        invariant turns == 1 ==>
                    && old(View()).machine.Open? && old(View()).machine.until <= now
                    && transition == Some(HalfOpenPhase)
                    && View() == Breaker(old(epoch) + 1, HalfOpen(0, 0, old(View()).machine.duration))
        invariant turns <= 1
        decreases 1 - turns
      {
        match state {
          case ClosedState(window) =>
            window.Advance(now);
            return Ok(Token(epoch, IssuedClosed)), transition;
          case OpenState(until, duration) =>
            if now < until {
              return Err(StillOpen(until - now)), transition;
            }
            epoch := epoch + 1;
            state := HalfOpenState(0, 0, duration);
            transition := Some(HalfOpenPhase);
            turns := turns + 1;
          case HalfOpenState(inFlight, successes, previous) =>
            if inFlight >= config.halfOpenConcurrency {
              return Err(HalfOpenSaturated), transition;
            }
            state := HalfOpenState(inFlight + 1, successes, previous);
            return Ok(Token(epoch, IssuedHalfOpen)), transition;
        }
      }
    }

    method Complete(token: Token, outcome: Outcome, now: nat) returns (transition: Option<Phase>)
      requires Valid()
      modifies Repr
      ensures Valid() && fresh(Repr - old(Repr))
      ensures Reply(View(), (), transition) == BreakerModel.Complete(config, old(View()), token, outcome, now)
    {
      if token.epoch != epoch {
        return None;
      }
      match token.phase {
        case IssuedClosed => transition := CompleteClosed(ImpactOf(outcome), now);
        case IssuedHalfOpen => transition := CompleteHalfOpen(ImpactOf(outcome), now);
      }
    }

    method CompleteClosed(impact: Impact, now: nat) returns (transition: Option<Phase>)
      requires Valid()
      modifies Repr
      ensures Valid() && Repr == old(Repr)
      ensures Reply(View(), (), transition) == BreakerModel.CompleteClosed(config, old(View()), impact, now)
    {
      if !state.ClosedState? {
        return None;
      }
      var window := state.window;
      window.Advance(now);
      match impact {
        case Success =>
          window.RecordSuccess();
          return None;
        case Failure =>
          window.RecordFailure();
          var successes, failures := window.Counts();
          if !ThresholdExceeded(config, successes, failures) {
            return None;
          }
          var duration := InitialOpenDuration(config);
          epoch := epoch + 1;
          state := OpenState(now + duration, duration);
          return Some(OpenPhase);
        case _ => return None;
      }
    }

    method CompleteHalfOpen(impact: Impact, now: nat) returns (transition: Option<Phase>)
      requires Valid()
      modifies Repr
      ensures Valid() && fresh(Repr - old(Repr))
      ensures Reply(View(), (), transition) == BreakerModel.CompleteHalfOpen(config, old(View()), impact, now)
    {
      if !state.HalfOpenState? {
        return None;
      }
      var inFlight := if state.inFlight == 0 then 0 else state.inFlight - 1;
      var successes, previous := state.successes, state.previous;
      match impact {
        case Success =>
          successes := Min(U32_MAX, successes + 1);
          if successes >= config.closeSuccesses {
            var window := new RollingWindow(config.window, config.buckets, now);
            epoch := epoch + 1;
            state := ClosedState(window);
            Repr := Repr + {window, window.buckets};
            return Some(ClosedPhase);
          }
        case Failure =>
          var duration := NextOpenDuration(config, previous);
          epoch := epoch + 1;
          state := OpenState(now + duration, duration);
          return Some(OpenPhase);
        case _ =>
      }
      state := HalfOpenState(inFlight, successes, previous);
      return None;
    }
  }

  /** One admission; it is consumed by its first completion, and dropping an unconsumed one abandons it. */
  class BreakerPermit {
    const breaker: CircuitBreaker
    var token: Option<Token>

    constructor (breaker: CircuitBreaker, token: Token)
      ensures this.breaker == breaker && this.token == Some(token)
    {
      this.breaker, this.token := breaker, Some(token);
    }

    method Finish(outcome: Outcome, now: nat) returns (transition: Option<Phase>)
      requires breaker.Valid() && this !in breaker.Repr
      modifies this, breaker.Repr
      ensures breaker.Valid() && fresh(breaker.Repr - old(breaker.Repr)) && token.None?
      ensures match old(token)
              case None => transition.None? && breaker.View() == old(breaker.View())
              case Some(t) =>
                Reply(breaker.View(), (), transition)
                == BreakerModel.Complete(breaker.config, old(breaker.View()), t, outcome, now)
    {
      if token.None? {
        return None;
      }
      var consumed := token.value;
      token := None;
      transition := breaker.Complete(consumed, outcome, now);
    }
  }
}
