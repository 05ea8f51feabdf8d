/**
 The circuit breaker: its class and manager with atomic methods, and what holds over every run of
 calls.  Clock readings and the answers of the protected function are parameters.
 */
module CircuitBreaker {
  import opened Storage

  datatype State = Closed | Open | HalfOpen

  datatype Config = Config(
    enabled: bool, failureThreshold: int, successThreshold: int, halfOpenMaxCalls: int, timeout: int)

  /** How many calls a half-open breaker can count; a negative setting counts none. */
  function Limit(cfg: Config): nat {
    if cfg.halfOpenMaxCalls >= 0 then cfg.halfOpenMaxCalls else 0
  }

  /** The mutable fields of a breaker. */
  datatype Core = Core(
    state: State, failureCount: int, successCount: int, halfOpenCalls: int, lastStateChange: int)

  function Fresh(now: int): Core {
    Core(Closed, 0, 0, 0, now)
  }

  function Allow(cfg: Config, b: Core, now: int): (Core, bool) {
    match b.state
    case Closed => (b, true)
    case Open =>
      if now - b.lastStateChange > cfg.timeout
      then (b.(state := HalfOpen, lastStateChange := now, halfOpenCalls := 0), true)
      else (b, false)
    case HalfOpen =>
      if b.halfOpenCalls < cfg.halfOpenMaxCalls
      then (b.(halfOpenCalls := b.halfOpenCalls + 1), true)
      else (b, false)
  }

  function OnSuccess(cfg: Config, b: Core, now: int): Core {
    match b.state
    case Closed => b.(failureCount := 0)
    case Open => b
    case HalfOpen =>
      if b.successCount + 1 >= cfg.successThreshold
      then Core(Closed, 0, 0, 0, now)
      else b.(successCount := b.successCount + 1)
  }

  function OnFailure(cfg: Config, b: Core, now: int): Core {
    match b.state
    case Closed =>
      if b.failureCount + 1 >= cfg.failureThreshold
      then b.(failureCount := b.failureCount + 1, state := Open, lastStateChange := now)
      else b.(failureCount := b.failureCount + 1)
    case Open => b
    case HalfOpen => Core(Open, cfg.failureThreshold, 0, 0, now)
  }

  class Breaker {
    const config: Config
    var state: State
    var failureCount: int
    var successCount: int
    var halfOpenCalls: int
    var lastStateChange: int

    function Snapshot(): Core
      reads this
    {
      Core(state, failureCount, successCount, halfOpenCalls, lastStateChange)
    }

    constructor (cfg: Config, now: int)
      ensures config == cfg && Snapshot() == Fresh(now)
    {
      config := cfg;
      state, failureCount, successCount, halfOpenCalls, lastStateChange := Closed, 0, 0, 0, now;
    }

    method SetState(s: State, now: int)
      modifies `state, `lastStateChange
      ensures state == s && lastStateChange == now
    {
      state := s;
      lastStateChange := now;
    }

    method TryAllow(now: int) returns (admitted: bool)
      modifies this
      ensures (Snapshot(), admitted) == Allow(config, old(Snapshot()), now)
    {
      match state
      case Closed =>
        return true;
      case Open =>
        if now - lastStateChange > config.timeout {
          if state == Open && now - lastStateChange > config.timeout {
            SetState(HalfOpen, now);
            halfOpenCalls := 0;
          }
          return state == HalfOpen;
        }
        return false;
      case HalfOpen =>
        if halfOpenCalls < config.halfOpenMaxCalls {
          halfOpenCalls := halfOpenCalls + 1;
          return true;
        }
        return false;
    }

    method RecordSuccess(now: int)
      modifies this
      ensures Snapshot() == OnSuccess(config, old(Snapshot()), now)
    {
      match state
      case Closed =>
        failureCount := 0;
      case Open =>
      case HalfOpen =>
        successCount := successCount + 1;
        if successCount >= config.successThreshold {
          SetState(Closed, now);
          failureCount := 0;
          successCount := 0;
          halfOpenCalls := 0;
        }
    }

    method RecordFailure(now: int)
      modifies this
      ensures Snapshot() == OnFailure(config, old(Snapshot()), now)
    {
      match state
      case Closed =>
        failureCount := failureCount + 1;
        if failureCount >= config.failureThreshold {
          SetState(Open, now);
        }
      case Open =>
      case HalfOpen =>
        SetState(Open, now);
        failureCount := config.failureThreshold;
        successCount := 0;
        halfOpenCalls := 0;
    }
  }

  /** One call through Execute: when it asks, when it reports, and whether the function succeeded. */
  datatype Call = Call(asked: int, reported: int, ok: bool)

  function Execute(cfg: Config, b: Core, c: Call): (Core, bool) {
    var (b1, admitted) := Allow(cfg, b, c.asked);
    if !admitted then (b1, false)
    else if c.ok then (OnSuccess(cfg, b1, c.reported), true)
    else (OnFailure(cfg, b1, c.reported), true)
  }

  class Manager {
    var breakers: map<string, Breaker>

    constructor ()
      ensures breakers == map[]
    {
      breakers := map[];
    }

    /** A breaker is created once per id; later configurations are ignored, and without an enabled
        configuration there is none. */
    method GetOrCreate(id: string, cfg: Option<Config>, now: int) returns (cb: Breaker?)
      modifies this
      ensures id in old(breakers) ==> cb == old(breakers)[id] && breakers == old(breakers)
      ensures id !in old(breakers) && (cfg.None? || !cfg.value.enabled) ==> cb == null && breakers == old(breakers)
      ensures id !in old(breakers) && cfg.Some? && cfg.value.enabled ==>
                cb != null && fresh(cb) && cb.config == cfg.value && cb.Snapshot() == Fresh(now)
                && breakers == old(breakers)[id := cb]
    {
      if id in breakers {
        return breakers[id];
      }
      if cfg.None? || !cfg.value.enabled {
        return null;
      }
      cb := new Breaker(cfg.value, now);
      breakers := breakers[id := cb];
    }

    /** Execute runs the function unguarded when there is no breaker for the id. */
    method RunGuarded(id: string, c: Call) returns (r: Result<()>)
      modifies this, if id in breakers then {breakers[id]} else {}
      ensures breakers == old(breakers)
      ensures id !in breakers ==> (r.Ok? <==> c.ok) && (r.Err? ==> r.error == Failed)
      ensures id in breakers ==>
                var (after, admitted) := Execute(breakers[id].config, old(breakers[id].Snapshot()), c);
                && breakers[id].Snapshot() == after
                && (r == Err(Error.CircuitOpen) <==> !admitted)
                && (admitted ==> r == if c.ok then Ok(()) else Err(Failed))
    {
      var cb := GetOrCreate(id, None, c.asked);
      if cb != null {
        var admitted := cb.TryAllow(c.asked);
        if !admitted {
          return Err(Error.CircuitOpen);
        }
      }
      if !c.ok {
        if cb != null {
          cb.RecordFailure(c.reported);
        }
        return Err(Failed);
      }
      if cb != null {
        cb.RecordSuccess(c.reported);
      }
      return Ok(());
    }
  }
}
