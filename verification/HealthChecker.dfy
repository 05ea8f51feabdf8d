/**
 The health checker: one monitor per registered backend, updated in place by every check.  Each
 monitor's fields are proved to be the value Health.After gives for its history of results.
 */
module HealthChecker {
  import opened Backends
  import opened Health
  import opened HealthOutcomes
  import opened Storage

  class Monitor {
    const backend: Backend
    const limits: Thresholds
    ghost const config: HealthConfig
    ghost const hasAddress: bool
    var successCount: nat
    var failureCount: nat
    var consecutiveSuccess: nat
    var consecutiveFailure: nat
    var evictions: nat
    var recoveries: nat
    ghost const startedHealthy: bool
    ghost var history: seq<bool>

    constructor (backend: Backend, config: HealthConfig, hasAddress: bool)
      ensures this.backend == backend && this.config == config && this.hasAddress == hasAddress && Configured()
      ensures startedHealthy == backend.healthy && history == []
      ensures successCount == failureCount == consecutiveSuccess == consecutiveFailure == 0
      ensures evictions == recoveries == 0
    {
      this.backend, this.config, this.hasAddress := backend, config, hasAddress;
      limits := Limits(config, hasAddress);
      startedHealthy, history := backend.healthy, [];
      successCount, failureCount, consecutiveSuccess, consecutiveFailure := 0, 0, 0, 0;
      evictions, recoveries := 0, 0;
    }

    /** The thresholds and the probe are those of the configuration. */
    ghost predicate Configured() {
      limits == Limits(config, hasAddress)
    }

    ghost function Status(isEvicted: bool): Status
      reads this, backend
    {
      Health.Status(successCount, failureCount, consecutiveSuccess, consecutiveFailure,
                    isEvicted, backend.healthy, evictions, recoveries)
    }

    /** The passing branch of checkBackend; answers whether the backend is still evicted. */
    method RecordPass(isEvicted: bool) returns (stays: bool)
      modifies this, backend
      ensures Status(stays) == Check(limits, old(Status(isEvicted)), true)
      ensures history == old(history) + [true]
    {
      stays := isEvicted;
      if limits.probe.Ping? {
        backend.SetHealthy(true);
      }
      successCount := successCount + 1;
      consecutiveSuccess := consecutiveSuccess + 1;
      consecutiveFailure := 0;
      if isEvicted && consecutiveSuccess >= limits.successes {
        stays := false;
        backend.SetHealthy(true);
        recoveries := recoveries + 1;
      } else if !isEvicted {
        backend.SetHealthy(true);
      }
      history := history + [true];
    }

    /** The failing branch of checkBackend; answers whether the backend is now evicted. */
    method RecordFail(isEvicted: bool) returns (evicted: bool)
      modifies this, backend
      ensures Status(evicted) == Check(limits, old(Status(isEvicted)), false)
      ensures history == old(history) + [false]
    {
      evicted := isEvicted;
      if limits.probe.Ping? {
        backend.SetHealthy(false);
      }
      failureCount := failureCount + 1;
      consecutiveFailure := consecutiveFailure + 1;
      consecutiveSuccess := 0;
      if !isEvicted && consecutiveFailure >= limits.failures {
        evicted := true;
        backend.SetHealthy(false);
        evictions := evictions + 1;
      }
      history := history + [false];
    }
  }

  class Checker {
    var backends: map<string, Monitor>
    var evicted: set<string>
    ghost var late: set<string>   // ids with a check that finished after its registration had ended

    ghost function Footprint(): set<object>
      reads this
    {
      (set id | id in backends :: backends[id] as object)
        + (set id | id in backends :: backends[id].backend as object)
    }

    ghost predicate Valid()
      reads this, Footprint()
    {
      && evicted <= backends.Keys + late
      && (forall id | id in backends :: backends[id].backend.id == id && backends[id].Configured())
      && forall id | id in backends && id !in late :: Faithful(id)
    }

    /** The fields kept for a backend are what its history of results makes them. */
    ghost predicate Faithful(id: string)
      requires id in backends
      reads this, backends[id], backends[id].backend
    {
      var m := backends[id];
      StatusOf(id) == After(m.limits, m.startedHealthy, m.history)
    }

    ghost function StatusOf(id: string): Status
      requires id in backends
      reads this, backends[id], backends[id].backend
    {
      backends[id].Status(id in evicted)
    }

    constructor ()
      ensures Valid() && backends == map[] && evicted == {} && late == {}
    {
      backends, evicted, late := map[], {}, {};
    }

    /** Registering twice, or without an enabled configuration, changes nothing. */
    method RegisterBackend(backend: Backend, cfg: Option<HealthConfig>, hasAddress: bool, scheduled: bool)
      returns (ok: bool)
      requires Valid()
      modifies this
      ensures Valid() && evicted == old(evicted) && late == old(late)
      ensures var skipped := cfg.None? || !cfg.value.enabled || backend.id in old(backends);
        && ok == (skipped || scheduled)
        && (skipped || !scheduled ==> backends == old(backends))
        && (!skipped && scheduled ==>
              && backends.Keys == old(backends).Keys + {backend.id}
              && (forall id | id in old(backends) :: backends[id] == old(backends)[id])
              && fresh(backends[backend.id]) && backends[backend.id].backend == backend
              && backends[backend.id].config == cfg.value && backends[backend.id].hasAddress == hasAddress
              && backends[backend.id].history == [])
    {
      if cfg.None? || !cfg.value.enabled || backend.id in backends {
        return true;
      }
      if !scheduled {
        return false;
      }
      var m := new Monitor(backend, cfg.value, hasAddress);
      ghost var was := backends;
      backends := backends[backend.id := m];
      forall id | id in backends && id !in late ensures Faithful(id) {
        if id != backend.id {
          assert id in was && backends[id] == was[id];
          assert old(Faithful(id));
        }
      }
      return true;
    }

    method UnregisterBackend(id: string)
      requires Valid()
      modifies this
      ensures Valid() && backends == old(backends) - {id}
      ensures id in old(backends) ==> evicted == old(evicted) - {id} && late == old(late) - {id}
      ensures id !in old(backends) ==> evicted == old(evicted) && late == old(late)
    {
      if id in backends {
        ghost var was := backends;
        backends := backends - {id};
        evicted := evicted - {id};
        late := late - {id};
        forall i | i in backends && i !in late ensures Faithful(i) {
          assert was[i] == backends[i] && old(Faithful(i));
        }
      }
    }

    /** The start of checkBackend: the monitor is looked up under the read lock, and kept. */
    method BeginCheck(id: string) returns (m: Monitor?)
      ensures m == if id in backends then backends[id] else null
    {
      if id !in backends {
        return null;
      }
      return backends[id];
    }

    /** m is the monitor its backend is registered with now. */
    predicate Registered(m: Monitor)
      reads this
    {
      m.backend.id in backends && backends[m.backend.id] == m
    }

    /** The end of checkBackend, under the write lock: `passed` is what the probe answered.  Other checks may
        have finished, and the backend may have been unregistered, since the check began. */
    method FinishCheck(m: Monitor, passed: bool)
      requires Valid()
      modifies this, m, m.backend
      ensures Valid() && backends == old(backends)
      ensures var id := m.backend.id;
        && m.Status(id in evicted) == Check(m.limits, old(m.Status(id in evicted)), passed)
        && m.history == old(m.history) + [passed]
        && evicted - {id} == old(evicted) - {id}
        && late == if Registered(m) then old(late) else old(late) + {id}
      ensures forall other | other in backends && other != m.backend.id ::
                StatusOf(other) == old(StatusOf(other)) && backends[other].history == old(backends[other].history)
    {
      hide Check, After;
      var id := m.backend.id;
      AfterNext(m.limits, m.startedHealthy, m.history, passed);
      forall other | other in backends && other != id
        ensures backends[other] != m && backends[other].backend != m.backend
      {
        assert backends[other].backend.id == other;
      }
      var now := Record(m, id in evicted, passed);
      Mark(id, now, Registered(m));
      forall other | other in backends && other !in late ensures Faithful(other) {
        assert old(Faithful(other));
      }
    }

    /** The tables after a check. */
    method Mark(id: string, isEvicted: bool, inTime: bool)
      modifies `evicted, `late
      ensures evicted == if isEvicted then old(evicted) + {id} else old(evicted) - {id}
      ensures late == if inTime then old(late) else old(late) + {id}
    {
      evicted := if isEvicted then evicted + {id} else evicted - {id};
      if !inTime {
        late := late + {id};
      }
    }

    /** The branch of checkBackend that the answer selects. */
    method Record(m: Monitor, isEvicted: bool, passed: bool) returns (evictedNow: bool)
      modifies m, m.backend
      ensures m.Status(evictedNow) == Check(m.limits, old(m.Status(isEvicted)), passed)
      ensures m.history == old(m.history) + [passed]
    {
      if passed {
        evictedNow := m.RecordPass(isEvicted);
      } else {
        evictedNow := m.RecordFail(isEvicted);
      }
    }

    /** checkBackend without interference. */
    method CheckBackend(id: string, passed: bool)
      requires Valid()
      modifies this, if id in backends then {backends[id], backends[id].backend} else {}
      ensures Valid() && backends == old(backends) && late == old(late)
      ensures id !in backends ==> evicted == old(evicted)
      ensures id in backends ==>
                && StatusOf(id) == Check(backends[id].limits, old(StatusOf(id)), passed)
                && backends[id].history == old(backends[id].history) + [passed]
      ensures forall other | other in backends && other != id ::
                StatusOf(other) == old(StatusOf(other)) && backends[other].history == old(backends[other].history)
    {
      var m := BeginCheck(id);
      if m != null {
        FinishCheck(m, passed);
      }
    }

    /** IsEvicted answers the question that the configuration asks of the whole history. */
    method IsEvicted(id: string) returns (r: bool)
      requires Valid()
      ensures r == (id in evicted)
      ensures id in backends && id !in late ==>
                (r <==> EvictedBy(backends[id].config, backends[id].history))
      ensures id !in backends && id !in late ==> !r
    {
      r := id in evicted;
      if id in backends && id !in late {
        var m := backends[id];
        assert Faithful(id);
        EvictedByIff(m.config, m.hasAddress, m.startedHealthy, m.history);
      }
    }
  }

  /** A check that is under way while its backend is unregistered still counts: the id is evicted, with
      nothing registered under it, exactly when that check was a failure that reached the threshold. */
  method UnregisterDuringCheck(hc: Checker, id: string, passed: bool)
    requires hc.Valid() && id in hc.backends
    modifies hc, hc.backends[id], hc.backends[id].backend
    ensures hc.Valid() && hc.backends == old(hc.backends) - {id}
    ensures var m := old(hc.backends[id]);
      var threshold := if m.config.failureThreshold == 0 then 3 else m.config.failureThreshold;
      id in hc.evicted <==> !passed && old(hc.backends[id].consecutiveFailure) + 1 >= threshold
  {
    var m := hc.BeginCheck(id);
    hc.UnregisterBackend(id);
    hc.FinishCheck(m, passed);
  }

  /** In every state of a checker: a TCP-checked backend that was healthy when registered is unhealthy
      exactly while it is evicted, and its metrics agree. */
  lemma TcpCheckedUnhealthyIffEvicted(hc: Checker, id: string)
    requires hc.Valid() && id in hc.backends && id !in hc.late
    requires hc.backends[id].config.checkType == CheckTcp && hc.backends[id].hasAddress
    requires hc.backends[id].startedHealthy
    ensures hc.backends[id].backend.healthy <==> id !in hc.evicted
    ensures hc.backends[id].evictions == hc.backends[id].recoveries + if id in hc.evicted then 1 else 0
  {
    var m := hc.backends[id];
    assert hc.Faithful(id);
    TcpHealthyIff(m.limits, m.startedHealthy, m.history);
    EvictionsAndRecoveries(m.limits, m.startedHealthy, m.history);
  }

  /** In every state of a checker, whatever is kept of a backend is said by its configuration and its history. */
  lemma KeptIsHistory(hc: Checker, id: string)
    requires hc.Valid() && id in hc.backends && id !in hc.late
    ensures var m := hc.backends[id];
      && (id in hc.evicted <==> EvictedBy(m.config, m.history))
      && m.backend.healthy
           == (if m.config.checkType == CheckTcp && m.hasAddress
               then !EvictedBy(m.config, m.history) && (m.startedHealthy || true in m.history)
               else if m.history == [] then m.startedHealthy
               else m.history[|m.history| - 1])
      && m.evictions == |Turns(m.config, m.history, true)| && m.recoveries == |Turns(m.config, m.history, false)|
      && m.successCount == multiset(m.history)[true] && m.failureCount == multiset(m.history)[false]
  {
    var m := hc.backends[id];
    assert hc.Faithful(id);
    EvictedByIff(m.config, m.hasAddress, m.startedHealthy, m.history);
    HealthyIff(m.config, m.hasAddress, m.startedHealthy, m.history);
    CountersCount(m.config, m.hasAddress, m.startedHealthy, m.history);
    hide EvictedBy, Turns, Check, After;
  }
}
