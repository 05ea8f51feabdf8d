/** Health checks and selection together: an evicted backend is offered by nobody. */
module Offering {
  import opened Storage
  import opened Health
  import opened HealthOutcomes
  import HealthChecker
  import opened Routing
  import Router
  import LoadBalancer

  /** Between eviction and readmission a TCP-checked backend is on no write or read route and is never
      the load balancer's choice; and a backend no other reason makes unhealthy comes back at once. */
  lemma EvictedIsNotOffered(
    hc: HealthChecker.Checker, r: Router.Router, lb: LoadBalancer.LoadBalancer, id: string,
    key: string, hint: string, write: Option<string>, route: seq<string>)
    requires hc.Valid() && r.Valid() && id in hc.backends && id !in hc.late && id in r.backends
    requires r.backends[id] == hc.backends[id].backend
    requires hc.backends[id].config.checkType == CheckTcp && hc.backends[id].hasAddress
    requires hc.backends[id].startedHealthy
    requires CanWrite(r.View(), key, hint, write) && CanRead(r.View(), key, hint, route)
    ensures id in hc.evicted ==> write != Some(id) && id !in route
    ensures id in hc.evicted ==> r.backends[id] !in LoadBalancer.HealthyOf(lb.backends)
    ensures id !in hc.evicted ==> id in route
    ensures id in hc.evicted <==> EvictedBy(hc.backends[id].config, hc.backends[id].history)
  {
    HealthChecker.TcpCheckedUnhealthyIffEvicted(hc, id);
    var m := hc.backends[id];
    assert hc.Faithful(id);
    EvictedByIff(m.config, m.hasAddress, m.startedHealthy, m.history);
    assert id in Elements(route) <==> id in r.View().healthy.Keys;
    ReadAndWriteAgree(r.View(), key, hint, write, route);
  }
}
