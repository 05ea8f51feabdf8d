/** A registered backend as router, load balancer and health checker see it. */
module Backends {
  class Backend {
    const id: string
    const weight: int
    var healthy: bool

    constructor (id: string, weight: int)
      ensures this.id == id && this.weight == weight && healthy
    {
      this.id, this.weight, this.healthy := id, weight, true;
    }

    method SetHealthy(h: bool)
      modifies `healthy
      ensures healthy == h
    {
      healthy := h;
    }
  }
}
