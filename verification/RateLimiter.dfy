/** The limiter with its map updated in place, and the pair of limiters the server uses. */
module RateLimiter {
  import opened Common
  import opened RateTable
  import RateLimits

  class Limiter {
    var limiters: Clients
    const cfg: Config

    constructor (cfg: Config)
      ensures limiters == map[] && this.cfg == cfg
    {
      this.cfg := cfg;
      limiters := map[];
    }

    method Allow(ip: string, now: Time) returns (ok: bool)
      modifies this
      ensures limiters == After(cfg, old(limiters), RateTable.Allow(ip, now))
      ensures ok == Reply(cfg, old(limiters), RateTable.Allow(ip, now))
    {
      if ip !in limiters {
        limiters := limiters[ip := Client(Bucket(cfg.Cap(), now), now)];
      }
      var taken := Take(cfg, limiters[ip].bucket, now);
      limiters := limiters[ip := Client(taken.0, now)];
      ok := taken.1;
    }

    /** Whatever the order of the walk, the idle clients and only they are forgotten. */
    method DoCleanup(now: Time)
      modifies this
      ensures limiters == After(cfg, old(limiters), Cleanup(now))
    {
      var threshold := now - cfg.idle;
      ghost var was := limiters;
      var todo := limiters.Keys;
      while todo != {}
        invariant todo <= was.Keys
        invariant forall ip :: ip in limiters <==> ip in was && (ip in todo || !Idle(cfg, was[ip], now))
        invariant forall ip :: ip in limiters ==> limiters[ip] == was[ip]
        decreases |todo|
      {
        var ip :| ip in todo;
        todo := todo - {ip};
        if limiters[ip].lastSeen < threshold {
          limiters := limiters - {ip};
        }
      }
    }
  }

  class MultiLimiter {
    const create: Limiter
    const join: Limiter

    /** The two limiters do not share their clients. */
    predicate Valid() { create != join }

    constructor ()
      ensures Valid() && fresh(create) && fresh(join)
      ensures create.cfg == RateLimits.CREATE && join.cfg == RateLimits.JOIN
      ensures create.limiters == map[] && join.limiters == map[]
    {
      create := new Limiter(RateLimits.CREATE);
      join := new Limiter(RateLimits.JOIN);
    }

    method AllowCreate(ip: string, now: Time) returns (ok: bool)
      requires Valid()
      modifies create
      ensures join.limiters == old(join.limiters)
      ensures create.limiters == After(create.cfg, old(create.limiters), RateTable.Allow(ip, now))
      ensures ok == Reply(create.cfg, old(create.limiters), RateTable.Allow(ip, now))
    {
      ok := create.Allow(ip, now);
    }

    method AllowJoin(ip: string, now: Time) returns (ok: bool)
      requires Valid()
      modifies join
      ensures create.limiters == old(create.limiters)
      ensures join.limiters == After(join.cfg, old(join.limiters), RateTable.Allow(ip, now))
      ensures ok == Reply(join.cfg, old(join.limiters), RateTable.Allow(ip, now))
    {
      ok := join.Allow(ip, now);
    }
  }
}
