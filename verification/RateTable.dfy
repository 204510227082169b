/** Per-client token buckets with eviction (internal/server/ratelimit/limiter.go). The
    library's rate.Limiter is modelled exactly, in integers: one unit refills every
    nanosecond and a request costs `cost` units. */
module RateTable {
  import opened Common

  /** `cost` is the time one token takes to refill, `idle` the eviction threshold. */
  datatype Config = Config(cost: int, burst: nat, idle: Time) {
    predicate Valid() { 1 <= cost && 0 <= idle }
    function Cap(): int { burst * cost }
  }

  datatype Bucket = Bucket(level: int, last: Time)

  datatype Client = Client(bucket: Bucket, lastSeen: Time)

  type Clients = map<string, Client>

  datatype Op = Allow(ip: string, now: Time) | Cleanup(now: Time)

  function Min(a: int, b: int): int { if a <= b then a else b }

  /** The bucket refilled lazily up to its capacity; time that runs backwards adds nothing. */
  function LevelAt(cfg: Config, b: Bucket, now: Time): int {
    Min(cfg.Cap(), b.level + if b.last <= now then now - b.last else 0)
  }

  /** A refused request leaves the bucket as it was. */
  function Take(cfg: Config, b: Bucket, now: Time): (Bucket, bool) {
    var level := LevelAt(cfg, b, now);
    if 1 <= cfg.burst && cfg.cost <= level then (Bucket(level - cfg.cost, now), true) else (b, false)
  }

  /** The bucket that serves a request: the stored one, or a new full one. */
  function BucketFor(cfg: Config, m: Clients, ip: string, now: Time): Bucket {
    if ip in m then m[ip].bucket else Bucket(cfg.Cap(), now)
  }

  predicate Idle(cfg: Config, c: Client, now: Time) { c.lastSeen < now - cfg.idle }

  function After(cfg: Config, m: Clients, op: Op): Clients {
    match op
    case Allow(ip, now) => m[ip := Client(Take(cfg, BucketFor(cfg, m, ip, now), now).0, now)]
    case Cleanup(now) => map ip | ip in m && !Idle(cfg, m[ip], now) :: m[ip]
  }

  /** Cleanup answers nothing, which is rendered as true. */
  function Reply(cfg: Config, m: Clients, op: Op): bool {
    op.Allow? ==> Take(cfg, BucketFor(cfg, m, op.ip, op.now), op.now).1
  }

  /** The limiter that never evicts. */
  function Kept(cfg: Config, m: Clients, op: Op): Clients { if op.Cleanup? then m else After(cfg, m, op) }

  function Run(cfg: Config, m: Clients, ops: seq<Op>): Clients
    decreases |ops|
  {
    if ops == [] then m else Run(cfg, After(cfg, m, ops[0]), ops[1..])
  }

  function Answers(cfg: Config, m: Clients, ops: seq<Op>): (r: seq<bool>)
    ensures |r| == |ops|
    decreases |ops|
  {
    if ops == [] then [] else [Reply(cfg, m, ops[0])] + Answers(cfg, After(cfg, m, ops[0]), ops[1..])
  }

  function KeptRun(cfg: Config, m: Clients, ops: seq<Op>): Clients
    decreases |ops|
  {
    if ops == [] then m else KeptRun(cfg, Kept(cfg, m, ops[0]), ops[1..])
  }

  function KeptAnswers(cfg: Config, m: Clients, ops: seq<Op>): (r: seq<bool>)
    ensures |r| == |ops|
    decreases |ops|
  {
    if ops == [] then [] else [Reply(cfg, m, ops[0])] + KeptAnswers(cfg, Kept(cfg, m, ops[0]), ops[1..])
  }

  predicate ClockForward(ops: seq<Op>, clock: Time)
    decreases |ops|
  {
    ops != [] ==> clock <= ops[0].now && ClockForward(ops[1..], ops[0].now)
  }

  function LastClock(ops: seq<Op>, clock: Time): Time
    decreases |ops|
  {
    if ops == [] then clock else LastClock(ops[1..], ops[0].now)
  }

  /** How many requests of `ip` a run allows. */
  function Allowed(cfg: Config, m: Clients, ops: seq<Op>, ip: string): nat
    decreases |ops|
  {
    if ops == [] then 0
    else
      (if ops[0].Allow? && ops[0].ip == ip && Reply(cfg, m, ops[0]) then 1 else 0) +
      Allowed(cfg, After(cfg, m, ops[0]), ops[1..], ip)
  }
}
