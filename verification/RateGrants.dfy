/** Exactly which requests a limiter grants: those that no window refuses. */
module RateGrants {
  import opened Common
  import opened RateTable
  import opened RateLimits

  /** The instant at which the window of the operations from `k` on begins. */
  function Begins(ops: seq<Op>, k: nat, now: Time): Time
    requires k <= |ops|
  {
    if k < |ops| then ops[k].now else now
  }

  /** How many requests of `ip` the run `ops`, started with no client known, grants from its
      operation `k` on. */
  function GrantedFrom(cfg: Config, ops: seq<Op>, k: nat, ip: string): nat
    requires k <= |ops|
  {
    Allowed(cfg, Run(cfg, map[], ops[..k]), ops[k..], ip)
  }

  /** One more request at `now` keeps every window within burst + rate * T. */
  ghost predicate FitsEveryWindow(cfg: Config, ops: seq<Op>, ip: string, now: Time) {
    forall k | 0 <= k <= |ops| ::
      cfg.cost * (GrantedFrom(cfg, ops, k, ip) + 1) <= cfg.Cap() + (now - Begins(ops, k, now))
  }

  lemma {:induction false} RunSnoc(cfg: Config, m: Clients, ops: seq<Op>, op: Op)
    ensures Run(cfg, m, ops + [op]) == After(cfg, Run(cfg, m, ops), op)
    decreases |ops|
  {
    if ops == [] {
      assert ([] + [op])[1..] == [];
    } else {
      assert (ops + [op])[1..] == ops[1..] + [op];
      RunSnoc(cfg, After(cfg, m, ops[0]), ops[1..], op);
    }
  }

  lemma {:induction false} RunSplits(cfg: Config, m: Clients, a: seq<Op>, b: seq<Op>)
    ensures Run(cfg, m, a + b) == Run(cfg, Run(cfg, m, a), b)
    decreases |a|
  {
    if a == [] {
      assert a + b == b;
    } else {
      assert (a + b)[1..] == a[1..] + b;
      RunSplits(cfg, After(cfg, m, a[0]), a[1..], b);
    }
  }

  lemma {:induction false} ClockSplits(ops: seq<Op>, k: nat, clock: Time)
    requires ClockForward(ops, clock) && k <= |ops|
    ensures ClockForward(ops[..k], clock) && ClockForward(ops[k..], LastClock(ops[..k], clock))
    ensures LastClock(ops, clock) == LastClock(ops[k..], LastClock(ops[..k], clock))
    ensures clock <= LastClock(ops[..k], clock)
    ensures k < |ops| ==> LastClock(ops[..k], clock) <= ops[k].now && ClockForward(ops[k..], ops[k].now)
    decreases k
  {
    if k > 0 {
      ClockSplits(ops[1..], k - 1, ops[0].now);
      assert ops[..k][1..] == ops[1..][..k - 1] && ops[1..][k - 1..] == ops[k..];
    } else {
      assert ops[..0] == [] && ops[0..] == ops;
    }
  }

  /** No window grants more than it may (the upper half). */
  lemma WindowHolds(cfg: Config, ops: seq<Op>, clock: Time, k: nat, ip: string, now: Time)
    requires cfg.Valid() && cfg.Cap() <= cfg.idle + 1
    requires ClockForward(ops, clock) && LastClock(ops, clock) <= now && k <= |ops|
    ensures cfg.cost * GrantedFrom(cfg, ops, k, ip) + Level(cfg, Run(cfg, map[], ops), ip, now) <=
      cfg.Cap() + (now - Begins(ops, k, now))
  {
    var a, b := ops[..k], ops[k..];
    var m := Run(cfg, map[], a);
    assert ops == a + b;
    ClockSplits(ops, k, clock);
    RunSplits(cfg, map[], a, b);
    Budget(cfg, map[], a, clock, ip);
    var start := if k < |ops| then ops[k].now else LastClock(a, clock);
    assert Sane(cfg, m, start);
    Budget(cfg, m, b, start, ip);
    PaidIsProduct(cfg, m, b, ip);
    LevelsInRange(cfg, m, ip, start);
    var u := Run(cfg, m, b);
    LevelLater(cfg, u, ip, LastClock(b, start), now);
    if k == |ops| { LevelsInRange(cfg, u, ip, now); assert Sane(cfg, u, now); }
  }

  /** The level after one more operation: less by what it cost, then refilled up to the
      capacity. */
  lemma LevelSnoc(cfg: Config, before: seq<Op>, op: Op, clock: Time, ip: string, now: Time)
    requires cfg.Valid() && cfg.Cap() <= cfg.idle + 1
    requires ClockForward(before, clock) && LastClock(before, clock) <= op.now <= now
    ensures var m := Run(cfg, map[], before);
      Level(cfg, Run(cfg, map[], before + [op]), ip, now) == Min(cfg.Cap(), Level(cfg, m, ip, op.now) -
        (if op.Allow? && op.ip == ip && Reply(cfg, m, op) then cfg.cost else 0) + (now - op.now))
  {
    var m := Run(cfg, map[], before);
    RunSnoc(cfg, map[], before, op);
    Budget(cfg, map[], before, clock, ip);
    assert Sane(cfg, m, op.now);
    if op.Allow? { AllowStep(cfg, m, op.ip, op.now, ip); } else { CleanupStep(cfg, m, op.now, ip); }
    LevelLater(cfg, After(cfg, m, op), ip, op.now, now);
  }

  /** Some window is used up to the present level (the lower half). */
  lemma {:induction false} SomeWindowIsTight(cfg: Config, ops: seq<Op>, clock: Time, ip: string, now: Time)
    returns (k: nat)
    requires cfg.Valid() && cfg.Cap() <= cfg.idle + 1
    requires ClockForward(ops, clock) && LastClock(ops, clock) <= now
    ensures k <= |ops|
    ensures cfg.cost * GrantedFrom(cfg, ops, k, ip) + Level(cfg, Run(cfg, map[], ops), ip, now) ==
      cfg.Cap() + (now - Begins(ops, k, now))
    decreases |ops|
  {
    if ops == [] {
      k := 0;
    } else {
      var n := |ops| - 1;
      var before, op := ops[..n], ops[n];
      assert ops == before + [op];
      ClockSplits(ops, n, clock);
      LastOfOne(ops, n, LastClock(before, clock));
      k := SomeWindowIsTight(cfg, before, clock, ip, op.now);
      LevelSnoc(cfg, before, op, clock, ip, now);
      GrantedSnoc(cfg, before, op, k, ip);
      if Level(cfg, Run(cfg, map[], ops), ip, now) == cfg.Cap() {
        k := |ops|;
        assert ops[k..] == [] && GrantedFrom(cfg, ops, k, ip) == 0;
      }
    }
  }

  lemma LastOfOne(ops: seq<Op>, n: nat, clock: Time)
    requires |ops| == n + 1
    ensures LastClock(ops[n..], clock) == ops[n].now
  {
    assert ops[n..] == [ops[n]] && [ops[n]][1..] == [];
  }

  lemma AllowedSnoc(cfg: Config, m: Clients, b: seq<Op>, op: Op, ip: string)
    ensures Allowed(cfg, m, b + [op], ip) ==
      Allowed(cfg, m, b, ip) + if op.Allow? && op.ip == ip && Reply(cfg, Run(cfg, m, b), op) then 1 else 0
  {
    RunConcat(cfg, m, b, [op], ip);
    assert [op][1..] == [];
  }

  lemma GrantedSnoc(cfg: Config, before: seq<Op>, op: Op, k: nat, ip: string)
    requires k <= |before|
    ensures var ops, m := before + [op], Run(cfg, map[], before);
      cfg.cost * GrantedFrom(cfg, ops, k, ip) == cfg.cost * GrantedFrom(cfg, before, k, ip) +
        if op.Allow? && op.ip == ip && Reply(cfg, m, op) then cfg.cost else 0
  {
    var ops, a, b := before + [op], before[..k], before[k..];
    assert ops[..k] == a && ops[k..] == b + [op] && a + b == before;
    RunSplits(cfg, map[], a, b);
    AllowedSnoc(cfg, Run(cfg, map[], a), b, op, ip);
    var granted := op.Allow? && op.ip == ip && Reply(cfg, Run(cfg, map[], before), op);
    OneMore(cfg.cost, GrantedFrom(cfg, before, k, ip), granted);
  }

  /** After every run a request is granted exactly when no window of any length that ends with
      it would then hold more than burst + rate * T granted requests of its client: what other
      clients do, and when idle clients are forgotten, makes no difference. */
  lemma GrantedExactly(cfg: Config, ops: seq<Op>, clock: Time, ip: string, now: Time)
    requires cfg.Valid() && 1 <= cfg.burst && cfg.Cap() <= cfg.idle + 1
    requires ClockForward(ops, clock) && LastClock(ops, clock) <= now
    ensures Reply(cfg, Run(cfg, map[], ops), Allow(ip, now)) <==> FitsEveryWindow(cfg, ops, ip, now)
  {
    var u := Run(cfg, map[], ops);
    Budget(cfg, map[], ops, clock, ip);
    assert Sane(cfg, u, now);
    AllowStep(cfg, u, ip, now, ip);
    var level := Level(cfg, u, ip, now);
    forall k | 0 <= k <= |ops|
      ensures cfg.cost <= level ==>
        cfg.cost * (GrantedFrom(cfg, ops, k, ip) + 1) <= cfg.Cap() + (now - Begins(ops, k, now))
    {
      WindowHolds(cfg, ops, clock, k, ip, now);
      OneMore(cfg.cost, GrantedFrom(cfg, ops, k, ip), true);
    }
    var k := SomeWindowIsTight(cfg, ops, clock, ip, now);
    OneMore(cfg.cost, GrantedFrom(cfg, ops, k, ip), true);
  }

  // ---------- What a client can count on ----------

  /** Of any number of requests at one instant by a client not seen before, exactly the first
      `burst` are granted. */
  lemma BurstExactly(cfg: Config, ip: string, now: Time, k: nat, i: nat)
    requires cfg.Valid() && i < k
    ensures Answers(cfg, map[], Repeat(Allow(ip, now), k))[i] <==> i < cfg.burst
  {
    BurstLevels(cfg, map[], ip, now, k, i);
    Multiples(cfg.cost, i, cfg.burst);
  }

  lemma Multiples(cost: int, i: nat, n: nat)
    requires 1 <= cost
    ensures i * cost + cost <= n * cost <==> i < n
  {
    if i < n {
      Product(n - i - 1, cost);
      assert (n - i - 1) * cost == n * cost - i * cost - cost;
    } else {
      Product(i - n, cost);
      assert (i - n) * cost == i * cost - n * cost;
    }
  }

  lemma {:induction false} BurstLevels(cfg: Config, m: Clients, ip: string, now: Time, k: nat, i: nat)
    requires cfg.Valid() && Sane(cfg, m, now) && i < k
    ensures Answers(cfg, m, Repeat(Allow(ip, now), k))[i] <==>
      1 <= cfg.burst && i * cfg.cost + cfg.cost <= Level(cfg, m, ip, now)
    decreases i
  {
    AllowStep(cfg, m, ip, now, ip);
    var m1 := After(cfg, m, Allow(ip, now));
    assert Repeat(Allow(ip, now), k)[1..] == Repeat(Allow(ip, now), k - 1);
    if i > 0 {
      BurstLevels(cfg, m1, ip, now, k - 1, i - 1);
      Product(i - 1, cfg.cost);
      assert i * cfg.cost == (i - 1) * cfg.cost + cfg.cost;
    }
  }

  /** The deployed limiters grant a new client 3 creations at once, and another one exactly from
      6 s later on; and 10 joins, and another one exactly from 2 s later on. */
  lemma DeployedGrants(ip: string, now: Time, k: nat, i: nat, later: Time)
    requires i < k && now <= later
    ensures Answers(CREATE, map[], Repeat(Allow(ip, now), k))[i] <==> i < 3
    ensures Answers(JOIN, map[], Repeat(Allow(ip, now), k))[i] <==> i < 10
    ensures Reply(CREATE, Run(CREATE, map[], Repeat(Allow(ip, now), 3)), Allow(ip, later)) <==>
      now + 6 * SECOND <= later
    ensures Reply(JOIN, Run(JOIN, map[], Repeat(Allow(ip, now), 10)), Allow(ip, later)) <==>
      now + 2 * SECOND <= later
  {
    BurstExactly(CREATE, ip, now, k, i);
    BurstExactly(JOIN, ip, now, k, i);
    NextAfterBurst(CREATE, ip, now, later);
    NextAfterBurst(JOIN, ip, now, later);
  }

  lemma NextAfterBurst(cfg: Config, ip: string, now: Time, later: Time)
    requires cfg.Valid() && 1 <= cfg.burst && now <= later
    ensures Reply(cfg, Run(cfg, map[], Repeat(Allow(ip, now), cfg.burst)), Allow(ip, later)) <==>
      now + cfg.cost <= later
  {
    var m := Run(cfg, map[], Repeat(Allow(ip, now), cfg.burst));
    BurstGranted(cfg, map[], ip, now, cfg.burst);
    CapIsSane(cfg);
    LevelLater(cfg, m, ip, now, later);
    assert Sane(cfg, m, later);
    AllowStep(cfg, m, ip, later, ip);
  }
}
