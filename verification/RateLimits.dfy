/** Eviction is invisible, and the rate bound holds over every window, exactly when a bucket
    refills completely within the idle threshold. */
module RateLimits {
  import opened Common
  import opened RateTable

  /** What matters about a client: how full its bucket is, an unknown client's being full. */
  function Level(cfg: Config, m: Clients, ip: string, now: Time): int {
    if ip in m then LevelAt(cfg, m[ip].bucket, now) else cfg.Cap()
  }

  predicate Sane(cfg: Config, m: Clients, clock: Time) {
    forall ip | ip in m :: 0 <= m[ip].bucket.level <= cfg.Cap() && m[ip].bucket.last <= m[ip].lastSeen <= clock
  }

  lemma CapIsSane(cfg: Config)
    requires cfg.Valid()
    ensures 0 <= cfg.Cap()
    ensures cfg.burst == 0 ==> cfg.Cap() == 0
    ensures 1 <= cfg.burst ==> cfg.cost <= cfg.Cap()
  {
    if 1 <= cfg.burst { assert cfg.burst * cfg.cost == (cfg.burst - 1) * cfg.cost + cfg.cost; }
  }

  /** A bucket's level at one instant decides its level at all later ones. */
  lemma LevelLater(cfg: Config, m: Clients, ip: string, clock: Time, now: Time)
    requires Sane(cfg, m, clock) && clock <= now
    ensures Level(cfg, m, ip, now) == Min(cfg.Cap(), Level(cfg, m, ip, clock) + (now - clock))
  {
  }

  lemma AllowStep(cfg: Config, m: Clients, ip: string, now: Time, other: string)
    requires cfg.Valid() && Sane(cfg, m, now)
    ensures var n := After(cfg, m, Allow(ip, now));
      && Sane(cfg, n, now)
      && Reply(cfg, m, Allow(ip, now)) == (1 <= cfg.burst && cfg.cost <= Level(cfg, m, ip, now))
      && Level(cfg, n, other, now) == Level(cfg, m, other, now) -
           if other == ip && Reply(cfg, m, Allow(ip, now)) then cfg.cost else 0
  {
    CapIsSane(cfg);
  }

  /** Evicting an idle client leaves every level as it was, when buckets refill in time. */
  lemma CleanupStep(cfg: Config, m: Clients, now: Time, other: string)
    requires cfg.Valid() && Sane(cfg, m, now) && cfg.Cap() <= cfg.idle + 1
    ensures Sane(cfg, After(cfg, m, Cleanup(now)), now)
    ensures Level(cfg, After(cfg, m, Cleanup(now)), other, now) == Level(cfg, m, other, now)
  {
  }

  ghost predicate SameLevels(cfg: Config, m: Clients, k: Clients, clock: Time) {
    forall ip :: Level(cfg, m, ip, clock) == Level(cfg, k, ip, clock)
  }

  lemma SameLevelsLater(cfg: Config, m: Clients, k: Clients, clock: Time, now: Time)
    requires SameLevels(cfg, m, k, clock) && Sane(cfg, m, clock) && Sane(cfg, k, clock) && clock <= now
    ensures SameLevels(cfg, m, k, now)
  {
    forall ip ensures Level(cfg, m, ip, now) == Level(cfg, k, ip, now) {
      LevelLater(cfg, m, ip, clock, now);
      LevelLater(cfg, k, ip, clock, now);
    }
  }

  lemma {:induction false} EvictionUnseen(cfg: Config, m: Clients, k: Clients, ops: seq<Op>, clock: Time)
    requires cfg.Valid() && cfg.Cap() <= cfg.idle + 1
    requires Sane(cfg, m, clock) && Sane(cfg, k, clock) && SameLevels(cfg, m, k, clock) && ClockForward(ops, clock)
    ensures Answers(cfg, m, ops) == KeptAnswers(cfg, k, ops)
    decreases |ops|
  {
    if ops != [] {
      var op := ops[0];
      var m1, k1 := After(cfg, m, op), Kept(cfg, k, op);
      SameLevelsLater(cfg, m, k, clock, op.now);
      assert Sane(cfg, m, op.now) && Sane(cfg, k, op.now);
      forall ip
        ensures Reply(cfg, m, op) == Reply(cfg, k, op)
        ensures Level(cfg, m1, ip, op.now) == Level(cfg, k1, ip, op.now)
        ensures Sane(cfg, m1, op.now) && Sane(cfg, k1, op.now)
      {
        if op.Allow? {
          AllowStep(cfg, m, op.ip, op.now, ip);
          AllowStep(cfg, k, op.ip, op.now, ip);
        } else {
          CleanupStep(cfg, m, op.now, ip);
        }
      }
      assert Level(cfg, m1, "", op.now) == Level(cfg, k1, "", op.now);
      EvictionUnseen(cfg, m1, k1, ops[1..], op.now);
    }
  }

  // ---------- The bound over a window ----------

  lemma BudgetStep(cfg: Config, m: Clients, op: Op, clock: Time, ip: string)
    requires cfg.Valid() && cfg.Cap() <= cfg.idle + 1 && Sane(cfg, m, clock) && clock <= op.now
    ensures Sane(cfg, After(cfg, m, op), op.now)
    ensures Level(cfg, After(cfg, m, op), ip, op.now) +
              (if op.Allow? && op.ip == ip && Reply(cfg, m, op) then cfg.cost else 0) <=
            Level(cfg, m, ip, clock) + (op.now - clock)
  {
    LevelLater(cfg, m, ip, clock, op.now);
    assert Sane(cfg, m, op.now);
    if op.Allow? { AllowStep(cfg, m, op.ip, op.now, ip); } else { CleanupStep(cfg, m, op.now, ip); }
  }

  /** What a run's allowed requests of `ip` cost in all. */
  function Paid(cfg: Config, m: Clients, ops: seq<Op>, ip: string): int
    decreases |ops|
  {
    if ops == [] then 0
    else
      (if ops[0].Allow? && ops[0].ip == ip && Reply(cfg, m, ops[0]) then cfg.cost else 0) +
      Paid(cfg, After(cfg, m, ops[0]), ops[1..], ip)
  }

  lemma {:induction false} PaidIsProduct(cfg: Config, m: Clients, ops: seq<Op>, ip: string)
    ensures Paid(cfg, m, ops, ip) == cfg.cost * Allowed(cfg, m, ops, ip)
    decreases |ops|
  {
    if ops != [] {
      var m1 := After(cfg, m, ops[0]);
      PaidIsProduct(cfg, m1, ops[1..], ip);
      OneMore(cfg.cost, Allowed(cfg, m1, ops[1..], ip), ops[0].Allow? && ops[0].ip == ip && Reply(cfg, m, ops[0]));
    }
  }

  lemma OneMore(cost: int, rest: nat, one: bool)
    ensures cost * ((if one then 1 else 0) + rest) == (if one then cost else 0) + cost * rest
  {
  }

  /** Requests are paid for by the initial level and by the time that passes. */
  lemma {:induction false} Budget(cfg: Config, m: Clients, ops: seq<Op>, clock: Time, ip: string)
    requires cfg.Valid() && cfg.Cap() <= cfg.idle + 1 && Sane(cfg, m, clock) && ClockForward(ops, clock)
    ensures Sane(cfg, Run(cfg, m, ops), LastClock(ops, clock)) && clock <= LastClock(ops, clock)
    ensures Paid(cfg, m, ops, ip) + Level(cfg, Run(cfg, m, ops), ip, LastClock(ops, clock)) <=
            Level(cfg, m, ip, clock) + (LastClock(ops, clock) - clock)
    decreases |ops|
  {
    if ops != [] {
      BudgetStep(cfg, m, ops[0], clock, ip);
      Budget(cfg, After(cfg, m, ops[0]), ops[1..], ops[0].now, ip);
    }
  }

  lemma LevelsInRange(cfg: Config, m: Clients, ip: string, clock: Time)
    requires cfg.Valid() && Sane(cfg, m, clock)
    ensures 0 <= Level(cfg, m, ip, clock) <= cfg.Cap()
  {
    CapIsSane(cfg);
  }

  /** Over every run `before` and every window that follows it, at most burst + rate * T
      requests of one client are allowed, T being the length of the window. */
  ghost predicate WindowBounded(cfg: Config) {
    forall before: seq<Op>, window: seq<Op>, clock, start, ip
      {:trigger Allowed(cfg, Run(cfg, map[], before), window, ip), ClockForward(before, clock),
                ClockForward(window, start)} ::
      ClockForward(before, clock) && LastClock(before, clock) <= start && ClockForward(window, start) ==>
        cfg.cost * Allowed(cfg, Run(cfg, map[], before), window, ip) <= cfg.Cap() + (LastClock(window, start) - start)
  }

  ghost predicate EvictionUnobservable(cfg: Config) {
    forall ops, clock :: ClockForward(ops, clock) ==> Answers(cfg, map[], ops) == KeptAnswers(cfg, map[], ops)
  }

  // ---------- The run that shows an early eviction ----------

  function Repeat(op: Op, k: nat): (r: seq<Op>)
    ensures |r| == k
  {
    if k == 0 then [] else [op] + Repeat(op, k - 1)
  }

  /** `k` requests at one instant, all granted when the level pays for them. */
  lemma {:induction false} BurstGranted(cfg: Config, m: Clients, ip: string, now: Time, k: nat)
    requires cfg.Valid() && Sane(cfg, m, now) && k <= cfg.burst && k * cfg.cost <= Level(cfg, m, ip, now)
    ensures var ops := Repeat(Allow(ip, now), k);
      && ClockForward(ops, now) && LastClock(ops, now) == now
      && Allowed(cfg, m, ops, ip) == k && (forall i | 0 <= i < k :: Answers(cfg, m, ops)[i])
      && Sane(cfg, Run(cfg, m, ops), now) && KeptRun(cfg, m, ops) == Run(cfg, m, ops)
      && Level(cfg, Run(cfg, m, ops), ip, now) == Level(cfg, m, ip, now) - k * cfg.cost
      && (k >= 1 ==> ip in Run(cfg, m, ops) && Run(cfg, m, ops)[ip].lastSeen == now)
      && (k == 0 && ip in m ==> ip in Run(cfg, m, ops) && Run(cfg, m, ops)[ip] == m[ip])
    decreases k
  {
    if k > 0 {
      assert k * cfg.cost == cfg.cost + (k - 1) * cfg.cost;
      assert 0 <= (k - 1) * cfg.cost by { if 1 < k { Product(k - 1, cfg.cost); } }
      AllowStep(cfg, m, ip, now, ip);
      var m1 := After(cfg, m, Allow(ip, now));
      assert Repeat(Allow(ip, now), k)[1..] == Repeat(Allow(ip, now), k - 1);
      BurstGranted(cfg, m1, ip, now, k - 1);
    }
  }

  lemma Product(a: int, b: int)
    requires 0 <= a && 0 <= b
    ensures 0 <= a * b
  {
  }

  /** `k` requests at one instant cannot all be granted when the level does not pay. */
  lemma {:induction false} BurstRefused(cfg: Config, m: Clients, ip: string, now: Time, k: nat)
    requires cfg.Valid() && Sane(cfg, m, now) && Level(cfg, m, ip, now) < k * cfg.cost
    ensures exists i :: 0 <= i < k && !KeptAnswers(cfg, m, Repeat(Allow(ip, now), k))[i]
    decreases k
  {
    LevelsInRange(cfg, m, ip, now);
    if k > 0 {
      AllowStep(cfg, m, ip, now, ip);
      var ops := Repeat(Allow(ip, now), k);
      assert ops[1..] == Repeat(Allow(ip, now), k - 1);
      var m1 := After(cfg, m, Allow(ip, now));
      if Reply(cfg, m, Allow(ip, now)) {
        assert k * cfg.cost == cfg.cost + (k - 1) * cfg.cost;
        BurstRefused(cfg, m1, ip, now, k - 1);
        var i :| 0 <= i < k - 1 && !KeptAnswers(cfg, m1, ops[1..])[i];
        assert !KeptAnswers(cfg, m, ops)[i + 1];
      } else {
        assert !KeptAnswers(cfg, m, ops)[0];
      }
    }
  }

  lemma {:induction false} RunConcat(cfg: Config, m: Clients, a: seq<Op>, b: seq<Op>, ip: string)
    ensures Answers(cfg, m, a + b) == Answers(cfg, m, a) + Answers(cfg, Run(cfg, m, a), b)
    ensures Allowed(cfg, m, a + b, ip) == Allowed(cfg, m, a, ip) + Allowed(cfg, Run(cfg, m, a), b, ip)
    decreases |a|
  {
    if a == [] {
      assert a + b == b;
    } else {
      assert (a + b)[1..] == a[1..] + b;
      RunConcat(cfg, After(cfg, m, a[0]), a[1..], b, ip);
    }
  }

  lemma {:induction false} KeptConcat(cfg: Config, m: Clients, a: seq<Op>, b: seq<Op>)
    ensures KeptAnswers(cfg, m, a + b) == KeptAnswers(cfg, m, a) + KeptAnswers(cfg, KeptRun(cfg, m, a), b)
    decreases |a|
  {
    if a == [] {
      assert a + b == b;
    } else {
      assert (a + b)[1..] == a[1..] + b;
      KeptConcat(cfg, Kept(cfg, m, a[0]), a[1..], b);
    }
  }

  lemma {:induction false} ClockConcat(a: seq<Op>, b: seq<Op>, clock: Time)
    requires ClockForward(a, clock) && ClockForward(b, LastClock(a, clock))
    ensures ClockForward(a + b, clock) && LastClock(a + b, clock) == LastClock(b, LastClock(a, clock))
    decreases |a|
  {
    if a == [] {
      assert a + b == b;
    } else {
      assert (a + b)[1..] == a[1..] + b;
      ClockConcat(a[1..], b, a[0].now);
    }
  }

  /** A burst, an eviction just past the idle threshold, and another burst. */
  function EarlyEviction(cfg: Config): seq<Op> {
    Repeat(Allow("ip", 0), cfg.burst) + ([Cleanup(cfg.idle + 1)] + Repeat(Allow("ip", cfg.idle + 1), cfg.burst))
  }

  lemma EarlyEvictionShows(cfg: Config)
    requires cfg.Valid() && cfg.idle + 1 < cfg.Cap()
    ensures ClockForward(EarlyEviction(cfg), 0) && LastClock(EarlyEviction(cfg), 0) == cfg.idle + 1
    ensures Answers(cfg, map[], EarlyEviction(cfg)) != KeptAnswers(cfg, map[], EarlyEviction(cfg))
    ensures Allowed(cfg, map[], EarlyEviction(cfg), "ip") == 2 * cfg.burst
  {
    var n, later := cfg.burst, cfg.idle + 1;
    CapIsSane(cfg);
    var first, second := Repeat(Allow("ip", 0), n), Repeat(Allow("ip", later), n);
    var sweep := [Cleanup(later)];
    BurstGranted(cfg, map[], "ip", 0, n);
    var m := Run(cfg, map[], first);
    var m1 := After(cfg, m, Cleanup(later));
    assert m["ip"].lastSeen == 0 && "ip" !in m1;
    assert Sane(cfg, m, later) && Sane(cfg, m1, later);
    BurstGranted(cfg, m1, "ip", later, n);
    LevelLater(cfg, m, "ip", 0, later);
    BurstRefused(cfg, m, "ip", later, n);
    assert (sweep + second)[1..] == second;
    ClockConcat(first, sweep + second, 0);
    RunConcat(cfg, map[], first, sweep + second, "ip");
    KeptConcat(cfg, map[], first, sweep + second);
    assert Answers(cfg, m, sweep + second) == [true] + Answers(cfg, m1, second);
    assert KeptAnswers(cfg, m, sweep + second) == [true] + KeptAnswers(cfg, m, second);
    var i :| 0 <= i < n && !KeptAnswers(cfg, m, second)[i];
    assert Answers(cfg, map[], EarlyEviction(cfg))[n + 1 + i];
    assert !KeptAnswers(cfg, map[], EarlyEviction(cfg))[n + 1 + i];
  }

  /** Eviction changes no answer, on any interleaving of requests and cleanups, if and only
      if a bucket refills completely within the idle threshold. */
  lemma EvictionTheorem(cfg: Config)
    requires cfg.Valid()
    ensures EvictionUnobservable(cfg) <==> cfg.Cap() <= cfg.idle + 1
  {
    if cfg.Cap() <= cfg.idle + 1 {
      forall ops, clock | ClockForward(ops, clock) ensures Answers(cfg, map[], ops) == KeptAnswers(cfg, map[], ops) {
        EvictionUnseen(cfg, map[], map[], ops, clock);
      }
    } else {
      EarlyEvictionShows(cfg);
    }
  }

  /** The rate bound holds over every window, whatever is evicted and recreated inside it, if
      and only if the same condition holds. */
  lemma WindowTheorem(cfg: Config)
    requires cfg.Valid()
    ensures WindowBounded(cfg) <==> cfg.Cap() <= cfg.idle + 1
  {
    if cfg.Cap() <= cfg.idle + 1 {
      forall before: seq<Op>, window: seq<Op>, clock, start, ip
        | ClockForward(before, clock) && LastClock(before, clock) <= start && ClockForward(window, start)
        ensures cfg.cost * Allowed(cfg, Run(cfg, map[], before), window, ip) <=
          cfg.Cap() + (LastClock(window, start) - start)
      {
        Budget(cfg, map[], before, clock, ip);
        var m := Run(cfg, map[], before);
        assert Sane(cfg, m, start);
        Budget(cfg, m, window, start, ip);
        PaidIsProduct(cfg, m, window, ip);
        LevelsInRange(cfg, m, ip, start);
        LevelsInRange(cfg, Run(cfg, m, window), ip, LastClock(window, start));
      }
    } else {
      EarlyEvictionShows(cfg);
      var window := EarlyEviction(cfg);
      assert Run(cfg, map[], []) == map[];
      assert ClockForward([], 0) && ClockForward(window, 0);
      assert cfg.cost * (2 * cfg.burst) == cfg.Cap() + cfg.Cap();
    }
  }

  // ---------- The deployed limits ----------

  const CLEANUP := 180 * SECOND

  /** 10 requests a minute, bursts of 3; and 30 a minute, bursts of 10. */
  const CREATE := Config(6 * SECOND, 3, CLEANUP)
  const JOIN := Config(2 * SECOND, 10, CLEANUP)

  /** Both deployed limiters refill within the threshold (18 s and 20 s against 180 s), so
      neither eviction shows and both bounds hold. */
  lemma DeployedLimits()
    ensures EvictionUnobservable(CREATE) && WindowBounded(CREATE) && CREATE.Cap() == 18 * SECOND
    ensures EvictionUnobservable(JOIN) && WindowBounded(JOIN) && JOIN.Cap() == 20 * SECOND
  {
    EvictionTheorem(CREATE);
    WindowTheorem(CREATE);
    EvictionTheorem(JOIN);
    WindowTheorem(JOIN);
  }
}
