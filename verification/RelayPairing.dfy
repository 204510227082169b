/** What holds in every reachable state of the relay: where a connection can be, whom a
    pair joins, who owns a pending entry, and how long a handler polls. */
module RelayPairing {
  import opened Common
  import opened RelayTable
  import opened RelayProtocol

  lemma TwoPairsAreDisjoint(cfg: Config, s: State, o: Conn, q: Conn)
    requires Inv(cfg, s) && o in s.pairs && q in s.pairs && o != q
    ensures Disjoint(s.pairs[o], s.pairs[q])
  {
    assert PairSound(s, o) && PairSound(s, q);
  }

  /** A connection is waiting under at most one session, or is one end of at most one pair,
      never both. */
  ghost predicate OnePlace(s: State) {
    && (forall a, b | a in s.pending && b in s.pending && a != b :: s.pending[a].conn != s.pending[b].conn)
    && (forall a, o | a in s.pending && o in s.pairs :: !Member(s.pairs[o], s.pending[a].conn))
    && (forall o, q | o in s.pairs && q in s.pairs && o != q :: Disjoint(s.pairs[o], s.pairs[q]))
  }

  /** Both ends of a pair are different connections authenticated for the pair's session,
      under different roles that the validator issued. */
  ghost predicate PairsAuthenticated(cfg: Config, s: State) {
    forall o | o in s.pairs :: var p := s.pairs[o];
      && p.host != p.joiner && p.host in s.ids && p.joiner in s.ids
      && cfg.issued(s.ids[p.host]) && cfg.issued(s.ids[p.joiner])
      && s.ids[p.host].sid == p.sid == s.ids[p.joiner].sid
      && s.ids[p.host].role != s.ids[p.joiner].role
  }

  lemma ConnectionsInOnePlace(cfg: Config, t0: Time, es: seq<Event>)
    requires Valid(cfg, Init(t0), es)
    ensures var s := Exec(cfg, Init(t0), es); OnePlace(s) && PairsAuthenticated(cfg, s)
  {
    InvAlways(cfg, Init(t0), es);
    var s := Exec(cfg, Init(t0), es);
    forall a | a in s.pending ensures EntryOwned(cfg, s, a) { assert EntryOwned(cfg, s, a); }
    forall o | o in s.pairs ensures PairSound(s, o) { assert PairSound(s, o); }
    forall a, o | a in s.pending && o in s.pairs ensures !Member(s.pairs[o], s.pending[a].conn) {
      assert EntryOwned(cfg, s, a) && PairSound(s, o);
    }
    forall a, b | a in s.pending && b in s.pending && a != b ensures s.pending[a].conn != s.pending[b].conn {
      assert EntryOwned(cfg, s, a) && EntryOwned(cfg, s, b);
    }
    forall o, q | o in s.pairs && q in s.pairs && o != q ensures Disjoint(s.pairs[o], s.pairs[q]) {
      TwoPairsAreDisjoint(cfg, s, o, q);
    }
  }

  // ---------- Roles ----------

  ghost predicate HostMeetsJoiner(s: State) {
    forall o | o in s.pairs :: s.pairs[o].host in s.ids && s.pairs[o].joiner in s.ids &&
      s.ids[s.pairs[o].host].role == "host" && s.ids[s.pairs[o].joiner].role == "joiner"
  }

  ghost predicate AlwaysHostMeetsJoiner(cfg: Config) {
    forall t0, es {:trigger Valid(cfg, Init(t0), es)} ::
      Valid(cfg, Init(t0), es) ==> HostMeetsJoiner(Exec(cfg, Init(t0), es))
  }

  /** Two different roles issued for one session are always the host and the joiner. */
  ghost predicate OnlyHostAndJoiner(cfg: Config) {
    forall a: Identity, b: Identity :: cfg.issued(a) && cfg.issued(b) && a.sid == b.sid && a.role != b.role ==>
      {a.role, b.role} == {"host", "joiner"}
  }

  /** The shortest run that pairs: `a` waits, then `b` arrives. */
  function PairingRun(a: Identity, b: Identity): seq<Event> {
    [Accept(0)] + [Authenticate(0, a, Some(a))] + [Register(0)] +
    [Accept(1)] + [Authenticate(1, b, Some(b))] + [Register(1)]
  }

  function PairOf(a: Identity, b: Identity): Pair {
    if b.role == "host" then Pair(b.sid, 1, 0, None) else Pair(b.sid, 0, 1, None)
  }

  lemma PairingRunPairs(cfg: Config, t0: Time, a: Identity, b: Identity)
    requires cfg.issued(a) && cfg.issued(b) && a.sid == b.sid && a.role != b.role
    ensures Valid(cfg, Init(t0), PairingRun(a, b))
    ensures Exec(cfg, Init(t0), PairingRun(a, b)) ==
      State(t0, map[], map[0 := Registered(a), 1 := Matching], map[1 := PairOf(a, b)], map[0 := 1],
            map[0 := a, 1 := b], {}, {})
  {
    var s0 := Init(t0);
    var r := [Accept(0)];
    Extend(cfg, s0, [], Accept(0));
    assert [] + [Accept(0)] == r;
    Extend(cfg, s0, r, Authenticate(0, a, Some(a)));
    r := r + [Authenticate(0, a, Some(a))];
    Extend(cfg, s0, r, Register(0));
    r := r + [Register(0)];
    assert Exec(cfg, s0, r) ==
      State(t0, map[a.sid := Entry(0, a.role, a.sid, t0)], map[0 := Registered(a)], map[], map[], map[0 := a], {}, {});
    Extend(cfg, s0, r, Accept(1));
    r := r + [Accept(1)];
    Extend(cfg, s0, r, Authenticate(1, b, Some(b)));
    r := r + [Authenticate(1, b, Some(b))];
    Extend(cfg, s0, r, Register(1));
    assert map[a.sid := Entry(0, a.role, a.sid, t0)] - {b.sid} == map[];
  }

  /** Every pair joins a host to a joiner, on every run, exactly when the validator issues
      no other two roles for one session. */
  lemma RolesDecidePairs(cfg: Config)
    ensures AlwaysHostMeetsJoiner(cfg) <==> OnlyHostAndJoiner(cfg)
  {
    if OnlyHostAndJoiner(cfg) {
      forall t0, es | Valid(cfg, Init(t0), es) ensures HostMeetsJoiner(Exec(cfg, Init(t0), es)) {
        InvAlways(cfg, Init(t0), es);
        var s := Exec(cfg, Init(t0), es);
        forall o | o in s.pairs
          ensures s.pairs[o].host in s.ids && s.pairs[o].joiner in s.ids
          ensures s.ids[s.pairs[o].host].role == "host" && s.ids[s.pairs[o].joiner].role == "joiner"
        {
          assert PairSound(s, o);
          var roles := {s.ids[s.pairs[o].host].role, s.ids[s.pairs[o].joiner].role};
          assert roles == {"host", "joiner"};
          assert s.ids[s.pairs[o].host].role in roles && s.ids[s.pairs[o].joiner].role in roles && "host" in roles;
        }
      }
    }
    if AlwaysHostMeetsJoiner(cfg) {
      forall a: Identity, b: Identity | cfg.issued(a) && cfg.issued(b) && a.sid == b.sid && a.role != b.role
        ensures {a.role, b.role} == {"host", "joiner"}
      {
        PairingRunPairs(cfg, 0, a, b);
        var s := Exec(cfg, Init(0), PairingRun(a, b));
        assert HostMeetsJoiner(s);
        assert 1 in s.pairs && s.pairs[1] == PairOf(a, b);
      }
    }
  }

  // ---------- Ownership and eviction of pending entries ----------

  /** Every entry in the table belongs to a handler that is still waiting for it, under its
      own session and role, and to a connection the relay has not closed. */
  lemma PendingOwned(cfg: Config, t0: Time, es: seq<Event>, sid: SessionId)
    requires Valid(cfg, Init(t0), es) && sid in Exec(cfg, Init(t0), es).pending
    ensures var s := Exec(cfg, Init(t0), es);
      var e := s.pending[sid];
      && e.sid == sid && At(s, e.conn) && Waiting(s.handlers[e.conn]) && e.conn !in s.closed
      && s.handlers[e.conn].id == Identity(sid, e.role) && cfg.issued(Identity(sid, e.role))
  {
    InvAlways(cfg, Init(t0), es);
    var s := Exec(cfg, Init(t0), es);
    assert EntryOwned(cfg, s, sid);
    assert HandlerSound(cfg, s, s.pending[sid].conn);
  }

  /** The timeout path removes nothing but its own entry, even if that entry was replaced or
      taken since the last poll; and neither a timeout nor a sweep removes an entry that is
      at most `pairTimeout` old. */
  lemma NoEarlyEviction(cfg: Config, t0: Time, es: seq<Event>, e: Event, sid: SessionId)
    requires Valid(cfg, Init(t0), es) && Enabled(cfg, Exec(cfg, Init(t0), es), e) && (e.Expire? || e.Sweep?)
    requires sid in Exec(cfg, Init(t0), es).pending
    ensures var s := Exec(cfg, Init(t0), es);
      var t := Apply(cfg, s, e);
      if sid in t.pending then t.pending[sid] == s.pending[sid]
      else cfg.pairTimeout < s.now - s.pending[sid].createdAt && (e.Expire? ==> s.pending[sid].conn == e.c)
  {
    InvAlways(cfg, Init(t0), es);
    var s := Exec(cfg, Init(t0), es);
    assert EntryOwned(cfg, s, sid);
    if e.Expire? { assert HandlerSound(cfg, s, e.c); }
  }

  // ---------- From the registration on ----------

  predicate RegistersFor(s: State, e: Event, sid: SessionId) {
    e.Register? && At(s, e.c) && s.handlers[e.c].Authenticated? && s.handlers[e.c].id.sid == sid
  }

  /** Nobody else registers for session `sid` along the run. */
  ghost predicate Undisturbed(cfg: Config, s: State, es: seq<Event>, sid: SessionId)
    requires Valid(cfg, s, es)
    decreases |es|
  {
    es != [] ==> !RegistersFor(s, es[0], sid) && Undisturbed(cfg, Apply(cfg, s, es[0]), es[1..], sid)
  }

  /** Connection `c` is waiting in the table under `sid`, stamped with `since`. */
  predicate WaitsSince(s: State, c: Conn, sid: SessionId, since: Time) {
    Holds(s.pending, c, sid) && s.pending[sid].createdAt == since
  }

  lemma EntryStep(cfg: Config, s: State, e: Event, c: Conn, sid: SessionId, since: Time)
    requires Inv(cfg, s) && Enabled(cfg, s, e) && !RegistersFor(s, e, sid)
    ensures var t := Apply(cfg, s, e);
      && s.now <= t.now
      && (sid !in s.pending ==> sid !in t.pending)
      && (WaitsSince(s, c, sid, since) ==> sid !in t.pending || WaitsSince(t, c, sid, since))
      && (WaitsSince(s, c, sid, since) && s.now <= since + cfg.pairTimeout ==> WaitsSince(t, c, sid, since))
  {
    if sid in s.pending { assert EntryOwned(cfg, s, sid); }
    if e.Expire? { assert HandlerSound(cfg, s, e.c); }
  }

  lemma {:induction false} EntryStays(cfg: Config, s: State, es: seq<Event>, c: Conn, sid: SessionId, since: Time)
    requires Inv(cfg, s) && Valid(cfg, s, es) && Undisturbed(cfg, s, es, sid)
    ensures var t := Exec(cfg, s, es);
      && s.now <= t.now
      && (sid !in s.pending ==> sid !in t.pending)
      && (WaitsSince(s, c, sid, since) ==> sid !in t.pending || WaitsSince(t, c, sid, since))
      && (WaitsSince(s, c, sid, since) && t.now <= since + cfg.pairTimeout ==> WaitsSince(t, c, sid, since))
    decreases |es|
  {
    if es != [] {
      EntryStep(cfg, s, es[0], c, sid, since);
      InvKept(cfg, s, es[0]);
      EntryStays(cfg, Apply(cfg, s, es[0]), es[1..], c, sid, since);
    }
  }

  /** A connection that has just registered and has to wait is kept for the whole pairTimeout:
      on every run in which nobody else registers for its session, it is in the table and not
      closed while at most that time has passed since its registration; and a sweep that comes
      later finds or leaves the session without an entry. */
  lemma RegisteredIsKept(cfg: Config, s: State, c: Conn, es: seq<Event>)
    requires Inv(cfg, s) && Enabled(cfg, s, Register(c)) && !Complements(s.pending, s.handlers[c].id)
    requires Valid(cfg, Apply(cfg, s, Register(c)), es)
    requires Undisturbed(cfg, Apply(cfg, s, Register(c)), es, s.handlers[c].id.sid)
    ensures var id, t := s.handlers[c].id, Exec(cfg, Apply(cfg, s, Register(c)), es);
      && (t.now - s.now <= cfg.pairTimeout ==>
            Holds(t.pending, c, id.sid) && t.pending[id.sid].role == id.role && c !in t.closed)
      && (cfg.pairTimeout < t.now - s.now ==> id.sid !in Apply(cfg, t, Sweep).pending)
      && (t.now - s.now <= cfg.pairTimeout ==> Holds(Apply(cfg, t, Sweep).pending, c, id.sid))
      && (cfg.pairTimeout < t.now - s.now && Holds(t.pending, c, id.sid) ==> c in Apply(cfg, t, Sweep).closed)
  {
    var u, sid := Apply(cfg, s, Register(c)), s.handlers[c].id.sid;
    InvKept(cfg, s, Register(c));
    assert HandlerSound(cfg, s, c);
    assert u.ids[c] == s.handlers[c].id;
    EntryStays(cfg, u, es, c, sid, s.now);
    InvAlways(cfg, u, es);
    IdsStay(cfg, u, es, c);
    var t := Exec(cfg, u, es);
    if sid in t.pending {
      assert EntryOwned(cfg, t, sid);
      assert HandlerSound(cfg, t, t.pending[sid].conn);
    }
  }

  // ---------- Who is authenticated ----------

  lemma {:induction false} IdsStay(cfg: Config, s: State, es: seq<Event>, c: Conn)
    requires Valid(cfg, s, es) && At(s, c) && !s.handlers[c].Authenticating?
    ensures var t := Exec(cfg, s, es);
      && At(t, c) && !t.handlers[c].Authenticating?
      && (c in t.ids <==> c in s.ids) && (c in s.ids ==> t.ids[c] == s.ids[c])
    decreases |es|
  {
    if es != [] {
      PhaseNeverRestarts(cfg, s, es[0], c);
      IdsStay(cfg, Apply(cfg, s, es[0]), es[1..], c);
    }
  }

  lemma PhaseNeverRestarts(cfg: Config, s: State, e: Event, c: Conn)
    requires Enabled(cfg, s, e) && At(s, c) && !s.handlers[c].Authenticating?
    ensures var t := Apply(cfg, s, e);
      && At(t, c) && !t.handlers[c].Authenticating?
      && (c in t.ids <==> c in s.ids) && (c in s.ids ==> t.ids[c] == s.ids[c])
  {
    if Actor(e) != Some(c) { OthersStay(cfg, s, e, c); }
  }

  lemma IdsOnlyByAuthenticate(cfg: Config, s: State, e: Event, c: Conn)
    requires Enabled(cfg, s, e)
    ensures var t := Apply(cfg, s, e);
      if e.Authenticate? && e.c == c then
        At(t, c) && !t.handlers[c].Authenticating? &&
        if e.validated == Some(e.claimed) then c in t.ids && t.ids[c] == e.claimed else (c in t.ids <==> c in s.ids)
      else c in t.ids <==> c in s.ids
  {
  }

  /** A connection is known to the relay exactly from the moment at which its token has been
      validated as the very session and role that it claims. */
  lemma {:induction false} AuthenticatedExactly(cfg: Config, s: State, es: seq<Event>, c: Conn, id: Identity)
    requires Valid(cfg, s, es) && c !in s.ids
    ensures var t := Exec(cfg, s, es);
      c in t.ids && t.ids[c] == id <==> Authenticate(c, id, Some(id)) in es
    decreases |es|
  {
    if es != [] {
      var t := Apply(cfg, s, es[0]);
      IdsOnlyByAuthenticate(cfg, s, es[0], c);
      assert es == [es[0]] + es[1..];
      if es[0].Authenticate? && es[0].c == c {
        IdsStay(cfg, t, es[1..], c);
        NoSecondAuthentication(cfg, t, es[1..], c);
      } else {
        AuthenticatedExactly(cfg, t, es[1..], c, id);
      }
    }
  }

  lemma {:induction false} NoSecondAuthentication(cfg: Config, s: State, es: seq<Event>, c: Conn)
    requires Valid(cfg, s, es) && At(s, c) && !s.handlers[c].Authenticating?
    ensures forall i | 0 <= i < |es| :: !(es[i].Authenticate? && es[i].c == c)
    decreases |es|
  {
    if es != [] {
      PhaseNeverRestarts(cfg, s, es[0], c);
      NoSecondAuthentication(cfg, Apply(cfg, s, es[0]), es[1..], c);
    }
  }

  /** A connection whose token was refused, or was made for another session or role than it
      claims, is on no continuation waiting or paired. */
  lemma MismatchIsRefused(
      cfg: Config, t0: Time, es: seq<Event>, c: Conn, claimed: Identity, validated: Option<Identity>)
    requires Valid(cfg, Init(t0), es) && Authenticate(c, claimed, validated) in es && validated != Some(claimed)
    ensures var s := Exec(cfg, Init(t0), es);
      && c !in s.ids
      && (forall sid | sid in s.pending :: s.pending[sid].conn != c)
      && (forall o | o in s.pairs :: !Member(s.pairs[o], c))
  {
    var s := Exec(cfg, Init(t0), es);
    InvAlways(cfg, Init(t0), es);
    RefusedStaysOut(cfg, Init(t0), es, c, claimed, validated);
    forall sid | sid in s.pending ensures s.pending[sid].conn != c {
      assert EntryOwned(cfg, s, sid) && HandlerSound(cfg, s, s.pending[sid].conn);
    }
    forall o | o in s.pairs ensures !Member(s.pairs[o], c) { assert PairSound(s, o); }
  }

  lemma {:induction false} RefusedStaysOut(
      cfg: Config, s: State, es: seq<Event>, c: Conn, claimed: Identity, validated: Option<Identity>)
    requires Valid(cfg, s, es) && c !in s.ids
    requires Authenticate(c, claimed, validated) in es && validated != Some(claimed)
    ensures c !in Exec(cfg, s, es).ids
    decreases |es|
  {
    var t := Apply(cfg, s, es[0]);
    IdsOnlyByAuthenticate(cfg, s, es[0], c);
    if es[0].Authenticate? && es[0].c == c {
      NoSecondAuthentication(cfg, t, es[1..], c);
      IdsStay(cfg, t, es[1..], c);
    } else {
      RefusedStaysOut(cfg, t, es[1..], c, claimed, validated);
    }
  }

  // ---------- The polling loop is bounded ----------

  function PollsIn(es: seq<Event>, c: Conn): nat {
    if es == [] then 0 else (if es[0] == Poll(c) then 1 else 0) + PollsIn(es[1..], c)
  }

  function PollLimit(cfg: Config): int { cfg.pairTimeout / POLL_STEP + 2 }

  /** How many more times a handler can still poll. */
  function PollsLeft(cfg: Config, s: State, c: Conn): int {
    if c !in s.handlers then PollLimit(cfg) else
    match s.handlers[c]
    case Authenticating => PollLimit(cfg)
    case Authenticated(_) => PollLimit(cfg)
    case Registered(_) => PollLimit(cfg)
    case Polling(_, _, n) => PollLimit(cfg) - n
    case Polled(_, _, n) => PollLimit(cfg) - n - 1
    case Sleeping(_, _, n, _) => PollLimit(cfg) - n - 1
    case _ => 0
  }

  lemma {:induction false} PollsLeftBounds(cfg: Config, s: State, es: seq<Event>, c: Conn)
    requires 0 <= cfg.pairTimeout && Inv(cfg, s) && Valid(cfg, s, es)
    ensures PollsIn(es, c) <= PollsLeft(cfg, s, c)
    decreases |es|
  {
    if c in s.handlers { assert HandlerSound(cfg, s, c); }
    if es != [] {
      InvKept(cfg, s, es[0]);
      PollsLeftBounds(cfg, Apply(cfg, s, es[0]), es[1..], c);
      PollsLeftDrops(cfg, s, es[0], c);
    }
  }

  lemma PollsLeftDrops(cfg: Config, s: State, e: Event, c: Conn)
    requires 0 <= cfg.pairTimeout && Inv(cfg, s) && Enabled(cfg, s, e)
    ensures PollsLeft(cfg, Apply(cfg, s, e), c) + (if e == Poll(c) then 1 else 0) <= PollsLeft(cfg, s, c)
  {
    if Actor(e) != Some(c) {
      OthersStay(cfg, s, e, c);
    } else if PollingStep(e) {
      assert HandlerSound(cfg, s, c);
      PollStepDrops(cfg, s, e, c);
    }
  }

  lemma PollStepDrops(cfg: Config, s: State, e: Event, c: Conn)
    requires 0 <= cfg.pairTimeout && Enabled(cfg, s, e)
    requires PollingStep(e) && e.c == c && OnTime(cfg, s.now, s.handlers[c])
    ensures PollsLeft(cfg, Apply(cfg, s, e), c) + (if e == Poll(c) then 1 else 0) <= PollsLeft(cfg, s, c)
  {
  }

  /** On every run a handler polls at most pairTimeout / 100 ms + 2 times. */
  lemma PollingIsBounded(cfg: Config, t0: Time, es: seq<Event>, c: Conn)
    requires 0 <= cfg.pairTimeout && Valid(cfg, Init(t0), es)
    ensures PollsIn(es, c) <= cfg.pairTimeout / POLL_STEP + 2
  {
    PollsLeftBounds(cfg, Init(t0), es, c);
  }
}
