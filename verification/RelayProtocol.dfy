/** The relay as a transition system: any number of connection handlers and one sweeper,
    interleaved at the granularity of lock regions, clock readings and socket closes
    (internal/server/relay/relay.go). */
module RelayProtocol {
  import opened Common
  import opened RelayTable

  /** `issued` says which identities the token validator can return. With `handsOver`
      false this is the code as written: every handler closes its connection when it
      returns. With `handsOver` true a waiting handler whose entry is gone returns without
      closing, leaving the connection to whoever removed the entry. */
  datatype Config = Config(issued: Identity -> bool, pairTimeout: Time, maxDuration: Time, handsOver: bool)

  /** One direction of io.Copy: running, returned, or returned with its destination closed. */
  datatype Copy = Running | Returned | Finished

  datatype Direction = HostToJoiner | JoinerToHost

  /** Where a handler is. `polls` counts the completed sleeps of its polling loop. */
  datatype Phase =
    | Authenticating
    | Authenticated(id: Identity)
    | Registered(id: Identity)
    | Polling(id: Identity, deadline: Time, polls: nat)
    | Polled(id: Identity, deadline: Time, polls: nat)
    | Sleeping(id: Identity, deadline: Time, polls: nat, until: Time)
    | Expiring(id: Identity, deadline: Time, polls: nat)
    | Matching
    | Copying(toJoiner: Copy, toHost: Copy)
    | Closing
    | Done

  datatype Pair = Pair(sid: SessionId, host: Conn, joiner: Conn, deadline: Option<Time>)

  /** `pairs` is keyed by the handler that runs the copy loops (the second arriver), and
      `takenBy` leads from a first arriver to the handler that took it out of the table.
      `ids` records authenticated identities, `closed` the connections the relay has
      closed, and `ended` those whose remote side has gone away. */
  datatype State = State(
    now: Time,
    pending: Pending,
    handlers: map<Conn, Phase>,
    pairs: map<Conn, Pair>,
    takenBy: map<Conn, Conn>,
    ids: map<Conn, Identity>,
    closed: set<Conn>,
    ended: set<Conn>)

  datatype Event =
    | Accept(c: Conn)
    | Authenticate(c: Conn, claimed: Identity, validated: Option<Identity>)
    | AuthLost(c: Conn)
    | Register(c: Conn)
    | BeginWait(c: Conn)
    | Poll(c: Conn)
    | CheckDeadline(c: Conn)
    | Wake(c: Conn)
    | Expire(c: Conn)
    | SetDeadlines(c: Conn)
    | CopyReturns(c: Conn, dir: Direction)
    | CloseDest(c: Conn, dir: Direction)
    | PairOver(c: Conn)
    | CloseOwn(c: Conn)
    | PeerEnds(c: Conn)
    | Sweep
    | Tick(d: Time)

  function Init(t0: Time): State {
    State(t0, map[], map[], map[], map[], map[], {}, {})
  }

  function Source(p: Pair, dir: Direction): Conn { if dir.HostToJoiner? then p.host else p.joiner }
  function Dest(p: Pair, dir: Direction): Conn { if dir.HostToJoiner? then p.joiner else p.host }
  function Other(p: Pair, c: Conn): Conn { if c == p.host then p.joiner else p.host }
  predicate Member(p: Pair, c: Conn) { c == p.host || c == p.joiner }
  function CopyOf(ph: Phase, dir: Direction): Copy
    requires ph.Copying?
  {
    if dir.HostToJoiner? then ph.toJoiner else ph.toHost
  }
  function WithCopy(ph: Phase, dir: Direction, k: Copy): Phase
    requires ph.Copying?
  {
    if dir.HostToJoiner? then ph.(toJoiner := k) else ph.(toHost := k)
  }

  /** A side has ended or the pair's maximum duration has passed. */
  predicate Over(s: State, p: Pair) {
    p.host in s.ended || p.joiner in s.ended || (p.deadline.Some? && p.deadline.value <= s.now)
  }

  predicate At(s: State, c: Conn) { c in s.handlers }

  predicate Enabled(cfg: Config, s: State, e: Event) {
    match e
    case Accept(c) => c !in s.handlers
    case Authenticate(c, claimed, validated) =>
      At(s, c) && s.handlers[c].Authenticating? && (validated.Some? ==> cfg.issued(validated.value))
    case AuthLost(c) => At(s, c) && s.handlers[c].Authenticating?
    case Register(c) => At(s, c) && s.handlers[c].Authenticated?
    case BeginWait(c) => At(s, c) && s.handlers[c].Registered?
    case Poll(c) => At(s, c) && s.handlers[c].Polling?
    case CheckDeadline(c) => At(s, c) && s.handlers[c].Polled?
    case Wake(c) => At(s, c) && s.handlers[c].Sleeping? && s.handlers[c].until <= s.now
    case Expire(c) => At(s, c) && s.handlers[c].Expiring?
    case SetDeadlines(c) => At(s, c) && s.handlers[c].Matching? && c in s.pairs
    case CopyReturns(c, dir) =>
      At(s, c) && s.handlers[c].Copying? && c in s.pairs && CopyOf(s.handlers[c], dir).Running? &&
      (Over(s, s.pairs[c]) || s.pairs[c].host in s.closed || s.pairs[c].joiner in s.closed)
    case CloseDest(c, dir) =>
      At(s, c) && s.handlers[c].Copying? && c in s.pairs && CopyOf(s.handlers[c], dir).Returned?
    case PairOver(c) => At(s, c) && s.handlers[c] == Copying(Finished, Finished)
    case CloseOwn(c) => At(s, c) && s.handlers[c].Closing?
    case PeerEnds(c) => At(s, c)
    case Sweep => true
    case Tick(d) => 0 <= d
  }

  function Move(s: State, c: Conn, ph: Phase): State { s.(handlers := s.handlers[c := ph]) }

  /** Where a waiting handler goes when it finds that its entry is gone. */
  function Leave(cfg: Config): Phase { if cfg.handsOver then Done else Closing }

  function Apply(cfg: Config, s: State, e: Event): State
    requires Enabled(cfg, s, e)
  {
    match e
    case Accept(c) => Move(s, c, Authenticating)
    case Authenticate(c, claimed, validated) =>
      if validated == Some(claimed) then Move(s, c, Authenticated(claimed)).(ids := s.ids[c := claimed])
      else Move(s, c, Closing)
    case AuthLost(c) => Move(s, c, Closing)
    case Register(c) =>
      var id := s.handlers[c].id;
      var out := Matched(s.pending, c, id);
      var s1 := s.(pending := AfterRegister(s.pending, c, id, s.now), closed := s.closed + Displaced(s.pending, id));
      if out.Waits? then Move(s1, c, Registered(id))
      else
        Move(s1, c, Matching).(pairs := s.pairs[c := Pair(id.sid, out.host, out.joiner, None)],
                               takenBy := s.takenBy[s.pending[id.sid].conn := c])
    case BeginWait(c) => Move(s, c, Polling(s.handlers[c].id, s.now + cfg.pairTimeout, 0))
    case Poll(c) =>
      var ph := s.handlers[c];
      if Holds(s.pending, c, ph.id.sid) then Move(s, c, Polled(ph.id, ph.deadline, ph.polls))
      else Move(s, c, Leave(cfg))
    case CheckDeadline(c) =>
      var ph := s.handlers[c];
      if ph.deadline < s.now then Move(s, c, Expiring(ph.id, ph.deadline, ph.polls))
      else Move(s, c, Sleeping(ph.id, ph.deadline, ph.polls, s.now + POLL_STEP))
    case Wake(c) =>
      var ph := s.handlers[c];
      Move(s, c, Polling(ph.id, ph.deadline, ph.polls + 1))
    case Expire(c) =>
      var ph := s.handlers[c];
      if Holds(s.pending, c, ph.id.sid) then
        Move(s, c, Closing).(pending := WithoutOwn(s.pending, c, ph.id.sid))
      else Move(s, c, Leave(cfg))
    case SetDeadlines(c) =>
      Move(s, c, Copying(Running, Running)).(
        pairs := s.pairs[c := s.pairs[c].(deadline := Some(s.now + cfg.maxDuration))])
    case CopyReturns(c, dir) => Move(s, c, WithCopy(s.handlers[c], dir, Returned))
    case CloseDest(c, dir) =>
      Move(s, c, WithCopy(s.handlers[c], dir, Finished)).(closed := s.closed + {Dest(s.pairs[c], dir)})
    case PairOver(c) => Move(s, c, Closing)
    case CloseOwn(c) => Move(s, c, Done).(closed := s.closed + {c})
    case PeerEnds(c) => s.(ended := s.ended + {c})
    case Sweep =>
      var threshold := s.now - cfg.pairTimeout;
      s.(pending := Swept(s.pending, threshold), closed := s.closed + SweptConns(s.pending, threshold))
    case Tick(d) => s.(now := s.now + d)
  }

  ghost predicate Valid(cfg: Config, s: State, es: seq<Event>)
    decreases |es|
  {
    es != [] ==> Enabled(cfg, s, es[0]) && Valid(cfg, Apply(cfg, s, es[0]), es[1..])
  }

  ghost function Exec(cfg: Config, s: State, es: seq<Event>): State
    requires Valid(cfg, s, es)
    decreases |es|
  {
    if es == [] then s else Exec(cfg, Apply(cfg, s, es[0]), es[1..])
  }

  // ---------- The invariant of every reachable state ----------

  predicate Waiting(ph: Phase) {
    ph.Registered? || ph.Polling? || ph.Polled? || ph.Sleeping? || ph.Expiring?
  }

  /** Every pending entry belongs to a handler that is still waiting for that session in
      that role, and to a connection the relay has not closed. */
  ghost predicate EntryOwned(cfg: Config, s: State, sid: SessionId)
    requires sid in s.pending
  {
    var e := s.pending[sid];
    && e.sid == sid
    && e.conn in s.handlers
    && Waiting(s.handlers[e.conn])
    && s.handlers[e.conn].id == Identity(sid, e.role)
    && e.conn !in s.closed && e.conn !in s.takenBy
    && e.createdAt <= s.now
    && (s.handlers[e.conn].Registered? || e.createdAt + cfg.pairTimeout <= s.handlers[e.conn].deadline)
  }

  ghost predicate PairSound(s: State, o: Conn)
    requires o in s.pairs
  {
    var p := s.pairs[o];
    var first := Other(p, o);
    && p.host != p.joiner && Member(p, o)
    && p.host in s.ids && p.joiner in s.ids
    && s.ids[p.host].sid == p.sid && s.ids[p.joiner].sid == p.sid
    && s.ids[p.host].role != s.ids[p.joiner].role
    && s.ids[p.joiner].role != "host"
    && p.host in s.handlers && p.joiner in s.handlers
    && (s.handlers[o].Matching? || s.handlers[o].Copying? || s.handlers[o].Closing? || s.handlers[o].Done?)
    && (Waiting(s.handlers[first]) || s.handlers[first].Closing? || s.handlers[first].Done?)
    && first in s.takenBy && s.takenBy[first] == o && o !in s.takenBy && first !in s.pairs
  }

  predicate Disjoint(p: Pair, q: Pair) {
    p.host != q.host && p.host != q.joiner && p.joiner != q.host && p.joiner != q.joiner
  }

  ghost predicate HandlerSound(cfg: Config, s: State, c: Conn)
    requires c in s.handlers
  {
    var ph := s.handlers[c];
    && (Waiting(ph) || ph.Authenticated? ==> c in s.ids && s.ids[c] == ph.id)
    && (ph.Matching? || ph.Copying? ==> c in s.pairs)
    && (ph.Authenticating? || ph.Authenticated? ==> c !in s.closed)
    && (Waiting(ph) ==> Holds(s.pending, c, ph.id.sid) || c in s.closed || c in s.takenBy)
    && (c in s.takenBy ==> s.takenBy[c] in s.pairs && Other(s.pairs[s.takenBy[c]], s.takenBy[c]) == c)
    && OnTime(cfg, s.now, ph)
  }

  /** The clock facts that bound the polling loop. */
  predicate OnTime(cfg: Config, now: Time, ph: Phase) {
    match ph
    case Polling(_, d, n) =>
      d - cfg.pairTimeout + n * POLL_STEP <= now && (n == 0 || (n - 1) * POLL_STEP <= cfg.pairTimeout)
    case Polled(_, d, n) =>
      d - cfg.pairTimeout + n * POLL_STEP <= now && (n == 0 || (n - 1) * POLL_STEP <= cfg.pairTimeout)
    case Sleeping(_, d, n, until) =>
      d - cfg.pairTimeout + (n + 1) * POLL_STEP <= until <= now + POLL_STEP && n * POLL_STEP <= cfg.pairTimeout
    case Expiring(_, d, n) => d < now && (n == 0 || (n - 1) * POLL_STEP <= cfg.pairTimeout)
    case _ => true
  }

  ghost predicate Inv(cfg: Config, s: State) {
    && (forall sid {:trigger EntryOwned(cfg, s, sid)} | sid in s.pending :: EntryOwned(cfg, s, sid))
    && (forall o {:trigger PairSound(s, o)} | o in s.pairs :: PairSound(s, o))
    && (forall c {:trigger HandlerSound(cfg, s, c)} | c in s.handlers :: HandlerSound(cfg, s, c))
    && (forall c | c in s.ids :: cfg.issued(s.ids[c]))
    && s.closed <= s.handlers.Keys && s.takenBy.Keys <= s.handlers.Keys
  }

  // ---------- Primitive state changes that keep the invariant ----------

  /** Moves of one handler that touch nothing but its own phase. */
  predicate Quiet(cfg: Config, s: State, c: Conn, next: Phase) {
    At(s, c) &&
    var ph := s.handlers[c];
    || (ph.Authenticating? && next.Closing?)
    || (Waiting(ph) && Waiting(next) && !next.Registered? && next.id == ph.id && OnTime(cfg, s.now, next) &&
        next.deadline == if ph.Registered? then s.now + cfg.pairTimeout else ph.deadline)
    || (Waiting(ph) && !Holds(s.pending, c, ph.id.sid) && (next.Closing? || next.Done?))
    || ((ph.Matching? || ph.Copying?) && (next.Copying? || next.Closing?))
    || (ph.Closing? && next.Done?)
  }

  lemma EntryAfterMove(cfg: Config, s: State, c: Conn, next: Phase, sid: SessionId)
    requires sid in s.pending && EntryOwned(cfg, s, sid) && Quiet(cfg, s, c, next)
    ensures EntryOwned(cfg, Move(s, c, next), sid)
  {
  }

  lemma PairAfterMove(cfg: Config, s: State, c: Conn, next: Phase, o: Conn)
    requires o in s.pairs && PairSound(s, o) && Quiet(cfg, s, c, next)
    ensures PairSound(Move(s, c, next), o)
  {
  }

  lemma MoveKeeps(cfg: Config, s: State, c: Conn, next: Phase)
    requires Inv(cfg, s) && Quiet(cfg, s, c, next)
    ensures Inv(cfg, Move(s, c, next))
  {
    var t := Move(s, c, next);
    forall sid | sid in t.pending ensures EntryOwned(cfg, t, sid) { EntryAfterMove(cfg, s, c, next, sid); }
    forall o | o in t.pairs ensures PairSound(t, o) { PairAfterMove(cfg, s, c, next, o); }
    forall d | d in t.handlers ensures HandlerSound(cfg, t, d) {
      assert HandlerSound(cfg, s, d);
    }
  }

  lemma CloseKeeps(cfg: Config, s: State, c: Conn)
    requires Inv(cfg, s) && At(s, c)
    requires !s.handlers[c].Authenticating? && !s.handlers[c].Authenticated?
    requires Waiting(s.handlers[c]) ==> !Holds(s.pending, c, s.handlers[c].id.sid)
    ensures Inv(cfg, s.(closed := s.closed + {c}))
  {
    var t := s.(closed := s.closed + {c});
    forall sid | sid in t.pending ensures EntryOwned(cfg, t, sid) { assert EntryOwned(cfg, s, sid); }
    forall o | o in t.pairs ensures PairSound(t, o) { assert PairSound(s, o); }
    forall d | d in t.handlers ensures HandlerSound(cfg, t, d) {
      assert HandlerSound(cfg, s, d);
    }
  }

  lemma PairAfterDeadline(s: State, c: Conn, d: Option<Time>, o: Conn)
    requires c in s.pairs && o in s.pairs && PairSound(s, o)
    ensures PairSound(s.(pairs := s.pairs[c := s.pairs[c].(deadline := d)]), o)
  {
  }

  lemma DeadlineKeeps(cfg: Config, s: State, c: Conn, d: Option<Time>)
    requires Inv(cfg, s) && c in s.pairs
    ensures Inv(cfg, s.(pairs := s.pairs[c := s.pairs[c].(deadline := d)]))
  {
    var t := s.(pairs := s.pairs[c := s.pairs[c].(deadline := d)]);
    forall sid | sid in t.pending ensures EntryOwned(cfg, t, sid) { assert EntryOwned(cfg, s, sid); }
    forall o | o in t.pairs ensures PairSound(t, o) { PairAfterDeadline(s, c, d, o); }
    forall e | e in t.handlers ensures HandlerSound(cfg, t, e) { assert HandlerSound(cfg, s, e); }
  }

  lemma AcceptKeeps(cfg: Config, s: State, c: Conn)
    requires Inv(cfg, s) && c !in s.handlers
    ensures Inv(cfg, Move(s, c, Authenticating))
  {
    var t := Move(s, c, Authenticating);
    forall sid | sid in t.pending ensures EntryOwned(cfg, t, sid) { assert EntryOwned(cfg, s, sid); }
    forall o | o in t.pairs ensures PairSound(t, o) { assert PairSound(s, o); }
    forall d | d in t.handlers ensures HandlerSound(cfg, t, d) {
      assert d != c ==> HandlerSound(cfg, s, d);
    }
  }

  lemma AuthenticateKeeps(cfg: Config, s: State, c: Conn, id: Identity)
    requires Inv(cfg, s) && At(s, c) && s.handlers[c].Authenticating? && cfg.issued(id)
    ensures Inv(cfg, Move(s, c, Authenticated(id)).(ids := s.ids[c := id]))
  {
    var t := Move(s, c, Authenticated(id)).(ids := s.ids[c := id]);
    forall sid | sid in t.pending ensures EntryOwned(cfg, t, sid) { assert EntryOwned(cfg, s, sid); }
    forall o | o in t.pairs ensures PairSound(t, o) { assert PairSound(s, o); }
    forall d | d in t.handlers ensures HandlerSound(cfg, t, d) {
      assert HandlerSound(cfg, s, d);
    }
  }

  /** The two outcomes of the registration region, as plain state updates. */
  function EntersTable(s: State, c: Conn, id: Identity): State {
    Move(s, c, Registered(id)).(pending := s.pending[id.sid := Entry(c, id.role, id.sid, s.now)],
                                closed := s.closed + Displaced(s.pending, id))
  }

  function EntersPair(s: State, c: Conn, id: Identity, p: Pair): State {
    Move(s, c, Matching).(
      pending := s.pending - {id.sid}, pairs := s.pairs[c := p], takenBy := s.takenBy[Other(p, c) := c])
  }

  lemma NewcomerIsFree(cfg: Config, s: State, c: Conn)
    requires Inv(cfg, s) && At(s, c) && (s.handlers[c].Authenticating? || s.handlers[c].Authenticated?)
    ensures c !in s.takenBy && c !in s.pairs
  {
    assert HandlerSound(cfg, s, c);
    assert c in s.takenBy ==> PairSound(s, s.takenBy[c]);
    assert c in s.pairs ==> PairSound(s, c);
  }

  lemma EntersTableKeeps(cfg: Config, s: State, c: Conn, id: Identity)
    requires Inv(cfg, s) && At(s, c) && s.handlers[c] == Authenticated(id) && !Complements(s.pending, id)
    ensures Inv(cfg, EntersTable(s, c, id))
  {
    var t := EntersTable(s, c, id);
    assert HandlerSound(cfg, s, c);
    NewcomerIsFree(cfg, s, c);
    if id.sid in s.pending { assert EntryOwned(cfg, s, id.sid); }
    forall sid | sid in t.pending ensures EntryOwned(cfg, t, sid) {
      if sid != id.sid { assert EntryOwned(cfg, s, sid); }
    }
    forall o | o in t.pairs ensures PairSound(t, o) { PairAfterEntersTable(s, c, id, o); }
    forall d | d in t.handlers ensures HandlerSound(cfg, t, d) { HandlerAfterEntersTable(cfg, s, c, id, d); }
  }

  lemma HandlerAfterEntersTable(cfg: Config, s: State, c: Conn, id: Identity, d: Conn)
    requires At(s, c) && s.handlers[c] == Authenticated(id) && !Complements(s.pending, id)
    requires HandlerSound(cfg, s, c) && At(s, d) && HandlerSound(cfg, s, d)
    requires id.sid in s.pending ==> EntryOwned(cfg, s, id.sid)
    ensures HandlerSound(cfg, EntersTable(s, c, id), d)
  {
  }

  lemma PairAfterEntersTable(s: State, c: Conn, id: Identity, o: Conn)
    requires At(s, c) && s.handlers[c] == Authenticated(id) && o in s.pairs && PairSound(s, o)
    ensures PairSound(EntersTable(s, c, id), o)
  {
  }

  /** The pair formed when the newcomer `c` meets a complementary entry. */
  function NewPair(s: State, c: Conn, id: Identity): Pair
    requires Complements(s.pending, id)
  {
    var m := Matched(s.pending, c, id);
    Pair(id.sid, m.host, m.joiner, None)
  }

  /** What is known when a newcomer meets a complementary entry. */
  ghost predicate Meets(cfg: Config, s: State, c: Conn, id: Identity) {
    && At(s, c) && s.handlers[c] == Authenticated(id) && Complements(s.pending, id)
    && HandlerSound(cfg, s, c) && EntryOwned(cfg, s, id.sid) && HandlerSound(cfg, s, s.pending[id.sid].conn)
  }

  lemma PairAfterEntersPair(cfg: Config, s: State, c: Conn, id: Identity, o: Conn)
    requires Meets(cfg, s, c, id) && o in s.pairs && PairSound(s, o)
    ensures o != c && o != s.pending[id.sid].conn
    ensures PairSound(EntersPair(s, c, id, NewPair(s, c, id)), o)
  {
  }

  lemma NewPairSound(cfg: Config, s: State, c: Conn, id: Identity)
    requires Meets(cfg, s, c, id) && c !in s.takenBy && s.pending[id.sid].conn !in s.pairs
    ensures PairSound(EntersPair(s, c, id, NewPair(s, c, id)), c)
  {
  }

  lemma HandlerAfterEntersPair(cfg: Config, s: State, c: Conn, id: Identity, d: Conn)
    requires Meets(cfg, s, c, id) && c !in s.pairs && At(s, d) && HandlerSound(cfg, s, d)
    ensures HandlerSound(cfg, EntersPair(s, c, id, NewPair(s, c, id)), d)
  {
  }

  lemma EntersPairKeeps(cfg: Config, s: State, c: Conn, id: Identity)
    requires Inv(cfg, s) && At(s, c) && s.handlers[c] == Authenticated(id) && Complements(s.pending, id)
    ensures Inv(cfg, EntersPair(s, c, id, NewPair(s, c, id)))
  {
    var t := EntersPair(s, c, id, NewPair(s, c, id));
    assert HandlerSound(cfg, s, c);
    assert EntryOwned(cfg, s, id.sid);
    assert HandlerSound(cfg, s, s.pending[id.sid].conn);
    forall o | o in s.pairs ensures o != c && o != s.pending[id.sid].conn && PairSound(t, o) {
      PairAfterEntersPair(cfg, s, c, id, o);
    }
    NewcomerIsFree(cfg, s, c);
    NewPairSound(cfg, s, c, id);
    forall sid | sid in t.pending ensures EntryOwned(cfg, t, sid) { assert EntryOwned(cfg, s, sid); }
    forall d | d in t.handlers ensures HandlerSound(cfg, t, d) { HandlerAfterEntersPair(cfg, s, c, id, d); }
  }

  lemma RegisterKeeps(cfg: Config, s: State, c: Conn)
    requires Inv(cfg, s) && Enabled(cfg, s, Register(c))
    ensures Inv(cfg, Apply(cfg, s, Register(c)))
  {
    var id := s.handlers[c].id;
    if Complements(s.pending, id) {
      EntersPairKeeps(cfg, s, c, id);
      assert s.closed + Displaced(s.pending, id) == s.closed;
    } else {
      EntersTableKeeps(cfg, s, c, id);
    }
  }

  lemma ExpireOwnKeeps(cfg: Config, s: State, c: Conn)
    requires Inv(cfg, s) && At(s, c) && Waiting(s.handlers[c]) && Holds(s.pending, c, s.handlers[c].id.sid)
    ensures Inv(cfg, Move(s, c, Closing).(pending := WithoutOwn(s.pending, c, s.handlers[c].id.sid)))
  {
    var t := Move(s, c, Closing).(pending := WithoutOwn(s.pending, c, s.handlers[c].id.sid));
    forall sid | sid in t.pending ensures EntryOwned(cfg, t, sid) { assert EntryOwned(cfg, s, sid); }
    forall o | o in t.pairs ensures PairSound(t, o) { assert PairSound(s, o); }
    forall d | d in t.handlers ensures HandlerSound(cfg, t, d) {
      assert HandlerSound(cfg, s, d);
    }
  }

  lemma SweepKeeps(cfg: Config, s: State)
    requires Inv(cfg, s)
    ensures Inv(cfg, Apply(cfg, s, Sweep))
  {
    var t := Apply(cfg, s, Sweep);
    forall sid | sid in s.pending
      ensures EntryOwned(cfg, s, sid) && s.pending[sid].conn in s.handlers && s.pending[sid].sid == sid
      ensures s.handlers[s.pending[sid].conn].id == Identity(sid, s.pending[sid].role)
    {
      assert EntryOwned(cfg, s, sid);
    }
    forall sid | sid in t.pending ensures EntryOwned(cfg, t, sid) { assert EntryOwned(cfg, s, sid); }
    forall o | o in t.pairs ensures PairSound(t, o) { assert PairSound(s, o); }
    forall d | d in t.handlers ensures HandlerSound(cfg, t, d) { SweptHandler(cfg, s, d); }
  }

  lemma SweptHandler(cfg: Config, s: State, c: Conn)
    requires Inv(cfg, s) && At(s, c)
    ensures HandlerSound(cfg, Apply(cfg, s, Sweep), c)
  {
    var ph := s.handlers[c];
    assert HandlerSound(cfg, s, c);
    if c in SweptConns(s.pending, s.now - cfg.pairTimeout) {
      var sid :| sid in s.pending && Stale(s.pending[sid], s.now - cfg.pairTimeout) && s.pending[sid].conn == c;
      assert EntryOwned(cfg, s, sid);
    }
    if Waiting(ph) && ph.id.sid in s.pending { assert EntryOwned(cfg, s, ph.id.sid); }
  }

  lemma TickKeeps(cfg: Config, s: State, now: Time, ended: set<Conn>)
    requires Inv(cfg, s) && s.now <= now
    ensures Inv(cfg, s.(now := now, ended := ended))
  {
    var t := s.(now := now, ended := ended);
    forall sid | sid in t.pending ensures EntryOwned(cfg, t, sid) { assert EntryOwned(cfg, s, sid); }
    forall o | o in t.pairs ensures PairSound(t, o) { assert PairSound(s, o); }
    forall d | d in t.handlers ensures HandlerSound(cfg, t, d) {
      assert HandlerSound(cfg, s, d);
    }
  }

  /** The steps of the polling loop, which all move one waiting handler. */
  lemma PollingKeeps(cfg: Config, s: State, e: Event)
    requires Inv(cfg, s) && Enabled(cfg, s, e)
    requires e.BeginWait? || e.Poll? || e.CheckDeadline? || e.Wake? || e.Expire?
    ensures Inv(cfg, Apply(cfg, s, e))
  {
    assert HandlerSound(cfg, s, e.c);
    if e.Expire? && Holds(s.pending, e.c, s.handlers[e.c].id.sid) {
      ExpireOwnKeeps(cfg, s, e.c);
    } else {
      MoveKeeps(cfg, s, e.c, Apply(cfg, s, e).handlers[e.c]);
    }
  }

  lemma SetDeadlinesKeeps(cfg: Config, s: State, c: Conn)
    requires Inv(cfg, s) && Enabled(cfg, s, SetDeadlines(c))
    ensures Inv(cfg, Apply(cfg, s, SetDeadlines(c)))
  {
    var t := Move(s, c, Copying(Running, Running));
    MoveKeeps(cfg, s, c, Copying(Running, Running));
    DeadlineKeeps(cfg, t, c, Some(s.now + cfg.maxDuration));
  }

  lemma CloseDestKeeps(cfg: Config, s: State, c: Conn, dir: Direction)
    requires Inv(cfg, s) && Enabled(cfg, s, CloseDest(c, dir))
    ensures Inv(cfg, Apply(cfg, s, CloseDest(c, dir)))
  {
    var next := WithCopy(s.handlers[c], dir, Finished);
    MoveKeeps(cfg, s, c, next);
    var t := Move(s, c, next);
    var dest := Dest(s.pairs[c], dir);
    assert PairSound(t, c);
    if Waiting(t.handlers[dest]) && t.handlers[dest].id.sid in t.pending {
      assert EntryOwned(cfg, t, t.handlers[dest].id.sid);
    }
    CloseKeeps(cfg, t, dest);
  }

  /** Every step of every handler, of the sweeper and of the clock keeps the invariant. */
  lemma InvKept(cfg: Config, s: State, e: Event)
    requires Inv(cfg, s) && Enabled(cfg, s, e)
    ensures Inv(cfg, Apply(cfg, s, e))
  {
    match e
    case Accept(c) => AcceptKeeps(cfg, s, c);
    case Authenticate(c, claimed, validated) =>
      if validated == Some(claimed) { AuthenticateKeeps(cfg, s, c, claimed); } else { MoveKeeps(cfg, s, c, Closing); }
    case AuthLost(c) => MoveKeeps(cfg, s, c, Closing);
    case Register(c) => RegisterKeeps(cfg, s, c);
    case CloseOwn(c) =>
      MoveKeeps(cfg, s, c, Done);
      CloseKeeps(cfg, Move(s, c, Done), c);
    case PeerEnds(c) => TickKeeps(cfg, s, s.now, s.ended + {c});
    case Sweep => SweepKeeps(cfg, s);
    case Tick(d) => TickKeeps(cfg, s, s.now + d, s.ended);
    case SetDeadlines(c) => SetDeadlinesKeeps(cfg, s, c);
    case CopyReturns(c, dir) => MoveKeeps(cfg, s, c, WithCopy(s.handlers[c], dir, Returned));
    case CloseDest(c, dir) => CloseDestKeeps(cfg, s, c, dir);
    case PairOver(c) => MoveKeeps(cfg, s, c, Closing);
    case _ => PollingKeeps(cfg, s, e);
  }

  lemma {:induction false} InvAlways(cfg: Config, s: State, es: seq<Event>)
    requires Inv(cfg, s) && Valid(cfg, s, es)
    ensures Inv(cfg, Exec(cfg, s, es))
    decreases |es|
  {
    if es != [] {
      InvKept(cfg, s, es[0]);
      InvAlways(cfg, Apply(cfg, s, es[0]), es[1..]);
    }
  }

  /** The handler that takes a step; none for the sweeper, the clock and the remote peers. */
  function Actor(e: Event): Option<Conn> {
    match e
    case PeerEnds(_) => None
    case Sweep => None
    case Tick(_) => None
    case _ => Some(e.c)
  }

  predicate PollingStep(e: Event) { e.BeginWait? || e.Poll? || e.CheckDeadline? || e.Wake? || e.Expire? }

  lemma OthersStayWhileWaiting(cfg: Config, s: State, e: Event, c: Conn)
    requires Enabled(cfg, s, e) && PollingStep(e) && e.c != c
    ensures c in Apply(cfg, s, e).handlers <==> c in s.handlers
    ensures c in s.handlers ==> Apply(cfg, s, e).handlers[c] == s.handlers[c]
  {
    var t := Apply(cfg, s, e);
    assert t.handlers == s.handlers[e.c := t.handlers[e.c]];
  }

  lemma OthersStay(cfg: Config, s: State, e: Event, c: Conn)
    requires Enabled(cfg, s, e) && Actor(e) != Some(c)
    ensures c in Apply(cfg, s, e).handlers <==> c in s.handlers
    ensures c in s.handlers ==> Apply(cfg, s, e).handlers[c] == s.handlers[c]
  {
    if PollingStep(e) { OthersStayWhileWaiting(cfg, s, e, c); }
  }

  /** Runs can be extended one event at a time. */
  lemma {:induction false} Extend(cfg: Config, s: State, es: seq<Event>, e: Event)
    requires Valid(cfg, s, es) && Enabled(cfg, Exec(cfg, s, es), e)
    ensures Valid(cfg, s, es + [e])
    ensures Exec(cfg, s, es + [e]) == Apply(cfg, Exec(cfg, s, es), e)
    decreases |es|
  {
    if es == [] {
      assert (es + [e])[1..] == [];
    } else {
      Extend(cfg, Apply(cfg, s, es[0]), es[1..], e);
      assert (es + [e])[1..] == es[1..] + [e];
    }
  }
}
