/** The create and join handlers of the signalling server (cmd/sfo-helper/main.go), and what
    holds across the store, the typed code, the token and the relay. */
module Handlers {
  import opened Common
  import opened SessionTable
  import SessionIndex
  import SessionHistory
  import SessionStore
  import RateTable
  import RateLimiter
  import JoinCode
  import Token
  import RelayTable
  import RelayProtocol
  import RelayPairing

  datatype CreateResponse = CreateOk(session: Session, relayToken: string) | CreateLimited | CreateFailed

  datatype JoinResponse = JoinOk(session: Session, relayToken: string) | JoinLimited | JoinRefused

  method HandleCreate(
      store: SessionStore.Store, limiter: RateLimiter.MultiLimiter, g: Token.Signer, tokenTTL: Time, ip: string,
      idBytes: Option<seq<byte>>, codeBytes: Option<seq<byte>>, tokenBytes: Option<seq<byte>>, now: Time)
    returns (r: CreateResponse)
    requires limiter.Valid() && (codeBytes.Some? ==> |codeBytes.value| == 4)
    modifies store, limiter.create
    ensures limiter.join.limiters == old(limiter.join.limiters)
    ensures limiter.create.limiters ==
      RateTable.After(limiter.create.cfg, old(limiter.create.limiters), RateTable.Allow(ip, now))
    ensures r.CreateLimited? <==>
      !RateTable.Reply(limiter.create.cfg, old(limiter.create.limiters), RateTable.Allow(ip, now))
    ensures r.CreateOk? <==> !r.CreateLimited? && idBytes.Some? && codeBytes.Some? && tokenBytes.Some?
    ensures !r.CreateOk? ==> store.Contents() == old(store.Contents())
    ensures r.CreateOk? ==>
      var d := Draw(JoinCode.Hex(idBytes.value), r.session.code, JoinCode.Hex(tokenBytes.value));
      && r.session == SessionHistory.NewRecord(d, store.ttl, now) && JoinCode.DrawnFrom(d.code, codeBytes.value)
      && store.Contents() ==
           After(store.ttl, After(store.ttl, old(store.Contents()), Create(Some(d), now)), SetHostConnected(d.id, true))
      && r.relayToken == Token.CreateRelayToken(g, d.id, "host", tokenTTL, now)
  {
    var ok := limiter.AllowCreate(ip, now);
    if !ok { return CreateLimited; }
    var s := store.Create(idBytes, codeBytes, tokenBytes, now);
    if s.None? { return CreateFailed; }
    var _ := store.SetHostConnected(s.value.id, true);
    r := CreateOk(s.value, Token.CreateRelayToken(g, s.value.id, "host", tokenTTL, now));
  }

  method HandleJoin(
      store: SessionStore.Store, limiter: RateLimiter.MultiLimiter, g: Token.Signer, tokenTTL: Time, ip: string,
      typed: string, tokenBytes: Option<seq<byte>>, now: Time)
    returns (r: JoinResponse)
    requires limiter.Valid() && (tokenBytes.Some? ==> |tokenBytes.value| == 32)
    modifies store, limiter.join
    ensures limiter.create.limiters == old(limiter.create.limiters)
    ensures limiter.join.limiters ==
      RateTable.After(limiter.join.cfg, old(limiter.join.limiters), RateTable.Allow(ip, now))
    ensures r.JoinLimited? <==> !RateTable.Reply(limiter.join.cfg, old(limiter.join.limiters), RateTable.Allow(ip, now))
    ensures !r.JoinOk? ==> store.Contents() == old(store.Contents())
    ensures var token := if tokenBytes.Some? then Some(JoinCode.Hex(tokenBytes.value)) else None;
      var answer := JoinTarget(old(store.Contents()), JoinCode.Normalise(typed), token, now);
      && (r.JoinOk? <==> !r.JoinLimited? && answer.Joined?)
      && (r.JoinOk? ==>
            && r.session == answer.session && r.session.joinToken != ""
            && r.relayToken == Token.CreateRelayToken(g, r.session.id, "joiner", tokenTTL, now)
            && store.Contents() ==
                 After(store.ttl, After(store.ttl, old(store.Contents()), Join(JoinCode.Normalise(typed), token, now)),
                       SetJoinConnected(r.session.id, true)))
  {
    var ok := limiter.AllowJoin(ip, now);
    if !ok { return JoinLimited; }
    var a := store.Join(JoinCode.Normalise(typed), tokenBytes, now);
    if !a.Joined? { return JoinRefused; }
    var _ := store.SetJoinConnected(a.session.id, true);
    r := JoinOk(a.session, Token.CreateRelayToken(g, a.session.id, "joiner", tokenTTL, now));
  }

  /** The joiner relay tokens that the join handler makes for session `id` on a run of the
      store, whatever else runs in between: one for each Join that answers with `id`. */
  function JoinerTokens(g: Token.Signer, tokenTTL: Time, ttl: Time, t: Table, ops: seq<Op>, id: string): seq<string>
    decreases |ops|
  {
    if ops == [] then []
    else
      var a := Reply(ttl, t, ops[0]);
      (if a.Joined? && a.session.id == id
       then [Token.CreateRelayToken(g, id, "joiner", tokenTTL, ops[0].now)]
       else []) +
      JoinerTokens(g, tokenTTL, ttl, After(ttl, t, ops[0]), ops[1..], id)
  }

  lemma {:induction false} TokensCountJoins(
      g: Token.Signer, tokenTTL: Time, ttl: Time, t: Table, ops: seq<Op>, id: string)
    ensures |JoinerTokens(g, tokenTTL, ttl, t, ops, id)| == SessionIndex.JoinsOf(ttl, t, ops, id)
    decreases |ops|
  {
    if ops != [] { TokensCountJoins(g, tokenTTL, ttl, After(ttl, t, ops[0]), ops[1..], id); }
  }

  /** On every run from an empty store at most one joiner relay token is made per session. */
  lemma OneJoinerToken(g: Token.Signer, tokenTTL: Time, ttl: Time, ops: seq<Op>, id: string)
    requires FreshIds(ops, {}) && SessionIndex.GoodTokens(ops)
    ensures |JoinerTokens(g, tokenTTL, ttl, EMPTY, ops, id)| <= 1
  {
    TokensCountJoins(g, tokenTTL, ttl, EMPTY, ops, id);
    SessionIndex.OneJoiner(ttl, EMPTY, ops, {}, id);
  }

  /** From typed text to relay identity: whatever spelling of a live, unjoined session's code
      a player types, as long as the index leads that code to it, the join reaches that
      session, and the token made for it is accepted by the relay as the joiner of that session
      throughout its time to live. */
  lemma TypedCodeJoinsItsSession(t: Table, id: string, x: string, typed: string, token: string,
                                 g: Token.Signer, tokenTTL: Time, now: Time, later: Time)
    requires JoinCode.IsBody(x) && "SFO-" + x in t.byCodes && t.byCodes["SFO-" + x] == id && id in t.sessions
    requires !Expired(t.sessions[id], now) && t.sessions[id].joinToken == ""
    requires JoinCode.Shows(typed, "SFO" + x) || (JoinCode.Shows(typed, x) && !("SFO" <= x))
    requires Token.CodecReads(g, Token.Claims(id, "joiner", Token.Unix(now + tokenTTL))) && later <= now + tokenTTL
    ensures JoinTarget(t, JoinCode.Normalise(typed), Some(token), now) == Joined(t.sessions[id].(joinToken := token))
    ensures Token.Validate(g, Token.CreateRelayToken(g, id, "joiner", tokenTTL, now), later) == Some((id, "joiner"))
  {
    JoinCode.WhoReachesTheCode(typed, x);
    Token.RelayTokenLifetime(g, id, "joiner", tokenTTL, now, later);
  }

  /** From create to join: the session that the create handler has just made is the one that
      the join handler finds under any spelling of its code, whatever else happens in the store
      in between, as long as the session is left alone, nobody has joined it, and its time to
      live has not passed; and the host is shown as connected unless a setter has said not. */
  lemma CreatedSessionIsJoined(
      ttl: Time, t: Table, d: Draw, now: Time, ops: seq<Op>, typed: string, token: string, at: Time)
    requires SessionIndex.Keyed(t) && SessionIndex.Coherent(t) && d.id !in t.sessions && JoinCode.IsCode(d.code)
    requires var made := After(ttl, After(ttl, t, Create(Some(d), now)), SetHostConnected(d.id, true));
      SessionHistory.LeftAlone(ttl, made, ops, d.id, d.code)
    requires SessionHistory.NobodyJoins(ops, d.code, now + ttl) && at <= now + ttl
    requires var x := d.code[4..]; JoinCode.Shows(typed, "SFO" + x) || (JoinCode.Shows(typed, x) && !("SFO" <= x))
    ensures var made := After(ttl, After(ttl, t, Create(Some(d), now)), SetHostConnected(d.id, true));
      JoinTarget(Run(ttl, made, ops), JoinCode.Normalise(typed), Some(token), at) ==
        Joined(Session(d.id, d.code, d.hostToken, token, SessionHistory.LastFlag(ops, d.id, true, true),
                       SessionHistory.LastFlag(ops, d.id, false, false), now, now + ttl))
  {
    var s := SessionHistory.NewRecord(d, ttl, now);
    var made := After(ttl, After(ttl, t, Create(Some(d), now)), SetHostConnected(d.id, true));
    SessionHistory.CreateShows(ttl, t, d, now);
    SessionHistory.RecordStepShown(ttl, After(ttl, t, Create(Some(d), now)), SetHostConnected(d.id, true), s);
    var s' := s.(hostConnected := true);
    SessionHistory.StoreFollowsRecord(ttl, made, ops, s');
    SessionHistory.RecordFlags(s', ops);
    SessionHistory.UnjoinedRecord(s', ops);
    SessionHistory.AnswersFromRecord(ttl, Run(ttl, made, ops), SessionHistory.Record(s', ops), at);
    JoinCode.WhoReachesTheCode(typed, d.code[4..]);
    assert "SFO-" + d.code[4..] == d.code;
    assert Reply(ttl, Run(ttl, made, ops), Join(d.code, Some(token), at)).Joined?;
  }

  /** The claims that the two handlers sign: one of two roles, a session identifier drawn from
      sixteen random bytes, and an expiry second that fits 64 bits. */
  ghost predicate Signed(c: Token.Claims) {
    && (c.role == "host" || c.role == "joiner")
    && (exists idBytes :: |idBytes| == 16 && c.sid == JoinCode.Hex(idBytes))
    && -0x8000_0000_0000_0000 <= c.exp < 0x8000_0000_0000_0000
  }

  /** The identities that the handlers' tokens can stand for. */
  ghost predicate HandlersIssue(g: Token.Signer, id: RelayTable.Identity) {
    exists sid, role, ttl, issued, now :: Signed(Token.Claims(sid, role, Token.Unix(issued + ttl))) &&
      Token.Validate(g, Token.CreateRelayToken(g, sid, role, ttl, issued), now) == Some((id.sid, id.role))
  }

  /** A relay that accepts only the handlers' tokens pairs a host with a joiner, on every
      run of any number of connections. */
  lemma HandlersTokensPairHostWithJoiner(g: Token.Signer, pairTimeout: Time, maxDuration: Time, handsOver: bool)
    requires forall c | Signed(c) :: Token.CodecReads(g, c)
    ensures RelayPairing.AlwaysHostMeetsJoiner(
              RelayProtocol.Config(id => HandlersIssue(g, id), pairTimeout, maxDuration, handsOver))
  {
    var cfg := RelayProtocol.Config(id => HandlersIssue(g, id), pairTimeout, maxDuration, handsOver);
    forall id: RelayTable.Identity | cfg.issued(id) ensures id.role == "host" || id.role == "joiner" {
      var sid, role, ttl, issued, now :| Signed(Token.Claims(sid, role, Token.Unix(issued + ttl))) &&
        Token.Validate(g, Token.CreateRelayToken(g, sid, role, ttl, issued), now) == Some((id.sid, id.role));
      Token.VerifyOfSign(g, Token.Claims(sid, role, Token.Unix(issued + ttl)), Token.Unix(now));
    }
    forall a: RelayTable.Identity, b: RelayTable.Identity |
      cfg.issued(a) && cfg.issued(b) && a.sid == b.sid && a.role != b.role
      ensures {a.role, b.role} == {"host", "joiner"}
    {
      assert a.role == "host" || a.role == "joiner";
      assert b.role == "host" || b.role == "joiner";
    }
    RelayPairing.RolesDecidePairs(cfg);
  }

  /** The identities that the relay can learn from a set of presented texts. */
  ghost predicate PresentedIssue(g: Token.Signer, presented: string -> bool, id: RelayTable.Identity) {
    exists token, now :: presented(token) && Token.Validate(g, token, now) == Some((id.sid, id.role))
  }

  /** The same for whatever texts clients present, as long as nobody but the handlers puts a
      payload under its digest: a relay behind `Validate` pairs a host with a joiner on every
      run of any number of connections. */
  lemma PresentedTokensPairHostWithJoiner(
      g: Token.Signer, presented: string -> bool, pairTimeout: Time, maxDuration: Time, handsOver: bool)
    requires forall c | Signed(c) :: Token.CodecReads(g, c)
    requires forall token, payload | presented(token) && Token.Carries(g, token, payload) ::
      exists c :: Signed(c) && payload == g.marshal(c)
    ensures RelayPairing.AlwaysHostMeetsJoiner(
              RelayProtocol.Config(id => PresentedIssue(g, presented, id), pairTimeout, maxDuration, handsOver))
  {
    var cfg := RelayProtocol.Config(id => PresentedIssue(g, presented, id), pairTimeout, maxDuration, handsOver);
    forall id: RelayTable.Identity | cfg.issued(id) ensures id.role == "host" || id.role == "joiner" {
      var token, now :| presented(token) && Token.Validate(g, token, now) == Some((id.sid, id.role));
      Token.ValidatedExactly(g, token, now, id.sid, id.role);
      var exp :| Token.Proves(g, token, Token.Unix(now), Token.Claims(id.sid, id.role, exp));
      var payload :|
        Token.Carries(g, token, payload) && g.unmarshal(payload) == Some(Token.Claims(id.sid, id.role, exp));
      var c :| Signed(c) && payload == g.marshal(c);
      assert Token.CodecReads(g, c);
    }
    forall a: RelayTable.Identity, b: RelayTable.Identity |
      cfg.issued(a) && cfg.issued(b) && a.sid == b.sid && a.role != b.role
      ensures {a.role, b.role} == {"host", "joiner"}
    {
      assert a.role == "host" || a.role == "joiner";
      assert b.role == "host" || b.role == "joiner";
    }
    RelayPairing.RolesDecidePairs(cfg);
  }
}
