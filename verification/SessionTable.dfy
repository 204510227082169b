/** The session store as values: two maps changed together, one function per operation of
    internal/server/session/store.go. Random identifiers and clock readings are inputs. */
module SessionTable {
  import opened Common

  datatype Session = Session(
    id: string,
    code: string,
    hostToken: string,
    joinToken: string,
    hostConnected: bool,
    joinConnected: bool,
    createdAt: Time,
    expiresAt: Time)

  datatype Table = Table(sessions: map<string, Session>, byCodes: map<string, string>)

  const EMPTY := Table(map[], map[])

  /** The random material of one Create. */
  datatype Draw = Draw(id: string, code: string, hostToken: string)

  datatype JoinError = NotFound | SessionExpired | AlreadyJoined | NoRandomness

  /** A failing random source is `None`. */
  datatype Op =
    | Create(draw: Option<Draw>, now: Time)
    | GetByID(id: string, now: Time)
    | GetByCode(code: string, now: Time)
    | Join(code: string, token: Option<string>, now: Time)
    | SetHostConnected(id: string, connected: bool)
    | SetJoinConnected(id: string, connected: bool)
    | Delete(id: string)
    | ValidateToken(id: string, presented: string, role: string, now: Time)
    | Sweep(now: Time)

  datatype Answer =
    | Nothing
    | NoSession
    | Got(session: Session)
    | Joined(session: Session)
    | Refused(why: JoinError)
    | Verdict(ok: bool)

  predicate Expired(s: Session, now: Time) { s.expiresAt < now }

  function Fresh(d: Draw, ttl: Time, now: Time): Session {
    Session(d.id, d.code, d.hostToken, "", false, false, now, now + ttl)
  }

  /** Join's outcome: the session to give a token to, or the first check that fails. */
  function JoinTarget(t: Table, code: string, token: Option<string>, now: Time): Answer {
    if code !in t.byCodes then Refused(NotFound)
    else
      var id := t.byCodes[code];
      if id !in t.sessions || Expired(t.sessions[id], now) then Refused(SessionExpired)
      else if t.sessions[id].joinToken != "" then Refused(AlreadyJoined)
      else if token.None? then Refused(NoRandomness)
      else Joined(t.sessions[id].(joinToken := token.value))
  }

  function Removed(t: Table, ids: set<string>): Table {
    Table(t.sessions - ids, t.byCodes - set id | id in ids && id in t.sessions :: t.sessions[id].code)
  }

  function ExpiredIds(t: Table, now: Time): set<string> {
    set id | id in t.sessions && Expired(t.sessions[id], now)
  }

  function Stored(t: Table, s: Session, id: string): Table { t.(sessions := t.sessions[id := s]) }

  function After(ttl: Time, t: Table, op: Op): Table {
    match op
    case Create(draw, now) =>
      if draw.None? then t
      else Table(t.sessions[draw.value.id := Fresh(draw.value, ttl, now)], t.byCodes[draw.value.code := draw.value.id])
    case Join(code, token, now) =>
      var a := JoinTarget(t, code, token, now);
      if a.Joined? then Stored(t, a.session, t.byCodes[code]) else t
    case SetHostConnected(id, b) =>
      if id in t.sessions then Stored(t, t.sessions[id].(hostConnected := b), id) else t
    case SetJoinConnected(id, b) =>
      if id in t.sessions then Stored(t, t.sessions[id].(joinConnected := b), id) else t
    case Delete(id) => if id in t.sessions then Removed(t, {id}) else t
    case Sweep(now) => Removed(t, ExpiredIds(t, now))
    case _ => t
  }

  function Lookup(t: Table, id: string, now: Time): Answer {
    if id !in t.sessions || Expired(t.sessions[id], now) then NoSession else Got(t.sessions[id])
  }

  function Reply(ttl: Time, t: Table, op: Op): Answer {
    match op
    case Create(draw, now) => if draw.None? then NoSession else Got(Fresh(draw.value, ttl, now))
    case GetByID(id, now) => Lookup(t, id, now)
    case GetByCode(code, now) => if code in t.byCodes then Lookup(t, t.byCodes[code], now) else NoSession
    case Join(code, token, now) => JoinTarget(t, code, token, now)
    case SetHostConnected(id, _) => Verdict(id in t.sessions)
    case SetJoinConnected(id, _) => Verdict(id in t.sessions)
    case ValidateToken(id, token, role, now) =>
      Verdict(id in t.sessions && !Expired(t.sessions[id], now) &&
              ((role == "host" && t.sessions[id].hostToken == token) ||
               (role == "joiner" && t.sessions[id].joinToken == token)))
    case Delete(_) => Nothing
    case Sweep(_) => Nothing
  }

  function Run(ttl: Time, t: Table, ops: seq<Op>): Table
    decreases |ops|
  {
    if ops == [] then t else Run(ttl, After(ttl, t, ops[0]), ops[1..])
  }

  lemma {:induction false} RunSnoc(ttl: Time, t: Table, ops: seq<Op>, op: Op)
    ensures Run(ttl, t, ops + [op]) == After(ttl, Run(ttl, t, ops), op)
    decreases |ops|
  {
    if ops == [] {
      assert ([] + [op])[1..] == [];
    } else {
      assert (ops + [op])[1..] == ops[1..] + [op];
      RunSnoc(ttl, After(ttl, t, ops[0]), ops[1..], op);
    }
  }

  /** The identifier that a successful Create draws. */
  predicate Draws(op: Op, id: string) { op.Create? && op.draw.Some? && op.draw.value.id == id }

  /** No Create reuses an identifier of `used` or of an earlier Create. */
  predicate FreshIds(ops: seq<Op>, used: set<string>)
    decreases |ops|
  {
    ops != [] ==>
      if ops[0].Create? && ops[0].draw.Some? then
        ops[0].draw.value.id !in used && FreshIds(ops[1..], used + {ops[0].draw.value.id})
      else FreshIds(ops[1..], used)
  }

  /** Identifiers used so far, after one operation. */
  function UsedAfter(used: set<string>, op: Op): set<string> {
    if op.Create? && op.draw.Some? then used + {op.draw.value.id} else used
  }
}
