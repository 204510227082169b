/** The relay's table of waiting connections, and what each lock region of
    internal/server/relay/relay.go does to it. The class `Relay` runs these regions;
    `RelayProtocol` interleaves them. */
module RelayTable {
  import opened Common

  /** One accepted connection. Each is served by exactly one handler, so the same
      number names the connection and its handler. */
  type Conn = nat
  type SessionId = string

  /** The sleep of the polling loop. */
  const POLL_STEP: Time := 100 * MILLISECOND

  /** What a validated relay token says about its bearer. */
  datatype Identity = Identity(sid: SessionId, role: string)

  datatype Entry = Entry(conn: Conn, role: string, sid: SessionId, createdAt: Time)

  type Pending = map<SessionId, Entry>

  /** Result of the registration region: wait in the table, or copy as one end of a pair. */
  datatype Outcome = Waits | Pairs(host: Conn, joiner: Conn)

  predicate Holds(p: Pending, conn: Conn, sid: SessionId) {
    sid in p && p[sid].conn == conn
  }

  predicate Complements(p: Pending, id: Identity) {
    id.sid in p && p[id.sid].role != id.role
  }

  /** A complementary entry is taken out; otherwise the newcomer's entry is stored. */
  function AfterRegister(p: Pending, conn: Conn, id: Identity, now: Time): (r: Pending)
    ensures forall sid :: sid != id.sid ==> (sid in r <==> sid in p) && (sid in p ==> r[sid] == p[sid])
  {
    if Complements(p, id) then p - {id.sid}
    else p[id.sid := Entry(conn, id.role, id.sid, now)]
  }

  /** The connections the registration region closes: a same-role predecessor. */
  function Displaced(p: Pending, id: Identity): set<Conn> {
    if id.sid in p && p[id.sid].role == id.role then {p[id.sid].conn} else {}
  }

  /** Who becomes the host end and who the joiner end. */
  function Matched(p: Pending, conn: Conn, id: Identity): Outcome {
    if !Complements(p, id) then Waits
    else if id.role == "host" then Pairs(conn, p[id.sid].conn)
    else Pairs(p[id.sid].conn, conn)
  }

  function WithoutOwn(p: Pending, conn: Conn, sid: SessionId): Pending {
    if Holds(p, conn, sid) then p - {sid} else p
  }

  predicate Stale(e: Entry, threshold: Time) { e.createdAt < threshold }

  function Swept(p: Pending, threshold: Time): Pending {
    map sid | sid in p && !Stale(p[sid], threshold) :: p[sid]
  }

  function SweptConns(p: Pending, threshold: Time): set<Conn> {
    set sid | sid in p && Stale(p[sid], threshold) :: p[sid].conn
  }
}
