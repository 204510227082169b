/** The relay's shared table as it is updated in place. Each method is one lock region of
    internal/server/relay/relay.go and is proved against the table functions that
    `RelayProtocol` interleaves. */
module RelayServer {
  import opened Common
  import opened RelayTable

  /** What one poll of a waiting handler finds. */
  datatype View = View(table: Pending, now: Time)

  datatype WaitResult = EntryGone | TimedOut | StillWaiting

  class Relay {
    var pending: Pending
    /** The connections this relay has closed from inside a lock region. */
    var closed: set<Conn>
    const pairTimeout: Time

    constructor (pairTimeout: Time)
      ensures pending == map[] && closed == {} && this.pairTimeout == pairTimeout
    {
      this.pairTimeout := pairTimeout;
      pending := map[];
      closed := {};
    }

    /** The registration region of HandleConnection. */
    method Register(conn: Conn, id: Identity, now: Time) returns (out: Outcome)
      modifies this
      ensures out == Matched(old(pending), conn, id)
      ensures pending == AfterRegister(old(pending), conn, id, now)
      ensures closed == old(closed) + Displaced(old(pending), id)
      ensures out.Pairs? ==> id.sid !in pending && closed == old(closed)
      ensures out.Waits? ==> Holds(pending, conn, id.sid)
    {
      var hasPending := id.sid in pending;
      if hasPending && pending[id.sid].role != id.role {
        var entry := pending[id.sid];
        pending := pending - {id.sid};
        var hostConn, joinerConn;
        if id.role == "host" {
          hostConn, joinerConn := conn, entry.conn;
        } else {
          hostConn, joinerConn := entry.conn, conn;
        }
        out := Pairs(hostConn, joinerConn);
      } else {
        if hasPending {
          closed := closed + {pending[id.sid].conn};
        }
        pending := pending[id.sid := Entry(conn, id.role, id.sid, now)];
        out := Waits;
      }
    }

    /** The lock region at the head of waitForPair's loop. */
    method StillPending(conn: Conn, sid: SessionId) returns (ours: bool)
      ensures ours <==> Holds(pending, conn, sid)
    {
      ours := !(sid !in pending || pending[sid].conn != conn);
    }

    /** waitForPair's polling loop against what it finds: poll `i` sees the table of
        `views[i]`, no earlier than `i` sleeps after the start, and then reads the clock. It
        ends at the first poll that misses its entry or finds the deadline passed, after at
        most pairTimeout / 100 ms + 2 polls. */
    method WaitForPair(conn: Conn, sid: SessionId, start: Time, views: seq<View>) returns (r: WaitResult, polls: nat)
      requires forall i | 0 <= i < |views| :: start + i * POLL_STEP <= views[i].now
      ensures polls <= |views|
      ensures forall i | 0 <= i < polls - 1 :: Holds(views[i].table, conn, sid) && views[i].now <= start + pairTimeout
      ensures match r
        case EntryGone => 0 < polls && !Holds(views[polls - 1].table, conn, sid)
        case TimedOut =>
          0 < polls && Holds(views[polls - 1].table, conn, sid) && start + pairTimeout < views[polls - 1].now
        case StillWaiting => polls == |views| && (0 < polls ==>
          Holds(views[polls - 1].table, conn, sid) && views[polls - 1].now <= start + pairTimeout)
      ensures 0 <= pairTimeout ==> polls <= pairTimeout / POLL_STEP + 2
    {
      var deadline := start + pairTimeout;
      polls := 0;
      while polls < |views|
        invariant 0 <= polls <= |views|
        invariant forall i | 0 <= i < polls :: Holds(views[i].table, conn, sid) && views[i].now <= deadline
        invariant 0 < polls ==> (polls - 1) * POLL_STEP <= pairTimeout
      {
        var view := views[polls];
        polls := polls + 1;
        if sid !in view.table || view.table[sid].conn != conn { return EntryGone, polls; }
        if view.now > deadline { return TimedOut, polls; }
      }
      r := StillWaiting;
    }

    /** The lock region of waitForPair's timeout path. */
    method RemoveOwn(conn: Conn, sid: SessionId)
      modifies this`pending
      ensures pending == WithoutOwn(old(pending), conn, sid)
      ensures !Holds(pending, conn, sid)
      ensures forall x :: x in old(pending) && old(pending)[x].conn != conn ==>
        x in pending && pending[x] == old(pending)[x]
    {
      if sid in pending && pending[sid].conn == conn {
        pending := pending - {sid};
      }
    }

    /** The sweep: whatever order the map is walked in, the stale entries and only they are
        closed and removed. */
    method Cleanup(now: Time)
      modifies this
      ensures pending == Swept(old(pending), now - pairTimeout)
      ensures closed == old(closed) + SweptConns(old(pending), now - pairTimeout)
    {
      var threshold := now - pairTimeout;
      ghost var was := pending;
      var todo := pending.Keys;
      while todo != {}
        invariant todo <= was.Keys
        invariant forall sid :: sid in pending <==> sid in was && (sid in todo || !Stale(was[sid], threshold))
        invariant forall sid :: sid in pending ==> pending[sid] == was[sid]
        invariant closed == old(closed) +
          set sid | sid in was && sid !in todo && Stale(was[sid], threshold) :: was[sid].conn
        decreases |todo|
      {
        var sid :| sid in todo;
        var entry := pending[sid];
        ghost var doneSoFar := set x | x in was && x !in todo && Stale(was[x], threshold) :: was[x].conn;
        todo := todo - {sid};
        if entry.createdAt < threshold {
          closed := closed + {entry.conn};
          pending := pending - {sid};
        }
        assert (set x | x in was && x !in todo && Stale(was[x], threshold) :: was[x].conn) ==
          doneSoFar + if Stale(entry, threshold) then {entry.conn} else {};
      }
      assert closed == old(closed) + SweptConns(was, threshold);
      assert pending == Swept(was, threshold);
    }
  }
}
