/** The in-memory session store with its two maps updated in place. Every method is proved
    against the table functions of `SessionTable`. */
module SessionStore {
  import opened Common
  import opened SessionTable
  import JoinCode

  class Store {
    var sessions: map<string, Session>
    var byCodes: map<string, string>
    const ttl: Time

    function Contents(): Table
      reads this
    {
      Table(sessions, byCodes)
    }

    constructor (ttl: Time)
      ensures Contents() == EMPTY && this.ttl == ttl
    {
      this.ttl := ttl;
      sessions := map[];
      byCodes := map[];
    }

    /** The three random draws may each fail; nothing is stored unless all succeed. */
    method Create(idBytes: Option<seq<byte>>, codeBytes: Option<seq<byte>>, tokenBytes: Option<seq<byte>>, now: Time)
      returns (r: Option<Session>)
      requires codeBytes.Some? ==> |codeBytes.value| == 4
      modifies this
      ensures r.Some? <==> idBytes.Some? && codeBytes.Some? && tokenBytes.Some?
      ensures r.None? ==> Contents() == old(Contents())
      ensures r.Some? ==>
        && JoinCode.DrawnFrom(r.value.code, codeBytes.value)
        && r.value.id == JoinCode.Hex(idBytes.value) && r.value.hostToken == JoinCode.Hex(tokenBytes.value)
        && var op := SessionTable.Create(Some(Draw(r.value.id, r.value.code, r.value.hostToken)), now);
           Contents() == After(ttl, old(Contents()), op) && Got(r.value) == Reply(ttl, old(Contents()), op)
    {
      if idBytes.None? { return None; }
      var id := JoinCode.Hex(idBytes.value);
      var code := JoinCode.GenerateCode(codeBytes);
      if code.None? { return None; }
      if tokenBytes.None? { return None; }
      var hostToken := JoinCode.Hex(tokenBytes.value);
      var session := Session(id, code.value, hostToken, "", false, false, now, now + ttl);
      sessions := sessions[id := session];
      byCodes := byCodes[code.value := id];
      return Some(session);
    }

    method GetByID(id: string, now: Time) returns (r: Option<Session>)
      ensures r == match Reply(ttl, Contents(), SessionTable.GetByID(id, now)) case Got(s) => Some(s) case _ => None
      ensures r.Some? ==> id in sessions && r.value == sessions[id] && now <= r.value.expiresAt
    {
      if id !in sessions || now > sessions[id].expiresAt { return None; }
      r := Some(sessions[id]);
    }

    method GetByCode(code: string, now: Time) returns (r: Option<Session>)
      ensures r == match Reply(ttl, Contents(), SessionTable.GetByCode(code, now)) case Got(s) => Some(s) case _ => None
    {
      if code !in byCodes { return None; }
      r := GetByID(byCodes[code], now);
    }

    /** Joining hands out a non-empty token at most once per session. */
    method Join(code: string, tokenBytes: Option<seq<byte>>, now: Time) returns (r: Answer)
      requires tokenBytes.Some? ==> |tokenBytes.value| == 32
      modifies this`sessions
      ensures var token := if tokenBytes.Some? then Some(JoinCode.Hex(tokenBytes.value)) else None;
        && (token.Some? ==> token.value != "")
        && r == Reply(ttl, old(Contents()), SessionTable.Join(code, token, now))
        && Contents() == After(ttl, old(Contents()), SessionTable.Join(code, token, now))
    {
      if code !in byCodes { return Refused(NotFound); }
      var id := byCodes[code];
      if id !in sessions || now > sessions[id].expiresAt { return Refused(SessionExpired); }
      if sessions[id].joinToken != "" { return Refused(AlreadyJoined); }
      if tokenBytes.None? { return Refused(NoRandomness); }
      var session := sessions[id].(joinToken := JoinCode.Hex(tokenBytes.value));
      sessions := sessions[id := session];
      r := Joined(session);
    }

    method SetHostConnected(id: string, connected: bool) returns (ok: bool)
      modifies this`sessions
      ensures Verdict(ok) == Reply(ttl, old(Contents()), SessionTable.SetHostConnected(id, connected))
      ensures Contents() == After(ttl, old(Contents()), SessionTable.SetHostConnected(id, connected))
    {
      if id !in sessions { return false; }
      sessions := sessions[id := sessions[id].(hostConnected := connected)];
      ok := true;
    }

    method SetJoinConnected(id: string, connected: bool) returns (ok: bool)
      modifies this`sessions
      ensures Verdict(ok) == Reply(ttl, old(Contents()), SessionTable.SetJoinConnected(id, connected))
      ensures Contents() == After(ttl, old(Contents()), SessionTable.SetJoinConnected(id, connected))
    {
      if id !in sessions { return false; }
      sessions := sessions[id := sessions[id].(joinConnected := connected)];
      ok := true;
    }

    method Delete(id: string)
      modifies this
      ensures Contents() == After(ttl, old(Contents()), SessionTable.Delete(id))
    {
      if id in sessions {
        byCodes := byCodes - {sessions[id].code};
        sessions := sessions - {id};
      }
      assert Contents().byCodes == After(ttl, old(Contents()), SessionTable.Delete(id)).byCodes;
    }

    method ValidateToken(id: string, token: string, role: string, now: Time) returns (ok: bool)
      ensures Verdict(ok) == Reply(ttl, Contents(), SessionTable.ValidateToken(id, token, role, now))
    {
      if id !in sessions || now > sessions[id].expiresAt { return false; }
      if role == "host" { return sessions[id].hostToken == token; }
      if role == "joiner" { return sessions[id].joinToken == token; }
      ok := false;
    }

    /** The sweep walks the map in any order; the result does not depend on it. */
    method Cleanup(now: Time)
      modifies this
      ensures Contents() == After(ttl, old(Contents()), Sweep(now))
    {
      ghost var was := Contents();
      var todo := sessions.Keys;
      WalkBegins(was, now);
      while todo != {}
        invariant todo <= was.sessions.Keys
        invariant Contents() == Walked(was, now, todo)
        decreases |todo|
      {
        var id :| id in todo;
        WalkOne(was, now, todo, id);
        var session := sessions[id];
        todo := todo - {id};
        if now > session.expiresAt {
          byCodes := byCodes - {session.code};
          sessions := sessions - {id};
        }
      }
      WalkEnds(was, now);
    }
  }

  /** The table once the sweep at `now` has seen all but the sessions of `todo`. */
  ghost function Walked(t: Table, now: Time, todo: set<string>): Table { Removed(t, ExpiredIds(t, now) - todo) }

  lemma WalkBegins(t: Table, now: Time)
    ensures Walked(t, now, t.sessions.Keys) == t
  {
    assert ExpiredIds(t, now) - t.sessions.Keys == {};
    assert t.sessions - {} == t.sessions;
    assert t.byCodes - {} == t.byCodes;
  }

  lemma WalkEnds(t: Table, now: Time)
    ensures Walked(t, now, {}) == After(0, t, Sweep(now))
  {
    assert ExpiredIds(t, now) - {} == ExpiredIds(t, now);
  }

  /** One step of the walk. */
  lemma WalkOne(t: Table, now: Time, todo: set<string>, id: string)
    requires id in todo && id in t.sessions
    ensures var before, after := Walked(t, now, todo), Walked(t, now, todo - {id});
      && id in before.sessions && before.sessions[id] == t.sessions[id]
      && after == if Expired(t.sessions[id], now)
           then Table(before.sessions - {id}, before.byCodes - {t.sessions[id].code}) else before
  {
    var gone := ExpiredIds(t, now) - todo;
    if Expired(t.sessions[id], now) {
      assert ExpiredIds(t, now) - (todo - {id}) == gone + {id};
      RemoveOneMore(t, gone, id);
    } else {
      assert ExpiredIds(t, now) - (todo - {id}) == gone;
    }
  }

  lemma RemoveOneMore(t: Table, ids: set<string>, id: string)
    requires id in t.sessions
    ensures Removed(t, ids + {id}) ==
      Table(Removed(t, ids).sessions - {id}, Removed(t, ids).byCodes - {t.sessions[id].code})
  {
    assert (set x | x in ids + {id} && x in t.sessions :: t.sessions[x].code) ==
      (set x | x in ids && x in t.sessions :: t.sessions[x].code) + {t.sessions[id].code};
  }
}
