/** The signalling server and its session objects, updated in place. A request looks its
    session up under the server's lock and then works on the session under the session's
    own lock, so it may work on a session that has meanwhile been swept. */
module SignalServer {
  import opened Common
  import opened SignalLog
  import JoinCode

  class SignalSession {
    const id: string
    const code: string
    const createdAt: Time
    var hostSignals: seq<Signal>
    var joinSignals: seq<Signal>
    var hostIndex: nat
    var joinIndex: nat

    function Contents(): Log
      reads this
    {
      Log(hostSignals, joinSignals, hostIndex, joinIndex)
    }

    constructor (id: string, code: string, now: Time)
      ensures this.id == id && this.code == code && createdAt == now && Contents() == EMPTY
    {
      this.id, this.code, createdAt := id, code, now;
      hostSignals, joinSignals, hostIndex, joinIndex := [], [], 0, 0;
    }

    /** The locked part of AddSignal. */
    method Add(role: string, signal: Signal)
      modifies this
      ensures Contents() == Append(old(Contents()), role, signal)
    {
      if role == "host" {
        hostSignals := hostSignals + [signal];
      } else {
        joinSignals := joinSignals + [signal];
      }
    }

    /** The locked part of GetSignal. */
    method Get(role: string) returns (signal: Signal)
      modifies this
      ensures signal == Next(old(Contents()), role)
      ensures Contents() == Advance(old(Contents()), role)
    {
      if role == "host" {
        if hostIndex < |joinSignals| {
          signal := joinSignals[hostIndex];
          hostIndex := hostIndex + 1;
          return;
        }
      } else {
        if joinIndex < |hostSignals| {
          signal := hostSignals[joinIndex];
          joinIndex := joinIndex + 1;
          return;
        }
      }
      signal := None;
    }
  }

  class Server {
    var sessions: map<string, SignalSession>
    var byCodes: map<string, string>
    const ttl: Time

    constructor (ttl: Time)
      ensures sessions == map[] && byCodes == map[] && this.ttl == ttl
    {
      this.ttl := ttl;
      sessions, byCodes := map[], map[];
    }

    method CreateSession(idBytes: seq<byte>, codeBytes: seq<byte>, now: Time) returns (s: SignalSession)
      requires |codeBytes| == 4
      modifies this
      ensures fresh(s) && s.Contents() == EMPTY && s.createdAt == now
      ensures s.id == JoinCode.Hex(idBytes) && JoinCode.DrawnFrom(s.code, codeBytes)
      ensures sessions == old(sessions)[s.id := s] && byCodes == old(byCodes)[s.code := s.id]
    {
      var id := JoinCode.Hex(idBytes);
      var code := JoinCode.GenerateCode(Some(codeBytes));
      s := new SignalSession(id, code.value, now);
      sessions := sessions[id := s];
      byCodes := byCodes[code.value := id];
    }

    /** Expiry is not checked here: a session can be joined until it is swept. */
    method JoinSession(code: string) returns (s: SignalSession?)
      ensures s != null <==> code in byCodes && byCodes[code] in sessions
      ensures s != null ==> s == sessions[byCodes[code]]
    {
      if code !in byCodes { return null; }
      if byCodes[code] !in sessions { return null; }
      s := sessions[byCodes[code]];
    }

    method AddSignal(id: string, role: string, signal: Signal) returns (ok: bool)
      modifies set x | x in sessions.Values
      ensures ok <==> id in sessions
      ensures ok ==> sessions[id].Contents() == Append(old(sessions[id].Contents()), role, signal)
      ensures forall x | x in sessions.Values && !(ok && x == sessions[id]) :: x.Contents() == old(x.Contents())
    {
      if id !in sessions { return false; }
      var session := sessions[id];
      session.Add(role, signal);
      ok := true;
    }

    method GetSignal(id: string, role: string) returns (ok: bool, signal: Signal)
      modifies set x | x in sessions.Values
      ensures ok <==> id in sessions
      ensures ok ==> signal == Next(old(sessions[id].Contents()), role)
      ensures ok ==> sessions[id].Contents() == Advance(old(sessions[id].Contents()), role)
      ensures forall x | x in sessions.Values && !(ok && x == sessions[id]) :: x.Contents() == old(x.Contents())
    {
      if id !in sessions { return false, None; }
      var session := sessions[id];
      signal := session.Get(role);
      ok := true;
    }

    /** The sweep touches the two maps and no session object. */
    method Cleanup(now: Time)
      modifies this
      ensures forall id :: id in sessions <==> id in old(sessions) && now - old(sessions)[id].createdAt <= ttl
      ensures forall id :: id in sessions ==> sessions[id] == old(sessions)[id]
      ensures forall c :: c in byCodes <==>
        c in old(byCodes) && forall id :: id in old(sessions) && id !in sessions ==> old(sessions)[id].code != c
      ensures forall c :: c in byCodes ==> byCodes[c] == old(byCodes)[c]
    {
      ghost var was, codes := sessions, byCodes;
      var todo := sessions.Keys;
      while todo != {}
        invariant todo <= was.Keys
        invariant forall id :: id in sessions <==> id in was && (id in todo || now - was[id].createdAt <= ttl)
        invariant forall id :: id in sessions ==> sessions[id] == was[id]
        invariant forall c :: c in byCodes <==>
          c in codes && forall id :: id in was && id !in sessions ==> was[id].code != c
        invariant forall c :: c in byCodes ==> byCodes[c] == codes[c]
        decreases |todo|
      {
        var id :| id in todo;
        todo := todo - {id};
        if now - sessions[id].createdAt > ttl {
          byCodes := byCodes - {sessions[id].code};
          sessions := sessions - {id};
        }
      }
    }
  }
}
