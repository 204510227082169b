/** One signalling session: two append-only logs with one read cursor each
    (internal/p2p/signal_server.go). */
module SignalLog {
  import opened Common

  datatype Message = Message(kind: string, sdp: string)

  /** A request may carry no signal at all, which is stored and handed out like any other. */
  type Signal = Option<Message>

  datatype Log = Log(hostSignals: seq<Signal>, joinSignals: seq<Signal>, hostIndex: nat, joinIndex: nat)

  const EMPTY := Log([], [], 0, 0)

  /** Every role but "host" counts as the joiner. */
  predicate IsHost(role: string) { role == "host" }

  function Append(l: Log, role: string, signal: Signal): Log {
    if IsHost(role) then l.(hostSignals := l.hostSignals + [signal])
    else l.(joinSignals := l.joinSignals + [signal])
  }

  /** What the given role reads from: the other side's log. */
  function Inbox(l: Log, role: string): seq<Signal> {
    if IsHost(role) then l.joinSignals else l.hostSignals
  }

  function Cursor(l: Log, role: string): nat {
    if IsHost(role) then l.hostIndex else l.joinIndex
  }

  predicate HasNext(l: Log, role: string) { Cursor(l, role) < |Inbox(l, role)| }

  function Next(l: Log, role: string): Signal {
    if HasNext(l, role) then Inbox(l, role)[Cursor(l, role)] else None
  }

  function Advance(l: Log, role: string): Log {
    if !HasNext(l, role) then l
    else if IsHost(role) then l.(hostIndex := l.hostIndex + 1)
    else l.(joinIndex := l.joinIndex + 1)
  }
}
