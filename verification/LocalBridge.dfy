/** The bridge object updated in place: its lock regions, and a forwarding loop run against
    the answers its sockets give. */
module LocalBridge {
  import opened Common
  import opened Bytes
  import opened BridgeProtocol

  /** What one turn of a forwarding loop meets: whether stopCh is closed at the head, what
      Read returns (`None` for an error), and how much of it Write accepts. */
  datatype Turn = Turn(stop: bool, data: Option<Chunk>, accepted: nat)

  datatype Ending = StillRunning | SawStop | ReadError | WriteError

  /** A turn that reads a chunk, possibly empty, and writes all of it. */
  predicate Full(turn: Turn) { !turn.stop && turn.data.Some? && turn.accepted == |turn.data.value| }

  /** The bytes that the first `n` turns read. */
  function Brought(turns: seq<Turn>, n: nat): seq<byte>
    requires n <= |turns|
  {
    if n == 0 then []
    else Brought(turns, n - 1) + if turns[n - 1].data.Some? then turns[n - 1].data.value else []
  }

  /** The loop ended at turn `n`, the first that is not full: everything before was read and
      written, and that turn decides how it ended and what it still read and wrote. */
  ghost predicate EndsAt(turns: seq<Turn>, n: nat, read: seq<byte>, written: seq<byte>, ending: Ending) {
    && n <= |turns| && (forall i | 0 <= i < n :: Full(turns[i]))
    && var all := Brought(turns, n);
    if n == |turns| then ending.StillRunning? && read == written == all
    else if turns[n].stop then ending.SawStop? && read == written == all
    else if turns[n].data.None? then ending.ReadError? && read == written == all
    else
      var data := turns[n].data.value;
      turns[n].accepted < |data| && ending.WriteError? &&
      read == all + data && written == all + data[..turns[n].accepted]
  }

  lemma EndingsAccount(turns: seq<Turn>, n: nat, read: seq<byte>, written: seq<byte>, ending: Ending)
    requires EndsAt(turns, n, read, written, ending)
    requires forall i | 0 <= i < |turns| && turns[i].data.Some? :: |turns[i].data.value| <= CHUNK
    ensures written <= read && |read| <= |written| + CHUNK
    ensures if ending.WriteError? then |written| < |read| else written == read
  {
    if ending.WriteError? { assert read == written + turns[n].data.value[turns[n].accepted..]; }
  }

  class Bridge {
    var state: BridgeState
    var stops: nat
    var relay: Socket
    var local: Socket
    var bytesIn: nat
    var bytesOut: nat

    constructor ()
      ensures state == Init && stops == 0 && relay == local == Absent && bytesIn == bytesOut == 0
    {
      state, stops, relay, local, bytesIn, bytesOut := Init, 0, Absent, Absent, 0, 0;
    }

    /** Reports whether the callback is due. */
    method SetState(next: BridgeState) returns (changed: bool)
      modifies this`state
      ensures state == next && changed == (old(state) != next)
    {
      changed := state != next;
      state := next;
    }

    /** Only the first call does anything. */
    method Close()
      modifies this`state, this`stops, this`relay, this`local
      ensures stops == if old(stops) > 0 then old(stops) else 1
      ensures old(stops) > 0 ==> state == old(state) && relay == old(relay) && local == old(local)
      ensures old(stops) == 0 ==> state == Disconnected && relay == Shut(old(relay)) && local == Shut(old(local))
    {
      if stops > 0 { return; }
      stops := stops + 1;
      if local.Open? { local := Closed; }
      if relay.Open? { relay := Closed; }
      state := Disconnected;
    }

    /** forwardToLocal (inbound) and forwardToRelay (outbound): whatever the sockets answer,
        the bytes written are a prefix of the bytes read, the counter grows by the bytes read,
        at most one chunk is read and not written, and none unless a write failed. What is read
        and written is what the turns up to turn `i`, the first that is not full, bring, and that
        turn also decides how the loop ends. An error ends it by closing the bridge. */
    method Forward(inbound: bool, turns: seq<Turn>)
      returns (read: seq<byte>, written: seq<byte>, ending: Ending, i: nat)
      requires forall i | 0 <= i < |turns| :: turns[i].data.Some? ==>
        |turns[i].data.value| <= CHUNK && turns[i].accepted <= |turns[i].data.value|
      modifies this
      ensures EndsAt(turns, i, read, written, ending)
      ensures written <= read && |read| <= |written| + CHUNK
      ensures !ending.WriteError? ==> written == read
      ensures ending.WriteError? ==> |written| < |read|
      ensures if inbound then bytesIn == old(bytesIn) + |read| && bytesOut == old(bytesOut)
              else bytesOut == old(bytesOut) + |read| && bytesIn == old(bytesIn)
      ensures (ending.ReadError? || ending.WriteError?) && old(stops) == 0 ==>
        stops == 1 && state == Disconnected && relay == Shut(old(relay)) && local == Shut(old(local))
      ensures old(stops) > 0 ==>
        state == old(state) && stops == old(stops) && relay == old(relay) && local == old(local)
      ensures !(ending.ReadError? || ending.WriteError?) ==>
        state == old(state) && stops == old(stops) && relay == old(relay) && local == old(local)
    {
      read, written, ending, i := [], [], StillRunning, 0;
      while i < |turns|
        invariant 0 <= i <= |turns| && ending.StillRunning? && forall j | 0 <= j < i :: Full(turns[j])
        invariant written == read == Brought(turns, i)
        invariant if inbound then bytesIn == old(bytesIn) + |read| && bytesOut == old(bytesOut)
                  else bytesOut == old(bytesOut) + |read| && bytesIn == old(bytesIn)
        invariant state == old(state) && stops == old(stops) && relay == old(relay) && local == old(local)
      {
        var turn := turns[i];
        if turn.stop {
          return read, written, SawStop, i;
        }
        if turn.data.None? {
          Close();
          return read, written, ReadError, i;
        }
        var data := turn.data.value;
        read := read + data;
        if |data| > 0 {
          if inbound { bytesIn := bytesIn + |data|; } else { bytesOut := bytesOut + |data|; }
          written := written + data[..turn.accepted];
          if turn.accepted < |data| {
            Close();
            EndingsAccount(turns, i, read, written, WriteError);
            return read, written, WriteError, i;
          }
        }
        i := i + 1;
      }
    }
  }
}
