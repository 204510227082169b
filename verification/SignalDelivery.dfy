/** Signal delivery under any concurrency: callers look a session up and later take its
    lock, sessions are created and swept in between, and every completed call leaves a
    mark on the trace. */
module SignalDelivery {
  import opened Common
  import opened SignalLog

  /** A call that has found its session and not yet taken the session's lock. */
  datatype Call = Adding(id: string, role: string, signal: Signal) | Getting(id: string, role: string)

  /** A completed append, or a completed read that advanced the cursor. */
  datatype Mark =
    | Appended(id: string, role: string, signal: Signal)
    | HandedOut(id: string, role: string, signal: Signal)

  /** `objects` are the session objects ever made, `listed` those still in the server's map. */
  datatype State = State(objects: map<string, Log>, listed: set<string>, calls: map<nat, Call>, trace: seq<Mark>)

  datatype Event =
    | Create(id: string)
    | Lookup(n: nat, call: Call)
    | Locked(n: nat)
    | Cleanup(gone: set<string>)

  const START := State(map[], {}, map[], [])

  /** Identifiers are drawn afresh, so a new session is a new object. */
  predicate Enabled(s: State, e: Event) {
    match e
    case Create(id) => id !in s.objects
    case Lookup(n, call) => n !in s.calls
    case Locked(n) => n in s.calls && s.calls[n].id in s.objects
    case Cleanup(_) => true
  }

  function Apply(s: State, e: Event): State
    requires Enabled(s, e)
  {
    match e
    case Create(id) => s.(objects := s.objects[id := EMPTY], listed := s.listed + {id})
    case Lookup(n, call) => if call.id in s.listed then s.(calls := s.calls[n := call]) else s
    case Locked(n) =>
      var call := s.calls[n];
      var l := s.objects[call.id];
      var rest := s.(calls := s.calls - {n});
      if call.Adding? then
        rest.(objects := s.objects[call.id := Append(l, call.role, call.signal)],
              trace := s.trace + [Appended(call.id, call.role, call.signal)])
      else if HasNext(l, call.role) then
        rest.(objects := s.objects[call.id := Advance(l, call.role)],
              trace := s.trace + [HandedOut(call.id, call.role, Next(l, call.role))])
      else rest
    case Cleanup(gone) => s.(listed := s.listed - gone)
  }

  ghost predicate Valid(s: State, es: seq<Event>)
    decreases |es|
  {
    es != [] ==> Enabled(s, es[0]) && Valid(Apply(s, es[0]), es[1..])
  }

  ghost function Exec(s: State, es: seq<Event>): State
    requires Valid(s, es)
    decreases |es|
  {
    if es == [] then s else Exec(Apply(s, es[0]), es[1..])
  }

  /** The signals appended to session `id` by the host, or by joiners, in order. */
  function AppendedBy(tr: seq<Mark>, id: string, host: bool): seq<Signal> {
    if tr == [] then []
    else
      var n := |tr| - 1;
      AppendedBy(tr[..n], id, host) +
      if tr[n].Appended? && tr[n].id == id && IsHost(tr[n].role) == host then [tr[n].signal] else []
  }

  /** The signals handed out from session `id` to the host, or to joiners, in order. */
  function HandedTo(tr: seq<Mark>, id: string, host: bool): seq<Signal> {
    if tr == [] then []
    else
      var n := |tr| - 1;
      HandedTo(tr[..n], id, host) +
      if tr[n].HandedOut? && tr[n].id == id && IsHost(tr[n].role) == host then [tr[n].signal] else []
  }

  lemma TraceGrows(tr: seq<Mark>, m: Mark, id: string, host: bool)
    ensures AppendedBy(tr + [m], id, host) ==
      AppendedBy(tr, id, host) + if m.Appended? && m.id == id && IsHost(m.role) == host then [m.signal] else []
    ensures HandedTo(tr + [m], id, host) ==
      HandedTo(tr, id, host) + if m.HandedOut? && m.id == id && IsHost(m.role) == host then [m.signal] else []
  {
    assert (tr + [m])[..|tr|] == tr;
  }

  /** The session object tells the trace: its logs are what was appended, and each cursor
      counts what was handed out of the other side's log. */
  ghost predicate Tells(l: Log, tr: seq<Mark>, id: string) {
    && l.hostSignals == AppendedBy(tr, id, true)
    && l.joinSignals == AppendedBy(tr, id, false)
    && l.hostIndex <= |l.joinSignals| && l.joinIndex <= |l.hostSignals|
    && HandedTo(tr, id, true) == l.joinSignals[..l.hostIndex]
    && HandedTo(tr, id, false) == l.hostSignals[..l.joinIndex]
  }

  ghost predicate Silent(tr: seq<Mark>, id: string) {
    && AppendedBy(tr, id, true) == [] && AppendedBy(tr, id, false) == []
    && HandedTo(tr, id, true) == [] && HandedTo(tr, id, false) == []
  }

  ghost predicate Inv(s: State) {
    && (forall id {:trigger Tells(s.objects[id], s.trace, id)} | id in s.objects :: Tells(s.objects[id], s.trace, id))
    && (forall id {:trigger Silent(s.trace, id)} | id !in s.objects :: Silent(s.trace, id))
    && s.listed <= s.objects.Keys
    && (forall n | n in s.calls :: s.calls[n].id in s.objects)
  }

  lemma TellsAfterAppend(l: Log, tr: seq<Mark>, id: string, role: string, signal: Signal)
    requires Tells(l, tr, id)
    ensures Tells(Append(l, role, signal), tr + [Appended(id, role, signal)], id)
  {
    TraceGrows(tr, Appended(id, role, signal), id, true);
    TraceGrows(tr, Appended(id, role, signal), id, false);
    var m := Append(l, role, signal);
    assert m.joinSignals[..l.hostIndex] == l.joinSignals[..l.hostIndex];
    assert m.hostSignals[..l.joinIndex] == l.hostSignals[..l.joinIndex];
  }

  lemma TellsAfterHandOut(l: Log, tr: seq<Mark>, id: string, role: string)
    requires Tells(l, tr, id) && HasNext(l, role)
    ensures Tells(Advance(l, role), tr + [HandedOut(id, role, Next(l, role))], id)
  {
    TraceGrows(tr, HandedOut(id, role, Next(l, role)), id, true);
    TraceGrows(tr, HandedOut(id, role, Next(l, role)), id, false);
    var box, k := Inbox(l, role), Cursor(l, role);
    assert box[..k + 1] == box[..k] + [box[k]];
  }

  lemma OthersUnmoved(tr: seq<Mark>, m: Mark, id: string)
    requires m.id != id
    ensures forall l :: Tells(l, tr + [m], id) == Tells(l, tr, id)
    ensures Silent(tr + [m], id) == Silent(tr, id)
  {
    TraceGrows(tr, m, id, true);
    TraceGrows(tr, m, id, false);
  }

  lemma LockedTells(s: State, n: nat, id: string)
    requires Enabled(s, Locked(n))
    requires if id in s.objects then Tells(s.objects[id], s.trace, id) else Silent(s.trace, id)
    ensures var t := Apply(s, Locked(n));
      if id in s.objects then id in t.objects && Tells(t.objects[id], t.trace, id)
      else id !in t.objects && Silent(t.trace, id)
  {
    var call := s.calls[n];
    var l := s.objects[call.id];
    var m :=
      if call.Adding? then Appended(call.id, call.role, call.signal)
      else HandedOut(call.id, call.role, Next(l, call.role));
    if id != call.id {
      OthersUnmoved(s.trace, m, id);
    } else if call.Adding? {
      TellsAfterAppend(l, s.trace, id, call.role, call.signal);
    } else if HasNext(l, call.role) {
      TellsAfterHandOut(l, s.trace, id, call.role);
    }
  }

  lemma InvKept(s: State, e: Event)
    requires Inv(s) && Enabled(s, e)
    ensures Inv(Apply(s, e))
  {
    var t := Apply(s, e);
    forall id | id in t.objects ensures Tells(t.objects[id], t.trace, id) {
      assert id in s.objects ==> Tells(s.objects[id], s.trace, id);
      assert id !in s.objects ==> Silent(s.trace, id);
      if e.Locked? { LockedTells(s, e.n, id); }
    }
    forall id | id !in t.objects ensures Silent(t.trace, id) {
      assert id in s.objects ==> Tells(s.objects[id], s.trace, id);
      assert id !in s.objects ==> Silent(s.trace, id);
      if e.Locked? { LockedTells(s, e.n, id); }
    }
  }

  lemma {:induction false} InvAlways(s: State, es: seq<Event>)
    requires Inv(s) && Valid(s, es)
    ensures Inv(Exec(s, es))
    decreases |es|
  {
    if es != [] {
      InvKept(s, es[0]);
      InvAlways(Apply(s, es[0]), es[1..]);
    }
  }

  lemma NextIsFirstUnread(l: Log, tr: seq<Mark>, id: string, host: bool)
    requires Tells(l, tr, id)
    ensures var role := if host then "host" else "joiner";
      var sent, got := AppendedBy(tr, id, !host), HandedTo(tr, id, host);
      && got <= sent && (HasNext(l, role) <==> got != sent) && (HasNext(l, role) ==> Next(l, role) == sent[|got|])
  {
  }

  lemma HandedIsPrefix(s: State, id: string, host: bool)
    requires Inv(s)
    ensures HandedTo(s.trace, id, host) <= AppendedBy(s.trace, id, !host)
  {
    if id in s.objects { NextIsFirstUnread(s.objects[id], s.trace, id, host); } else { assert Silent(s.trace, id); }
  }

  /** A completed append adds its signal to what its side has sent, and nothing else. */
  lemma AddTakesEffect(s: State, n: nat, id: string, host: bool)
    requires Enabled(s, Locked(n)) && s.calls[n].Adding?
    ensures var t, call := Apply(s, Locked(n)), s.calls[n];
      && n !in t.calls && HandedTo(t.trace, id, host) == HandedTo(s.trace, id, host)
      && AppendedBy(t.trace, id, host) ==
           AppendedBy(s.trace, id, host) + if call.id == id && IsHost(call.role) == host then [call.signal] else []
  {
    var call := s.calls[n];
    TraceGrows(s.trace, Appended(call.id, call.role, call.signal), id, host);
  }

  /** A completed read hands out the first signal of the other side that its own side has not
      been given yet, if there is one, and nothing else happens. */
  lemma GetTakesEffect(s: State, n: nat, id: string, host: bool)
    requires Inv(s) && Enabled(s, Locked(n)) && s.calls[n].Getting?
    ensures var t, call := Apply(s, Locked(n)), s.calls[n];
      var sent, got := AppendedBy(s.trace, id, !host), HandedTo(s.trace, id, host);
      && n !in t.calls && AppendedBy(t.trace, id, host) == AppendedBy(s.trace, id, host) && got <= sent
      && HandedTo(t.trace, id, host) ==
           got + if call.id == id && IsHost(call.role) == host && got != sent then [sent[|got|]] else []
  {
    var call := s.calls[n];
    var l := s.objects[call.id];
    HandedIsPrefix(s, id, host);
    assert Tells(l, s.trace, call.id);
    if call.id == id { NextIsFirstUnread(l, s.trace, id, host); }
    if HasNext(l, call.role) { TraceGrows(s.trace, HandedOut(call.id, call.role, Next(l, call.role)), id, host); }
  }

  /** A created session is listed, and a new one starts empty; a cleanup unlists what it names
      and leaves every session object alone. */
  lemma ListingExactly(s: State, e: Event, id: string)
    requires Enabled(s, e)
    ensures id in Apply(s, e).listed <==>
      if e == Create(id) then true else id in s.listed && !(e.Cleanup? && id in e.gone)
    ensures e == Create(id) ==> id in Apply(s, e).objects && Apply(s, e).objects[id] == EMPTY
    ensures e.Cleanup? ==> Apply(s, e).objects == s.objects && Apply(s, e).calls == s.calls
  {
  }

  /** A call for a listed session is admitted; one for any other is not. */
  lemma LookupAdmits(s: State, n: nat, call: Call)
    requires Enabled(s, Lookup(n, call))
    ensures n in Apply(s, Lookup(n, call)).calls <==> call.id in s.listed
    ensures call.id in s.listed ==> Apply(s, Lookup(n, call)).calls[n] == call
    ensures forall id :: id in Apply(s, Lookup(n, call)).listed <==> id in s.listed
  {
  }

  /** On every run, for every session and side: what has been handed out is exactly a prefix
      of what the other side appended, each signal once and in order, and the cursors stay
      inside the logs. */
  lemma DeliveredInOrderOnce(es: seq<Event>, id: string, host: bool)
    requires Valid(START, es)
    ensures var s := Exec(START, es);
      && HandedTo(s.trace, id, host) <= AppendedBy(s.trace, id, !host)
      && (id in s.objects ==>
            && s.objects[id].hostIndex == |HandedTo(s.trace, id, true)| <= |s.objects[id].joinSignals|
            && s.objects[id].joinIndex == |HandedTo(s.trace, id, false)| <= |s.objects[id].hostSignals|)
  {
    assert Inv(START) by { assert forall x :: Silent([], x); }
    InvAlways(START, es);
    var s := Exec(START, es);
    assert id in s.objects ==> Tells(s.objects[id], s.trace, id);
    assert id !in s.objects ==> Silent(s.trace, id);
  }
}
