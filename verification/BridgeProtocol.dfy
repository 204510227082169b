/** The local bridge between the game and the relay (internal/client/bridge/bridge.go):
    ConnectRelay, its two forwarders and any number of outside Close calls, interleaved at
    the granularity of lock regions, socket operations and counter updates. */
module BridgeProtocol {
  import opened Common
  import opened Bytes

  const CHUNK: nat := 32 * 1024

  datatype BridgeState = Init | WaitingForGame | Ready | ConnectingRelay | Connected | Disconnected | Error

  /** A connection field of the bridge. */
  datatype Socket = Absent | Open | Closed

  /** How far the one ConnectRelay call has come. */
  datatype Connect = NotCalled | Dialing | DialFailed | Dialed | Assigned | Announced | Returned | ReturnedError

  /** Where a forwarder is: not started, at its loop head, in Read, holding a chunk not yet
      counted, holding a counted chunk, about to call Close, or returned. */
  datatype Phase = NotStarted | Head | Reading | Got(chunk: Chunk) | Counted(chunk: Chunk) | Closing | Done

  /** One forwarder with the bytes it has read, counted and written. */
  datatype Flow = Flow(phase: Phase, read: seq<byte>, counter: nat, written: seq<byte>)

  datatype Direction = ToLocal | ToRelay

  /** `stops` counts how often stopCh has been closed (twice would be a crash), and `closeAt`
      records how far ConnectRelay was when it was. */
  datatype State = State(
    state: BridgeState,
    stops: nat,
    relay: Socket,
    local: Socket,
    connect: Connect,
    toLocal: Flow,
    toRelay: Flow,
    closeAt: Option<Connect>)

  datatype Event =
    | BeginConnect
    | Dial(ok: bool)
    | ReportError
    | Assign
    | Announce
    | Launch
    | OutsideClose
    | CheckStop(dir: Direction)
    | ReadData(dir: Direction, chunk: Chunk)
    | ReadFails(dir: Direction)
    | Count(dir: Direction)
    | WriteAll(dir: Direction)
    | WriteFails(dir: Direction, k: nat)
    | CloseAfter(dir: Direction)

  function Idle(): Flow { Flow(NotStarted, [], 0, []) }

  function Start(st: BridgeState): State {
    State(st, 0, Absent, Absent, NotCalled, Idle(), Idle(), None)
  }

  function FlowOf(s: State, dir: Direction): Flow { if dir.ToLocal? then s.toLocal else s.toRelay }
  function Source(s: State, dir: Direction): Socket { if dir.ToLocal? then s.relay else s.local }
  function Dest(s: State, dir: Direction): Socket { if dir.ToLocal? then s.local else s.relay }

  predicate Enabled(s: State, e: Event) {
    match e
    case BeginConnect => s.connect.NotCalled?
    case Dial(_) => s.connect.Dialing?
    case ReportError => s.connect.DialFailed?
    case Assign => s.connect.Dialed?
    case Announce => s.connect.Assigned?
    case Launch => s.connect.Announced?
    case OutsideClose => true
    case CheckStop(d) => FlowOf(s, d).phase.Head?
    case ReadData(d, chunk) => FlowOf(s, d).phase.Reading? && Source(s, d).Open? && |chunk| <= CHUNK
    case ReadFails(d) => FlowOf(s, d).phase.Reading?
    case Count(d) => FlowOf(s, d).phase.Got?
    case WriteAll(d) => FlowOf(s, d).phase.Counted? && Dest(s, d).Open?
    case WriteFails(d, k) => FlowOf(s, d).phase.Counted? && k < |FlowOf(s, d).phase.chunk|
    case CloseAfter(d) => FlowOf(s, d).phase.Closing?
  }

  function Shut(k: Socket): Socket { if k.Open? then Closed else k }

  /** The lock region of Close: the first call closes stopCh and both connections. */
  function CloseRegion(s: State): State {
    if s.stops > 0 then s
    else s.(stops := s.stops + 1, local := Shut(s.local), relay := Shut(s.relay), state := Disconnected,
            closeAt := Some(s.connect))
  }

  function WithFlow(s: State, d: Direction, f: Flow): State {
    if d.ToLocal? then s.(toLocal := f) else s.(toRelay := f)
  }

  function Apply(s: State, e: Event): State
    requires Enabled(s, e)
  {
    match e
    case BeginConnect => s.(state := ConnectingRelay, connect := Dialing)
    case Dial(ok) => s.(connect := if ok then Dialed else DialFailed)
    case ReportError => s.(state := Error, connect := ReturnedError)
    case Assign => s.(relay := Open, local := Open, connect := Assigned)
    case Announce => s.(state := Connected, connect := Announced)
    case Launch =>
      s.(connect := Returned, toLocal := Idle().(phase := Head), toRelay := Idle().(phase := Head))
    case OutsideClose => CloseRegion(s)
    case CheckStop(d) => WithFlow(s, d, FlowOf(s, d).(phase := if s.stops > 0 then Done else Reading))
    case ReadData(d, chunk) =>
      var f := FlowOf(s, d);
      WithFlow(s, d, f.(read := f.read + chunk, phase := if chunk == [] then Head else Got(chunk)))
    case ReadFails(d) => WithFlow(s, d, FlowOf(s, d).(phase := Closing))
    case Count(d) =>
      var f := FlowOf(s, d);
      WithFlow(s, d, f.(counter := f.counter + |f.phase.chunk|, phase := Counted(f.phase.chunk)))
    case WriteAll(d) =>
      var f := FlowOf(s, d);
      WithFlow(s, d, f.(written := f.written + f.phase.chunk, phase := Head))
    case WriteFails(d, k) =>
      var f := FlowOf(s, d);
      WithFlow(s, d, f.(written := f.written + f.phase.chunk[..k], phase := Closing))
    case CloseAfter(d) => WithFlow(CloseRegion(s), d, FlowOf(s, d).(phase := Done))
  }

  ghost predicate Valid(s: State, es: seq<Event>)
    decreases |es|
  {
    es != [] ==> Enabled(s, es[0]) && Valid(Apply(s, es[0]), es[1..])
  }

  ghost function Exec(s: State, es: seq<Event>): State
    requires Valid(s, es)
    decreases |es|
  {
    if es == [] then s else Exec(Apply(s, es[0]), es[1..])
  }

  // ---------- The invariant ----------

  predicate FlowSound(f: Flow) {
    match f.phase
    case Got(chunk) => f.read == f.written + chunk && f.counter == |f.written| && 0 < |chunk| <= CHUNK
    case Counted(chunk) => f.read == f.written + chunk && f.counter == |f.read| && 0 < |chunk| <= CHUNK
    case Closing => f.written <= f.read && f.counter == |f.read| <= |f.written| + CHUNK
    case Done => f.written <= f.read && f.counter == |f.read| <= |f.written| + CHUNK
    case _ => f.written == f.read && f.counter == |f.read|
  }

  /** Is this point of ConnectRelay at or after the assignment of the connections? */
  predicate HasSockets(c: Connect) { c.Assigned? || c.Announced? || c.Returned? }

  /** Is it at or after the announcement of the connected state? */
  predicate HasAnnounced(c: Connect) { c.Announced? || c.Returned? }

  predicate InSocketCall(ph: Phase) { ph.Reading? || ph.Got? || ph.Counted? }

  ghost predicate Inv(s: State) {
    && s.stops <= 1 && (s.stops == 1 <==> s.closeAt.Some?)
    && (forall d :: FlowOf(s, d).phase.Done? ==> s.stops == 1)
    && (forall d :: FlowSound(FlowOf(s, d)))
    && (forall d :: s.connect.Returned? <==> !FlowOf(s, d).phase.NotStarted?)
    && SocketsSound(s)
    && StateSound(s)
    && (s.stops == 1 && !HasAnnounced(s.closeAt.value) ==> forall d :: !InSocketCall(FlowOf(s, d).phase))
  }

  /** Both connections exist once assigned; they are closed exactly by a Close that came
      after the assignment. */
  predicate SocketsSound(s: State) {
    var expected :=
      if !HasSockets(s.connect) then Absent
      else if s.closeAt.Some? && HasSockets(s.closeAt.value) then Closed
      else Open;
    && s.relay == expected && s.local == expected
    && (s.closeAt.Some? && HasSockets(s.closeAt.value) ==> HasSockets(s.connect))
  }

  predicate StateSound(s: State) {
    && (s.closeAt.Some? && HasAnnounced(s.closeAt.value) ==> s.state == Disconnected && HasAnnounced(s.connect))
    && (HasAnnounced(s.connect) && !(s.closeAt.Some? && HasAnnounced(s.closeAt.value)) ==> s.state == Connected)
    && (s.closeAt == Some(ReturnedError) ==> s.connect.ReturnedError?)
    && (s.connect.ReturnedError? ==> s.state == if s.closeAt == Some(ReturnedError) then Disconnected else Error)
  }

  lemma InvKept(s: State, e: Event)
    requires Inv(s) && Enabled(s, e)
    ensures Inv(Apply(s, e))
  {
    var t := Apply(s, e);
    forall d
      ensures FlowSound(FlowOf(t, d)) && (t.connect.Returned? <==> !FlowOf(t, d).phase.NotStarted?)
      ensures t.stops == 1 && !HasAnnounced(t.closeAt.value) ==> !InSocketCall(FlowOf(t, d).phase)
      ensures FlowOf(t, d).phase.Done? ==> t.stops == 1
    {
      FlowStep(s, e, d);
      assert FlowSound(FlowOf(s, d));
    }
  }

  lemma FlowStep(s: State, e: Event, d: Direction)
    requires Enabled(s, e) && FlowSound(FlowOf(s, d))
    ensures FlowSound(FlowOf(Apply(s, e), d))
  {
    var f := FlowOf(s, d);
    if e.WriteFails? && e.dir == d {
      assert f.read == f.written + f.phase.chunk[..e.k] + f.phase.chunk[e.k..];
    }
  }

  lemma {:induction false} InvAlways(s: State, es: seq<Event>)
    requires Inv(s) && Valid(s, es)
    ensures Inv(Exec(s, es))
    decreases |es|
  {
    if es != [] {
      InvKept(s, es[0]);
      InvAlways(Apply(s, es[0]), es[1..]);
    }
  }

  // ---------- Bytes ----------

  /** In each direction, at every moment of every run: what was written is a prefix of what
      was read; the counter never runs ahead of the bytes read and lags them by at most the
      one chunk that has not been counted yet; it exceeds the bytes written by at most one
      chunk; and at the loop head all three agree. */
  lemma BytesConserved(st: BridgeState, es: seq<Event>, d: Direction)
    requires Valid(Start(st), es)
    ensures var s := Exec(Start(st), es);
      var f := FlowOf(s, d);
      && f.written <= f.read
      && f.counter <= |f.read| <= f.counter + CHUNK && (!f.phase.Got? ==> f.counter == |f.read|)
      && |f.written| <= f.counter <= |f.written| + CHUNK
      && (f.phase.Head? ==> f.written == f.read && f.counter == |f.written|)
  {
    InvAlways(Start(st), es);
    var s := Exec(Start(st), es);
    assert FlowSound(FlowOf(s, d));
  }

  /** What Read has returned to a forwarder along a run. */
  function Arrived(es: seq<Event>, d: Direction): seq<byte> {
    if es == [] then []
    else (if es[0].ReadData? && es[0].dir == d then es[0].chunk else []) + Arrived(es[1..], d)
  }

  /** A forwarder that has not been started has done nothing. */
  predicate Untouched(s: State, d: Direction) {
    if s.connect.Returned? then !FlowOf(s, d).phase.NotStarted? else FlowOf(s, d) == Idle()
  }

  lemma ReadStep(s: State, e: Event, d: Direction)
    requires Untouched(s, d) && Enabled(s, e)
    ensures Untouched(Apply(s, e), d)
    ensures FlowOf(Apply(s, e), d).read == FlowOf(s, d).read + if e.ReadData? && e.dir == d then e.chunk else []
  {
  }

  lemma {:induction false} ReadGrows(s: State, es: seq<Event>, d: Direction)
    requires Untouched(s, d) && Valid(s, es)
    ensures FlowOf(Exec(s, es), d).read == FlowOf(s, d).read + Arrived(es, d)
    decreases |es|
  {
    if es != [] {
      ReadStep(s, es[0], d);
      ReadGrows(Apply(s, es[0]), es[1..], d);
    }
  }

  /** Nothing that Read returns is dropped: a forwarder has written a prefix of it, all of it
      whenever it is at its loop head, and all but one chunk at any time before it ends. */
  lemma NothingReadIsDropped(st: BridgeState, es: seq<Event>, d: Direction)
    requires Valid(Start(st), es)
    ensures var f := FlowOf(Exec(Start(st), es), d);
      && f.written <= Arrived(es, d) && |Arrived(es, d)| <= |f.written| + CHUNK
      && (f.phase.Head? || f.phase.Reading? ==> f.written == Arrived(es, d) && f.counter == |Arrived(es, d)|)
      && (f.phase.Got? || f.phase.Counted? ==> f.written + f.phase.chunk == Arrived(es, d))
  {
    ReadGrows(Start(st), es, d);
    InvAlways(Start(st), es);
    var f := FlowOf(Exec(Start(st), es), d);
    assert FlowSound(f) && f.read == [] + Arrived(es, d) == Arrived(es, d);
  }

  // ---------- The reported state ----------

  /** The state changes of ConnectRelay, by how far it has come. */
  function Stage(c: Connect): nat {
    match c
    case NotCalled => 0
    case Announced => 2
    case Returned => 2
    case ReturnedError => 3
    case _ => 1
  }

  function StageState(st: BridgeState, stage: nat): BridgeState {
    if stage == 0 then st else if stage == 1 then ConnectingRelay else if stage == 2 then Connected else Error
  }

  predicate Reports(st: BridgeState, s: State) {
    && (s.closeAt.Some? <==> s.stops > 0)
    && (s.closeAt.Some? ==> Stage(s.closeAt.value) <= Stage(s.connect))
    && s.state ==
         if s.closeAt.Some? && Stage(s.closeAt.value) == Stage(s.connect) then Disconnected
         else StageState(st, Stage(s.connect))
  }

  lemma {:induction false} ReportsAlways(st: BridgeState, s: State, es: seq<Event>)
    requires Reports(st, s) && Valid(s, es)
    ensures Reports(st, Exec(s, es))
    decreases |es|
  {
    if es != [] { ReportsAlways(st, Apply(s, es[0]), es[1..]); }
  }

  /** At every moment of every run the state is the one that ConnectRelay last set, or
      Disconnected if stopCh has been closed since then. */
  lemma StateExactly(st: BridgeState, es: seq<Event>)
    requires Valid(Start(st), es)
    ensures Reports(st, Exec(Start(st), es))
  {
    ReportsAlways(st, Start(st), es);
  }

  // ---------- Shutdown ----------

  /** On every run stopCh is closed at most once. After ConnectRelay has returned and
      stopCh is closed: both connections are closed if and only if Close came at or after
      their assignment, and the state reads Disconnected if and only if Close came at or
      after ConnectRelay's last state change. If ConnectRelay returned its dial error there
      are no connections, and the state reads Disconnected if and only if Close came after
      that return, and otherwise Error. */
  lemma ShutdownExactly(st: BridgeState, es: seq<Event>)
    requires Valid(Start(st), es)
    ensures var s := Exec(Start(st), es);
      && s.stops <= 1
      && (s.stops == 1 && s.connect.Returned? ==>
            s.closeAt.Some? &&
            (s.relay.Closed? && s.local.Closed? <==> HasSockets(s.closeAt.value)) &&
            (s.state == Disconnected <==> HasAnnounced(s.closeAt.value)))
      && (s.stops == 1 && s.connect.ReturnedError? ==>
            s.relay.Absent? && s.local.Absent? &&
            s.state == if s.closeAt == Some(ReturnedError) then Disconnected else Error)
  {
    InvAlways(Start(st), es);
  }

  /** stopCh is closed exactly by the first Close, be it from outside or a forwarder's. */
  lemma {:induction false} StoppedExactly(s: State, es: seq<Event>)
    requires Inv(s) && Valid(s, es)
    ensures Exec(s, es).stops == 1 <==>
      s.stops == 1 || OutsideClose in es || CloseAfter(ToLocal) in es || CloseAfter(ToRelay) in es
    decreases |es|
  {
    if es != [] {
      assert es == [es[0]] + es[1..];
      InvKept(s, es[0]);
      StoppedExactly(Apply(s, es[0]), es[1..]);
    }
  }

  /** Steps left for a forwarder once stopCh is closed. */
  function StepsLeft(ph: Phase): nat {
    match ph
    case Head => 1
    case Reading => 2
    case Got(_) => 3
    case Counted(_) => 2
    case Closing => 1
    case _ => 0
  }

  function Actor(e: Event): Option<Direction> {
    match e
    case CheckStop(d) => Some(d)
    case ReadData(d, _) => Some(d)
    case ReadFails(d) => Some(d)
    case Count(d) => Some(d)
    case WriteAll(d) => Some(d)
    case WriteFails(d, _) => Some(d)
    case CloseAfter(d) => Some(d)
    case _ => None
  }

  function OwnSteps(es: seq<Event>, d: Direction): nat {
    if es == [] then 0 else (if Actor(es[0]) == Some(d) then 1 else 0) + OwnSteps(es[1..], d)
  }

  /** ConnectRelay has returned, with or without an error, and stopCh is closed. */
  predicate Stopped(s: State) { (s.connect.Returned? || s.connect.ReturnedError?) && s.stops == 1 }

  lemma StoppedStep(s: State, e: Event, d: Direction)
    requires Inv(s) && Stopped(s) && Enabled(s, e)
    ensures var t := Apply(s, e);
      && Stopped(t) && t.state == s.state && t.relay == s.relay && t.local == s.local
      && t.closeAt == s.closeAt && t.connect == s.connect
      && StepsLeft(FlowOf(t, d).phase) + (if Actor(e) == Some(d) then 1 else 0) <= StepsLeft(FlowOf(s, d).phase)
  {
    assert forall d :: FlowSound(FlowOf(s, d));
  }

  /** Once stopped: on every continuation nothing changes any more - state, connections and
      stopCh - and each forwarder that was started has returned after at most three steps of
      its own, so Wait returns. */
  lemma {:induction false} ForwardersEnd(s: State, es: seq<Event>, d: Direction)
    requires Inv(s) && Stopped(s) && Valid(s, es)
    ensures var t := Exec(s, es);
      && Stopped(t) && t.state == s.state && t.relay == s.relay && t.local == s.local
      && t.connect == s.connect && t.closeAt == s.closeAt
      && (StepsLeft(FlowOf(s, d).phase) <= OwnSteps(es, d) ==>
            FlowOf(t, d).phase == if s.connect.Returned? then Done else NotStarted)
    ensures StepsLeft(FlowOf(s, d).phase) <= 3
    decreases |es|
  {
    if es != [] {
      StoppedStep(s, es[0], d);
      InvKept(s, es[0]);
      ForwardersEnd(Apply(s, es[0]), es[1..], d);
    }
  }

  /** And no forwarder is stuck before that: the Read or Write it sits in is on a connection
      that Close has closed. Its next step needs neither data nor a willing peer. */
  lemma ForwarderCanStep(s: State, d: Direction)
    requires Inv(s) && Stopped(s) && StepsLeft(FlowOf(s, d).phase) > 0
    ensures exists e ::
      && Actor(e) == Some(d) && Enabled(s, e) && !e.ReadData? && !e.WriteAll?
      && (e.ReadFails? ==> Source(s, d).Closed?)
      && (e.WriteFails? ==> Dest(s, d).Closed?)
  {
    assert FlowSound(FlowOf(s, d));
    var ph := FlowOf(s, d).phase;
    var e := match ph
      case Head => CheckStop(d)
      case Reading => ReadFails(d)
      case Got(_) => Count(d)
      case Counted(_) => WriteFails(d, 0)
      case _ => CloseAfter(d);
    assert InSocketCall(ph) ==> s.relay.Closed? && s.local.Closed?;
    assert Actor(e) == Some(d) && Enabled(s, e);
  }

  /** One forwarder's end brings everything down: a forwarder that has returned, for whatever
      reason, has left the bridge stopped, so that `ForwardersEnd` applies to the other one;
      and a failed Read or Write leads there by its forwarder's next step. */
  lemma OneEndsBoth(st: BridgeState, es: seq<Event>, d: Direction)
    requires Valid(Start(st), es)
    ensures var s := Exec(Start(st), es);
      && (FlowOf(s, d).phase.Done? ==> Stopped(s))
      && (forall e | Enabled(s, e) && Actor(e) == Some(d) && (e.ReadFails? || e.WriteFails?) ::
            Enabled(Apply(s, e), CloseAfter(d)) && Stopped(Apply(Apply(s, e), CloseAfter(d))))
  {
    InvAlways(Start(st), es);
    assert forall x :: FlowSound(FlowOf(Exec(Start(st), es), x));
  }

  /** ConnectRelay ends as its dial went. */
  lemma {:induction false} DialDecides(s: State, es: seq<Event>)
    requires Valid(s, es)
    ensures var c := Exec(s, es).connect;
      && (c.DialFailed? || c.ReturnedError? <==> s.connect.DialFailed? || s.connect.ReturnedError? || Dial(false) in es)
      && (c.Dialed? || HasSockets(c) <==> s.connect.Dialed? || HasSockets(s.connect) || Dial(true) in es)
    decreases |es|
  {
    if es != [] {
      assert es == [es[0]] + es[1..];
      DialDecides(Apply(s, es[0]), es[1..]);
    }
  }

  /** The run in which Close slips in while ConnectRelay dials. */
  function OvertakenRun(): seq<Event> {
    [BeginConnect] + [OutsideClose] + [Dial(true)] + [Assign] + [Announce] +
    [Launch] + [CheckStop(ToLocal)] + [CheckStop(ToRelay)]
  }

  lemma {:induction false} Extend(s: State, es: seq<Event>, e: Event)
    requires Valid(s, es) && Enabled(Exec(s, es), e)
    ensures Valid(s, es + [e]) && Exec(s, es + [e]) == Apply(Exec(s, es), e)
    decreases |es|
  {
    if es == [] {
      assert (es + [e])[1..] == [];
    } else {
      Extend(Apply(s, es[0]), es[1..], e);
      assert (es + [e])[1..] == es[1..] + [e];
    }
  }

  lemma OvertakenRunEnds(st: BridgeState)
    ensures Valid(Start(st), OvertakenRun())
    ensures Exec(Start(st), OvertakenRun()) ==
      State(Connected, 1, Open, Open, Returned, Idle().(phase := Done), Idle().(phase := Done), Some(Dialing))
  {
    var s, r := Start(st), [BeginConnect];
    Extend(s, [], BeginConnect);
    assert [] + [BeginConnect] == r;
    Extend(s, r, OutsideClose);
    r := r + [OutsideClose];
    Extend(s, r, Dial(true));
    r := r + [Dial(true)];
    Extend(s, r, Assign);
    r := r + [Assign];
    Extend(s, r, Announce);
    r := r + [Announce];
    Extend(s, r, Launch);
    r := r + [Launch];
    Extend(s, r, CheckStop(ToLocal));
    r := r + [CheckStop(ToLocal)];
    Extend(s, r, CheckStop(ToRelay));
  }

  /** That run ends with the bridge reporting Connected, both connections open and both
      forwarders gone; and no later step, Close included, ever changes that. */
  lemma {:induction false} OvertakenCloseIsLost(st: BridgeState, es: seq<Event>)
    requires Valid(Start(st), OvertakenRun()) && Valid(Exec(Start(st), OvertakenRun()), es)
    ensures var t := Exec(Exec(Start(st), OvertakenRun()), es);
      t.stops == 1 && t.state == Connected && t.relay.Open? && t.local.Open?
  {
    OvertakenRunEnds(st);
    InvAlways(Start(st), OvertakenRun());
    ForwardersEnd(Exec(Start(st), OvertakenRun()), es, ToLocal);
  }

  /** The run in which Close slips in between a failed dial and its report. */
  function OverwrittenRun(): seq<Event> { [BeginConnect] + [Dial(false)] + [OutsideClose] + [ReportError] }

  lemma OverwrittenRunEnds(st: BridgeState)
    ensures Valid(Start(st), OverwrittenRun())
    ensures Exec(Start(st), OverwrittenRun()) ==
      State(Error, 1, Absent, Absent, ReturnedError, Idle(), Idle(), Some(DialFailed))
  {
    var s, r := Start(st), [BeginConnect];
    Extend(s, [], BeginConnect);
    assert [] + [BeginConnect] == r;
    Extend(s, r, Dial(false));
    r := r + [Dial(false)];
    Extend(s, r, OutsideClose);
    r := r + [OutsideClose];
    Extend(s, r, ReportError);
  }

  /** That run ends with the closed bridge reporting Error, and no later step, Close
      included, ever changes that. */
  lemma {:induction false} OverwrittenCloseIsLost(st: BridgeState, es: seq<Event>)
    requires Valid(Start(st), OverwrittenRun()) && Valid(Exec(Start(st), OverwrittenRun()), es)
    ensures var t := Exec(Exec(Start(st), OverwrittenRun()), es); t.stops == 1 && t.state == Error
  {
    OverwrittenRunEnds(st);
    InvAlways(Start(st), OverwrittenRun());
    ForwardersEnd(Exec(Start(st), OverwrittenRun()), es, ToLocal);
  }
}
