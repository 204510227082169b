/** What can keep a pair alive after one of its ends has been closed. The copies of one pair,
    run by handler `o`, are split into their reads and writes
    (internal/server/relay/relay.go:163-187). Every run of this layer is a run of the relay. */
module RelayStall {
  import opened Common
  import opened RelayTable
  import opened RelayProtocol
  import opened RelayPairing
  import opened RelayLifetime

  /** Where a running copy is: in Read on its source or in Write on its destination. */
  datatype Spot = InRead | InWrite

  /** One direction: `backlog` chunks have reached the relay and are unread, and `stalled`
      tells that the destination takes no data. */
  datatype Lane = Lane(spot: Spot, backlog: nat, stalled: bool)

  datatype Detail = Detail(s: State, toJoiner: Lane, toHost: Lane)

  datatype Step =
    | Protocol(e: Event)
    | ReadChunk(dir: Direction)
    | WriteChunk(dir: Direction)
    | ChunkArrives(dir: Direction)
    | Turns(dir: Direction, stalled: bool)

  const IDLE := Lane(InRead, 0, false)

  function LaneOf(d: Detail, dir: Direction): Lane { if dir.HostToJoiner? then d.toJoiner else d.toHost }

  function WithLane(d: Detail, dir: Direction, l: Lane): Detail {
    if dir.HostToJoiner? then d.(toJoiner := l) else d.(toHost := l)
  }

  function Back(dir: Direction): Direction { if dir.HostToJoiner? then JoinerToHost else HostToJoiner }

  /** The deadline that was set on both connections has passed. */
  predicate Late(s: State, o: Conn) {
    && o in s.pairs && At(s, o) && !s.handlers[o].Matching?
    && s.pairs[o].deadline.Some? && s.pairs[o].deadline.value <= s.now
  }

  predicate Runs(s: State, o: Conn, dir: Direction) {
    o in s.pairs && At(s, o) && s.handlers[o].Copying? && CopyOf(s.handlers[o], dir).Running?
  }

  /** The read or write that this copy is in returns an error or the end of the stream. */
  predicate Fails(d: Detail, o: Conn, dir: Direction)
    requires o in d.s.pairs
  {
    var src, dest := Source(d.s.pairs[o], dir), Dest(d.s.pairs[o], dir);
    || Late(d.s, o)
    || if LaneOf(d, dir).spot.InRead? then src in d.s.closed || (src in d.s.ended && LaneOf(d, dir).backlog == 0)
       else dest in d.s.closed || dest in d.s.ended
  }

  predicate StepEnabled(cfg: Config, d: Detail, o: Conn, k: Step) {
    match k
    case Protocol(e) => Enabled(cfg, d.s, e) && (e.CopyReturns? && e.c == o ==> Fails(d, o, e.dir))
    case ReadChunk(dir) =>
      && Runs(d.s, o, dir) && LaneOf(d, dir).spot.InRead? && LaneOf(d, dir).backlog > 0
      && Source(d.s.pairs[o], dir) !in d.s.closed && !Late(d.s, o)
    case WriteChunk(dir) =>
      && Runs(d.s, o, dir) && LaneOf(d, dir).spot.InWrite? && !LaneOf(d, dir).stalled
      && Dest(d.s.pairs[o], dir) !in d.s.closed && !Late(d.s, o)
    case _ => true
  }

  function ApplyStep(cfg: Config, d: Detail, o: Conn, k: Step): Detail
    requires StepEnabled(cfg, d, o, k)
  {
    match k
    case Protocol(e) =>
      var t := d.(s := Apply(cfg, d.s, e));
      if e == SetDeadlines(o) then t.(toJoiner := d.toJoiner.(spot := InRead), toHost := d.toHost.(spot := InRead))
      else t
    case ReadChunk(dir) =>
      WithLane(d, dir, LaneOf(d, dir).(spot := InWrite, backlog := LaneOf(d, dir).backlog - 1))
    case WriteChunk(dir) => WithLane(d, dir, LaneOf(d, dir).(spot := InRead))
    case ChunkArrives(dir) => WithLane(d, dir, LaneOf(d, dir).(backlog := LaneOf(d, dir).backlog + 1))
    case Turns(dir, b) => WithLane(d, dir, LaneOf(d, dir).(stalled := b))
  }

  ghost predicate ValidSteps(cfg: Config, d: Detail, o: Conn, ks: seq<Step>)
    decreases |ks|
  {
    ks != [] ==> StepEnabled(cfg, d, o, ks[0]) && ValidSteps(cfg, ApplyStep(cfg, d, o, ks[0]), o, ks[1..])
  }

  ghost function ExecSteps(cfg: Config, d: Detail, o: Conn, ks: seq<Step>): Detail
    requires ValidSteps(cfg, d, o, ks)
    decreases |ks|
  {
    if ks == [] then d else ExecSteps(cfg, ApplyStep(cfg, d, o, ks[0]), o, ks[1..])
  }

  function EventsOf(ks: seq<Step>): seq<Event> {
    if ks == [] then [] else (if ks[0].Protocol? then [ks[0].e] else []) + EventsOf(ks[1..])
  }

  /** Without its reads, writes and traffic, every run of this layer is a run of the relay. */
  lemma {:induction false} RunsOfTheRelay(cfg: Config, d: Detail, o: Conn, ks: seq<Step>)
    requires ValidSteps(cfg, d, o, ks)
    ensures Valid(cfg, d.s, EventsOf(ks)) && Exec(cfg, d.s, EventsOf(ks)) == ExecSteps(cfg, d, o, ks).s
    decreases |ks|
  {
    if ks != [] {
      RunsOfTheRelay(cfg, ApplyStep(cfg, d, o, ks[0]), o, ks[1..]);
      if ks[0].Protocol? {
        assert EventsOf(ks) == [ks[0].e] + EventsOf(ks[1..]) && EventsOf(ks)[1..] == EventsOf(ks[1..]);
      } else {
        assert EventsOf(ks) == EventsOf(ks[1..]);
      }
    }
  }

  // ---------- When the copying handler is blocked ----------

  /** A step of the copying handler itself. */
  predicate Own(o: Conn, k: Step) {
    match k
    case Protocol(e) => Actor(e) == Some(o)
    case ReadChunk(_) => true
    case WriteChunk(_) => true
    case _ => false
  }

  ghost predicate Blocked(cfg: Config, d: Detail, o: Conn) {
    At(d.s, o) && !d.s.handlers[o].Done? && forall k | Own(o, k) :: !StepEnabled(cfg, d, o, k)
  }

  /** A copy that sits in a read with nothing to read, or in a write that nobody takes. */
  predicate Stuck(d: Detail, o: Conn, dir: Direction) {
    Runs(d.s, o, dir) && !Fails(d, o, dir) &&
    if LaneOf(d, dir).spot.InRead? then LaneOf(d, dir).backlog == 0 else LaneOf(d, dir).stalled
  }

  /** A copy that holds a chunk for a live destination that takes no data. */
  predicate Jammed(d: Detail, o: Conn, dir: Direction) { Stuck(d, o, dir) && LaneOf(d, dir).spot.InWrite? }

  predicate Idles(d: Detail, o: Conn, dir: Direction) { Stuck(d, o, dir) || CopyFinished(d.s, o, dir) }

  predicate CopyFinished(s: State, o: Conn, dir: Direction) {
    At(s, o) && s.handlers[o].Copying? && CopyOf(s.handlers[o], dir).Finished?
  }

  predicate AllStuck(d: Detail, o: Conn) {
    Idles(d, o, HostToJoiner) && Idles(d, o, JoinerToHost) && (Stuck(d, o, HostToJoiner) || Stuck(d, o, JoinerToHost))
  }

  function NextStep(cfg: Config, d: Detail, o: Conn): (k: Step)
    requires o in d.s.pairs && PairSound(d.s, o) && !d.s.handlers[o].Done? && !AllStuck(d, o)
    ensures Own(o, k) && StepEnabled(cfg, d, o, k)
  {
    var ph := d.s.handlers[o];
    if ph.Matching? then Protocol(SetDeadlines(o))
    else if ph.Closing? then Protocol(CloseOwn(o))
    else if !Idles(d, o, HostToJoiner) then NextCopyStep(cfg, d, o, HostToJoiner)
    else if !Idles(d, o, JoinerToHost) then NextCopyStep(cfg, d, o, JoinerToHost)
    else Protocol(PairOver(o))
  }

  function NextCopyStep(cfg: Config, d: Detail, o: Conn, dir: Direction): (k: Step)
    requires o in d.s.pairs && At(d.s, o) && d.s.handlers[o].Copying? && !Idles(d, o, dir)
    ensures Own(o, k) && StepEnabled(cfg, d, o, k)
  {
    if CopyOf(d.s.handlers[o], dir).Returned? then Protocol(CloseDest(o, dir))
    else if Fails(d, o, dir) then Protocol(CopyReturns(o, dir))
    else if LaneOf(d, dir).spot.InRead? then ReadChunk(dir)
    else WriteChunk(dir)
  }

  lemma BlockedIfStuck(cfg: Config, d: Detail, o: Conn)
    requires Inv(cfg, d.s) && o in d.s.pairs && At(d.s, o) && !d.s.handlers[o].Done?
    ensures Blocked(cfg, d, o) <==> AllStuck(d, o)
  {
    assert PairSound(d.s, o);
    if !AllStuck(d, o) {
      var k := NextStep(cfg, d, o);
      assert Own(o, k) && StepEnabled(cfg, d, o, k);
    }
  }

  /** With one end closed and the pair not over, the copying handler is blocked exactly when
      the copy out of the closed end is jammed in a write to the other end, which is open and
      takes no data, and the copy back has finished or waits for that end to send. */
  lemma BlockedExactly(cfg: Config, d: Detail, o: Conn, dir: Direction)
    requires Inv(cfg, d.s) && o in d.s.pairs && CopiesClose(d.s, o) && !d.s.handlers[o].Done?
    requires Source(d.s.pairs[o], dir) in d.s.closed && !Over(d.s, d.s.pairs[o])
    ensures Blocked(cfg, d, o) <==>
      && Runs(d.s, o, dir) && LaneOf(d, dir).spot.InWrite? && LaneOf(d, dir).stalled
      && Dest(d.s.pairs[o], dir) !in d.s.closed
      && (CopyFinished(d.s, o, Back(dir)) ||
          (Runs(d.s, o, Back(dir)) && LaneOf(d, Back(dir)).spot.InRead? && LaneOf(d, Back(dir)).backlog == 0))
  {
    assert PairSound(d.s, o);
    BlockedIfStuck(cfg, d, o);
  }

  /** Once the deadline of the pair has passed it is never blocked, closed ends or not. */
  lemma LateNeverBlocks(cfg: Config, d: Detail, o: Conn)
    requires Inv(cfg, d.s) && o in d.s.pairs && Late(d.s, o)
    ensures !Blocked(cfg, d, o)
  {
    if At(d.s, o) && !d.s.handlers[o].Done? { BlockedIfStuck(cfg, d, o); }
  }

  // ---------- Exactly when the pair ends ----------

  /** A run in which nobody but the copying handler moves. */
  ghost predicate SilentRun(cfg: Config, d: Detail, o: Conn, ks: seq<Step>)
    decreases |ks|
  {
    ks != [] ==>
      Own(o, ks[0]) && StepEnabled(cfg, d, o, ks[0]) && SilentRun(cfg, ApplyStep(cfg, d, o, ks[0]), o, ks[1..])
  }

  /** Its end: the handler has returned or is blocked. */
  ghost predicate AtRest(cfg: Config, d: Detail, o: Conn) {
    At(d.s, o) && (d.s.handlers[o].Done? || Blocked(cfg, d, o))
  }

  function LaneSteps(l: Lane): nat { 2 * l.backlog + if l.spot.InWrite? then 1 else 0 }

  function StepsLeft(d: Detail, o: Conn): nat
    requires At(d.s, o)
  {
    StepsToEnd(d.s.handlers[o]) + LaneSteps(d.toJoiner) + LaneSteps(d.toHost)
  }

  /** A pair whose handler can be followed, with the end that `dir` reads from closed or the
      deadline passed. */
  ghost predicate Ending(cfg: Config, d: Detail, o: Conn, dir: Direction) {
    && Inv(cfg, d.s) && o in d.s.pairs && CopiesClose(d.s, o)
    && (Source(d.s.pairs[o], dir) in d.s.closed || Late(d.s, o))
  }

  /** Every reachable pair that has such an end can be followed. */
  lemma EndingIsReached(cfg: Config, t0: Time, o: Conn, dir: Direction, ks: seq<Step>)
    requires ValidSteps(cfg, Detail(Init(t0), IDLE, IDLE), o, ks)
    requires var d := ExecSteps(cfg, Detail(Init(t0), IDLE, IDLE), o, ks);
      o in d.s.pairs && (Source(d.s.pairs[o], dir) in d.s.closed || Late(d.s, o))
    ensures Ending(cfg, ExecSteps(cfg, Detail(Init(t0), IDLE, IDLE), o, ks), o, dir)
  {
    RunsOfTheRelay(cfg, Detail(Init(t0), IDLE, IDLE), o, ks);
    InvAlways(cfg, Init(t0), EventsOf(ks));
    CopiesCloseAlways(cfg, Init(t0), EventsOf(ks));
  }

  lemma OwnEvents(cfg: Config, s: State, o: Conn, e: Event)
    requires o in s.pairs && PairSound(s, o) && Actor(e) == Some(o) && Enabled(cfg, s, e)
    ensures e.SetDeadlines? || e.CopyReturns? || e.CloseDest? || e.PairOver? || e.CloseOwn?
  {
  }

  lemma EndingKept(cfg: Config, d: Detail, o: Conn, dir: Direction, e: Event)
    requires Ending(cfg, d, o, dir) && Actor(e) == Some(o) && StepEnabled(cfg, d, o, Protocol(e))
    ensures Ending(cfg, ApplyStep(cfg, d, o, Protocol(e)), o, dir)
  {
    assert PairSound(d.s, o);
    OwnEvents(cfg, d.s, o, e);
    InvKept(cfg, d.s, e);
    OwnerProgress(cfg, d.s, e, o);
    PairPersists(cfg, d.s, e, o);
    ClosedByIsAll(cfg, d.s, e);
  }

  lemma EndingComesCloser(cfg: Config, d: Detail, o: Conn, dir: Direction, e: Event)
    requires Ending(cfg, d, o, dir) && Actor(e) == Some(o) && StepEnabled(cfg, d, o, Protocol(e))
    ensures At(Apply(cfg, d.s, e), o) && StepsLeft(ApplyStep(cfg, d, o, Protocol(e)), o) < StepsLeft(d, o)
  {
    OwnerProgress(cfg, d.s, e, o);
  }

  lemma JamKept(cfg: Config, d: Detail, o: Conn, dir: Direction, e: Event)
    requires Ending(cfg, d, o, dir) && Actor(e) == Some(o) && StepEnabled(cfg, d, o, Protocol(e))
    ensures Jammed(ApplyStep(cfg, d, o, Protocol(e)), o, dir) <==> Jammed(d, o, dir)
  {
    assert PairSound(d.s, o);
    OwnEvents(cfg, d.s, o, e);
    ClosedByIsAll(cfg, d.s, e);
  }

  lemma SilentStep(cfg: Config, d: Detail, o: Conn, dir: Direction, k: Step)
    requires Ending(cfg, d, o, dir) && Own(o, k) && StepEnabled(cfg, d, o, k)
    ensures var t := ApplyStep(cfg, d, o, k);
      Ending(cfg, t, o, dir) && StepsLeft(t, o) < StepsLeft(d, o) && (Jammed(t, o, dir) <==> Jammed(d, o, dir))
  {
    if k.Protocol? {
      EndingKept(cfg, d, o, dir, k.e);
      EndingComesCloser(cfg, d, o, dir, k.e);
      JamKept(cfg, d, o, dir, k.e);
    }
  }

  /** The handler has returned with both connections closed. */
  predicate Ended(s: State, o: Conn) {
    && At(s, o) && s.handlers[o].Done? && o in s.pairs
    && s.pairs[o].host in s.closed && s.pairs[o].joiner in s.closed
  }

  lemma RestDecides(cfg: Config, d: Detail, o: Conn, dir: Direction)
    requires Ending(cfg, d, o, dir) && AtRest(cfg, d, o)
    ensures Ended(d.s, o) <==> !Jammed(d, o, dir)
  {
    assert PairSound(d.s, o);
    if !d.s.handlers[o].Done? { BlockedIfStuck(cfg, d, o); }
  }

  lemma {:induction false} SilentRunsDecide(cfg: Config, d: Detail, o: Conn, dir: Direction, ks: seq<Step>)
    requires Ending(cfg, d, o, dir) && SilentRun(cfg, d, o, ks)
    ensures ValidSteps(cfg, d, o, ks) && |ks| <= StepsLeft(d, o)
    ensures var t := ExecSteps(cfg, d, o, ks); AtRest(cfg, t, o) ==> (Ended(t.s, o) <==> !Jammed(d, o, dir))
    decreases |ks|
  {
    if ks == [] {
      if AtRest(cfg, d, o) { RestDecides(cfg, d, o, dir); }
    } else {
      SilentStep(cfg, d, o, dir, ks[0]);
      SilentRunsDecide(cfg, ApplyStep(cfg, d, o, ks[0]), o, dir, ks[1..]);
    }
  }

  lemma {:induction false} ToRest(cfg: Config, d: Detail, o: Conn, dir: Direction) returns (ks: seq<Step>)
    requires Ending(cfg, d, o, dir)
    ensures SilentRun(cfg, d, o, ks) && ValidSteps(cfg, d, o, ks) && AtRest(cfg, ExecSteps(cfg, d, o, ks), o)
    decreases StepsLeft(d, o)
  {
    ks := [];
    assert PairSound(d.s, o);
    if !d.s.handlers[o].Done? && !AllStuck(d, o) {
      var k := NextStep(cfg, d, o);
      SilentStep(cfg, d, o, dir, k);
      var rest := ToRest(cfg, ApplyStep(cfg, d, o, k), o, dir);
      ks := [k] + rest;
      assert ks[1..] == rest;
    } else if !d.s.handlers[o].Done? {
      BlockedIfStuck(cfg, d, o);
    }
  }

  ghost predicate RunsToRest(cfg: Config, d: Detail, o: Conn, ks: seq<Step>) {
    SilentRun(cfg, d, o, ks) && ValidSteps(cfg, d, o, ks) && AtRest(cfg, ExecSteps(cfg, d, o, ks), o)
  }

  /** Once one end is closed, or the deadline has passed: while everybody else is silent the
      copying handler comes to rest within a bounded number of steps, and whatever their order
      it has then returned with both ends closed, if and only if the copy out of that end is
      not jammed. */
  lemma EndsExactly(cfg: Config, d: Detail, o: Conn, dir: Direction)
    requires Ending(cfg, d, o, dir)
    ensures forall ks :: SilentRun(cfg, d, o, ks) ==> |ks| <= StepsLeft(d, o)
    ensures exists ks :: RunsToRest(cfg, d, o, ks)
    ensures forall ks :: RunsToRest(cfg, d, o, ks) ==>
      (Ended(ExecSteps(cfg, d, o, ks).s, o) <==> !Jammed(d, o, dir))
    ensures Late(d.s, o) ==> !Jammed(d, o, dir)
  {
    var ks := ToRest(cfg, d, o, dir);
    assert RunsToRest(cfg, d, o, ks);
    forall ks | SilentRun(cfg, d, o, ks)
      ensures |ks| <= StepsLeft(d, o)
      ensures RunsToRest(cfg, d, o, ks) ==> (Ended(ExecSteps(cfg, d, o, ks).s, o) <==> !Jammed(d, o, dir))
    {
      SilentRunsDecide(cfg, d, o, dir, ks);
    }
  }

  // ---------- How long a jam lasts ----------

  /** The owner's end takes data again, or goes away. */
  predicate Relieves(o: Conn, dir: Direction, k: Step) { k == Turns(dir, false) || k == Protocol(PeerEnds(o)) }

  /** The end that `dir` writes to is the copying handler's own connection. */
  ghost predicate JammedAtOwner(cfg: Config, d: Detail, o: Conn, dir: Direction) {
    Inv(cfg, d.s) && o in d.s.pairs && Dest(d.s.pairs[o], dir) == o && Jammed(d, o, dir)
  }

  /** No step of anyone closes the owner's connection while it copies into it. */
  lemma OwnerStaysOpen(cfg: Config, d: Detail, o: Conn, dir: Direction, e: Event)
    requires JammedAtOwner(cfg, d, o, dir) && StepEnabled(cfg, d, o, Protocol(e))
    ensures o !in Apply(cfg, d.s, e).closed
  {
    var s := d.s;
    assert PairSound(s, o);
    ClosedByIsAll(cfg, s, e);
    match e
    case Register(c) => if s.handlers[c].id.sid in s.pending { TableIsNotPaired(cfg, s, s.handlers[c].id.sid, o); }
    case CloseDest(c, _) => if c != o { TwoPairsAreDisjoint(cfg, s, o, c); }
    case Sweep =>
      if o in ClosedBy(cfg, s, e) {
        var sid :| sid in s.pending && s.pending[sid].conn == o;
        TableIsNotPaired(cfg, s, sid, o);
      }
    case _ =>
  }

  lemma JamStays(cfg: Config, d: Detail, o: Conn, dir: Direction, k: Step)
    requires JammedAtOwner(cfg, d, o, dir) && StepEnabled(cfg, d, o, k) && !Relieves(o, dir, k)
    ensures var t := ApplyStep(cfg, d, o, k);
      && Inv(cfg, t.s) && o in t.s.pairs
      && (Late(t.s, o) || JammedAtOwner(cfg, t, o, dir))
  {
    if k.Protocol? {
      assert PairSound(d.s, o);
      InvKept(cfg, d.s, k.e);
      PairPersists(cfg, d.s, k.e, o);
      OwnerStaysOpen(cfg, d, o, dir, k.e);
      if Actor(k.e) == Some(o) { OwnEvents(cfg, d.s, o, k.e); } else { OthersStay(cfg, d.s, k.e, o); }
    }
  }

  lemma LateStays(cfg: Config, s: State, o: Conn, e: Event)
    requires Inv(cfg, s) && Late(s, o) && Enabled(cfg, s, e)
    ensures Late(Apply(cfg, s, e), o)
  {
    assert PairSound(s, o);
    PairPersists(cfg, s, e, o);
    if Actor(e) == Some(o) { OwnEvents(cfg, s, o, e); } else { OthersStay(cfg, s, e, o); }
  }

  lemma {:induction false} LateForever(cfg: Config, d: Detail, o: Conn, ks: seq<Step>)
    requires Inv(cfg, d.s) && Late(d.s, o) && ValidSteps(cfg, d, o, ks)
    ensures Late(ExecSteps(cfg, d, o, ks).s, o)
    decreases |ks|
  {
    if ks != [] {
      if ks[0].Protocol? {
        LateStays(cfg, d.s, o, ks[0].e);
        InvKept(cfg, d.s, ks[0].e);
      }
      LateForever(cfg, ApplyStep(cfg, d, o, ks[0]), o, ks[1..]);
    }
  }

  /** A jam lasts through every run of the relay, its clients and the traffic, and keeps the
      owner's connection open, until that connection takes data again or goes away, or the
      deadline of the pair passes. */
  lemma {:induction false} JamLasts(cfg: Config, d: Detail, o: Conn, dir: Direction, ks: seq<Step>)
    requires JammedAtOwner(cfg, d, o, dir) && ValidSteps(cfg, d, o, ks)
    requires forall i | 0 <= i < |ks| :: !Relieves(o, dir, ks[i])
    ensures var t := ExecSteps(cfg, d, o, ks); Late(t.s, o) || (Jammed(t, o, dir) && o !in t.s.closed)
    decreases |ks|
  {
    if ks != [] {
      var t := ApplyStep(cfg, d, o, ks[0]);
      JamStays(cfg, d, o, dir, ks[0]);
      if Late(t.s, o) {
        LateForever(cfg, t, o, ks[1..]);
      } else {
        JamLasts(cfg, t, o, dir, ks[1..]);
      }
    }
  }

  lemma {:induction false} ExtendSteps(cfg: Config, d: Detail, o: Conn, ks: seq<Step>, k: Step)
    requires ValidSteps(cfg, d, o, ks) && StepEnabled(cfg, ExecSteps(cfg, d, o, ks), o, k)
    ensures ValidSteps(cfg, d, o, ks + [k])
    ensures ExecSteps(cfg, d, o, ks + [k]) == ApplyStep(cfg, ExecSteps(cfg, d, o, ks), o, k)
    decreases |ks|
  {
    if ks == [] {
      assert (ks + [k])[1..] == [];
    } else {
      ExtendSteps(cfg, ApplyStep(cfg, d, o, ks[0]), o, ks[1..], k);
      assert (ks + [k])[1..] == ks[1..] + [k];
    }
  }

  /** The state right after connection 1 has been paired with connection 0. */
  ghost function JustPaired(cfg: Config, a: Identity, b: Identity): Detail
    requires Valid(cfg, Init(0), PairingRun(a, b))
  {
    Detail(Exec(cfg, Init(0), PairingRun(a, b)), IDLE, IDLE)
  }

  function FromFirst(b: Identity): Direction { if b.role == "host" then JoinerToHost else HostToJoiner }

  /** The same pair jammed. */
  function JammedPair(cfg: Config, a: Identity, b: Identity): Detail {
    var p := PairOf(a, b).(deadline := Some(cfg.maxDuration));
    var s := State(0, map[], map[0 := Registered(a), 1 := Copying(Running, Running)], map[1 := p], map[0 := 1],
                   map[0 := a, 1 := b], {}, {});
    WithLane(Detail(s, IDLE, IDLE), FromFirst(b), Lane(InWrite, 0, true))
  }

  lemma TrafficJams(cfg: Config, a: Identity, b: Identity) returns (ks: seq<Step>)
    requires 0 < cfg.maxDuration && cfg.issued(a) && cfg.issued(b) && a.sid == b.sid && a.role != b.role
    ensures Valid(cfg, Init(0), PairingRun(a, b)) && ValidSteps(cfg, JustPaired(cfg, a, b), 1, ks)
    ensures ExecSteps(cfg, JustPaired(cfg, a, b), 1, ks) == JammedPair(cfg, a, b)
  {
    PairingRunPairs(cfg, 0, a, b);
    var d, dir := JustPaired(cfg, a, b), FromFirst(b);
    ks := [];
    ExtendSteps(cfg, d, 1, ks, Protocol(SetDeadlines(1)));
    ks := ks + [Protocol(SetDeadlines(1))];
    ExtendSteps(cfg, d, 1, ks, ChunkArrives(dir));
    ks := ks + [ChunkArrives(dir)];
    ExtendSteps(cfg, d, 1, ks, ReadChunk(dir));
    ks := ks + [ReadChunk(dir)];
    ExtendSteps(cfg, d, 1, ks, Turns(dir, true));
    ks := ks + [Turns(dir, true)];
  }

  /** A jam with the copy back waiting for the same end to send. */
  ghost predicate Clogged(cfg: Config, d: Detail, o: Conn, dir: Direction) {
    JammedAtOwner(cfg, d, o, dir) && Stuck(d, o, Back(dir)) && LaneOf(d, Back(dir)).spot.InRead?
  }

  /** The first arriver's handler leaves it as it is. */
  lemma FirstMoves(cfg: Config, d: Detail, o: Conn, dir: Direction, e: Event)
    requires Clogged(cfg, d, o, dir) && Enabled(cfg, d.s, e)
    requires (e.BeginWait? || e.Poll? || e.CloseOwn?) && e.c == Other(d.s.pairs[o], o)
    ensures var t := ApplyStep(cfg, d, o, Protocol(e)); Clogged(cfg, t, o, dir) && t.s.pairs == d.s.pairs
  {
    assert PairSound(d.s, o);
    OwnerStaysOpen(cfg, d, o, dir, e);
    JamStays(cfg, d, o, dir, Protocol(e));
  }

  /** As written: the handler of a first arriver whose data is jammed closes its end. */
  lemma {:induction false} FirstCloses(cfg: Config, d: Detail, o: Conn, dir: Direction) returns (ks: seq<Step>)
    requires !cfg.handsOver && Clogged(cfg, d, o, dir) && At(d.s, Other(d.s.pairs[o], o))
    requires var ph := d.s.handlers[Other(d.s.pairs[o], o)]; ph.Registered? || ph.Polling? || ph.Closing?
    ensures ValidSteps(cfg, d, o, ks)
    ensures var t := ExecSteps(cfg, d, o, ks); Clogged(cfg, t, o, dir) && Other(d.s.pairs[o], o) in t.s.closed
    decreases StepsToClose(d.s.handlers[Other(d.s.pairs[o], o)])
  {
    var c := Other(d.s.pairs[o], o);
    var ph := d.s.handlers[c];
    if !ph.Closing? && ph.id.sid in d.s.pending { TableIsNotPaired(cfg, d.s, ph.id.sid, o); }
    var e := NextOwnStep(c, ph);
    assert PairSound(d.s, o);
    FirstMoves(cfg, d, o, dir, e);
    ks := [Protocol(e)];
    if !ph.Closing? {
      var rest := FirstCloses(cfg, ApplyStep(cfg, d, o, Protocol(e)), o, dir);
      ks := ks + rest;
      assert ks[1..] == rest;
    }
  }

  lemma {:induction false} AppendSteps(cfg: Config, d: Detail, o: Conn, ks: seq<Step>, ls: seq<Step>)
    requires ValidSteps(cfg, d, o, ks) && ValidSteps(cfg, ExecSteps(cfg, d, o, ks), o, ls)
    ensures ValidSteps(cfg, d, o, ks + ls)
    ensures ExecSteps(cfg, d, o, ks + ls) == ExecSteps(cfg, ExecSteps(cfg, d, o, ks), o, ls)
    decreases |ks|
  {
    if ks == [] {
      assert ks + ls == ls;
    } else {
      AppendSteps(cfg, ApplyStep(cfg, d, o, ks[0]), o, ks[1..], ls);
      assert (ks + ls)[1..] == ks[1..] + ls;
    }
  }

  /** So a first arriver that sends, and a second one that takes no data, block the copying
      handler although one end of the pair is closed. */
  lemma ClosedEndCanJam(cfg: Config, a: Identity, b: Identity) returns (ks: seq<Step>)
    requires !cfg.handsOver && 0 < cfg.maxDuration
    requires cfg.issued(a) && cfg.issued(b) && a.sid == b.sid && a.role != b.role
    ensures Valid(cfg, Init(0), PairingRun(a, b)) && ValidSteps(cfg, JustPaired(cfg, a, b), 1, ks)
    ensures var d := ExecSteps(cfg, JustPaired(cfg, a, b), 1, ks);
      Clogged(cfg, d, 1, FromFirst(b)) && 0 in d.s.closed && 1 !in d.s.closed && Blocked(cfg, d, 1)
  {
    ks := TrafficJams(cfg, a, b);
    var d, dir := JammedPair(cfg, a, b), FromFirst(b);
    RunsOfTheRelay(cfg, JustPaired(cfg, a, b), 1, ks);
    InvAlways(cfg, Init(0), PairingRun(a, b));
    InvAlways(cfg, JustPaired(cfg, a, b).s, EventsOf(ks));
    JammedPairIsClogged(cfg, a, b);
    var rest := FirstCloses(cfg, d, 1, dir);
    AppendSteps(cfg, JustPaired(cfg, a, b), 1, ks, rest);
    CloggedBlocks(cfg, ExecSteps(cfg, d, 1, rest), 1, dir);
    ks := ks + rest;
  }

  lemma JammedPairIsClogged(cfg: Config, a: Identity, b: Identity)
    requires 0 < cfg.maxDuration && Inv(cfg, JammedPair(cfg, a, b).s)
    ensures Clogged(cfg, JammedPair(cfg, a, b), 1, FromFirst(b))
  {
  }

  lemma CloggedBlocks(cfg: Config, d: Detail, o: Conn, dir: Direction)
    requires Clogged(cfg, d, o, dir)
    ensures Blocked(cfg, d, o) && o !in d.s.closed
  {
    BlockedIfStuck(cfg, d, o);
  }
}
