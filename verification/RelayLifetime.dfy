/** How long the two connections of a pair stay open: not long enough as the relay is
    written, and as long as intended once a waiting handler leaves a connection it has
    handed over alone. */
module RelayLifetime {
  import opened Common
  import opened RelayTable
  import opened RelayProtocol
  import opened RelayPairing

  /** The intended lifetime: the relay closes neither end of a pair before a side ends or
      the pair's maximum duration has passed. */
  ghost predicate PairsOpenUntilOver(s: State) {
    forall o, c | o in s.pairs && Member(s.pairs[o], c) && c in s.closed :: Over(s, s.pairs[o])
  }

  ghost predicate AlwaysOpenUntilOver(cfg: Config) {
    forall t0, es {:trigger Valid(cfg, Init(t0), es)} ::
      Valid(cfg, Init(t0), es) ==> PairsOpenUntilOver(Exec(cfg, Init(t0), es))
  }

  // ---------- As written: the first arriver's own handler closes its paired connection ----------

  function OwnSteps(es: seq<Event>, c: Conn): nat {
    if es == [] then 0 else (if Actor(es[0]) == Some(c) then 1 else 0) + OwnSteps(es[1..], c)
  }

  /** How many steps a handed-over waiting handler takes until it has closed its connection. */
  function StepsToClose(ph: Phase): nat {
    match ph
    case Registered(_) => 3
    case Polling(_, _, _) => 2
    case Polled(_, _, _) => 4
    case Sleeping(_, _, _, _) => 3
    case Expiring(_, _, _) => 2
    case Closing => 1
    case _ => 0
  }

  ghost predicate DoneMeansClosed(s: State) {
    forall c | c in s.handlers && s.handlers[c].Done? :: c in s.closed
  }

  lemma DoneMeansClosedKept(cfg: Config, s: State, e: Event)
    requires !cfg.handsOver && DoneMeansClosed(s) && Enabled(cfg, s, e)
    ensures DoneMeansClosed(Apply(cfg, s, e))
  {
  }

  /** One step seen from a first arriver `c` that has been taken by handler `o`. */
  lemma TakenStep(cfg: Config, s: State, e: Event, o: Conn)
    requires !cfg.handsOver && Inv(cfg, s) && Enabled(cfg, s, e) && o in s.pairs
    ensures var t := Apply(cfg, s, e);
      var c := Other(s.pairs[o], o);
      && o in t.pairs && Other(t.pairs[o], o) == c && At(s, c) && At(t, c)
      && StepsToClose(t.handlers[c]) + (if Actor(e) == Some(c) then 1 else 0) <= StepsToClose(s.handlers[c])
  {
    var c := Other(s.pairs[o], o);
    assert PairSound(s, o);
    PairPersists(cfg, s, e, o);
    if Actor(e) == Some(c) {
      if Waiting(s.handlers[c]) && s.handlers[c].id.sid in s.pending {
        assert EntryOwned(cfg, s, s.handlers[c].id.sid);
      }
    } else {
      OthersStay(cfg, s, e, c);
    }
  }

  lemma PairPersists(cfg: Config, s: State, e: Event, o: Conn)
    requires Inv(cfg, s) && Enabled(cfg, s, e) && o in s.pairs
    ensures o in Apply(cfg, s, e).pairs
    ensures Apply(cfg, s, e).pairs[o] == s.pairs[o] || (e == SetDeadlines(o) &&
      Apply(cfg, s, e).pairs[o] == s.pairs[o].(deadline := Some(s.now + cfg.maxDuration)))
  {
    assert PairSound(s, o);
  }

  /** As written, whatever the traffic and the other handlers do: once a first arriver has
      been paired, at most four further steps of its own handler close its connection. */
  lemma {:induction false} FirstArriverIsClosed(cfg: Config, s: State, es: seq<Event>, o: Conn)
    requires !cfg.handsOver && Inv(cfg, s) && DoneMeansClosed(s) && Valid(cfg, s, es) && o in s.pairs
    requires At(s, Other(s.pairs[o], o))
    requires StepsToClose(s.handlers[Other(s.pairs[o], o)]) <= OwnSteps(es, Other(s.pairs[o], o))
    ensures StepsToClose(s.handlers[Other(s.pairs[o], o)]) <= 4
    ensures Other(s.pairs[o], o) in Exec(cfg, s, es).closed
    decreases |es|
  {
    assert PairSound(s, o);
    var c := Other(s.pairs[o], o);
    if es != [] {
      TakenStep(cfg, s, es[0], o);
      InvKept(cfg, s, es[0]);
      DoneMeansClosedKept(cfg, s, es[0]);
      FirstArriverIsClosed(cfg, Apply(cfg, s, es[0]), es[1..], o);
    }
  }

  /** The same, from the start of the relay: a run `es` that pairs a first arriver, followed
      by any run `fs` in which its handler gets four steps, ends with that connection closed. */
  lemma PairedThenClosed(cfg: Config, t0: Time, es: seq<Event>, fs: seq<Event>, o: Conn)
    requires !cfg.handsOver && Valid(cfg, Init(t0), es) && o in Exec(cfg, Init(t0), es).pairs
    requires Valid(cfg, Exec(cfg, Init(t0), es), fs)
    requires 4 <= OwnSteps(fs, Other(Exec(cfg, Init(t0), es).pairs[o], o))
    ensures Other(Exec(cfg, Init(t0), es).pairs[o], o) in Exec(cfg, Exec(cfg, Init(t0), es), fs).closed
  {
    InvAlways(cfg, Init(t0), es);
    DoneMeansClosedAlways(cfg, Init(t0), es);
    var s := Exec(cfg, Init(t0), es);
    assert PairSound(s, o);
    FirstArriverIsClosed(cfg, s, fs, o);
  }

  lemma {:induction false} DoneMeansClosedAlways(cfg: Config, s: State, es: seq<Event>)
    requires !cfg.handsOver && DoneMeansClosed(s) && Valid(cfg, s, es)
    ensures DoneMeansClosed(Exec(cfg, s, es))
    decreases |es|
  {
    if es != [] {
      DoneMeansClosedKept(cfg, s, es[0]);
      DoneMeansClosedAlways(cfg, Apply(cfg, s, es[0]), es[1..]);
    }
  }

  /** The next step of a waiting or closing handler. */
  function NextOwnStep(c: Conn, ph: Phase): Event
    requires Waiting(ph) || ph.Closing?
  {
    match ph
    case Registered(_) => BeginWait(c)
    case Polling(_, _, _) => Poll(c)
    case Polled(_, _, _) => CheckDeadline(c)
    case Sleeping(_, _, _, _) => Wake(c)
    case Expiring(_, _, _) => Expire(c)
    case Closing => CloseOwn(c)
  }

  /** Those steps are never blocked: each is enabled at once or after at most one poll step. */
  lemma OwnStepComes(cfg: Config, s: State, c: Conn)
    requires Inv(cfg, s) && At(s, c) && (Waiting(s.handlers[c]) || s.handlers[c].Closing?)
    ensures exists d :: 0 <= d <= POLL_STEP && Enabled(cfg, Apply(cfg, s, Tick(d)), NextOwnStep(c, s.handlers[c]))
  {
    assert HandlerSound(cfg, s, c);
    var ph := s.handlers[c];
    var d := if ph.Sleeping? && s.now < ph.until then ph.until - s.now else 0;
    assert Enabled(cfg, Apply(cfg, s, Tick(d)), NextOwnStep(c, ph));
  }

  /** The connections closed by one step. */
  function ClosedBy(cfg: Config, s: State, e: Event): set<Conn>
    requires Enabled(cfg, s, e)
  {
    match e
    case Register(c) => Displaced(s.pending, s.handlers[c].id)
    case CloseDest(c, dir) => {Dest(s.pairs[c], dir)}
    case CloseOwn(c) => {c}
    case Sweep => SweptConns(s.pending, s.now - cfg.pairTimeout)
    case _ => {}
  }

  lemma ClosedByIsAll(cfg: Config, s: State, e: Event)
    requires Enabled(cfg, s, e)
    ensures Apply(cfg, s, e).closed == s.closed + ClosedBy(cfg, s, e)
  {
  }

  // ---------- ... and so ends the pair ----------

  function CopyLeft(k: Copy): nat { if k.Running? then 2 else if k.Returned? then 1 else 0 }

  /** How many steps the copying handler takes until it has returned. */
  function StepsToEnd(ph: Phase): nat {
    match ph
    case Matching => 7
    case Copying(a, b) => CopyLeft(a) + CopyLeft(b) + 2
    case Closing => 1
    case _ => 0
  }

  /** A finished direction has closed its destination, and a handler past its copies both. */
  predicate CopiesClose(s: State, o: Conn)
    requires o in s.pairs
  {
    At(s, o) &&
    var p, ph := s.pairs[o], s.handlers[o];
    && (ph.Copying? && ph.toJoiner.Finished? ==> p.joiner in s.closed)
    && (ph.Copying? && ph.toHost.Finished? ==> p.host in s.closed)
    && (ph.Closing? || ph.Done? ==> p.host in s.closed && p.joiner in s.closed)
  }

  lemma OwnerProgress(cfg: Config, s: State, e: Event, o: Conn)
    requires Inv(cfg, s) && Enabled(cfg, s, e) && o in s.pairs && CopiesClose(s, o)
    ensures var t := Apply(cfg, s, e);
      && o in t.pairs && t.pairs[o].host == s.pairs[o].host && t.pairs[o].joiner == s.pairs[o].joiner
      && CopiesClose(t, o)
      && StepsToEnd(t.handlers[o]) + (if Actor(e) == Some(o) then 1 else 0) <= StepsToEnd(s.handlers[o])
  {
    assert PairSound(s, o);
    PairPersists(cfg, s, e, o);
    ClosedByIsAll(cfg, s, e);
    if Actor(e) != Some(o) { OthersStay(cfg, s, e, o); }
  }

  /** Seven steps of the copying handler end the pair: both connections are closed. */
  lemma {:induction false} PairEnds(cfg: Config, s: State, es: seq<Event>, o: Conn)
    requires Inv(cfg, s) && Valid(cfg, s, es) && o in s.pairs && CopiesClose(s, o)
    requires StepsToEnd(s.handlers[o]) <= OwnSteps(es, o)
    ensures StepsToEnd(s.handlers[o]) <= 7
    ensures s.pairs[o].host in Exec(cfg, s, es).closed && s.pairs[o].joiner in Exec(cfg, s, es).closed
    decreases |es|
  {
    assert PairSound(s, o);
    if es != [] {
      OwnerProgress(cfg, s, es[0], o);
      InvKept(cfg, s, es[0]);
      PairEnds(cfg, Apply(cfg, s, es[0]), es[1..], o);
    }
  }

  lemma {:induction false} CopiesCloseAlways(cfg: Config, s: State, es: seq<Event>)
    requires Inv(cfg, s) && Valid(cfg, s, es) && forall o | o in s.pairs :: CopiesClose(s, o)
    ensures forall o | o in Exec(cfg, s, es).pairs :: CopiesClose(Exec(cfg, s, es), o)
    decreases |es|
  {
    if es != [] {
      var t := Apply(cfg, s, es[0]);
      forall o | o in t.pairs ensures CopiesClose(t, o) {
        if o in s.pairs { OwnerProgress(cfg, s, es[0], o); } else { OnlyRegisterPairs(cfg, s, es[0], o); }
      }
      InvKept(cfg, s, es[0]);
      CopiesCloseAlways(cfg, t, es[1..]);
    }
  }

  /** The same from the start of the relay. */
  lemma PairedThenEnded(cfg: Config, t0: Time, es: seq<Event>, fs: seq<Event>, o: Conn)
    requires Valid(cfg, Init(t0), es) && o in Exec(cfg, Init(t0), es).pairs && Valid(cfg, Exec(cfg, Init(t0), es), fs)
    requires 7 <= OwnSteps(fs, o)
    ensures var s := Exec(cfg, Init(t0), es);
      s.pairs[o].host in Exec(cfg, s, fs).closed && s.pairs[o].joiner in Exec(cfg, s, fs).closed
  {
    InvAlways(cfg, Init(t0), es);
    CopiesCloseAlways(cfg, Init(t0), es);
    var s := Exec(cfg, Init(t0), es);
    assert StepsToEnd(s.handlers[o]) <= 7;
    PairEnds(cfg, s, fs, o);
  }

  lemma {:induction false} DeadlineStays(cfg: Config, s: State, es: seq<Event>, o: Conn)
    requires Inv(cfg, s) && Valid(cfg, s, es) && o in s.pairs && At(s, o) && !s.handlers[o].Matching?
    ensures var t := Exec(cfg, s, es); o in t.pairs && t.pairs[o] == s.pairs[o]
    decreases |es|
  {
    if es != [] {
      assert PairSound(s, o);
      PairPersists(cfg, s, es[0], o);
      InvKept(cfg, s, es[0]);
      if Actor(es[0]) != Some(o) { OthersStay(cfg, s, es[0], o); }
      DeadlineStays(cfg, Apply(cfg, s, es[0]), es[1..], o);
    }
  }

  /** The maximum duration counts from the moment at which the deadlines are set: on every run
      from there on, the pair is over exactly when a side has ended or that much time has
      passed. */
  lemma OverExactly(cfg: Config, s: State, o: Conn, es: seq<Event>)
    requires Inv(cfg, s) && Enabled(cfg, s, SetDeadlines(o)) && Valid(cfg, Apply(cfg, s, SetDeadlines(o)), es)
    ensures var p, t := s.pairs[o], Exec(cfg, Apply(cfg, s, SetDeadlines(o)), es);
      && o in t.pairs && t.pairs[o].host == p.host && t.pairs[o].joiner == p.joiner
      && (Over(t, t.pairs[o]) <==> p.host in t.ended || p.joiner in t.ended || cfg.maxDuration <= t.now - s.now)
  {
    InvKept(cfg, s, SetDeadlines(o));
    DeadlineStays(cfg, Apply(cfg, s, SetDeadlines(o)), es, o);
  }

  /** A side has ended exactly when its peer has gone, and the clock shows what has passed. */
  lemma {:induction false} EndedExactly(cfg: Config, s: State, es: seq<Event>, c: Conn)
    requires Valid(cfg, s, es)
    ensures c in Exec(cfg, s, es).ended <==> c in s.ended || PeerEnds(c) in es
    ensures Exec(cfg, s, es).now == s.now + Passed(es)
    decreases |es|
  {
    if es != [] {
      assert es == [es[0]] + es[1..];
      EndedStep(cfg, s, es[0], c);
      EndedExactly(cfg, Apply(cfg, s, es[0]), es[1..], c);
    }
  }

  lemma EndedStep(cfg: Config, s: State, e: Event, c: Conn)
    requires Enabled(cfg, s, e)
    ensures c in Apply(cfg, s, e).ended <==> c in s.ended || e == PeerEnds(c)
    ensures Apply(cfg, s, e).now == s.now + if e.Tick? then e.d else 0
  {
  }

  function Passed(es: seq<Event>): Time {
    if es == [] then 0 else (if es[0].Tick? then es[0].d else 0) + Passed(es[1..])
  }

  /** Once either end has been closed the copying handler has a step that waits for no data: a
      copy it needs to return copies out of a closed connection, so that its Read fails. Whether
      that copy sits in a Write instead, and can stay there, is the subject of `RelayStall`. */
  lemma ClosedEndUnblocks(cfg: Config, s: State, o: Conn)
    requires Inv(cfg, s) && o in s.pairs && CopiesClose(s, o) && !s.handlers[o].Done?
    requires s.pairs[o].host in s.closed || s.pairs[o].joiner in s.closed
    ensures exists e ::
      Actor(e) == Some(o) && Enabled(cfg, s, e) && (e.CopyReturns? ==> Source(s.pairs[o], e.dir) in s.closed)
  {
    assert PairSound(s, o);
    var p, ph := s.pairs[o], s.handlers[o];
    var e :=
      if ph.Matching? then SetDeadlines(o)
      else if ph.Closing? then CloseOwn(o)
      else if ph.toJoiner.Returned? then CloseDest(o, HostToJoiner)
      else if ph.toHost.Returned? then CloseDest(o, JoinerToHost)
      else if ph.toJoiner.Running? && p.host in s.closed then CopyReturns(o, HostToJoiner)
      else if ph.toHost.Running? then CopyReturns(o, JoinerToHost)
      else PairOver(o);
    assert Actor(e) == Some(o) && Enabled(cfg, s, e);
  }

  // ---------- With hand-over: the intended lifetime ----------

  /** What one pair looks like when connections are handed over. */
  predicate Respected(s: State, o: Conn)
    requires o in s.pairs
  {
    var p := s.pairs[o];
    At(s, o) && At(s, Other(p, o)) && !s.handlers[Other(p, o)].Closing? &&
    var ph := s.handlers[o];
    && (p.host in s.closed || p.joiner in s.closed ==> Over(s, p))
    && (ph.Copying? && (!ph.toJoiner.Running? || !ph.toHost.Running?) ==> Over(s, p))
    && CopiesClose(s, o)
    && (ph.Closing? || ph.Done? ==> Over(s, p))
    && (ph.Matching? ==> p.deadline.None?)
  }

  ghost predicate LifeInv(s: State) {
    && (forall o {:trigger Respected(s, o)} | o in s.pairs :: Respected(s, o))
    && (forall c | c in s.handlers && s.handlers[c].Done? :: c in s.closed || c in s.takenBy)
  }

  /** Closing a connection out of the table never hits an end of a pair. */
  lemma TableIsNotPaired(cfg: Config, s: State, sid: SessionId, o: Conn)
    requires Inv(cfg, s) && sid in s.pending && o in s.pairs
    ensures !Member(s.pairs[o], s.pending[sid].conn)
  {
    assert EntryOwned(cfg, s, sid) && PairSound(s, o);
  }

  /** With hand-over, a step closes an end of a pair only if the pair is over. */
  lemma ClosesOnlyOver(cfg: Config, s: State, e: Event, o: Conn, c: Conn)
    requires cfg.handsOver && Inv(cfg, s) && LifeInv(s) && Enabled(cfg, s, e) && o in s.pairs
    requires Member(s.pairs[o], c) && c in ClosedBy(cfg, s, e)
    ensures Over(s, s.pairs[o])
  {
    assert PairSound(s, o) && Respected(s, o);
    match e
    case Register(d) => TableIsNotPaired(cfg, s, s.handlers[d].id.sid, o);
    case CloseDest(d, _) =>
      if d != o { TwoPairsAreDisjoint(cfg, s, o, d); }
    case Sweep =>
      var sid :| sid in s.pending && s.pending[sid].conn == c;
      TableIsNotPaired(cfg, s, sid, o);
    case _ =>
  }

  lemma RespectedKept(cfg: Config, s: State, e: Event, o: Conn)
    requires cfg.handsOver && Inv(cfg, s) && LifeInv(s) && Enabled(cfg, s, e) && o in s.pairs
    ensures Respected(Apply(cfg, s, e), o)
  {
    var p := s.pairs[o];
    assert PairSound(s, o) && Respected(s, o);
    PairPersists(cfg, s, e, o);
    ClosedByIsAll(cfg, s, e);
    StaysOver(cfg, s, e, o);
    if p.host in ClosedBy(cfg, s, e) { ClosesOnlyOver(cfg, s, e, o, p.host); }
    if p.joiner in ClosedBy(cfg, s, e) { ClosesOnlyOver(cfg, s, e, o, p.joiner); }
    FirstNeverCloses(cfg, s, e, o);
    if Actor(e) == Some(o) {
      OwnerStep(cfg, s, e, o);
      OwnerStepRespects(cfg, s, e, o);
    } else {
      OthersStay(cfg, s, e, o);
    }
  }

  lemma StaysOver(cfg: Config, s: State, e: Event, o: Conn)
    requires Enabled(cfg, s, e) && o in s.pairs && o in Apply(cfg, s, e).pairs
    requires Respected(s, o) && (Apply(cfg, s, e).pairs[o] == s.pairs[o] || (e == SetDeadlines(o) &&
      Apply(cfg, s, e).pairs[o] == s.pairs[o].(deadline := Some(s.now + cfg.maxDuration))))
    ensures Over(s, s.pairs[o]) ==> Over(Apply(cfg, s, e), Apply(cfg, s, e).pairs[o])
  {
  }

  lemma OwnerStepRespects(cfg: Config, s: State, e: Event, o: Conn)
    requires Enabled(cfg, s, e) && Actor(e) == Some(o) && o in s.pairs && Respected(s, o) && PairSound(s, o)
    requires e.SetDeadlines? || e.CopyReturns? || e.CloseDest? || e.PairOver? || e.CloseOwn?
    requires e.CopyReturns? ==> Over(s, s.pairs[o])
    ensures Respected(Apply(cfg, s, e), o)
  {
  }

  lemma FirstNeverCloses(cfg: Config, s: State, e: Event, o: Conn)
    requires cfg.handsOver && Inv(cfg, s) && Enabled(cfg, s, e) && o in s.pairs && Respected(s, o)
    ensures var c := Other(s.pairs[o], o); At(Apply(cfg, s, e), c) && !Apply(cfg, s, e).handlers[c].Closing?
  {
    var c := Other(s.pairs[o], o);
    assert PairSound(s, o);
    if Actor(e) == Some(c) {
      if Waiting(s.handlers[c]) && s.handlers[c].id.sid in s.pending {
        assert EntryOwned(cfg, s, s.handlers[c].id.sid);
      }
    } else {
      OthersStay(cfg, s, e, c);
    }
  }

  /** The copying handler's own steps. */
  lemma OwnerStep(cfg: Config, s: State, e: Event, o: Conn)
    requires cfg.handsOver && Inv(cfg, s) && LifeInv(s) && Enabled(cfg, s, e) && o in s.pairs && Actor(e) == Some(o)
    ensures e.SetDeadlines? || e.CopyReturns? || e.CloseDest? || e.PairOver? || e.CloseOwn?
    ensures e.CopyReturns? ==> Over(s, s.pairs[o])
  {
    assert PairSound(s, o) && Respected(s, o);
  }

  lemma LifeInvKept(cfg: Config, s: State, e: Event)
    requires cfg.handsOver && Inv(cfg, s) && LifeInv(s) && Enabled(cfg, s, e)
    ensures LifeInv(Apply(cfg, s, e))
  {
    var t := Apply(cfg, s, e);
    forall o | o in t.pairs ensures Respected(t, o) {
      if o in s.pairs {
        RespectedKept(cfg, s, e, o);
      } else {
        OnlyRegisterPairs(cfg, s, e, o);
        NewPairRespected(cfg, s, o);
      }
    }
    forall c | c in t.handlers && t.handlers[c].Done? ensures c in t.closed || c in t.takenBy {
      if Actor(e) == Some(c) && c in s.handlers {
        assert HandlerSound(cfg, s, c);
      } else {
        OthersStay(cfg, s, e, c);
      }
    }
  }

  lemma OnlyRegisterPairs(cfg: Config, s: State, e: Event, o: Conn)
    requires Enabled(cfg, s, e) && o !in s.pairs && o in Apply(cfg, s, e).pairs
    ensures e == Register(o) && Complements(s.pending, s.handlers[o].id)
  {
  }

  lemma NewPairRespected(cfg: Config, s: State, o: Conn)
    requires Inv(cfg, s) && Enabled(cfg, s, Register(o)) && Complements(s.pending, s.handlers[o].id)
    ensures o in Apply(cfg, s, Register(o)).pairs && Respected(Apply(cfg, s, Register(o)), o)
  {
    assert HandlerSound(cfg, s, o);
    assert EntryOwned(cfg, s, s.handlers[o].id.sid);
    assert Apply(cfg, s, Register(o)).closed == s.closed;
  }

  lemma {:induction false} LifeInvAlways(cfg: Config, s: State, es: seq<Event>)
    requires cfg.handsOver && Inv(cfg, s) && LifeInv(s) && Valid(cfg, s, es)
    ensures LifeInv(Exec(cfg, s, es))
    decreases |es|
  {
    if es != [] {
      InvKept(cfg, s, es[0]);
      LifeInvKept(cfg, s, es[0]);
      LifeInvAlways(cfg, Apply(cfg, s, es[0]), es[1..]);
    }
  }

  /** With hand-over no connection is forgotten: one whose handler has returned is closed,
      or is the first end of a pair whose copying handler has not returned yet. */
  lemma HandOverLeaksNothing(cfg: Config, t0: Time, es: seq<Event>, c: Conn)
    requires cfg.handsOver && Valid(cfg, Init(t0), es)
    requires var s := Exec(cfg, Init(t0), es); At(s, c) && s.handlers[c].Done? && c !in s.closed
    ensures var s := Exec(cfg, Init(t0), es);
      c in s.takenBy && s.takenBy[c] in s.pairs && Member(s.pairs[s.takenBy[c]], c) &&
      At(s, s.takenBy[c]) && (s.handlers[s.takenBy[c]].Matching? || s.handlers[s.takenBy[c]].Copying?)
  {
    InvAlways(cfg, Init(t0), es);
    LifeInvAlways(cfg, Init(t0), es);
    var s := Exec(cfg, Init(t0), es);
    assert HandlerSound(cfg, s, c);
    assert PairSound(s, s.takenBy[c]) && Respected(s, s.takenBy[c]);
  }

  // ---------- Exactly when the intended lifetime holds ----------

  ghost predicate NothingToPair(cfg: Config) {
    forall a: Identity, b: Identity :: cfg.issued(a) && cfg.issued(b) && a.sid == b.sid ==> a.role == b.role
  }

  /** The shortest run that breaks the lifetime: pair, then let the first arriver poll. */
  function BrokenRun(a: Identity, b: Identity): seq<Event> {
    PairingRun(a, b) + [BeginWait(0)] + [Poll(0)] + [CloseOwn(0)]
  }

  lemma BrokenRunBreaks(cfg: Config, a: Identity, b: Identity)
    requires !cfg.handsOver && cfg.issued(a) && cfg.issued(b) && a.sid == b.sid && a.role != b.role
    ensures Valid(cfg, Init(0), BrokenRun(a, b))
    ensures !PairsOpenUntilOver(Exec(cfg, Init(0), BrokenRun(a, b)))
  {
    var r := PairingRun(a, b);
    PairingRunPairs(cfg, 0, a, b);
    Extend(cfg, Init(0), r, BeginWait(0));
    r := r + [BeginWait(0)];
    Extend(cfg, Init(0), r, Poll(0));
    r := r + [Poll(0)];
    Extend(cfg, Init(0), r, CloseOwn(0));
    var s := Exec(cfg, Init(0), BrokenRun(a, b));
    assert 1 in s.pairs && Member(s.pairs[1], 0) && 0 in s.closed && !Over(s, s.pairs[1]);
  }

  /** The intended lifetime holds on every run exactly when connections are handed over, or
      when no pair can form at all. */
  lemma LifetimeNeedsHandOver(cfg: Config)
    ensures AlwaysOpenUntilOver(cfg) <==> cfg.handsOver || NothingToPair(cfg)
  {
    if cfg.handsOver || NothingToPair(cfg) {
      forall t0, es | Valid(cfg, Init(t0), es) ensures PairsOpenUntilOver(Exec(cfg, Init(t0), es)) {
        var s := Exec(cfg, Init(t0), es);
        InvAlways(cfg, Init(t0), es);
        if cfg.handsOver { LifeInvAlways(cfg, Init(t0), es); }
        forall o, c | o in s.pairs && Member(s.pairs[o], c) && c in s.closed ensures Over(s, s.pairs[o]) {
          assert PairSound(s, o);
          assert cfg.handsOver ==> Respected(s, o);
        }
      }
    } else {
      var a: Identity, b: Identity :| cfg.issued(a) && cfg.issued(b) && a.sid == b.sid && a.role != b.role;
      BrokenRunBreaks(cfg, a, b);
    }
  }
}
