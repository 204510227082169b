/** When BridgeToTCP returns (internal/p2p/webrtc.go): it waits for its two loops, neither of
    which stops the other, while closing the peer connection does not close the game's socket.
    `down` copies messages to the socket and `up` copies the socket to the data channel. */
module PeerShutdown {
  import MB = MessageBuffer

  /** Blocked in its read, holding what it has read, or returned. */
  datatype Loop = Waiting | Holding | Done

  /** What a Write to the game's socket does: it returns, blocks until the game reads on, or
      returns an error. */
  datatype Writes = Flowing | Stalled | Failing

  /** `inbox` messages are buffered, `unread` chunks of the game have not been read, `closed`
      tells that closeCh is, `ended` that the game's stream has ended or failed, and
      `refuses` that the data channel no longer sends. */
  datatype State = State(
    inbox: nat,
    unread: nat,
    closed: bool,
    ended: bool,
    writes: Writes,
    refuses: bool,
    down: Loop,
    up: Loop)

  /** Close closes the data channel too. */
  predicate ChannelFollows(s: State) { s.closed ==> s.refuses }

  /** Both loops have been started; the surroundings may be in any state. */
  predicate Starts(s: State) { s.down.Waiting? && s.up.Waiting? && ChannelFollows(s) }

  datatype Event =
    // The surroundings.
    | MessageArrives
    | GameSends
    | PeerCloses
    | GameEnds(reset: bool)
    | SocketTurns(writes: Writes)
    | ChannelRefuses
    // The loop from the channel to the socket.
    | TakeMessage
    | SeeClose
    | WriteReturns
    // The loop from the socket to the channel.
    | ReadChunk
    | SeeEnd
    | SendReturns

  predicate OfLoops(e: Event) {
    e.TakeMessage? || e.SeeClose? || e.WriteReturns? || e.ReadChunk? || e.SeeEnd? || e.SendReturns?
  }

  predicate Enabled(s: State, e: Event) {
    match e
    case GameSends => !s.ended
    case SocketTurns(_) => !s.writes.Failing?
    case TakeMessage => s.down.Waiting? && s.inbox > 0
    case SeeClose => s.down.Waiting? && s.closed
    case WriteReturns => s.down.Holding? && !s.writes.Stalled?
    case ReadChunk => s.up.Waiting? && s.unread > 0
    case SeeEnd => s.up.Waiting? && s.ended && s.unread == 0
    case SendReturns => s.up.Holding?
    case _ => true
  }

  function Apply(s: State, e: Event): State
    requires Enabled(s, e)
  {
    match e
    case MessageArrives => if s.inbox < MB.CAPACITY then s.(inbox := s.inbox + 1) else s
    case GameSends => s.(unread := s.unread + 1)
    case PeerCloses => s.(closed := true, refuses := true)
    case GameEnds(reset) => s.(ended := true, unread := if reset then 0 else s.unread)
    case SocketTurns(w) => s.(writes := w)
    case ChannelRefuses => s.(refuses := true)
    case TakeMessage => s.(inbox := s.inbox - 1, down := Holding)
    case SeeClose => s.(down := Done)
    case WriteReturns => s.(down := if s.writes.Failing? then Done else Waiting)
    case ReadChunk => s.(unread := s.unread - 1, up := Holding)
    case SeeEnd => s.(up := Done)
    case SendReturns => s.(up := if s.refuses then Done else Waiting)
  }

  ghost predicate Valid(s: State, es: seq<Event>)
    decreases |es|
  {
    es != [] ==> Enabled(s, es[0]) && Valid(Apply(s, es[0]), es[1..])
  }

  ghost function Exec(s: State, es: seq<Event>): State
    requires Valid(s, es)
    decreases |es|
  {
    if es == [] then s else Exec(Apply(s, es[0]), es[1..])
  }

  /** wg.Wait has returned, and with it BridgeToTCP. */
  predicate Returned(s: State) { s.down.Done? && s.up.Done? }

  // ---------- What the surroundings do ----------

  /** How the socket takes writes after a run: as the last change left it. */
  function LastWrites(es: seq<Event>, start: Writes): Writes {
    if es == [] then start
    else LastWrites(es[1..], if es[0].SocketTurns? then es[0].writes else start)
  }

  /** How many chunks the game has sent, and `up` has read, along a run. */
  function Sent(es: seq<Event>): nat {
    if es == [] then 0 else (if es[0].GameSends? then 1 else 0) + Sent(es[1..])
  }

  function Fetched(es: seq<Event>): nat {
    if es == [] then 0 else (if es[0].ReadChunk? then 1 else 0) + Fetched(es[1..])
  }

  /** The flags are what the events of the run say, and unless the game resets its connection
      every chunk that it sent is unread or has been read. */
  lemma {:induction false} SurroundingsExactly(s: State, es: seq<Event>)
    requires Valid(s, es) && GameEnds(true) !in es
    ensures var t := Exec(s, es);
      && (t.closed <==> s.closed || PeerCloses in es)
      && (t.ended <==> s.ended || GameEnds(false) in es)
      && (t.refuses <==> s.refuses || ChannelRefuses in es || PeerCloses in es)
      && t.writes == LastWrites(es, s.writes)
      && t.unread + Fetched(es) == s.unread + Sent(es)
    decreases |es|
  {
    if es != [] {
      assert es == [es[0]] + es[1..];
      SurroundingsExactly(Apply(s, es[0]), es[1..]);
    }
  }

  // ---------- Why it has returned ----------

  predicate Explained(s: State) {
    && (s.down.Done? ==> s.closed || s.writes.Failing?)
    && (s.up.Done? ==> s.ended || s.refuses)
    && ChannelFollows(s)
  }

  lemma {:induction false} ExplainedAlways(s: State, es: seq<Event>)
    requires Explained(s) && Valid(s, es)
    ensures Explained(Exec(s, es))
    decreases |es|
  {
    if es != [] { ExplainedAlways(Apply(s, es[0]), es[1..]); }
  }

  /** On every run: once BridgeToTCP has returned, the peer was closed or the socket broke,
      and the game's stream ended or the channel refused to send. */
  lemma ReturnedBecause(s: State, es: seq<Event>)
    requires Starts(s) && Valid(s, es) && Returned(Exec(s, es))
    ensures var t := Exec(s, es); (t.closed || t.writes.Failing?) && (t.ended || t.refuses)
  {
    ExplainedAlways(s, es);
  }

  /** The game is gone, and nothing has told the other loop. */
  predicate WaitsForPeer(s: State) { !s.down.Done? && !s.closed && !s.writes.Failing? }

  /** The peer is gone, and the game is idle. */
  predicate WaitsForGame(s: State) { s.up.Waiting? && s.unread == 0 && !s.ended }

  predicate EndsPeer(e: Event) { e.PeerCloses? || e == SocketTurns(Failing) }
  predicate WakesGame(e: Event) { e.GameSends? || e.GameEnds? }

  /** BridgeToTCP stays in wg.Wait after the game's stream has ended, for as long as the peer
      stays open and the socket does not refuse a write. */
  lemma {:induction false} GameEndIsNotEnough(s: State, es: seq<Event>)
    requires WaitsForPeer(s) && Valid(s, es) && forall i | 0 <= i < |es| :: !EndsPeer(es[i])
    ensures WaitsForPeer(Exec(s, es)) && !Returned(Exec(s, es))
    decreases |es|
  {
    if es != [] { GameEndIsNotEnough(Apply(s, es[0]), es[1..]); }
  }

  /** And it stays there after the peer has been closed, for as long as the game is idle. */
  lemma {:induction false} PeerCloseIsNotEnough(s: State, es: seq<Event>)
    requires WaitsForGame(s) && Valid(s, es) && forall i | 0 <= i < |es| :: !WakesGame(es[i])
    ensures WaitsForGame(Exec(s, es)) && !Returned(Exec(s, es))
    decreases |es|
  {
    if es != [] { PeerCloseIsNotEnough(Apply(s, es[0]), es[1..]); }
  }

  // ---------- Exactly when it returns ----------

  /** A run in which the surroundings have fallen silent. */
  ghost predicate SilentRun(s: State, es: seq<Event>)
    decreases |es|
  {
    es != [] ==> OfLoops(es[0]) && Enabled(s, es[0]) && SilentRun(Apply(s, es[0]), es[1..])
  }

  /** Neither loop can take a step. */
  predicate AtRest(s: State) {
    && (s.down.Waiting? ==> s.inbox == 0 && !s.closed)
    && (s.down.Holding? ==> s.writes.Stalled?)
    && (s.up.Waiting? ==> s.unread == 0 && !s.ended)
    && !s.up.Holding?
  }

  /** Whatever the loops pick, `down` returns. */
  predicate DownMust(s: State) {
    s.down.Done? ||
    match s.writes
    case Flowing => s.closed
    case Stalled => s.down.Waiting? && s.inbox == 0 && s.closed
    case Failing => s.down.Holding? || s.inbox > 0 || s.closed
  }

  /** `down` returns if it picks the close signal over a message it cannot write. */
  predicate DownMay(s: State) { DownMust(s) || (s.writes.Stalled? && s.down.Waiting? && s.closed) }

  predicate UpMust(s: State) {
    s.up.Done? || s.ended || (s.refuses && (s.up.Holding? || s.unread > 0))
  }

  predicate MustReturn(s: State) { DownMust(s) && UpMust(s) }
  predicate MayReturn(s: State) { DownMay(s) && UpMust(s) }

  function Weight(l: Loop): nat { if l.Done? then 0 else if l.Waiting? then 1 else 2 }

  function StepsLeft(s: State): nat { 2 * (s.inbox + s.unread) + Weight(s.down) + Weight(s.up) }

  lemma SilentStep(s: State, e: Event)
    requires OfLoops(e) && Enabled(s, e)
    ensures var t := Apply(s, e);
      && StepsLeft(t) < StepsLeft(s) && (UpMust(t) <==> UpMust(s))
      && (DownMust(s) ==> DownMust(t)) && (DownMay(t) ==> DownMay(s))
  {
  }

  /** The loops alone soon come to rest: this many steps bound every silent run, of which the
      possible outcomes only narrow. */
  lemma {:induction false} SilentRunsNarrow(s: State, es: seq<Event>)
    requires SilentRun(s, es)
    ensures Valid(s, es) && |es| + StepsLeft(Exec(s, es)) <= StepsLeft(s)
    ensures MustReturn(s) ==> MustReturn(Exec(s, es))
    ensures MayReturn(Exec(s, es)) ==> MayReturn(s)
    decreases |es|
  {
    if es != [] {
      SilentStep(s, es[0]);
      SilentRunsNarrow(Apply(s, es[0]), es[1..]);
    }
  }

  /** At rest nothing is left open. */
  lemma RestDecides(s: State)
    requires AtRest(s)
    ensures (Returned(s) <==> MustReturn(s)) && (Returned(s) <==> MayReturn(s))
  {
  }

  /** A step of a loop that has one, taking the close signal first if `eager` and last if not. */
  function NextStep(s: State, eager: bool): (e: Event)
    requires !AtRest(s)
    ensures OfLoops(e) && Enabled(s, e)
    ensures eager && MayReturn(s) ==> MayReturn(Apply(s, e))
    ensures !eager && !MustReturn(s) ==> !MustReturn(Apply(s, e))
  {
    if s.up.Holding? then SendReturns
    else if s.up.Waiting? && s.unread > 0 then ReadChunk
    else if s.up.Waiting? && s.ended then SeeEnd
    else if s.down.Holding? then WriteReturns
    else if s.closed && (eager || s.inbox == 0) then SeeClose
    else TakeMessage
  }

  /** Runs to rest that make the most, or the least, of the choices. */
  lemma {:induction false} ToRest(s: State, eager: bool) returns (es: seq<Event>)
    ensures SilentRun(s, es) && Valid(s, es) && AtRest(Exec(s, es))
    ensures eager && MayReturn(s) ==> Returned(Exec(s, es))
    ensures !eager && !MustReturn(s) ==> !Returned(Exec(s, es))
    decreases StepsLeft(s)
  {
    es := [];
    if AtRest(s) {
      RestDecides(s);
    } else {
      var e := NextStep(s, eager);
      SilentStep(s, e);
      var rest := ToRest(Apply(s, e), eager);
      es := [e] + rest;
      assert es[1..] == rest;
    }
  }

  ghost predicate RunsToRest(s: State, es: seq<Event>) {
    SilentRun(s, es) && Valid(s, es) && AtRest(Exec(s, es))
  }

  /** Once the surroundings are silent the loops come to rest, and BridgeToTCP has returned by
      then whatever they pick if and only if `MustReturn` holds, and for some choice if and
      only if `MayReturn` does; the two differ only for a stalled write. */
  lemma ReturnsExactly(s: State)
    ensures forall es :: SilentRun(s, es) ==> |es| <= StepsLeft(s)
    ensures (forall es :: RunsToRest(s, es) ==> Returned(Exec(s, es))) <==> MustReturn(s)
    ensures (exists es :: RunsToRest(s, es) && Returned(Exec(s, es))) <==> MayReturn(s)
  {
    forall es | SilentRun(s, es)
      ensures |es| <= StepsLeft(s)
      ensures RunsToRest(s, es) && MustReturn(s) ==> Returned(Exec(s, es))
      ensures RunsToRest(s, es) && Returned(Exec(s, es)) ==> MayReturn(s)
    {
      SilentRunsNarrow(s, es);
      if AtRest(Exec(s, es)) { RestDecides(Exec(s, es)); }
    }
    var lazily := ToRest(s, false);
    var eagerly := ToRest(s, true);
    assert RunsToRest(s, lazily) && RunsToRest(s, eagerly);
  }

  /** The game has sent, or ended, since `up` last looked. */
  predicate GameHasMoved(s: State) { s.up.Holding? || s.unread > 0 || s.ended }

  /** From the start: once the peer has been closed, `up` is bound to return exactly when the
      game moves, and BridgeToTCP exactly when also no stalled write is held or within reach. */
  lemma AfterCloseExactly(s: State, es: seq<Event>)
    requires Starts(s) && Valid(s, es) && Exec(s, es).closed
    ensures var t := Exec(s, es);
      && ((forall fs :: RunsToRest(t, fs) ==> Exec(t, fs).up.Done?) <==> t.up.Done? || GameHasMoved(t))
      && ((forall fs :: RunsToRest(t, fs) ==> Returned(Exec(t, fs))) <==>
            (t.up.Done? || GameHasMoved(t)) &&
            (t.writes.Stalled? ==> t.down.Done? || (t.down.Waiting? && t.inbox == 0)))
  {
    ExplainedAlways(s, es);
    var t := Exec(s, es);
    ReturnsExactly(t);
    forall fs | RunsToRest(t, fs) ensures Exec(t, fs).up.Done? <==> UpMust(t) { UpDecides(t, fs); }
    var fs := ToRest(t, false);
    assert RunsToRest(t, fs);
  }

  lemma {:induction false} UpDecides(s: State, es: seq<Event>)
    requires RunsToRest(s, es)
    ensures Exec(s, es).up.Done? <==> UpMust(s)
    decreases |es|
  {
    if es != [] {
      SilentStep(s, es[0]);
      UpDecides(Apply(s, es[0]), es[1..]);
    }
  }
}
