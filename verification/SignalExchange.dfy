/** The offer/answer exchange of one session (internal/p2p/signaling.go over
    internal/p2p/signal_server.go; the exchange of section 4 of RFC 3264): one host, any
    number of joiners that poll one shared inbox, calls that outlive the client that made
    them, lost responses, and a sweep at any moment. */
module SignalExchange {
  import opened Common
  import opened SignalLog

  datatype Client = TheHost | AJoiner(j: nat)

  function RoleOf(c: Client): string { if c.TheHost? then "host" else "joiner" }

  /** A request at the server: looked up, answered, or answered and consumed by its client. */
  datatype Call =
    | Adding(client: Client, msg: Message)
    | Acked(client: Client)
    | Getting(client: Client)
    | Replied(client: Client, signal: Signal)
    | Spent

  /** Where a client is; `on` is the call whose response it waits for. */
  datatype Phase =
    | Fresh
    | Sending(msg: Message, on: Option<nat>)
    | Polling(on: Option<nat>)
    | Holding(offer: Message)
    | Finished(answer: Message)
    | WrongType(got: Message)
    | Failed

  datatype Answering = Answering(offer: Message, answer: Message)

  /** `calls` only grows. `offer` is the host's, `carrier` the call that submits it, `taker`
      the call and joiner that read it from the log, `obtained` the joiners that received
      it, and `made` what each joiner answered to what. */
  datatype State = State(
    log: Log,
    listed: bool,
    phases: map<Client, Phase>,
    calls: seq<Call>,
    offer: Option<Message>,
    carrier: Option<nat>,
    taker: Option<(nat, nat)>,
    obtained: set<nat>,
    made: map<nat, Answering>)

  datatype Event =
    | MakeOffer(sdp: string)
    | Enter(j: nat)
    | MakeAnswer(j: nat, sdp: string)
    | Submit(c: Client)
    | Ask(c: Client)
    | Locked(n: nat)
    | Deliver(n: nat)
    | Abandon(c: Client)
    | GiveUp(c: Client)
    | Unlist

  const START := State(EMPTY, true, map[TheHost := Fresh], [], None, None, None, {}, map[])

  predicate At(s: State, c: Client) { c in s.phases }

  /** The response of call `n` is what its client is waiting for. */
  predicate Expected(s: State, n: nat) {
    n < |s.calls| &&
    match s.calls[n]
    case Acked(c) => At(s, c) && s.phases[c].Sending? && s.phases[c].on == Some(n)
    case Replied(c, _) => At(s, c) && s.phases[c].Polling? && s.phases[c].on == Some(n)
    case _ => false
  }

  predicate Enabled(s: State, e: Event) {
    match e
    case MakeOffer(_) => At(s, TheHost) && s.phases[TheHost].Fresh?
    case Enter(j) => !At(s, AJoiner(j))
    case MakeAnswer(j, _) => At(s, AJoiner(j)) && s.phases[AJoiner(j)].Holding?
    case Submit(c) => At(s, c) && s.phases[c].Sending? && s.phases[c].on.None?
    case Ask(c) => At(s, c) && s.phases[c].Polling? && s.phases[c].on.None?
    case Locked(n) => n < |s.calls| && (s.calls[n].Adding? || s.calls[n].Getting?)
    case Deliver(n) => Expected(s, n)
    case Abandon(c) => At(s, c) && (s.phases[c].Polling? || s.phases[c].Sending?) && s.phases[c].on.Some?
    case GiveUp(c) =>
      At(s, c) && (s.phases[c].Polling? || s.phases[c].Sending? || s.phases[c].Holding? || s.phases[c].Fresh?)
    case Unlist => true
  }

  function Move(s: State, c: Client, ph: Phase): State { s.(phases := s.phases[c := ph]) }

  /** The type checks at the end of WaitForSignal in the two exchanges. */
  function Accepts(c: Client, m: Message): bool { m.kind == if c.TheHost? then "answer" else "offer" }

  function Received(s: State, c: Client, signal: Signal): State {
    if signal.None? then Move(s, c, Polling(None))
    else if !Accepts(c, signal.value) then Move(s, c, WrongType(signal.value))
    else if c.TheHost? then Move(s, c, Finished(signal.value))
    else Move(s, c, Holding(signal.value)).(obtained := s.obtained + {c.j})
  }

  function Apply(s: State, e: Event): State
    requires Enabled(s, e)
  {
    match e
    case MakeOffer(sdp) => Move(s, TheHost, Sending(Message("offer", sdp), None)).(offer := Some(Message("offer", sdp)))
    case Enter(j) => Move(s, AJoiner(j), Polling(None))
    case MakeAnswer(j, sdp) =>
      Move(s, AJoiner(j), Sending(Message("answer", sdp), None)).(
        made := s.made[j := Answering(s.phases[AJoiner(j)].offer, Message("answer", sdp))])
    case Submit(c) =>
      var msg := s.phases[c].msg;
      if !s.listed then Move(s, c, Failed)
      else Move(s, c, Sending(msg, Some(|s.calls|))).(
        calls := s.calls + [Adding(c, msg)], carrier := if c.TheHost? then Some(|s.calls|) else s.carrier)
    case Ask(c) =>
      if !s.listed then s
      else Move(s, c, Polling(Some(|s.calls|))).(calls := s.calls + [Getting(c)])
    case Locked(n) =>
      var c := s.calls[n].client;
      if s.calls[n].Adding? then
        s.(log := Append(s.log, RoleOf(c), Some(s.calls[n].msg)), calls := s.calls[n := Acked(c)])
      else
        s.(log := Advance(s.log, RoleOf(c)), calls := s.calls[n := Replied(c, Next(s.log, RoleOf(c)))],
           taker := if c.AJoiner? && HasNext(s.log, RoleOf(c)) then Some((n, c.j)) else s.taker)
    case Deliver(n) =>
      var c := s.calls[n].client;
      var t := s.(calls := s.calls[n := Spent]);
      if s.calls[n].Replied? then Received(t, c, s.calls[n].signal)
      else if c.TheHost? then Move(t, c, Polling(None))
      else Move(t, c, Finished(s.phases[c].msg))
    case Abandon(c) => Move(s, c, if s.phases[c].Polling? then Polling(None) else Failed)
    case GiveUp(c) => Move(s, c, Failed)
    case Unlist => s.(listed := false)
  }

  ghost predicate Valid(s: State, es: seq<Event>)
    decreases |es|
  {
    es != [] ==> Enabled(s, es[0]) && Valid(Apply(s, es[0]), es[1..])
  }

  ghost function Exec(s: State, es: seq<Event>): State
    requires Valid(s, es)
    decreases |es|
  {
    if es == [] then s else Exec(Apply(s, es[0]), es[1..])
  }

  // ---------- The invariant ----------

  /** The one answer that can exist: the one made by the joiner that took the offer. */
  predicate IsTheAnswer(s: State, m: Message) {
    s.taker.Some? && s.taker.value.1 in s.made && s.made[s.taker.value.1].answer == m
  }

  ghost predicate CallSound(s: State, n: nat)
    requires n < |s.calls|
  {
    match s.calls[n]
    case Adding(c, m) =>
      if c.TheHost? then s.carrier == Some(n) && s.offer == Some(m) else c.j in s.made && s.made[c.j].answer == m
    case Replied(c, signal) =>
      signal.Some? ==>
        if c.TheHost? then IsTheAnswer(s, signal.value) else s.taker == Some((n, c.j)) && s.offer == signal
    case _ => true
  }

  ghost predicate PhaseSound(s: State, c: Client)
    requires c in s.phases
  {
    var ph := s.phases[c];
    && !ph.WrongType?
    && (ph.Sending? && ph.on.Some? ==>
          ph.on.value < |s.calls| && (s.calls[ph.on.value] == Adding(c, ph.msg) || s.calls[ph.on.value] == Acked(c)))
    && (c.TheHost? ==>
          && !ph.Holding?
          && (ph.Fresh? ==> s.offer.None?)
          && (ph.Fresh? || (ph.Sending? && ph.on.None?) ==> s.carrier.None?)
          && (ph.Sending? ==> s.offer == Some(ph.msg))
          && (ph.Finished? ==> IsTheAnswer(s, ph.answer)))
    && (c.AJoiner? ==>
          && !ph.Fresh?
          && (ph.Polling? ==> c.j !in s.obtained)
          && (ph.Holding? ==> c.j in s.obtained && c.j !in s.made && s.offer == Some(ph.offer))
          && (ph.Sending? ==> c.j in s.made && s.made[c.j].answer == ph.msg))
  }

  /** The host's log holds the offer exactly when its carrier call has taken the lock. */
  ghost predicate OfferSound(s: State) {
    && (s.offer.Some? ==> s.offer.value.kind == "offer")
    && (s.carrier.Some? ==> s.carrier.value < |s.calls| && s.offer.Some?)
    && s.log.hostSignals == (if s.carrier.Some? && !s.calls[s.carrier.value].Adding? then [s.offer] else [])
    && s.log.joinIndex == (if s.taker.Some? then 1 else 0)
    && (s.taker.Some? ==>
          && s.log.hostSignals != []
          && s.taker.value.0 < |s.calls|
          && s.calls[s.taker.value.0] ==
               if s.taker.value.1 in s.obtained then Spent else Replied(AJoiner(s.taker.value.1), s.offer))
  }

  ghost predicate AnswersSound(s: State) {
    && (forall j | j in s.obtained :: s.taker.Some? && s.taker.value.1 == j && AJoiner(j) in s.phases)
    && (forall j | j in s.made ::
          j in s.obtained && s.made[j].answer.kind == "answer" && s.offer == Some(s.made[j].offer))
    && (forall k | 0 <= k < |s.log.joinSignals| ::
          s.log.joinSignals[k].Some? && IsTheAnswer(s, s.log.joinSignals[k].value))
    && s.log.hostIndex <= |s.log.joinSignals|
  }

  ghost predicate Inv(s: State) {
    && OfferSound(s) && AnswersSound(s) && TheHost in s.phases
    && (forall n {:trigger CallSound(s, n)} | 0 <= n < |s.calls| :: CallSound(s, n))
    && (forall c {:trigger PhaseSound(s, c)} | c in s.phases :: PhaseSound(s, c))
  }

  lemma EnterKeeps(s: State, e: Event)
    requires Inv(s) && Enabled(s, e) && (e.Enter? || e.Unlist?)
    ensures Inv(Apply(s, e))
  {
    var t := Apply(s, e);
    forall n | 0 <= n < |t.calls| ensures CallSound(t, n) { assert CallSound(s, n); }
    forall c | c in t.phases ensures PhaseSound(t, c) { if c in s.phases { assert PhaseSound(s, c); } }
  }

  lemma LeaveKeeps(s: State, e: Event)
    requires Inv(s) && Enabled(s, e) && (e.Abandon? || e.GiveUp?)
    ensures Inv(Apply(s, e))
  {
    var t := Apply(s, e);
    forall n | 0 <= n < |t.calls| ensures CallSound(t, n) { assert CallSound(s, n); }
    forall c | c in t.phases ensures PhaseSound(t, c) { assert PhaseSound(s, c); }
  }

  lemma MakeOfferKeeps(s: State, e: Event)
    requires Inv(s) && Enabled(s, e) && e.MakeOffer?
    ensures Inv(Apply(s, e))
  {
    var t := Apply(s, e);
    assert PhaseSound(s, TheHost);
    forall n | 0 <= n < |t.calls| ensures CallSound(t, n) { if n < |s.calls| { assert CallSound(s, n); } }
    forall c | c in t.phases ensures PhaseSound(t, c) { if c in s.phases { assert PhaseSound(s, c); } }
  }

  lemma MakeAnswerKeeps(s: State, e: Event)
    requires Inv(s) && Enabled(s, e) && e.MakeAnswer?
    ensures Inv(Apply(s, e))
  {
    var t := Apply(s, e);
    assert PhaseSound(s, AJoiner(e.j));
    forall n | 0 <= n < |t.calls| ensures CallSound(t, n) { if n < |s.calls| { assert CallSound(s, n); } }
    forall c | c in t.phases ensures PhaseSound(t, c) { if c in s.phases { assert PhaseSound(s, c); } }
  }

  lemma SubmitKeeps(s: State, e: Event)
    requires Inv(s) && Enabled(s, e) && e.Submit?
    ensures Inv(Apply(s, e))
  {
    var t := Apply(s, e);
    assert PhaseSound(s, e.c);
    forall n | 0 <= n < |t.calls| ensures CallSound(t, n) { if n < |s.calls| { assert CallSound(s, n); } }
    forall c | c in t.phases ensures PhaseSound(t, c) { if c in s.phases { assert PhaseSound(s, c); } }
  }

  lemma AskKeeps(s: State, e: Event)
    requires Inv(s) && Enabled(s, e) && e.Ask?
    ensures Inv(Apply(s, e))
  {
    var t := Apply(s, e);
    forall n | 0 <= n < |t.calls| ensures CallSound(t, n) { if n < |s.calls| { assert CallSound(s, n); } }
    forall c | c in t.phases ensures PhaseSound(t, c) { if c in s.phases { assert PhaseSound(s, c); } }
  }

  lemma AddKeeps(s: State, e: Event)
    requires Inv(s) && Enabled(s, e) && e.Locked? && s.calls[e.n].Adding?
    ensures Inv(Apply(s, e))
  {
    var t := Apply(s, e);
    assert CallSound(s, e.n);
    forall n | 0 <= n < |t.calls| ensures CallSound(t, n) { if n < |s.calls| { assert CallSound(s, n); } }
    forall c | c in t.phases ensures PhaseSound(t, c) { if c in s.phases { assert PhaseSound(s, c); } }
  }

  lemma GetKeeps(s: State, e: Event)
    requires Inv(s) && Enabled(s, e) && e.Locked? && s.calls[e.n].Getting?
    ensures Inv(Apply(s, e))
  {
    var t := Apply(s, e);
    assert CallSound(s, e.n);
    forall n | 0 <= n < |t.calls| ensures CallSound(t, n) { if n < |s.calls| { assert CallSound(s, n); } }
    forall c | c in t.phases ensures PhaseSound(t, c) { if c in s.phases { assert PhaseSound(s, c); } }
  }

  /** A response consumed: the call is spent and its client moves to `ph`. */
  function Consumed(s: State, n: nat, ph: Phase): State
    requires n < |s.calls| && !s.calls[n].Spent?
  {
    Move(s.(calls := s.calls[n := Spent]), s.calls[n].client, ph)
  }

  /** Every delivery but that of the offer. */
  lemma ConsumeKeeps(s: State, n: nat, ph: Phase)
    requires Inv(s) && Expected(s, n)
    requires s.calls[n].Replied? && s.calls[n].client.AJoiner? ==> s.calls[n].signal.None?
    requires ph == Polling(None) ==> s.calls[n].Replied? || s.calls[n].client.TheHost?
    requires ph == Polling(None) || (ph.Finished? && (s.calls[n].client.TheHost? ==> IsTheAnswer(s, ph.answer)))
    ensures Inv(Consumed(s, n, ph))
  {
    var t := Consumed(s, n, ph);
    assert CallSound(s, n) && PhaseSound(s, s.calls[n].client);
    forall m | 0 <= m < |t.calls| ensures CallSound(t, m) { assert CallSound(s, m); }
    forall c | c in t.phases ensures PhaseSound(t, c) { assert PhaseSound(s, c); }
  }

  lemma OfferArrives(s: State, n: nat)
    requires Inv(s) && Expected(s, n) && s.calls[n].Replied? && s.calls[n].client.AJoiner? && s.calls[n].signal.Some?
    ensures var j := s.calls[n].client.j;
      Inv(Consumed(s, n, Holding(s.calls[n].signal.value)).(obtained := s.obtained + {j}))
  {
    var j := s.calls[n].client.j;
    var t := Consumed(s, n, Holding(s.calls[n].signal.value)).(obtained := s.obtained + {j});
    assert CallSound(s, n) && PhaseSound(s, AJoiner(j));
    forall m | 0 <= m < |t.calls| ensures CallSound(t, m) { assert CallSound(s, m); }
    forall c | c in t.phases ensures PhaseSound(t, c) { assert PhaseSound(s, c); }
  }

  lemma DeliverKeeps(s: State, e: Event)
    requires Inv(s) && Enabled(s, e) && e.Deliver?
    ensures Inv(Apply(s, e))
  {
    var call := s.calls[e.n];
    assert CallSound(s, e.n);
    if call.Replied? && call.client.AJoiner? && call.signal.Some? {
      OfferArrives(s, e.n);
    } else {
      ConsumeKeeps(s, e.n, Apply(s, e).phases[call.client]);
    }
  }

  lemma InvKept(s: State, e: Event)
    requires Inv(s) && Enabled(s, e)
    ensures Inv(Apply(s, e))
  {
    match e
    case MakeOffer(_) => MakeOfferKeeps(s, e);
    case MakeAnswer(_, _) => MakeAnswerKeeps(s, e);
    case Submit(_) => SubmitKeeps(s, e);
    case Ask(_) => AskKeeps(s, e);
    case Locked(n) => if s.calls[n].Adding? { AddKeeps(s, e); } else { GetKeeps(s, e); }
    case Deliver(_) => DeliverKeeps(s, e);
    case Enter(_) => EnterKeeps(s, e);
    case Unlist => EnterKeeps(s, e);
    case _ => LeaveKeeps(s, e);
  }

  lemma {:induction false} InvAlways(s: State, es: seq<Event>)
    requires Inv(s) && Valid(s, es)
    ensures Inv(Exec(s, es))
    decreases |es|
  {
    if es != [] {
      InvKept(s, es[0]);
      InvAlways(Apply(s, es[0]), es[1..]);
    }
  }

  // ---------- What every run guarantees ----------

  /** Whatever the interleaving and whatever is lost: at most one joiner ever obtains the
      offer; the host accepts only the answer that this joiner made for the host's own offer;
      and neither message-type check ever fails. */
  lemma ExchangeIsSafe(es: seq<Event>)
    requires Valid(START, es)
    ensures var s := Exec(START, es);
      && (forall i, j | i in s.obtained && j in s.obtained :: i == j)
      && (TheHost in s.phases && s.phases[TheHost].Finished? ==>
            exists j :: j in s.obtained && j in s.made && s.offer == Some(s.made[j].offer) &&
                        s.made[j].answer == s.phases[TheHost].answer)
      && (forall c | c in s.phases :: !s.phases[c].WrongType?)
  {
    assert PhaseSound(START, TheHost);
    InvAlways(START, es);
    var s := Exec(START, es);
    assert PhaseSound(s, TheHost);
    forall c | c in s.phases ensures !s.phases[c].WrongType? { assert PhaseSound(s, c); }
    if s.phases[TheHost].Finished? {
      var j := s.taker.value.1;
      assert j in s.obtained && j in s.made;
    }
  }

  /** The offer has left the log in a response its reader no longer waits for. */
  predicate OfferLost(s: State) {
    && s.taker.Some?
    && s.taker.value.1 !in s.obtained
    && !Expected(s, s.taker.value.0)
  }

  lemma LossIsStable(s: State, e: Event)
    requires Inv(s) && OfferLost(s) && Enabled(s, e)
    ensures OfferLost(Apply(s, e))
  {
    var (n, j) := s.taker.value;
    if e.Locked? || e.Deliver? { assert CallSound(s, e.n); }
    if e.Ask? || e.Submit? { assert PhaseSound(s, e.c); }
  }

  /** A lost offer is lost for good: on no continuation does any joiner obtain it or the host
      accept an answer. */
  lemma {:induction false} LostForever(s: State, es: seq<Event>)
    requires Inv(s) && OfferLost(s) && Valid(s, es)
    ensures var t := Exec(s, es);
      OfferLost(t) && t.obtained == {} && TheHost in t.phases && !t.phases[TheHost].Finished?
    decreases |es|
  {
    if es == [] {
      assert PhaseSound(s, TheHost);
    } else {
      LossIsStable(s, es[0]);
      InvKept(s, es[0]);
      LostForever(Apply(s, es[0]), es[1..]);
    }
  }

  /** Losing it takes no more than one abandoned poll. */
  lemma AbandoningTheOfferLosesIt(s: State, j: nat)
    requires Inv(s) && At(s, AJoiner(j)) && s.taker.Some? && s.taker.value.1 == j
    requires s.phases[AJoiner(j)] == Polling(Some(s.taker.value.0))
    ensures Enabled(s, Abandon(AJoiner(j))) && OfferLost(Apply(s, Abandon(AJoiner(j))))
  {
    assert PhaseSound(s, AJoiner(j));
  }

  /** A client that sends to a session that is no longer listed, or abandons a send, has failed
      for good, and the server never hears of a message that was refused. */
  lemma RefusedSenderFails(s: State, e: Event, es: seq<Event>)
    requires Enabled(s, e) && ((e.Submit? && !s.listed) || (e.Abandon? && s.phases[e.c].Sending?) || e.GiveUp?)
    requires Valid(Apply(s, e), es)
    ensures Apply(s, e).calls == s.calls && Apply(s, e).log == s.log
    ensures var t := Exec(Apply(s, e), es); At(t, e.c) && t.phases[e.c].Failed?
  {
    EndedStaysEnded(Apply(s, e), es, e.c);
  }

  /** The session is listed exactly until it is swept. */
  lemma {:induction false} ListedExactly(s: State, es: seq<Event>)
    requires Valid(s, es)
    ensures Exec(s, es).listed <==> s.listed && Unlist !in es
    decreases |es|
  {
    if es != [] {
      assert es == [es[0]] + es[1..];
      ListedExactly(Apply(s, es[0]), es[1..]);
    }
  }

  /** A polling client leaves its loop only with a signal or by its timeout: neither a session
      that is gone, nor an empty or a lost response, nor anything that others do ends it. */
  lemma {:induction false} PollerStays(s: State, es: seq<Event>, c: Client)
    requires Valid(s, es) && At(s, c) && s.phases[c].Polling?
    requires Unanswered(s, es, c)
    ensures At(Exec(s, es), c) && Exec(s, es).phases[c].Polling?
    decreases |es|
  {
    if es != [] {
      PollerStep(s, es[0], c);
      PollerStays(Apply(s, es[0]), es[1..], c);
    }
  }

  /** Along the run `c` does not time out, and no response with a signal is delivered to it. */
  ghost predicate Unanswered(s: State, es: seq<Event>, c: Client)
    requires Valid(s, es)
    decreases |es|
  {
    es != [] ==>
      && es[0] != GiveUp(c)
      && !(es[0].Deliver? && s.calls[es[0].n].Replied? && s.calls[es[0].n].client == c && s.calls[es[0].n].signal.Some?)
      && Unanswered(Apply(s, es[0]), es[1..], c)
  }

  lemma PollerStep(s: State, e: Event, c: Client)
    requires Enabled(s, e) && At(s, c) && s.phases[c].Polling? && e != GiveUp(c)
    requires !(e.Deliver? && s.calls[e.n].Replied? && s.calls[e.n].client == c && s.calls[e.n].signal.Some?)
    ensures At(Apply(s, e), c) && Apply(s, e).phases[c].Polling?
  {
  }

  lemma {:induction false} EndedStaysEnded(s: State, es: seq<Event>, c: Client)
    requires Valid(s, es) && At(s, c) && (s.phases[c].Failed? || s.phases[c].Finished?)
    ensures var t := Exec(s, es); At(t, c) && t.phases[c] == s.phases[c]
    decreases |es|
  {
    if es != [] {
      EndedStaysStep(s, es[0], c);
      EndedStaysEnded(Apply(s, es[0]), es[1..], c);
    }
  }

  lemma EndedStaysStep(s: State, e: Event, c: Client)
    requires Enabled(s, e) && At(s, c) && (s.phases[c].Failed? || s.phases[c].Finished?)
    ensures At(Apply(s, e), c) && Apply(s, e).phases[c] == s.phases[c]
  {
  }

  // ---------- The exchange can succeed ----------

  lemma {:induction false} Extend(s: State, es: seq<Event>, e: Event)
    requires Valid(s, es) && Enabled(Exec(s, es), e)
    ensures Valid(s, es + [e]) && Exec(s, es + [e]) == Apply(Exec(s, es), e)
    decreases |es|
  {
    if es == [] {
      assert (es + [e])[1..] == [];
    } else {
      Extend(Apply(s, es[0]), es[1..], e);
      assert (es + [e])[1..] == es[1..] + [e];
    }
  }

  /** The host's half of the run in which nothing is lost. */
  lemma OfferStored(sdp: string) returns (es: seq<Event>)
    ensures Valid(START, es)
    ensures var offer := Message("offer", sdp);
      Exec(START, es) == State(Log([Some(offer)], [], 0, 0), true, map[TheHost := Polling(None)],
                               [Spent], Some(offer), Some(0), None, {}, map[])
  {
    es := [];
    Extend(START, es, MakeOffer(sdp));
    es := es + [MakeOffer(sdp)];
    Extend(START, es, Submit(TheHost));
    es := es + [Submit(TheHost)];
    Extend(START, es, Locked(0));
    es := es + [Locked(0)];
    Extend(START, es, Deliver(0));
    es := es + [Deliver(0)];
  }

  /** ... continued until the joiner's poll has read the offer. */
  lemma OfferRead(sdp: string) returns (es: seq<Event>)
    ensures Valid(START, es)
    ensures var offer := Message("offer", sdp);
      Exec(START, es) == State(Log([Some(offer)], [], 0, 1), true,
                               map[TheHost := Polling(None), AJoiner(0) := Polling(Some(1))],
                               [Spent, Replied(AJoiner(0), Some(offer))], Some(offer), Some(0), Some((1, 0)), {}, map[])
  {
    es := OfferStored(sdp);
    Extend(START, es, Enter(0));
    es := es + [Enter(0)];
    Extend(START, es, Ask(AJoiner(0)));
    es := es + [Ask(AJoiner(0))];
    Extend(START, es, Locked(1));
    es := es + [Locked(1)];
  }

  lemma OfferObtained(sdp: string) returns (es: seq<Event>)
    ensures Valid(START, es)
    ensures var offer := Message("offer", sdp);
      Exec(START, es) == State(Log([Some(offer)], [], 0, 1), true,
                               map[TheHost := Polling(None), AJoiner(0) := Holding(offer)],
                               [Spent, Spent], Some(offer), Some(0), Some((1, 0)), {0}, map[])
  {
    es := OfferRead(sdp);
    Extend(START, es, Deliver(1));
    es := es + [Deliver(1)];
  }

  /** The run in which the joiner abandons that poll instead: the session is listed, host and
      joiner are both there and polling, and the offer is lost. */
  lemma OfferCanBeLost(sdp: string) returns (es: seq<Event>)
    ensures Valid(START, es)
    ensures var s := Exec(START, es);
      OfferLost(s) && s.listed && s.phases == map[TheHost := Polling(None), AJoiner(0) := Polling(None)]
  {
    es := OfferRead(sdp);
    Extend(START, es, Abandon(AJoiner(0)));
    es := es + [Abandon(AJoiner(0))];
  }

  lemma AnswerStored(sdp: string, reply: string) returns (es: seq<Event>)
    ensures Valid(START, es)
    ensures var offer, answer := Message("offer", sdp), Message("answer", reply);
      Exec(START, es) == State(Log([Some(offer)], [Some(answer)], 0, 1), true,
                               map[TheHost := Polling(None), AJoiner(0) := Sending(answer, Some(2))],
                               [Spent, Spent, Acked(AJoiner(0))], Some(offer), Some(0), Some((1, 0)), {0},
                               map[0 := Answering(offer, answer)])
  {
    es := OfferObtained(sdp);
    Extend(START, es, MakeAnswer(0, reply));
    es := es + [MakeAnswer(0, reply)];
    Extend(START, es, Submit(AJoiner(0)));
    es := es + [Submit(AJoiner(0))];
    Extend(START, es, Locked(2));
    es := es + [Locked(2)];
  }

  /** With nothing lost, one joiner obtains the offer, the host accepts its answer, and both are
      done. */
  lemma ExchangeCanSucceed(sdp: string, reply: string) returns (es: seq<Event>)
    ensures Valid(START, es)
    ensures Exec(START, es).obtained == {0} && TheHost in Exec(START, es).phases
    ensures Exec(START, es).phases ==
      map[TheHost := Finished(Message("answer", reply)), AJoiner(0) := Finished(Message("answer", reply))]
  {
    es := AnswerStored(sdp, reply);
    Extend(START, es, Ask(TheHost));
    es := es + [Ask(TheHost)];
    Extend(START, es, Locked(3));
    es := es + [Locked(3)];
    Extend(START, es, Deliver(3));
    es := es + [Deliver(3)];
    Extend(START, es, Deliver(2));
    es := es + [Deliver(2)];
  }
}
