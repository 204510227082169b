/** From which states of the offer/answer exchange the offer can still reach a joiner, and the
    host can still accept an answer: exact conditions on the state, each proved by a backward
    step (no event makes the goal possible) and a forward step (some event comes closer). */
module SignalReach {
  import opened Common
  import opened SignalLog
  import opened SignalExchange

  // ---------- Runs ----------

  lemma Prepend(s: State, e: Event, es: seq<Event>)
    requires Enabled(s, e) && Valid(Apply(s, e), es)
    ensures Valid(s, [e] + es) && Exec(s, [e] + es) == Exec(Apply(s, e), es)
  {
    assert ([e] + es)[1..] == es;
  }

  lemma {:induction false} UnusedJoiner(cs: set<Client>) returns (j: nat)
    ensures forall k: nat | AJoiner(k) in cs :: k < j
  {
    if cs == {} {
      j := 0;
    } else {
      var c :| c in cs;
      j := UnusedJoiner(cs - {c});
      if c.AJoiner? && j <= c.j { j := c.j + 1; }
    }
  }

  // ---------- The offer can still reach a joiner ----------

  /** The offer has been posted, or its host is still there to post it. */
  predicate MayPost(s: State) {
    s.carrier.Some? || (s.listed && At(s, TheHost) && Unposted(s.phases[TheHost]))
  }

  predicate Unposted(ph: Phase) { ph.Fresh? || (ph.Sending? && ph.on.None?) }

  /** Joiner `j` still waits for its call `n`, which has not taken the lock yet. */
  predicate Reads(s: State, j: nat, n: nat) {
    && n < |s.calls| && s.calls[n] == Getting(AJoiner(j))
    && At(s, AJoiner(j)) && s.phases[AJoiner(j)] == Polling(Some(n))
  }

  ghost predicate MayRead(s: State) { s.listed || exists j, n :: Reads(s, j, n) }

  /** It has, or the response that carries it is awaited, or nobody has read it yet and it can
      still be both posted and read. */
  ghost predicate CanObtain(s: State) {
    || s.obtained != {}
    || (s.taker.Some? && Expected(s, s.taker.value.0))
    || (s.taker.None? && MayPost(s) && MayRead(s))
  }

  lemma ReadsBefore(s: State, e: Event, j: nat, n: nat)
    requires Enabled(s, e) && Reads(Apply(s, e), j, n)
    ensures s.listed || Reads(s, j, n)
  {
  }

  lemma ExpectedBefore(s: State, e: Event)
    requires Inv(s) && Enabled(s, e) && s.taker.Some? && Apply(s, e).taker == s.taker && s.obtained == {}
    requires Expected(Apply(s, e), s.taker.value.0)
    ensures Expected(s, s.taker.value.0)
  {
    if e.Locked? { assert CallSound(s, e.n); }
  }

  /** No event makes the offer obtainable. */
  lemma ObtainBack(s: State, e: Event)
    requires Inv(s) && Enabled(s, e) && CanObtain(Apply(s, e))
    ensures CanObtain(s)
  {
    var t := Apply(s, e);
    if e.Locked? || e.Deliver? { assert CallSound(s, e.n); }
    if s.obtained == {} && t.obtained == {} {
      if s.taker.Some? {
        ExpectedBefore(s, e);
      } else if t.taker.Some? {
        assert Reads(s, s.calls[e.n].client.j, e.n);
      } else if j: nat, n: nat :| Reads(t, j, n) {
        ReadsBefore(s, e, j, n);
      }
    }
  }

  /** How far the offer is from the log, and a reader from the offer. */
  ghost function PostRank(s: State): nat {
    if s.log.hostSignals != [] then 0
    else if s.carrier.Some? then 1
    else if At(s, TheHost) && s.phases[TheHost].Sending? then 2
    else 3
  }

  predicate Idles(s: State, j: nat) { At(s, AJoiner(j)) && s.phases[AJoiner(j)] == Polling(None) }

  ghost function ReadRank(s: State): nat {
    if exists j, n :: Reads(s, j, n) then 0 else if exists j :: Idles(s, j) then 1 else 2
  }

  ghost function ObtainRank(s: State): nat {
    if s.obtained != {} then 0 else if s.taker.Some? then 1 else 2 + PostRank(s) + ReadRank(s)
  }

  /** One event closer to the log. */
  lemma PostStep(s: State) returns (e: Event)
    requires Inv(s) && s.taker.None? && MayPost(s) && s.log.hostSignals == []
    ensures Enabled(s, e) && (e.Locked? || e.MakeOffer? || e == Submit(TheHost))
    ensures var t := Apply(s, e);
      && t.taker.None? && MayPost(t) && PostRank(t) < PostRank(s)
      && t.listed == s.listed && t.obtained == s.obtained
      && (forall j, n | Reads(s, j, n) :: Reads(t, j, n)) && (forall j | Idles(s, j) :: Idles(t, j))
  {
    assert PhaseSound(s, TheHost);
    if s.carrier.Some? {
      e := Locked(s.carrier.value);
      assert CallSound(s, e.n);
    } else if s.phases[TheHost].Sending? {
      e := Submit(TheHost);
    } else {
      e := MakeOffer("");
    }
  }

  /** One event closer to reading the stored offer. */
  lemma ReadStep(s: State) returns (e: Event)
    requires Inv(s) && s.taker.None? && s.log.hostSignals != [] && MayRead(s)
    ensures Enabled(s, e) && (e.Locked? || (e.Ask? && e.c.AJoiner?) || e.Enter?)
    ensures var t := Apply(s, e);
      && t.log.hostSignals != [] && t.listed == s.listed && t.obtained == s.obtained
      && (if t.taker.Some? then Expected(t, t.taker.value.0) else MayRead(t) && ReadRank(t) < ReadRank(s))
  {
    if j: nat, n: nat :| Reads(s, j, n) {
      e := Locked(n);
    } else if j: nat :| Idles(s, j) {
      e := Ask(AJoiner(j));
      assert Reads(Apply(s, e), j, |s.calls|);
    } else {
      var k := UnusedJoiner(s.phases.Keys);
      e := Enter(k);
      assert Idles(Apply(s, e), k);
    }
  }

  /** As long as the offer is obtainable, some event brings it closer. */
  lemma ObtainStep(s: State) returns (e: Event)
    requires Inv(s) && CanObtain(s) && s.obtained == {}
    ensures Enabled(s, e) && CanObtain(Apply(s, e)) && ObtainRank(Apply(s, e)) < ObtainRank(s)
    ensures Apply(s, e).listed == s.listed
    ensures if s.taker.Some? then e == Deliver(s.taker.value.0)
            else e.Locked? || e.MakeOffer? || e == Submit(TheHost) || (e.Ask? && e.c.AJoiner?) || e.Enter?
  {
    if s.taker.Some? {
      e := Deliver(s.taker.value.0);
    } else if s.log.hostSignals == [] {
      e := PostStep(s);
    } else {
      e := ReadStep(s);
    }
  }

  lemma {:induction false} Obtain(s: State) returns (es: seq<Event>)
    requires Inv(s) && CanObtain(s)
    ensures Valid(s, es) && Exec(s, es).obtained != {}
    decreases ObtainRank(s)
  {
    es := [];
    if s.obtained == {} {
      var e := ObtainStep(s);
      InvKept(s, e);
      var rest := Obtain(Apply(s, e));
      Prepend(s, e, rest);
      es := [e] + rest;
    }
  }

  lemma {:induction false} ObtainedMeansCould(s: State, es: seq<Event>)
    requires Inv(s) && Valid(s, es) && Exec(s, es).obtained != {}
    ensures CanObtain(s)
    decreases |es|
  {
    if es != [] {
      InvKept(s, es[0]);
      ObtainedMeansCould(Apply(s, es[0]), es[1..]);
      ObtainBack(s, es[0]);
    }
  }

  /** From a state of the exchange some run lets a joiner obtain the offer exactly when
      `CanObtain` holds of the state. */
  lemma ObtainableExactly(s: State)
    requires Inv(s)
    ensures (exists es :: Valid(s, es) && Exec(s, es).obtained != {}) <==> CanObtain(s)
  {
    if CanObtain(s) { var es := Obtain(s); }
    if es :| Valid(s, es) && Exec(s, es).obtained != {} { ObtainedMeansCould(s, es); }
  }

  // ---------- The host can still accept an answer ----------

  predicate Unread(s: State) { s.log.hostIndex < |s.log.joinSignals| }

  /** Call `n` carries an answer that is not in the log yet. */
  predicate Carries(s: State, n: nat) { n < |s.calls| && s.calls[n].Adding? && s.calls[n].client.AJoiner? }

  predicate Replies(s: State, j: nat) {
    At(s, AJoiner(j)) && s.phases[AJoiner(j)].Sending? && s.phases[AJoiner(j)].on.None?
  }

  predicate Holds(s: State, j: nat) { At(s, AJoiner(j)) && s.phases[AJoiner(j)].Holding? }

  /** An answer is in the log unread or on its way there; or, while the session is listed, its
      joiner has yet to post it, to make it, or to obtain the offer. */
  ghost predicate AnswerComes(s: State) {
    || Unread(s)
    || (exists n :: Carries(s, n))
    || (s.listed && ((exists j :: Replies(s, j)) || (exists j :: Holds(s, j)) || (s.obtained == {} && CanObtain(s))))
  }

  /** The call that the polling host waits for. */
  function HostCall(s: State): Option<Call> {
    if At(s, TheHost) && s.phases[TheHost].Polling? && s.phases[TheHost].on.Some? &&
       s.phases[TheHost].on.value < |s.calls|
    then Some(s.calls[s.phases[TheHost].on.value])
    else None
  }

  /** An answer has been read for the host, and the host still waits for that response. */
  predicate HostIsAnswered(s: State) {
    var call := HostCall(s);
    call.Some? && call.value.Replied? && call.value.client.TheHost? && call.value.signal.Some?
  }

  predicate HostReads(s: State) { HostCall(s) == Some(Getting(TheHost)) }

  predicate HostIsThere(s: State) {
    At(s, TheHost) && (s.phases[TheHost].Fresh? || s.phases[TheHost].Sending? || s.phases[TheHost].Polling?)
  }

  /** The host can still ask, or has asked. */
  predicate HostListens(s: State) { HostReads(s) || (s.listed && HostIsThere(s)) }

  predicate HostIsFinished(s: State) { At(s, TheHost) && s.phases[TheHost].Finished? }

  ghost predicate CanFinish(s: State) {
    HostIsFinished(s) || HostIsAnswered(s) || (AnswerComes(s) && HostListens(s))
  }

  lemma InLogBack(s: State, e: Event)
    requires Enabled(s, e)
    ensures Unread(Apply(s, e)) ==> Unread(s) || (e.Locked? && Carries(s, e.n))
    ensures forall n | Carries(Apply(s, e), n) ::
      Carries(s, n) || (s.listed && e.Submit? && e.c.AJoiner? && Replies(s, e.c.j))
  {
  }

  lemma AtJoinerBack(s: State, e: Event, j: nat)
    requires Inv(s) && Enabled(s, e)
    ensures Replies(Apply(s, e), j) ==> Replies(s, j) || Holds(s, j)
    ensures Holds(Apply(s, e), j) ==> Holds(s, j) || (s.obtained == {} && CanObtain(s))
  {
    if e.Deliver? { assert CallSound(s, e.n) && PhaseSound(s, s.calls[e.n].client); }
  }

  lemma AnswerBack(s: State, e: Event)
    requires Inv(s) && Enabled(s, e) && AnswerComes(Apply(s, e))
    ensures AnswerComes(s)
  {
    var t := Apply(s, e);
    InLogBack(s, e);
    if !Unread(t) && !exists n :: Carries(t, n) {
      if j: nat :| Replies(t, j) {
        AtJoinerBack(s, e, j);
      } else if j: nat :| Holds(t, j) {
        AtJoinerBack(s, e, j);
      } else {
        ObtainBack(s, e);
      }
    }
  }

  lemma HostBack(s: State, e: Event)
    requires Enabled(s, e)
    ensures HostListens(Apply(s, e)) ==> HostListens(s)
    ensures HostIsFinished(Apply(s, e)) ==> HostIsFinished(s) || HostIsAnswered(s)
  {
  }

  lemma AnsweredBack(s: State, e: Event)
    requires Enabled(s, e) && HostIsAnswered(Apply(s, e))
    ensures HostIsAnswered(s) || (Unread(s) && HostReads(s))
  {
  }

  /** No event makes the answer acceptable. */
  lemma FinishBack(s: State, e: Event)
    requires Inv(s) && Enabled(s, e) && CanFinish(Apply(s, e))
    ensures CanFinish(s)
  {
    HostBack(s, e);
    if HostIsAnswered(Apply(s, e)) { AnsweredBack(s, e); }
    if AnswerComes(Apply(s, e)) { AnswerBack(s, e); }
  }

  /** How far the answer is from the log. */
  ghost function AnswerRank(s: State): nat {
    if Unread(s) then 0
    else if exists n :: Carries(s, n) then 1
    else if exists j :: Replies(s, j) then 2
    else if exists j :: Holds(s, j) then 3
    else 4 + ObtainRank(s)
  }

  /** How far the host is from reading it. */
  ghost function HostRank(s: State): nat {
    if HostReads(s) then 0
    else if At(s, TheHost) && s.phases[TheHost] == Polling(None) then 1
    else if At(s, TheHost) && s.phases[TheHost].Polling? then 2
    else 3
  }

  ghost function FinishRank(s: State): nat {
    if HostIsFinished(s) then 0 else if HostIsAnswered(s) then 1 else 2 + 4 * AnswerRank(s) + HostRank(s)
  }

  lemma PostedAnswerStep(s: State, n: nat)
    requires Inv(s) && Carries(s, n) && !Unread(s) && HostListens(s)
    ensures var t := Apply(s, Locked(n)); AnswerComes(t) && AnswerRank(t) == 0 && HostListens(t)
  {
  }

  lemma JoinerStep(s: State, j: nat) returns (e: Event)
    requires Inv(s) && s.listed && (Replies(s, j) || Holds(s, j)) && HostListens(s)
    ensures Enabled(s, e) && HostListens(Apply(s, e))
    ensures AnswerComes(Apply(s, e)) && AnswerRank(Apply(s, e)) <= if Replies(s, j) then 1 else 2
  {
    e := if Replies(s, j) then Submit(AJoiner(j)) else MakeAnswer(j, "");
    assert if Replies(s, j) then Carries(Apply(s, e), |s.calls|) else Replies(Apply(s, e), j);
  }

  lemma OfferStep(s: State) returns (e: Event)
    requires Inv(s) && s.listed && HostIsThere(s) && s.obtained == {} && CanObtain(s)
    ensures Enabled(s, e) && HostListens(Apply(s, e))
    ensures AnswerComes(Apply(s, e)) && AnswerRank(Apply(s, e)) < 4 + ObtainRank(s)
  {
    e := ObtainStep(s);
    if s.taker.Some? { assert Holds(Apply(s, e), s.taker.value.1); }
  }

  /** One event closer to an answer in the log. */
  lemma AnswerStep(s: State) returns (e: Event)
    requires Inv(s) && AnswerComes(s) && !Unread(s) && HostListens(s)
    ensures Enabled(s, e) && AnswerComes(Apply(s, e)) && AnswerRank(Apply(s, e)) < AnswerRank(s)
    ensures HostListens(Apply(s, e))
  {
    if n: nat :| Carries(s, n) {
      PostedAnswerStep(s, n);
      e := Locked(n);
    } else if j: nat :| Replies(s, j) {
      e := JoinerStep(s, j);
    } else if j: nat :| Holds(s, j) {
      e := JoinerStep(s, j);
    } else {
      e := OfferStep(s);
    }
  }

  /** One event closer to the host reading the answer. */
  lemma HostStep(s: State) returns (e: Event)
    requires Inv(s) && Unread(s) && HostListens(s)
    ensures Enabled(s, e)
    ensures var t := Apply(s, e);
      HostIsAnswered(t) || (Unread(t) && t.listed && HostIsThere(t) && HostRank(t) < HostRank(s))
  {
    assert PhaseSound(s, TheHost) && IsTheAnswer(s, s.log.joinSignals[s.log.hostIndex].value);
    if HostReads(s) {
      e := Locked(s.phases[TheHost].on.value);
    } else if s.phases[TheHost] == Polling(None) {
      e := Ask(TheHost);
    } else if s.phases[TheHost].Polling? {
      e := Abandon(TheHost);
    } else {
      e := Deliver(s.phases[TheHost].on.value);
      assert CallSound(s, e.n);
    }
  }

  lemma FinishStep(s: State) returns (e: Event)
    requires Inv(s) && CanFinish(s) && !HostIsFinished(s)
    ensures Enabled(s, e) && CanFinish(Apply(s, e)) && FinishRank(Apply(s, e)) < FinishRank(s)
  {
    if HostIsAnswered(s) {
      e := Deliver(s.phases[TheHost].on.value);
      assert CallSound(s, e.n);
    } else if Unread(s) {
      e := HostStep(s);
    } else {
      e := AnswerStep(s);
    }
  }

  lemma {:induction false} Finish(s: State) returns (es: seq<Event>)
    requires Inv(s) && CanFinish(s)
    ensures Valid(s, es) && HostIsFinished(Exec(s, es))
    decreases FinishRank(s)
  {
    es := [];
    if !HostIsFinished(s) {
      var e := FinishStep(s);
      InvKept(s, e);
      var rest := Finish(Apply(s, e));
      Prepend(s, e, rest);
      es := [e] + rest;
    }
  }

  lemma {:induction false} FinishedMeansCould(s: State, es: seq<Event>)
    requires Inv(s) && Valid(s, es) && HostIsFinished(Exec(s, es))
    ensures CanFinish(s)
    decreases |es|
  {
    if es != [] {
      InvKept(s, es[0]);
      FinishedMeansCould(Apply(s, es[0]), es[1..]);
      FinishBack(s, es[0]);
    }
  }

  ghost predicate FinishesBy(s: State, es: seq<Event>) { Valid(s, es) && HostIsFinished(Exec(s, es)) }

  /** From a state of the exchange some run lets the host accept an answer exactly when
      `CanFinish` holds of the state. */
  lemma FinishableExactly(s: State)
    requires Inv(s)
    ensures (exists es :: FinishesBy(s, es)) <==> CanFinish(s)
  {
    if CanFinish(s) {
      var es := Finish(s);
      assert FinishesBy(s, es);
    }
    if es :| FinishesBy(s, es) { FinishedMeansCould(s, es); }
  }
}
