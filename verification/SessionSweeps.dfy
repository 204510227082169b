/** Sweeping the session store is unobservable: a store that never sweeps gives the same
    answers. */
module SessionSweeps {
  import opened Common
  import opened SessionTable
  import opened SessionIndex

  /** What a client sees of an answer: refusals look alike whatever their text, and the
      setters' error results are ignored by every caller. */
  function Seen(op: Op, a: Answer): Answer {
    if op.SetHostConnected? || op.SetJoinConnected? then Nothing
    else if a.Refused? then Refused(NotFound)
    else a
  }

  function Answers(ttl: Time, t: Table, ops: seq<Op>): seq<Answer>
    decreases |ops|
  {
    if ops == [] then [] else [Seen(ops[0], Reply(ttl, t, ops[0]))] + Answers(ttl, After(ttl, t, ops[0]), ops[1..])
  }

  /** The store that never sweeps. */
  function Unswept(ttl: Time, t: Table, op: Op): Table { if op.Sweep? then t else After(ttl, t, op) }

  function UnsweptAnswers(ttl: Time, t: Table, ops: seq<Op>): seq<Answer>
    decreases |ops|
  {
    if ops == [] then []
    else [Seen(ops[0], Reply(ttl, t, ops[0]))] + UnsweptAnswers(ttl, Unswept(ttl, t, ops[0]), ops[1..])
  }

  predicate Timed(op: Op) { !op.SetHostConnected? && !op.SetJoinConnected? && !op.Delete? }

  /** Clock readings never go back. */
  predicate ClockForward(ops: seq<Op>, clock: Time)
    decreases |ops|
  {
    ops != [] ==>
      if Timed(ops[0]) then clock <= ops[0].now && ClockForward(ops[1..], ops[0].now)
      else ClockForward(ops[1..], clock)
  }

  function ClockAfter(clock: Time, op: Op): Time { if Timed(op) then op.now else clock }

  /** Delete is not called for a session that only the sweeper has removed. */
  predicate NoLateDelete(ttl: Time, swept: Table, kept: Table, ops: seq<Op>)
    decreases |ops|
  {
    ops != [] ==>
      && (ops[0].Delete? ==> ops[0].id in swept.sessions || ops[0].id !in kept.sessions)
      && NoLateDelete(ttl, After(ttl, swept, ops[0]), Unswept(ttl, kept, ops[0]), ops[1..])
  }

  /** The swept store is the kept store without some expired sessions. */
  ghost predicate Near(swept: Table, kept: Table, clock: Time) {
    && Coherent(swept) && Coherent(kept)
    && (forall id | id in swept.sessions :: id in kept.sessions && kept.sessions[id] == swept.sessions[id])
    && (forall id | id in kept.sessions && id !in swept.sessions :: Expired(kept.sessions[id], clock))
    && (forall c | c in swept.byCodes :: c in kept.byCodes && kept.byCodes[c] == swept.byCodes[c])
    && (forall c | c in kept.byCodes && c !in swept.byCodes :: kept.byCodes[c] !in swept.sessions)
  }

  /** ... and its sessions have different codes, so that it can be swept again. */
  ghost predicate Agree(swept: Table, kept: Table, clock: Time) { Inverse(swept) && Near(swept, kept, clock) }

  lemma NearAnswers(ttl: Time, swept: Table, kept: Table, clock: Time, op: Op)
    requires Near(swept, kept, clock) && (Timed(op) ==> clock <= op.now)
    ensures Seen(op, Reply(ttl, swept, op)) == Seen(op, Reply(ttl, kept, op))
  {
  }

  /** One session updated in both stores. */
  lemma NearAfterStore(swept: Table, kept: Table, clock: Time, id: string, x: Session)
    requires Near(swept, kept, clock) && id in swept.sessions && x.code == swept.sessions[id].code
    ensures Near(Stored(swept, x, id), Stored(kept, x, id), clock)
  {
  }

  lemma NearAfterLoneStore(swept: Table, kept: Table, clock: Time, id: string, x: Session)
    requires Near(swept, kept, clock) && id !in swept.sessions && id in kept.sessions
    requires x.code == kept.sessions[id].code && x.expiresAt == kept.sessions[id].expiresAt
    ensures Near(swept, Stored(kept, x, id), clock)
  {
  }

  lemma NearAfterDelete(ttl: Time, swept: Table, kept: Table, clock: Time, id: string)
    requires Near(swept, kept, clock) && id in swept.sessions
    ensures Near(After(ttl, swept, Delete(id)), After(ttl, kept, Delete(id)), clock)
  {
    CoherentKept(ttl, swept, Delete(id));
    CoherentKept(ttl, kept, Delete(id));
  }

  lemma NearAfterCreate(ttl: Time, swept: Table, kept: Table, clock: Time, op: Op)
    requires Near(swept, kept, clock) && op.Create? && op.draw.Some? && clock <= op.now
    requires op.draw.value.id !in kept.sessions
    ensures Near(After(ttl, swept, op), After(ttl, kept, op), op.now)
  {
    CoherentKept(ttl, swept, op);
    CoherentKept(ttl, kept, op);
  }

  lemma NearLater(swept: Table, kept: Table, clock: Time, later: Time)
    requires Near(swept, kept, clock) && clock <= later
    ensures Near(swept, kept, later)
  {
  }

  lemma NearAfterJoin(ttl: Time, swept: Table, kept: Table, clock: Time, op: Op)
    requires Near(swept, kept, clock) && op.Join? && clock <= op.now
    ensures Near(After(ttl, swept, op), After(ttl, kept, op), op.now)
  {
    NearLater(swept, kept, clock, op.now);
    var a := JoinTarget(swept, op.code, op.token, op.now);
    assert JoinTarget(kept, op.code, op.token, op.now).Joined? ==> JoinTarget(kept, op.code, op.token, op.now) == a;
    if a.Joined? { NearAfterStore(swept, kept, op.now, swept.byCodes[op.code], a.session); }
  }

  lemma NearAfterFlag(ttl: Time, swept: Table, kept: Table, clock: Time, op: Op)
    requires Near(swept, kept, clock) && (op.SetHostConnected? || op.SetJoinConnected?)
    ensures Near(After(ttl, swept, op), After(ttl, kept, op), clock)
  {
    if op.id in kept.sessions {
      var x := After(ttl, kept, op).sessions[op.id];
      if op.id in swept.sessions {
        NearAfterStore(swept, kept, clock, op.id, x);
      } else {
        NearAfterLoneStore(swept, kept, clock, op.id, x);
      }
    }
  }

  /** Every operation but a sweep, done in both stores. Codes may be drawn twice. */
  lemma NearKept(ttl: Time, swept: Table, kept: Table, clock: Time, op: Op)
    requires Near(swept, kept, clock) && (Timed(op) ==> clock <= op.now) && !op.Sweep?
    requires op.Create? && op.draw.Some? ==> op.draw.value.id !in kept.sessions
    requires op.Delete? ==> op.id in swept.sessions || op.id !in kept.sessions
    ensures Near(After(ttl, swept, op), After(ttl, kept, op), ClockAfter(clock, op))
  {
    if op.Create? && op.draw.Some? {
      NearAfterCreate(ttl, swept, kept, clock, op);
    } else if op.Join? {
      NearAfterJoin(ttl, swept, kept, clock, op);
    } else if op.SetHostConnected? || op.SetJoinConnected? {
      NearAfterFlag(ttl, swept, kept, clock, op);
    } else if op.Delete? && op.id in swept.sessions {
      NearAfterDelete(ttl, swept, kept, clock, op.id);
    } else {
      NearLater(swept, kept, clock, ClockAfter(clock, op));
    }
  }

  /** An expired session carries a code that the index gives to an unexpired one. */
  ghost predicate HidesLive(t: Table, now: Time) {
    exists id :: id in ExpiredIds(t, now) && t.sessions[id].code in t.byCodes &&
      t.byCodes[t.sessions[id].code] in t.sessions && !Expired(t.sessions[t.byCodes[t.sessions[id].code]], now)
  }

  lemma NearAfterSweep(ttl: Time, swept: Table, kept: Table, clock: Time, now: Time)
    requires Near(swept, kept, clock) && clock <= now && !HidesLive(swept, now)
    ensures Near(After(ttl, swept, Sweep(now)), kept, now)
  {
    var s := After(ttl, swept, Sweep(now));
    CoherentKept(ttl, swept, Sweep(now));
    forall c | c in kept.byCodes && c !in s.byCodes ensures kept.byCodes[c] !in s.sessions {
      if c in swept.byCodes {
        var id :| id in ExpiredIds(swept, now) && swept.sessions[id].code == c;
      }
    }
  }

  lemma AgreeKept(ttl: Time, swept: Table, kept: Table, clock: Time, op: Op)
    requires Agree(swept, kept, clock) && (Timed(op) ==> clock <= op.now) && !Collides(swept, op)
    requires op.Create? && op.draw.Some? ==> op.draw.value.id !in kept.sessions
    requires op.Delete? ==> op.id in swept.sessions || op.id !in kept.sessions
    ensures Agree(After(ttl, swept, op), Unswept(ttl, kept, op), ClockAfter(clock, op))
  {
    InverseStep(ttl, swept, op);
    if op.Sweep? {
      NearAfterSweep(ttl, swept, kept, clock, op.now);
    } else {
      NearKept(ttl, swept, kept, clock, op);
    }
  }

  /** For every run of Create, Join, the setters, the queries and Delete at nondecreasing
      times, with sweeps anywhere: as long as no Create draws a code that is still stored,
      every client sees the answers of a store that never sweeps. */
  lemma {:induction false} SweepingIsUnobservable(
      ttl: Time, swept: Table, kept: Table, ops: seq<Op>, used: set<string>, clock: Time)
    requires Agree(swept, kept, clock) && kept.sessions.Keys <= used
    requires FreshIds(ops, used) && ClockForward(ops, clock)
    requires NoCollision(ttl, swept, ops) && NoLateDelete(ttl, swept, kept, ops)
    ensures Answers(ttl, swept, ops) == UnsweptAnswers(ttl, kept, ops)
    decreases |ops|
  {
    if ops != [] {
      NearAnswers(ttl, swept, kept, clock, ops[0]);
      AgreeKept(ttl, swept, kept, clock, ops[0]);
      SweepingIsUnobservable(ttl, After(ttl, swept, ops[0]), Unswept(ttl, kept, ops[0]), ops[1..],
                             UsedAfter(used, ops[0]), ClockAfter(clock, ops[0]));
    }
  }

  /** The theorem for a store started empty. */
  lemma SweepingIsUnobservableFromStart(ttl: Time, ops: seq<Op>, clock: Time)
    requires FreshIds(ops, {}) && ClockForward(ops, clock)
    requires NoCollision(ttl, EMPTY, ops) && NoLateDelete(ttl, EMPTY, EMPTY, ops)
    ensures Answers(ttl, EMPTY, ops) == UnsweptAnswers(ttl, EMPTY, ops)
  {
    SweepingIsUnobservable(ttl, EMPTY, EMPTY, ops, {}, clock);
  }

  /** Without distinct codes the sweep shows: it takes a live session's code away together
      with an expired one that carries the same code. */
  lemma CollisionShows(ttl: Time, code: string)
    requires 1 <= ttl
    ensures var first, second := Create(Some(Draw("a", code, "x")), 0), Create(Some(Draw("b", code, "y")), 1);
      var kept := After(ttl, After(ttl, EMPTY, first), second);
      var swept := After(ttl, kept, Sweep(ttl + 1));
      && Collides(After(ttl, EMPTY, first), second)
      && Reply(ttl, swept, GetByCode(code, ttl + 1)) == NoSession
      && Reply(ttl, kept, GetByCode(code, ttl + 1)).Got?
      && Reply(ttl, swept, GetByID("b", ttl + 1)).Got?
  {
    var first, second := Create(Some(Draw("a", code, "x")), 0), Create(Some(Draw("b", code, "y")), 1);
    var kept := After(ttl, After(ttl, EMPTY, first), second);
    assert "a" in After(ttl, EMPTY, first).sessions;
    assert "a" in ExpiredIds(kept, ttl + 1) && kept.sessions["a"].code == code;
  }

  /** Without the condition on Delete the sweep shows as well: Delete of an expired session
      takes the code of its successor away, unless the sweeper was there first. */
  lemma LateDeleteShows(ttl: Time, code: string)
    requires 0 <= ttl
    ensures var first, second := Create(Some(Draw("a", code, "x")), 0), Create(Some(Draw("b", code, "y")), ttl + 1);
      var before := After(ttl, EMPTY, first);
      var swept := After(ttl, After(ttl, After(ttl, before, Sweep(ttl + 1)), second), Delete("a"));
      var kept := After(ttl, After(ttl, before, second), Delete("a"));
      && !Collides(After(ttl, before, Sweep(ttl + 1)), second)
      && Reply(ttl, swept, GetByCode(code, ttl + 1)).Got?
      && Reply(ttl, kept, GetByCode(code, ttl + 1)) == NoSession
      && Reply(ttl, kept, GetByID("b", ttl + 1)).Got?
  {
    var before := After(ttl, EMPTY, Create(Some(Draw("a", code, "x")), 0));
    assert "a" in ExpiredIds(before, ttl + 1) && before.sessions["a"].code == code;
    assert After(ttl, before, Sweep(ttl + 1)) == EMPTY;
  }

  // ---------- Exactly when one sweep shows ----------

  /** Nobody sweeps, and nobody deletes a session of `gone`. */
  predicate LeavesAlone(ops: seq<Op>, gone: set<string>)
    decreases |ops|
  {
    ops != [] ==> !ops[0].Sweep? && (ops[0].Delete? ==> ops[0].id !in gone) && LeavesAlone(ops[1..], gone)
  }

  /** Whatever else comes later, with or without equal codes, clients see the same answers
      whether or not the sweep at `now` takes place. */
  ghost predicate SweepIsSilent(ttl: Time, t: Table, now: Time, used: set<string>) {
    forall ops | FreshIds(ops, used) && ClockForward(ops, now) && LeavesAlone(ops, ExpiredIds(t, now)) ::
      Answers(ttl, After(ttl, t, Sweep(now)), ops) == Answers(ttl, t, ops)
  }

  lemma StillCovered(ttl: Time, swept: Table, kept: Table, op: Op, clock: Time, gone: set<string>)
    requires Near(swept, kept, clock) && kept.sessions.Keys <= swept.sessions.Keys + gone
    requires (Timed(op) ==> clock <= op.now) && !op.Sweep?
    ensures After(ttl, kept, op).sessions.Keys <= After(ttl, swept, op).sessions.Keys + gone
  {
  }

  lemma {:induction false} NearStoresAnswerAlike(
      ttl: Time, swept: Table, kept: Table, ops: seq<Op>, used: set<string>, clock: Time, gone: set<string>)
    requires Near(swept, kept, clock) && kept.sessions.Keys <= used && gone <= used
    requires kept.sessions.Keys <= swept.sessions.Keys + gone
    requires FreshIds(ops, used) && ClockForward(ops, clock) && LeavesAlone(ops, gone)
    ensures Answers(ttl, swept, ops) == Answers(ttl, kept, ops)
    decreases |ops|
  {
    if ops != [] {
      NearAnswers(ttl, swept, kept, clock, ops[0]);
      NearKept(ttl, swept, kept, clock, ops[0]);
      StillCovered(ttl, swept, kept, ops[0], clock, gone);
      NearStoresAnswerAlike(ttl, After(ttl, swept, ops[0]), After(ttl, kept, ops[0]), ops[1..],
                            UsedAfter(used, ops[0]), ClockAfter(clock, ops[0]), gone);
    }
  }

  /** One sweep changes no later answer, up to the next sweep, if and only if no expired session
      carries the code of a live one that the index leads to. */
  lemma OneSweepExactly(ttl: Time, t: Table, now: Time, used: set<string>)
    requires Coherent(t) && t.sessions.Keys <= used
    ensures SweepIsSilent(ttl, t, now, used) <==> !HidesLive(t, now)
  {
    var swept := After(ttl, t, Sweep(now));
    if HidesLive(t, now) {
      var id :| id in ExpiredIds(t, now) && t.sessions[id].code in t.byCodes &&
        t.byCodes[t.sessions[id].code] in t.sessions && !Expired(t.sessions[t.byCodes[t.sessions[id].code]], now);
      var ops := [GetByCode(t.sessions[id].code, now)];
      assert ops[1..] == [] && FreshIds(ops, used) && ClockForward(ops, now) && LeavesAlone(ops, ExpiredIds(t, now));
      assert Answers(ttl, t, ops)[0].Got? && Answers(ttl, swept, ops)[0] == NoSession;
    } else {
      NearAfterSweep(ttl, t, t, now, now);
      forall ops | FreshIds(ops, used) && ClockForward(ops, now) && LeavesAlone(ops, ExpiredIds(t, now))
        ensures Answers(ttl, swept, ops) == Answers(ttl, t, ops)
      {
        NearStoresAnswerAlike(ttl, swept, t, ops, used, now, ExpiredIds(t, now));
      }
    }
  }

  // ---------- Exactly when any number of sweeps show ----------

  /** Every answer of the run is seen alike, and so is any GetByCode put after any part of it. */
  ghost predicate Alike(ttl: Time, swept: Table, kept: Table, ops: seq<Op>, clock: Time)
    decreases |ops|
  {
    && (forall code, now | clock <= now ::
          Reply(ttl, swept, GetByCode(code, now)) == Reply(ttl, kept, GetByCode(code, now)))
    && (ops != [] ==>
          && Seen(ops[0], Reply(ttl, swept, ops[0])) == Seen(ops[0], Reply(ttl, kept, ops[0]))
          && Alike(ttl, After(ttl, swept, ops[0]), Unswept(ttl, kept, ops[0]), ops[1..], ClockAfter(clock, ops[0])))
  }

  /** No sweep of the run meets an expired session with the code of a live indexed one. */
  ghost predicate NeverHides(ttl: Time, t: Table, ops: seq<Op>)
    decreases |ops|
  {
    ops != [] ==>
      (ops[0].Sweep? ==> !HidesLive(t, ops[0].now)) && NeverHides(ttl, After(ttl, t, ops[0]), ops[1..])
  }

  lemma NearSeesCodesAlike(ttl: Time, swept: Table, kept: Table, clock: Time)
    requires Near(swept, kept, clock)
    ensures forall code, now | clock <= now ::
      Reply(ttl, swept, GetByCode(code, now)) == Reply(ttl, kept, GetByCode(code, now))
  {
    forall code, now | clock <= now
      ensures Reply(ttl, swept, GetByCode(code, now)) == Reply(ttl, kept, GetByCode(code, now))
    {
      NearAnswers(ttl, swept, kept, clock, GetByCode(code, now));
    }
  }

  /** A sweep that hides a live session shows at once. */
  lemma HidingShows(ttl: Time, swept: Table, kept: Table, clock: Time, now: Time)
    requires Near(swept, kept, clock) && clock <= now && HidesLive(swept, now)
    ensures exists code ::
      Reply(ttl, After(ttl, swept, Sweep(now)), GetByCode(code, now)) != Reply(ttl, kept, GetByCode(code, now))
  {
    var id :| id in ExpiredIds(swept, now) && swept.sessions[id].code in swept.byCodes &&
      swept.byCodes[swept.sessions[id].code] in swept.sessions &&
      !Expired(swept.sessions[swept.byCodes[swept.sessions[id].code]], now);
    var code := swept.sessions[id].code;
    assert Reply(ttl, kept, GetByCode(code, now)).Got?;
    assert Reply(ttl, After(ttl, swept, Sweep(now)), GetByCode(code, now)) == NoSession;
  }

  /** With sweeps anywhere, and codes drawn as they may be: every answer of a run, and of any
      lookup by code in between, is the one of a store that never sweeps, if and only if no
      sweep of the run meets an expired session with the code of a live indexed one. */
  lemma {:induction false} SweepsExactly(
      ttl: Time, swept: Table, kept: Table, ops: seq<Op>, used: set<string>, clock: Time)
    requires Near(swept, kept, clock) && kept.sessions.Keys <= used
    requires FreshIds(ops, used) && ClockForward(ops, clock) && NoLateDelete(ttl, swept, kept, ops)
    ensures Alike(ttl, swept, kept, ops, clock) <==> NeverHides(ttl, swept, ops)
    decreases |ops|
  {
    NearSeesCodesAlike(ttl, swept, kept, clock);
    if ops != [] {
      var op := ops[0];
      NearAnswers(ttl, swept, kept, clock, op);
      if op.Sweep? && HidesLive(swept, op.now) {
        HidingShows(ttl, swept, kept, clock, op.now);
      } else {
        if op.Sweep? {
          NearAfterSweep(ttl, swept, kept, clock, op.now);
        } else {
          NearKept(ttl, swept, kept, clock, op);
        }
        SweepsExactly(ttl, After(ttl, swept, op), Unswept(ttl, kept, op), ops[1..],
                      UsedAfter(used, op), ClockAfter(clock, op));
      }
    }
  }

  lemma SweepsExactlyFromStart(ttl: Time, ops: seq<Op>, clock: Time)
    requires FreshIds(ops, {}) && ClockForward(ops, clock) && NoLateDelete(ttl, EMPTY, EMPTY, ops)
    ensures Alike(ttl, EMPTY, EMPTY, ops, clock) <==> NeverHides(ttl, EMPTY, ops)
    ensures NeverHides(ttl, EMPTY, ops) ==> Answers(ttl, EMPTY, ops) == UnsweptAnswers(ttl, EMPTY, ops)
  {
    SweepsExactly(ttl, EMPTY, EMPTY, ops, {}, clock);
    if NeverHides(ttl, EMPTY, ops) { AlikeAnswers(ttl, EMPTY, EMPTY, ops, clock); }
  }

  lemma {:induction false} AlikeAnswers(ttl: Time, swept: Table, kept: Table, ops: seq<Op>, clock: Time)
    requires Alike(ttl, swept, kept, ops, clock)
    ensures Answers(ttl, swept, ops) == UnsweptAnswers(ttl, kept, ops)
    decreases |ops|
  {
    if ops != [] {
      AlikeAnswers(ttl, After(ttl, swept, ops[0]), Unswept(ttl, kept, ops[0]), ops[1..], ClockAfter(clock, ops[0]));
    }
  }

  /** A setter's error result does show the sweep, for exactly the sessions swept early. */
  lemma SettersTell(ttl: Time, swept: Table, kept: Table, clock: Time, op: Op)
    requires Agree(swept, kept, clock) && (op.SetHostConnected? || op.SetJoinConnected?)
    ensures Reply(ttl, swept, op) == Reply(ttl, kept, op) <==> (op.id in kept.sessions ==> op.id in swept.sessions)
  {
  }
}
