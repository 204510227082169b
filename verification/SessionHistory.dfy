/** One session of the store from its creation on, against a reference that knows nothing of
    maps: a single record, changed by the operations that concern it. */
module SessionHistory {
  import opened Common
  import opened SessionTable
  import opened SessionIndex

  // ---------- The reference ----------

  /** A session as it has just been created: nobody has joined, nobody is connected. */
  function NewRecord(d: Draw, ttl: Time, now: Time): Session {
    Session(d.id, d.code, d.hostToken, "", false, false, now, now + ttl)
  }

  /** A Join that reaches this session gives it a token if it has none and has not expired. */
  predicate Takes(s: Session, op: Op) {
    op.Join? && op.code == s.code && op.token.Some? && s.joinToken == "" && op.now <= s.expiresAt
  }

  function RecordStep(s: Session, op: Op): Session {
    if Takes(s, op) then s.(joinToken := op.token.value)
    else if op.SetHostConnected? && op.id == s.id then s.(hostConnected := op.connected)
    else if op.SetJoinConnected? && op.id == s.id then s.(joinConnected := op.connected)
    else s
  }

  function Record(s: Session, ops: seq<Op>): Session
    decreases |ops|
  {
    if ops == [] then s else Record(RecordStep(s, ops[0]), ops[1..])
  }

  // ---------- How long a session is stored ----------

  predicate Redraws(op: Op, d: Draw) { op.Create? && op.draw.Some? && op.draw.value.id == d.id }

  /** Deletes this session, or sweeps after it has expired. */
  predicate Ends(op: Op, id: string, expiresAt: Time) {
    (op.Delete? && op.id == id) || (op.Sweep? && expiresAt < op.now)
  }

  /** While its identifier is not drawn again, a session is stored exactly until it is deleted
      or swept after its expiry, and it never changes its keys. */
  lemma {:induction false} StoredExactly(ttl: Time, t: Table, ops: seq<Op>, d: Draw)
    requires Keyed(t) && forall i | 0 <= i < |ops| :: !Redraws(ops[i], d)
    ensures d.id in Run(ttl, t, ops).sessions <==>
      d.id in t.sessions && forall i | 0 <= i < |ops| :: !Ends(ops[i], d.id, t.sessions[d.id].expiresAt)
    ensures d.id in Run(ttl, t, ops).sessions ==>
      var s, u := t.sessions[d.id], Run(ttl, t, ops).sessions[d.id];
      && u.id == s.id && u.code == s.code && u.hostToken == s.hostToken
      && u.createdAt == s.createdAt && u.expiresAt == s.expiresAt
    decreases |ops|
  {
    if ops != [] {
      var u := After(ttl, t, ops[0]);
      assert d.id in u.sessions <==> d.id in t.sessions && !Ends(ops[0], d.id, t.sessions[d.id].expiresAt);
      StoredExactly(ttl, u, ops[1..], d);
      assert forall i | 1 <= i < |ops| :: ops[i] == ops[1..][i - 1];
    }
  }

  // ---------- The store follows the record ----------

  /** The store holds session `s`, and the index leads its code and no other to it. */
  predicate Shows(t: Table, s: Session) {
    && Keyed(t) && s.id in t.sessions && t.sessions[s.id] == s
    && s.code in t.byCodes && (forall c | c in t.byCodes :: t.byCodes[c] == s.id <==> c == s.code)
  }

  /** Along the run the session's identifier and code are not drawn again, and its code is not
      removed: neither with the session nor with another one that carries the same code. */
  ghost predicate LeftAlone(ttl: Time, t: Table, ops: seq<Op>, id: string, code: string)
    decreases |ops|
  {
    ops != [] ==>
      && !(ops[0].Create? && ops[0].draw.Some? && (ops[0].draw.value.id == id || ops[0].draw.value.code == code))
      && !Removes(t, ops[0], code)
      && LeftAlone(ttl, After(ttl, t, ops[0]), ops[1..], id, code)
  }

  lemma RecordStepShown(ttl: Time, t: Table, op: Op, s: Session)
    requires Shows(t, s) && LeftAlone(ttl, t, [op], s.id, s.code)
    ensures Shows(After(ttl, t, op), RecordStep(s, op))
  {
    assert op == Delete(s.id) || (op.Sweep? && Expired(t.sessions[s.id], op.now)) ==> Removes(t, op, s.code);
    if !op.Create? { RemovalDropsCode(ttl, t, op, s.code); }
  }

  /** Whatever else happens in the store, a session that is left alone reads as its record. */
  lemma {:induction false} StoreFollowsRecord(ttl: Time, t: Table, ops: seq<Op>, s: Session)
    requires Shows(t, s) && LeftAlone(ttl, t, ops, s.id, s.code)
    ensures Shows(Run(ttl, t, ops), Record(s, ops))
    decreases |ops|
  {
    if ops != [] {
      RecordStepShown(ttl, t, ops[0], s);
      StoreFollowsRecord(ttl, After(ttl, t, ops[0]), ops[1..], RecordStep(s, ops[0]));
    }
  }

  lemma CreateShows(ttl: Time, t: Table, d: Draw, now: Time)
    requires Keyed(t) && Coherent(t) && d.id !in t.sessions
    ensures Shows(After(ttl, t, Create(Some(d), now)), NewRecord(d, ttl, now))
    ensures Reply(ttl, t, Create(Some(d), now)) == Got(NewRecord(d, ttl, now))
  {
  }

  function JoinAnswer(s: Session, token: Option<string>, at: Time): Answer {
    if s.expiresAt < at then Refused(SessionExpired)
    else if s.joinToken != "" then Refused(AlreadyJoined)
    else if token.None? then Refused(NoRandomness)
    else Joined(s.(joinToken := token.value))
  }

  predicate Passes(s: Session, presented: string, role: string) {
    (role == "host" && presented == s.hostToken) || (role == "joiner" && presented == s.joinToken)
  }

  /** Every answer about a session, from its record alone. */
  lemma AnswersFromRecord(ttl: Time, t: Table, s: Session, at: Time)
    requires Shows(t, s)
    ensures Reply(ttl, t, GetByID(s.id, at)) == if at <= s.expiresAt then Got(s) else NoSession
    ensures Reply(ttl, t, GetByCode(s.code, at)) == if at <= s.expiresAt then Got(s) else NoSession
    ensures forall token :: Reply(ttl, t, Join(s.code, token, at)) == JoinAnswer(s, token, at)
    ensures forall presented, role ::
      Reply(ttl, t, ValidateToken(s.id, presented, role, at)) ==
        Verdict(at <= s.expiresAt && Passes(s, presented, role))
    ensures forall b ::
      Reply(ttl, t, SetHostConnected(s.id, b)) == Reply(ttl, t, SetJoinConnected(s.id, b)) == Verdict(true)
  {
  }

  /** Every answer about a session or a code that is not there. */
  lemma AnswersFromNothing(ttl: Time, t: Table, id: string, code: string, at: Time)
    ensures id !in t.sessions ==>
      && Reply(ttl, t, GetByID(id, at)) == NoSession
      && (forall presented, role :: Reply(ttl, t, ValidateToken(id, presented, role, at)) == Verdict(false))
      && (forall b ::
            Reply(ttl, t, SetHostConnected(id, b)) == Reply(ttl, t, SetJoinConnected(id, b)) == Verdict(false))
    ensures code !in t.byCodes ==>
      && Reply(ttl, t, GetByCode(code, at)) == NoSession
      && (forall token :: Reply(ttl, t, Join(code, token, at)) == Refused(NotFound))
  {
  }

  /** The store is in order after every run. */
  lemma {:induction false} StoreInOrder(ttl: Time, t: Table, ops: seq<Op>, used: set<string>)
    requires Keyed(t) && Coherent(t) && t.sessions.Keys <= used && FreshIds(ops, used)
    ensures Keyed(Run(ttl, t, ops)) && Coherent(Run(ttl, t, ops))
    decreases |ops|
  {
    if ops != [] {
      CoherentKept(ttl, t, ops[0]);
      StoreInOrder(ttl, After(ttl, t, ops[0]), ops[1..], UsedAfter(used, ops[0]));
    }
  }

  // ---------- From creation to the first join ----------

  /** The flag that the last setter of a run gave to session `id`. */
  function LastFlag(ops: seq<Op>, id: string, host: bool, start: bool): bool
    decreases |ops|
  {
    if ops == [] then start
    else
      var n := |ops| - 1;
      if host && ops[n].SetHostConnected? && ops[n].id == id then ops[n].connected
      else if !host && ops[n].SetJoinConnected? && ops[n].id == id then ops[n].connected
      else LastFlag(ops[..n], id, host, start)
  }

  lemma {:induction false} RecordSnoc(s: Session, ops: seq<Op>, op: Op)
    ensures Record(s, ops + [op]) == RecordStep(Record(s, ops), op)
    decreases |ops|
  {
    if ops == [] {
      assert ([] + [op])[1..] == [];
    } else {
      assert (ops + [op])[1..] == ops[1..] + [op];
      RecordSnoc(RecordStep(s, ops[0]), ops[1..], op);
    }
  }

  /** The keys of a record never change, and each flag is what its last setter said. */
  lemma {:induction false} RecordFlags(s: Session, ops: seq<Op>)
    ensures var r := Record(s, ops);
      && r == Session(s.id, s.code, s.hostToken, r.joinToken, LastFlag(ops, s.id, true, s.hostConnected),
                      LastFlag(ops, s.id, false, s.joinConnected), s.createdAt, s.expiresAt)
    decreases |ops|
  {
    if ops != [] {
      var n := |ops| - 1;
      assert ops == ops[..n] + [ops[n]];
      RecordSnoc(s, ops[..n], ops[n]);
      RecordFlags(s, ops[..n]);
    }
  }

  /** No Join of the run reaches the code with a token in time. */
  predicate NobodyJoins(ops: seq<Op>, code: string, until: Time) {
    forall i | 0 <= i < |ops| :: !(ops[i].Join? && ops[i].code == code && ops[i].token.Some? && ops[i].now <= until)
  }

  lemma {:induction false} UnjoinedRecord(s: Session, ops: seq<Op>)
    requires NobodyJoins(ops, s.code, s.expiresAt)
    ensures Record(s, ops).joinToken == s.joinToken
    decreases |ops|
  {
    if ops != [] { UnjoinedRecord(RecordStep(s, ops[0]), ops[1..]); }
  }

  /** What a new session that has been left alone and that nobody has joined looks like. */
  function Unjoined(d: Draw, ttl: Time, now: Time, ops: seq<Op>): Session {
    NewRecord(d, ttl, now).(
      hostConnected := LastFlag(ops, d.id, true, false), joinConnected := LastFlag(ops, d.id, false, false))
  }

  /** From a successful Create on: whatever happens in the store, as long as the new session is
      left alone and nobody has joined it, the first Join with its code succeeds up to the
      end of its time to live and not later, with that session; until then the only text that
      passes as its joiner token is the empty one, and its flags are what their setters said. */
  lemma FirstJoinSucceeds(ttl: Time, t: Table, d: Draw, now: Time, ops: seq<Op>, token: string, at: Time)
    requires Keyed(t) && Coherent(t) && d.id !in t.sessions
    requires LeftAlone(ttl, After(ttl, t, Create(Some(d), now)), ops, d.id, d.code)
    requires NobodyJoins(ops, d.code, now + ttl)
    ensures var u, s := Run(ttl, After(ttl, t, Create(Some(d), now)), ops), Unjoined(d, ttl, now, ops);
      && Shows(u, s)
      && Reply(ttl, u, GetByID(d.id, at)) == (if at <= now + ttl then Got(s) else NoSession)
      && Reply(ttl, u, Join(d.code, Some(token), at)) ==
           (if at <= now + ttl then Joined(s.(joinToken := token)) else Refused(SessionExpired))
      && (forall presented :: Reply(ttl, u, ValidateToken(d.id, presented, "joiner", at)) ==
            Verdict(at <= now + ttl && presented == ""))
      && (forall presented :: Reply(ttl, u, ValidateToken(d.id, presented, "host", at)) ==
            Verdict(at <= now + ttl && presented == d.hostToken))
  {
    var s := NewRecord(d, ttl, now);
    CreateShows(ttl, t, d, now);
    StoreFollowsRecord(ttl, After(ttl, t, Create(Some(d), now)), ops, s);
    RecordFlags(s, ops);
    UnjoinedRecord(s, ops);
    AnswersFromRecord(ttl, Run(ttl, After(ttl, t, Create(Some(d), now)), ops), Unjoined(d, ttl, now, ops), at);
  }

  /** And once it has been joined: no Join succeeds any more, and exactly the token given then
      passes as the joiner's. */
  lemma JoinedStaysJoined(ttl: Time, t: Table, s: Session, ops: seq<Op>, at: Time)
    requires Shows(t, s) && s.joinToken != "" && LeftAlone(ttl, t, ops, s.id, s.code)
    ensures var u := Run(ttl, t, ops);
      && (forall token :: Reply(ttl, u, Join(s.code, token, at)) ==
            Refused(if at <= s.expiresAt then AlreadyJoined else SessionExpired))
      && (forall presented :: Reply(ttl, u, ValidateToken(s.id, presented, "joiner", at)) ==
            Verdict(at <= s.expiresAt && presented == s.joinToken))
  {
    StoreFollowsRecord(ttl, t, ops, s);
    RecordFlags(s, ops);
    JoinedRecord(s, ops);
    AnswersFromRecord(ttl, Run(ttl, t, ops), Record(s, ops), at);
  }

  lemma {:induction false} JoinedRecord(s: Session, ops: seq<Op>)
    requires s.joinToken != ""
    ensures Record(s, ops).joinToken == s.joinToken
    decreases |ops|
  {
    if ops != [] { JoinedRecord(RecordStep(s, ops[0]), ops[1..]); }
  }
}
