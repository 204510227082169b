/** The code index against the history of the store and against the stored sessions. */
module SessionIndex {
  import opened Common
  import opened SessionTable

  // ---------- The index remembers the latest event of each code ----------

  datatype Latest = Never | CreatedAs(id: string) | RemovedLast

  /** Does `op`, run on `t`, remove a stored session that carries code `c`? */
  ghost predicate Removes(t: Table, op: Op, c: string) {
    exists id :: id in t.sessions && t.sessions[id].code == c &&
      (op == Delete(id) || (op.Sweep? && Expired(t.sessions[id], op.now)))
  }

  /** The latest event for code `c` in a history that starts with an empty store. */
  ghost function LatestFor(ttl: Time, ops: seq<Op>, c: string): Latest
    decreases |ops|
  {
    if ops == [] then Never
    else
      var n := |ops| - 1;
      if ops[n].Create? && ops[n].draw.Some? && ops[n].draw.value.code == c then CreatedAs(ops[n].draw.value.id)
      else if Removes(Run(ttl, EMPTY, ops[..n]), ops[n], c) then RemovedLast
      else LatestFor(ttl, ops[..n], c)
  }

  lemma RemovalDropsCode(ttl: Time, t: Table, op: Op, c: string)
    requires !op.Create?
    ensures Removes(t, op, c) ==> c !in After(ttl, t, op).byCodes
    ensures !Removes(t, op, c) ==> (c in After(ttl, t, op).byCodes <==> c in t.byCodes)
    ensures c in After(ttl, t, op).byCodes ==> After(ttl, t, op).byCodes[c] == t.byCodes[c]
  {
    if op.Delete? && op.id in t.sessions && t.sessions[op.id].code == c {
      assert Removes(t, op, c);
    }
    if op.Sweep? {
      forall id | id in ExpiredIds(t, op.now) && t.sessions[id].code == c ensures Removes(t, op, c) { }
    }
  }

  /** After any history, byCodes[c] is id exactly when the latest event for c is the creation
      of id. */
  lemma {:induction false} IndexIsLatest(ttl: Time, ops: seq<Op>, c: string)
    ensures c in Run(ttl, EMPTY, ops).byCodes <==> LatestFor(ttl, ops, c).CreatedAs?
    ensures c in Run(ttl, EMPTY, ops).byCodes ==> LatestFor(ttl, ops, c) == CreatedAs(Run(ttl, EMPTY, ops).byCodes[c])
    decreases |ops|
  {
    if ops != [] {
      var n := |ops| - 1;
      assert ops == ops[..n] + [ops[n]];
      RunSnoc(ttl, EMPTY, ops[..n], ops[n]);
      IndexIsLatest(ttl, ops[..n], c);
      if !ops[n].Create? { RemovalDropsCode(ttl, Run(ttl, EMPTY, ops[..n]), ops[n], c); }
    }
  }

  // ---------- No entry dangles ----------

  predicate Coherent(t: Table) {
    forall c | c in t.byCodes :: t.byCodes[c] in t.sessions && t.sessions[t.byCodes[c]].code == c
  }

  lemma CoherentKept(ttl: Time, t: Table, op: Op)
    requires Coherent(t) && (op.Create? && op.draw.Some? ==> op.draw.value.id !in t.sessions)
    ensures Coherent(After(ttl, t, op))
  {
    if op.Sweep? {
      var u := After(ttl, t, op);
      forall c | c in u.byCodes ensures u.byCodes[c] in u.sessions && u.sessions[u.byCodes[c]].code == c {
        if t.byCodes[c] in ExpiredIds(t, op.now) { assert t.sessions[t.byCodes[c]].code == c; }
      }
    }
  }

  lemma {:induction false} NothingDangles(ttl: Time, t: Table, ops: seq<Op>, used: set<string>)
    requires Coherent(t) && t.sessions.Keys <= used && FreshIds(ops, used)
    ensures Coherent(Run(ttl, t, ops))
    decreases |ops|
  {
    if ops != [] {
      CoherentKept(ttl, t, ops[0]);
      NothingDangles(ttl, After(ttl, t, ops[0]), ops[1..], UsedAfter(used, ops[0]));
    }
  }

  // ---------- When the index is the exact inverse ----------

  predicate Inverse(t: Table) {
    Coherent(t) &&
    forall id | id in t.sessions :: t.sessions[id].code in t.byCodes && t.byCodes[t.sessions[id].code] == id
  }

  predicate AlwaysInverse(ttl: Time, t: Table, ops: seq<Op>)
    decreases |ops|
  {
    Inverse(t) && (ops != [] ==> AlwaysInverse(ttl, After(ttl, t, ops[0]), ops[1..]))
  }

  predicate Collides(t: Table, op: Op) {
    op.Create? && op.draw.Some? && exists id :: id in t.sessions && t.sessions[id].code == op.draw.value.code
  }

  /** No Create draws the code of a session that is stored at that moment. */
  predicate NoCollision(ttl: Time, t: Table, ops: seq<Op>)
    decreases |ops|
  {
    ops != [] ==> !Collides(t, ops[0]) && NoCollision(ttl, After(ttl, t, ops[0]), ops[1..])
  }

  lemma InverseStep(ttl: Time, t: Table, op: Op)
    requires Inverse(t) && (op.Create? && op.draw.Some? ==> op.draw.value.id !in t.sessions)
    ensures Inverse(After(ttl, t, op)) <==> !Collides(t, op)
  {
    var u := After(ttl, t, op);
    CoherentKept(ttl, t, op);
    if Collides(t, op) {
      var id :| id in t.sessions && t.sessions[id].code == op.draw.value.code;
      assert id in u.sessions && u.byCodes[u.sessions[id].code] != id;
    } else {
      forall id | id in u.sessions ensures u.sessions[id].code in u.byCodes && u.byCodes[u.sessions[id].code] == id {
        if id in t.sessions {
          assert t.byCodes[t.sessions[id].code] == id;
          if op.Delete? || op.Sweep? {
            forall gone | gone in t.sessions && gone !in u.sessions
              ensures t.sessions[gone].code != t.sessions[id].code
            {
              assert t.byCodes[t.sessions[gone].code] == gone;
            }
          }
        }
      }
    }
  }

  /** The index is the exact inverse of the stored codes in every state of a run if and only
      if no Create of the run draws a code that is still stored. */
  lemma {:induction false} InverseIffNoCollision(ttl: Time, t: Table, ops: seq<Op>, used: set<string>)
    requires Inverse(t) && t.sessions.Keys <= used && FreshIds(ops, used)
    ensures AlwaysInverse(ttl, t, ops) <==> NoCollision(ttl, t, ops)
    decreases |ops|
  {
    if ops != [] {
      InverseStep(ttl, t, ops[0]);
      if !Collides(t, ops[0]) {
        InverseIffNoCollision(ttl, After(ttl, t, ops[0]), ops[1..], UsedAfter(used, ops[0]));
      }
    }
  }

  // ---------- One joiner per session ----------

  /** How often a run answers Join with session `id`. */
  function JoinsOf(ttl: Time, t: Table, ops: seq<Op>, id: string): nat
    decreases |ops|
  {
    if ops == [] then 0
    else
      var a := Reply(ttl, t, ops[0]);
      (if a.Joined? && a.session.id == id then 1 else 0) + JoinsOf(ttl, After(ttl, t, ops[0]), ops[1..], id)
  }

  /** Sessions are stored under their own identifier. */
  predicate Keyed(t: Table) { forall id | id in t.sessions :: t.sessions[id].id == id }

  /** The tokens drawn by Join are never empty (they are 64 hexadecimal digits). */
  predicate GoodTokens(ops: seq<Op>) {
    forall i | 0 <= i < |ops| :: ops[i].Join? && ops[i].token.Some? ==> ops[i].token.value != ""
  }

  predicate CanBeJoined(t: Table, used: set<string>, id: string) {
    id !in used || (id in t.sessions && t.sessions[id].joinToken == "")
  }

  /** Over every run at most one Join succeeds for each session identifier, and none once the
      session carries a token or has been removed. */
  lemma {:induction false} OneJoiner(ttl: Time, t: Table, ops: seq<Op>, used: set<string>, id: string)
    requires Keyed(t) && t.sessions.Keys <= used && FreshIds(ops, used) && GoodTokens(ops)
    ensures JoinsOf(ttl, t, ops, id) <= if CanBeJoined(t, used, id) then 1 else 0
    decreases |ops|
  {
    if ops != [] {
      OneJoiner(ttl, After(ttl, t, ops[0]), ops[1..], UsedAfter(used, ops[0]), id);
    }
  }

  /** Once a session carries a join token, it carries that token for as long as it is stored. */
  lemma {:induction false} TokenIsFinal(ttl: Time, t: Table, ops: seq<Op>, used: set<string>, id: string, token: string)
    requires Keyed(t) && t.sessions.Keys <= used && FreshIds(ops, used)
    requires id in used && token != "" && (id in t.sessions ==> t.sessions[id].joinToken == token)
    ensures id in Run(ttl, t, ops).sessions ==> Run(ttl, t, ops).sessions[id].joinToken == token
    decreases |ops|
  {
    if ops != [] {
      TokenIsFinal(ttl, After(ttl, t, ops[0]), ops[1..], UsedAfter(used, ops[0]), id, token);
    }
  }
}
