# Verified model of the SFO connectivity servers and byte path

A Dafny model of the concurrent, lock-guarded parts of the SFO connectivity helper, with proofs
about every run of them:

- the **relay** that pairs a host's and a joiner's connection (`RelayTable`, `RelayProtocol`,
  `RelayPairing`, `RelayLifetime`, `RelayStall`, `RelayServer`);
- the **session store** with its join-code index, expiry and sweeper (`SessionTable`,
  `SessionIndex`, `SessionHistory`, `SessionSweeps`, `SessionStore`);
- the **signalling server** and the offer/answer exchange run over it (`SignalLog`,
  `SignalServer`, `SignalDelivery`, `SignalExchange`, `SignalReach`);
- the **rate limiter** and its eviction (`RateTable`, `RateLimits`, `RateGrants`,
  `RateLimiter`);
- the **byte path**: the drop-oldest message buffer, the peer-to-peer bridge and the local bridge with
  their shutdown, and the relay handshake (`Bytes`, `MessageBuffer`, `PeerBridge`, `PeerShutdown`,
  `BridgeProtocol`, `LocalBridge`, `Handshake`);
- the **text forms**: base64url, relay tokens, join codes (`Base64Url`, `Token`, `JoinCode`), and
  the two HTTP handlers that tie these parts together (`Handlers`).

Check everything with `dafny verify dfyconfig.toml`.

## How concurrency is modelled

Each protocol is a transition system: a state, an `Enabled` predicate and an `Apply` function with one
event per lock region, clock reading, channel operation or socket operation. `Valid`/`Exec` run a
sequence of events, so a statement about all `es` with `Valid(.., es)` is a statement about every
interleaving. The same lock regions and loops appear as methods of classes that update their fields in
place (`Relay`, `Store`, `Limiter`, `Server`, `SignalSession`, `Bridge`, `Channel`, `RelayClient`),
proved against the functions that the transition systems use.

Assumptions, all explicit in the statements or in the choice of events: clocks do not run backwards,
session identifiers are drawn afresh, `OnMessage` is called by one producer at a time, a `Read` returns
data or an error and not both, the data channel is ordered and reliable, and time is whole nanoseconds.

## Properties that the code does not have as written

Where a promise turned out false the code is modelled as it is, and the exact condition is proved:

- *Both ends of a relay pair stay open until a side ends or the maximum duration passes.* The first
  arriver's own handler closes its connection after its next poll, because its deferred `Close` also
  runs when `waitForPair` returns for a partner. `RelayLifetime.LifetimeNeedsHandOver` proves that the
  promise holds on every run if and only if that handler leaves a handed-over connection alone (the
  `handsOver` variant), or no pair can form at all.
- *Closing one end of a pair ends it.* A copy that is writing to an end that takes no data is not woken by
  the closing of the end it reads from. `RelayStall.EndsExactly` proves that the pair ends if and only if
  the copy out of the closed end is not in that position; `RelayStall.ClosedEndCanJam` is a run into it,
  and `RelayStall.JamLasts` says how long it can last. The pair's deadline always ends it.
- *No joiner token is valid before a join.* `ValidateToken` compares with the empty token of an unjoined
  session. `SessionHistory.FirstJoinSucceeds` proves that exactly the empty text passes then, and
  `SessionHistory.JoinedStaysJoined` that exactly the token given passes afterwards.
- *The code index is the inverse of the stored codes.* `Create` never checks for a stored code.
  `SessionIndex.InverseIffNoCollision` proves it is the inverse in every state of a run if and only if
  no `Create` of the run draws a code that is stored at that moment; `SessionIndex.IndexIsLatest` is the
  unconditional statement.
- *Closing the bridge closes its connections and leaves it Disconnected.* `ConnectRelay` can overwrite
  an earlier `Close`, whether it succeeds or fails. `BridgeProtocol.ShutdownExactly` proves for both
  returns when `Close` takes effect, and `BridgeProtocol.OvertakenCloseIsLost` and
  `BridgeProtocol.OverwrittenCloseIsLost` that an overwritten one is lost for good.
- *Sweeping expired sessions is invisible.* A sweep removes codes without looking whose they are now.
  `SessionSweeps.SweepsExactly` proves that the sweeps of a run change no answer, lookups by code put
  anywhere in it included, if and only if none of them meets an expired session with the code of a live
  indexed one; `SessionSweeps.OneSweepExactly` is the same for one sweep and all later runs, and
  `SessionSweeps.CollisionShows` and
  `SessionSweeps.LateDeleteShows` are runs in which the sweeper shows.
- *The connection returned by the relay client yields the peer's stream.*
  `Handshake.LosslessIffNoResidue` proves it does if and only if nothing arrived in the same read after
  the response line. On the relay's side a newline that arrives late is forwarded as game data
  (`Handshake.AuthMessageFraming`).
- *An offer reaches a joiner, and its answer the host.* A joiner that abandons the poll that carries
  the offer loses it for everybody (`SignalExchange.OfferCanBeLost`, `SignalExchange.LostForever`).
  `SignalReach.ObtainableExactly` proves for every state of the exchange that a joiner can still obtain
  the offer if and only if one has, or the response that carries it is awaited, or nobody has read it
  and it can still be posted and read. `SignalReach.FinishableExactly` is the same for the host and
  the answer.
- *The peer-to-peer bridge ends when a side ends.* Neither of its loops stops the other, and closing the
  peer connection does not close the game's socket. `PeerShutdown.ReturnsExactly` proves when it
  returns, `PeerShutdown.AfterCloseExactly` does so after a close; `PeerShutdown.GameEndIsNotEnough` and `PeerShutdown.PeerCloseIsNotEnough` are the two ways
  in which it stays.

## Model

| member | source | states |
|---|---|---|
| RelayProtocol.InvKept | internal/server/relay/relay.go:60-207 | every step of every handler, of the sweeper and of the clock keeps the invariant: entries belong to waiting handlers, pairs are authenticated and disjoint, a waiting handler's connection is in the table, taken or closed |
| RelayProtocol.InvAlways | internal/server/relay/relay.go:60-207 | the invariant holds after every run of any number of handlers |
| RelayPairing.ConnectionsInOnePlace | internal/server/relay/relay.go:95-127 | in every reachable state a connection is pending under at most one session or an end of at most one pair, never both; both ends of a pair are authenticated for its session under different issued roles |
| RelayPairing.RolesDecidePairs | internal/server/relay/relay.go:98-111 | every pair on every run has a host as its host end and a joiner as its joiner end if and only if no other two roles are issued for one session |
| RelayPairing.PairingRunPairs | internal/server/relay/relay.go:95-127 | the two-connection run does form a pair, with the ends in the right slots, for any two different roles |
| RelayPairing.PendingOwned | internal/server/relay/relay.go:113-127 | every pending entry belongs to a handler still waiting under that session and role and to a connection the relay has not closed |
| RelayPairing.NoEarlyEviction | internal/server/relay/relay.go:149-157 | a timeout removes only its own entry even if replaced since the last poll, and neither a timeout nor a sweep removes an entry at most pairTimeout old |
| RelayPairing.RegisteredIsKept | internal/server/relay/relay.go:117-127 | a connection that registers and has to wait is in the table, under its role and open, on every run in which nobody else registers for its session and at most pairTimeout has passed since, a sweep included; a sweep after that leaves the session without an entry and closes the connection it removes |
| RelayPairing.AuthenticatedExactly | internal/server/relay/relay.go:73-84 | on every run a connection is known to the relay as an identity if and only if its token was validated as exactly the session and role that it claimed |
| RelayPairing.MismatchIsRefused | internal/server/relay/relay.go:80-84 | on every run a connection whose token was refused, or validated as another session or role than claimed, is never waiting or paired |
| RelayPairing.PollingIsBounded | internal/server/relay/relay.go:137-161 | on every run a handler polls at most pairTimeout / 100 ms + 2 times |
| RelayLifetime.FirstArriverIsClosed | internal/server/relay/relay.go:61-61 | as written: from any reachable state with a pair, whatever the traffic, at most four further steps of the first arriver's handler close its paired connection |
| RelayLifetime.PairedThenClosed | internal/server/relay/relay.go:137-147 | the same from the start of the relay, for every run that pairs and every run that follows it |
| RelayLifetime.OwnStepComes | internal/server/relay/relay.go:140-160 | those steps are never blocked for longer than one 100 ms sleep |
| RelayLifetime.PairedThenEnded | internal/server/relay/relay.go:163-187 | seven steps of the copying handler after a pair has formed close both of its connections, on every run |
| RelayLifetime.OverExactly | internal/server/relay/relay.go:166-168 | on every run from the setting of the deadlines on, a pair is over if and only if a side has ended or maxDuration has passed since then |
| RelayLifetime.EndedExactly | internal/server/relay/relay.go:163-187 | on every run a side has ended exactly when its peer has gone, and the clock shows the time that has passed |
| RelayLifetime.ClosedEndUnblocks | internal/server/relay/relay.go:173-185 | once either end is closed the copying handler has a step that needs no data: a copy it needs to return copies out of a closed connection, so that its Read fails |
| RelayStall.RunsOfTheRelay | internal/server/relay/relay.go:163-187 | with reads, writes, backlogs and stalled ends of one pair added, every run is still a run of the relay |
| RelayStall.BlockedExactly | internal/server/relay/relay.go:173-183 | with one end closed and the pair not over, the copying handler is blocked if and only if the copy out of that end is writing to the other end, open and taking no data, and the copy back has finished or waits for that end to send |
| RelayStall.LateNeverBlocks | internal/server/relay/relay.go:166-168 | once the deadline of the pair has passed the copying handler is never blocked |
| RelayStall.EndsExactly | internal/server/relay/relay.go:163-187 | with one end closed or the deadline passed, and everybody else silent, the copying handler comes to rest within a bounded number of steps, and whatever their order it has returned with both ends closed if and only if the copy out of that end is not jammed; after the deadline it never is |
| RelayStall.EndingIsReached | internal/server/relay/relay.go:163-187 | that applies to every pair of every reachable state with such an end |
| RelayStall.FirstCloses | internal/server/relay/relay.go:137-147 | as written, from any state with a jammed pair the first arriver's handler can close its end, and the jam stays |
| RelayStall.ClosedEndCanJam | internal/server/relay/relay.go:163-187 | a run after pairing that ends with the first arriver's connection closed by the relay, the second one open, and the copying handler blocked |
| RelayStall.JamLasts | internal/server/relay/relay.go:175-182 | on every run the jam lasts and keeps the second connection open until that connection takes data again or goes away, or the deadline passes |
| RelayLifetime.LifeInvKept | internal/server/relay/relay.go:163-187 | with hand-over every step keeps: an end of a pair is closed only when the pair is over, and a finished copy has closed its destination |
| RelayLifetime.HandOverLeaksNothing | internal/server/relay/relay.go:61-61 | with hand-over every connection whose handler has returned is closed or belongs to a pair still being copied |
| RelayLifetime.BrokenRunBreaks | internal/server/relay/relay.go:143-146 | the concrete nine-step run in which a paired connection is closed while both sides are alive |
| RelayLifetime.LifetimeNeedsHandOver | internal/server/relay/relay.go:137-187 | both ends stay open until a side ends or maxDuration passes, on every run, if and only if connections are handed over or no pair can form |
| RelayServer.Relay.Register | internal/server/relay/relay.go:95-127 | the registration region updates table and closed connections as the protocol's step does and reports who is host and who is joiner |
| RelayServer.Relay.StillPending | internal/server/relay/relay.go:141-147 | true exactly when the table still holds this connection's own entry |
| RelayServer.Relay.WaitForPair | internal/server/relay/relay.go:137-161 | the polling loop ends at the first poll that misses its entry or finds the deadline passed, and its number of polls is bounded |
| RelayServer.Relay.RemoveOwn | internal/server/relay/relay.go:151-155 | removes its own entry and no other connection's |
| RelayServer.Relay.Cleanup | internal/server/relay/relay.go:196-207 | in whatever order the map is walked, exactly the stale entries are closed and removed |
| SessionIndex.IndexIsLatest | internal/server/session/store.go:160-208 | after any history byCodes[c] is id exactly when the latest event for c is the creation of id |
| SessionIndex.NothingDangles | internal/server/session/store.go:70-71 | on every run each index entry leads to a stored session that carries that code |
| SessionIndex.InverseStep | internal/server/session/store.go:160-168 | one operation keeps the index an exact inverse if and only if it is not a Create that draws a stored code |
| SessionIndex.InverseIffNoCollision | internal/server/session/store.go:70-71 | the index is the exact inverse in every state of a run if and only if no Create draws a code that is stored at that moment |
| SessionIndex.OneJoiner | internal/server/session/store.go:106-131 | over every run at most one Join succeeds per session identifier, none once it has a token or is gone |
| SessionIndex.TokenIsFinal | internal/server/session/store.go:120-130 | a join token once given never changes while the session is stored |
| SessionHistory.StoredExactly | internal/server/session/store.go:160-208 | while its identifier is not drawn again, a session is stored exactly until it is deleted or swept after its expiry, and its keys never change |
| SessionHistory.StoreFollowsRecord | internal/server/session/store.go:106-208 | whatever else happens in the store, a session that is left alone reads as a single record changed only by the first timely Join with its code and by its own setters |
| SessionHistory.AnswersFromRecord | internal/server/session/store.go:77-188 | every answer about a stored and indexed session, from its record: lookups, the four outcomes of Join, token checks and setters, to the expiry instant inclusive |
| SessionHistory.AnswersFromNothing | internal/server/session/store.go:77-188 | every answer about a session or code that is not there |
| SessionHistory.RecordFlags | internal/server/session/store.go:134-157 | each connection flag is what the last setter for it said, and the other fields never change |
| SessionHistory.FirstJoinSucceeds | internal/server/session/store.go:42-188 | from a successful Create on, over every run that leaves the session alone and in which nobody joins it, the first Join with its code succeeds up to the end of its time to live and not later, with that session; until then only the empty text passes as its joiner token and only its host token as the host's |
| SessionHistory.JoinedStaysJoined | internal/server/session/store.go:116-188 | once joined, no later Join succeeds and exactly the token given passes as the joiner's |
| SessionHistory.StoreInOrder | internal/server/session/store.go:42-208 | every run keeps sessions under their own identifiers and index entries leading to sessions with their code |
| SessionSweeps.NearKept | internal/server/session/store.go:42-188 | every operation but a sweep, done in both stores, keeps one equal to the other minus expired sessions, equal codes or not |
| SessionSweeps.AgreeKept | internal/server/session/store.go:197-208 | every operation keeps the swept store equal to the unswept one minus expired sessions |
| SessionSweeps.SweepingIsUnobservable | internal/server/session/store.go:77-131 | with sweeps anywhere, every run gives the answers of a store that never sweeps, as long as no Create draws a stored code and Delete is not called for a swept session |
| SessionSweeps.SweepingIsUnobservableFromStart | internal/server/session/store.go:171-208 | the same for a store started empty |
| SessionSweeps.CollisionShows | internal/server/session/store.go:197-208 | with equal codes a sweep takes a live session's code away: GetByCode misses a session that GetByID finds |
| SessionSweeps.LateDeleteShows | internal/server/session/store.go:160-168 | Delete of an expired session takes the code of its successor away, unless the sweeper was there first |
| SessionSweeps.OneSweepExactly | internal/server/session/store.go:197-208 | for every store whose index does not dangle, and every later run without another sweep or a Delete of a removed session, equal codes included: one sweep changes no answer if and only if no expired session carries the code of a live one that the index leads to |
| SessionSweeps.SweepsExactly | internal/server/session/store.go:197-208 | with sweeps anywhere and codes drawn as they may be, every answer of a run and of any GetByCode put after any part of it is the unswept store's if and only if no sweep of the run meets an expired session with the code of a live indexed one; Delete is not called for a swept session |
| SessionSweeps.SweepsExactlyFromStart | internal/server/session/store.go:77-208 | the same for a store started empty |
| SessionSweeps.SettersTell | internal/server/session/store.go:134-157 | a setter's error result differs from the unswept store's for exactly the sessions already swept |
| SessionStore.Store.Create | internal/server/session/store.go:42-74 | stores a new unjoined session, identifier, code and host token made of its three draws, and nothing if any draw fails |
| SessionStore.Store.GetByID | internal/server/session/store.go:77-86 | finds exactly the stored unexpired session |
| SessionStore.Store.GetByCode | internal/server/session/store.go:89-103 | finds what the code index leads to, unless expired |
| SessionStore.Store.Join | internal/server/session/store.go:106-131 | the four refusals in order, or one session given a non-empty token and nothing else changed |
| SessionStore.Store.SetHostConnected | internal/server/session/store.go:134-144 | sets one flag of one stored session, or reports it missing |
| SessionStore.Store.SetJoinConnected | internal/server/session/store.go:147-157 | sets the other flag of one stored session, or reports it missing |
| SessionStore.Store.Delete | internal/server/session/store.go:160-168 | removes the session and, unconditionally, its code |
| SessionStore.Store.ValidateToken | internal/server/session/store.go:171-188 | compares with the token of the named role of an unexpired session |
| SessionStore.Store.Cleanup | internal/server/session/store.go:197-208 | removes exactly the expired sessions and their codes, whatever the map order |
| SignalServer.SignalSession.Add | internal/p2p/signal_server.go:225-232 | appends to the log of the caller's side |
| SignalServer.SignalSession.Get | internal/p2p/signal_server.go:247-265 | hands out the next signal of the other side's log and advances one cursor, or nothing |
| SignalServer.Server.CreateSession | internal/p2p/signal_server.go:176-195 | a fresh empty session under the code that its random bytes pick |
| SignalServer.Server.JoinSession | internal/p2p/signal_server.go:198-213 | finds the indexed session, expired or not |
| SignalServer.Server.AddSignal | internal/p2p/signal_server.go:216-235 | changes one session's log and no other session |
| SignalServer.Server.GetSignal | internal/p2p/signal_server.go:238-266 | advances one session's cursor and changes no other session |
| SignalServer.Server.Cleanup | internal/p2p/signal_server.go:275-286 | removes exactly the outlived sessions and their codes and touches no session object |
| SignalDelivery.InvKept | internal/p2p/signal_server.go:216-286 | every step keeps each session object in agreement with the trace of completed calls |
| SignalDelivery.DeliveredInOrderOnce | internal/p2p/signal_server.go:216-286 | for any concurrent callers, with lookup and locked access as separate steps and cleanup between them, what is handed out to a side is exactly a prefix of what the other side appended, and cursors stay inside the logs |
| SignalDelivery.AddTakesEffect | internal/p2p/signal_server.go:225-232 | a completed append adds its signal to what its side has sent in its session, and nothing else |
| SignalDelivery.GetTakesEffect | internal/p2p/signal_server.go:247-265 | a completed read hands out the first signal of the other side that its own side has not been given, if there is one, and nothing else happens |
| SignalDelivery.LookupAdmits | internal/p2p/signal_server.go:217-223 | a call is admitted if and only if its session is listed |
| SignalDelivery.ListingExactly | internal/p2p/signal_server.go:176-286 | a created session is listed and empty until a cleanup names it, and a cleanup leaves every session object and admitted call alone |
| SignalExchange.InvKept | internal/p2p/signaling.go:96-195 | every step of the host, of any joiner, of the server and of the network keeps the exchange invariant |
| SignalExchange.ExchangeIsSafe | internal/p2p/signaling.go:140-195 | on every run at most one joiner obtains the offer, the host accepts only the answer made for its own offer, and neither message-type check fails |
| SignalExchange.LostForever | internal/p2p/signaling.go:99-127 | once the offer has been read by a poll nobody waits for any more, no joiner ever obtains it and the host never accepts an answer |
| SignalExchange.AbandoningTheOfferLosesIt | internal/p2p/signaling.go:100-105 | in every state in which a joiner waits for the response that carries the offer, abandoning that poll loses it |
| SignalExchange.OfferCanBeLost | internal/p2p/signaling.go:99-127 | a run from the start ends with host and joiner both polling a listed session and the offer lost |
| SignalExchange.PollerStays | internal/p2p/signaling.go:96-127 | on every run a polling client stays in its loop until it is delivered a signal or times out, whatever happens to the session and its responses |
| SignalExchange.ListedExactly | internal/p2p/signal_server.go:275-286 | on every run the session is listed exactly until it is swept |
| SignalExchange.RefusedSenderFails | internal/p2p/signaling.go:76-93 | a client that sends to a session no longer listed, abandons a send or gives up has failed on every continuation, and the server never hears of a refused message |
| SignalExchange.ExchangeCanSucceed | internal/p2p/signaling.go:140-195 | with nothing lost there is a run in which the host accepts the joiner's answer and both are done |
| SignalReach.ObtainBack | internal/p2p/signaling.go:96-195 | no step of anyone makes an offer obtainable that was not |
| SignalReach.ObtainableExactly | internal/p2p/signaling.go:171-195 | from a state of the exchange some run lets a joiner obtain the offer if and only if one has, or the response carrying it is awaited, or it is unread, posted or postable, and the session is listed or a joiner's poll is under way |
| SignalReach.FinishBack | internal/p2p/signaling.go:96-195 | no step of anyone makes it possible again for the host to accept an answer |
| SignalReach.FinishableExactly | internal/p2p/signaling.go:140-169 | from a state of the exchange some run lets the host accept an answer if and only if it has, or waits for the response that carries one, or an answer is unread, posted or can still be, and the host has a poll under way or is there to make one in a listed session |
| RateLimits.EvictionTheorem | internal/server/ratelimit/limiter.go:37-70 | for every interleaving of requests and cleanups all answers equal those of a limiter that never evicts, if and only if burst * refill time is at most the idle threshold plus 1 ns |
| RateLimits.WindowTheorem | internal/server/ratelimit/limiter.go:37-70 | in every window of length T after every run at most burst + rate * T requests of a client are allowed, evictions included, if and only if the same condition holds |
| RateLimits.Budget | internal/server/ratelimit/limiter.go:37-51 | requests allowed are paid for by the initial level and the elapsed time |
| RateLimits.EarlyEvictionShows | internal/server/ratelimit/limiter.go:60-70 | the run of two bursts around an eviction that breaks both properties otherwise |
| RateLimits.DeployedLimits | internal/server/ratelimit/limiter.go:79-84 | both deployed limiters satisfy both properties (18 s and 20 s against 180 s) |
| RateGrants.GrantedExactly | internal/server/ratelimit/limiter.go:37-70 | after every run of requests and cleanups a request is granted if and only if no window ending with it would then hold more than burst + rate * T granted requests of its client; other clients and evictions make no difference |
| RateGrants.BurstExactly | internal/server/ratelimit/limiter.go:37-51 | of any number of requests at one instant by a new client exactly the first `burst` are granted |
| RateGrants.DeployedGrants | internal/server/ratelimit/limiter.go:79-84 | 3 creations at once and another one exactly from 6 s later on; 10 joins at once and another one exactly from 2 s later on |
| RateLimiter.Limiter.Allow | internal/server/ratelimit/limiter.go:37-51 | answers from the stored bucket or a new full one and records when the client was seen |
| RateLimiter.Limiter.DoCleanup | internal/server/ratelimit/limiter.go:60-70 | forgets exactly the clients idle beyond the threshold |
| RateLimiter.MultiLimiter.AllowCreate | internal/server/ratelimit/limiter.go:87-89 | charges the create limiter and leaves the join limiter's clients alone |
| RateLimiter.MultiLimiter.AllowJoin | internal/server/ratelimit/limiter.go:92-94 | charges the join limiter and leaves the create limiter's clients alone |
| MessageBuffer.InvKept | internal/p2p/webrtc.go:230-241 | every channel operation keeps: buffered messages are the entered ones that have not left, in order |
| MessageBuffer.DropOldestIsSound | internal/p2p/webrtc.go:230-241 | under every interleaving occupancy stays at most 256, the final blocking send has room, every call arrives, every read gets a message, in order and once, and each drop is owed to its own later call that found 256 messages in the buffer |
| MessageBuffer.NoFullNoLoss | internal/p2p/webrtc.go:230-276 | if no call found the buffer full, readers have received exactly the first arrivals |
| MessageBuffer.FullExactly | internal/p2p/webrtc.go:231-234 | on every run the calls recorded as finding the buffer full, which alone may drop, are exactly those that arrive while it holds 256 messages |
| MessageBuffer.DropDespiteRoom | internal/p2p/webrtc.go:231-240 | a reader between the two selects makes a call drop a message although there is room |
| MessageBuffer.Channel.OnMessage | internal/p2p/webrtc.go:230-241 | appends, dropping the oldest message exactly when full |
| MessageBuffer.Channel.Read | internal/p2p/webrtc.go:268-276 | copies the oldest message as far as it fits and leaves the rest of the array alone, or ends the stream when the close signal is picked |
| PeerBridge.BytesArriveInOrder | internal/p2p/webrtc.go:344-386 | on every run all that the near socket yields counts as read, and the far socket gets whole messages in order and once, up to a last partial write; a prefix of the bytes read if no arrival found the buffer full |
| PeerBridge.BothDirectionsInOrder | internal/p2p/webrtc.go:354-386 | for both directions at once, sharing each machine's connection and socket, under every interleaving: in order as above; every byte read is written or in flight while the receiving machine is open, has its game and met no full buffer; and until a machine closes, a reading loop ends only with its own game and drops nothing |
| PeerBridge.LoopsEndForGood | internal/p2p/webrtc.go:355-383 | a loop that has ended writes, or reads and sends, nothing more on any continuation |
| PeerBridge.SizesDecide | internal/p2p/webrtc.go:357-372 | the prefix property holds on all such runs if and only if the copying loop's buffer is at least as large as the reading loop's, as the deployed 4096 and 4096 are |
| PeerBridge.TruncationShows | internal/p2p/webrtc.go:268-276 | the run in which a smaller copy buffer truncates a message |
| PeerShutdown.ReturnsExactly | internal/p2p/webrtc.go:344-386 | once the surroundings are silent the loops come to rest within a bounded number of steps, and BridgeToTCP has then returned whatever the selects pick iff each loop is bound to meet a failing read or write, and for some pick iff that holds once the close signal is preferred to a message whose write would stall |
| PeerShutdown.AfterCloseExactly | internal/p2p/webrtc.go:278-305 | from the start, once the peer has been closed and with it the data channel: the loop that reads the socket is bound to return iff the game's stream ends or a chunk is held or unread, and BridgeToTCP iff also no stalled write is held or within reach |
| PeerShutdown.ReturnedBecause | internal/p2p/webrtc.go:354-386 | on every run that returns, the peer was closed or the socket broke, and the game's stream ended or the channel refused to send |
| PeerShutdown.SurroundingsExactly | internal/p2p/webrtc.go:268-305 | on every run without a reset the flags are what the events say, a close of the peer closing its data channel too, and every chunk the game sent is unread or has been read |
| PeerShutdown.GameEndIsNotEnough | internal/p2p/webrtc.go:355-369 | on every run BridgeToTCP stays in its wait until the peer is closed or the socket refuses a write, even if the game has gone |
| PeerShutdown.PeerCloseIsNotEnough | internal/p2p/webrtc.go:371-386 | on every run it stays there until an idle game sends or ends, even if the peer connection has been closed |
| BridgeProtocol.InvKept | internal/client/bridge/bridge.go:137-244 | every step of ConnectRelay, of the forwarders and of Close keeps the bridge invariant |
| BridgeProtocol.BytesConserved | internal/client/bridge/bridge.go:162-222 | in each direction the bytes written are a prefix of those read, the counter lags the bytes read and leads the bytes written by at most one 32 KiB chunk, and all agree at the loop head |
| BridgeProtocol.NothingReadIsDropped | internal/client/bridge/bridge.go:172-189 | on every run the bytes written are a prefix of what Read has returned, all of it at the loop head, and all but the chunk in hand at any time |
| BridgeProtocol.StateExactly | internal/client/bridge/bridge.go:97-160 | at every moment of every run the state is the one ConnectRelay last set, or Disconnected if stopCh has been closed since then |
| BridgeProtocol.DialDecides | internal/client/bridge/bridge.go:140-160 | ConnectRelay connects, or fails, exactly as its dial did |
| BridgeProtocol.OneEndsBoth | internal/client/bridge/bridge.go:173-189 | on every run a forwarder that has returned has left the bridge stopped, and a failed Read or Write leads there by the forwarder's next step |
| BridgeProtocol.ShutdownExactly | internal/client/bridge/bridge.go:137-244 | stopCh is closed at most once; after ConnectRelay has returned without error, both connections are closed iff Close came after their assignment and the state is Disconnected iff Close came after the last state change; after it returned the dial error there are no connections and the state is Disconnected iff Close came after that return, else Error |
| BridgeProtocol.StoppedExactly | internal/client/bridge/bridge.go:225-234 | on every run stopCh is closed if and only if somebody called Close, from outside or as a failing forwarder |
| BridgeProtocol.ForwardersEnd | internal/client/bridge/bridge.go:162-249 | once stopped, with either return of ConnectRelay, state and connections never change on any continuation and each started forwarder returns within three of its own steps, so Wait returns |
| BridgeProtocol.ForwarderCanStep | internal/client/bridge/bridge.go:166-190 | no forwarder of a stopped bridge is stuck before that: it has a step that needs no data and no willing peer, and a Read or Write it sits in is on a connection that Close has closed |
| BridgeProtocol.OvertakenRunEnds | internal/client/bridge/bridge.go:137-160 | the run in which Close precedes ConnectRelay's assignment ends Connected with both connections open and no forwarder |
| BridgeProtocol.OvertakenCloseIsLost | internal/client/bridge/bridge.go:229-234 | and no later step, Close included, ever changes that |
| BridgeProtocol.OverwrittenRunEnds | internal/client/bridge/bridge.go:141-145 | the run in which Close comes between a failed dial and its report ends closed and in state Error |
| BridgeProtocol.OverwrittenCloseIsLost | internal/client/bridge/bridge.go:141-145 | and no later step, Close included, ever changes that |
| LocalBridge.Bridge.SetState | internal/client/bridge/bridge.go:97-107 | sets the state and reports whether the callback is due |
| LocalBridge.Bridge.Close | internal/client/bridge/bridge.go:225-244 | only the first call closes stopCh and the connections and disconnects |
| LocalBridge.Bridge.Forward | internal/client/bridge/bridge.go:162-222 | a forwarding loop reads and writes exactly what its turns bring up to the first that is not a full write, which decides how it ends; it counts what it reads, leaves at most one chunk unwritten, and closes the bridge on an error |
| Handshake.LosslessIffNoResidue | internal/client/transport/relay.go:80-100 | for every chunking the kept connection yields the peer's stream minus exactly the residue of the last read, so it is lossless iff the residue is empty |
| Handshake.AnyAmountCanBeLost | internal/client/transport/relay.go:80-81 | for every stream and cut point there is a chunking that loses exactly the bytes in between |
| Handshake.ReadLine | internal/client/transport/relay.go:80-85 | the buffered read returns the stream up to its first newline and has taken the least number of chunks that covers it |
| Handshake.RelayClient.Connect | internal/client/transport/relay.go:43-102 | each outcome characterised by the dial, the write and the response line; keeps a connection exactly when that line decodes to success, and it yields the remaining chunks; closes the dialled connection on every failure |
| Handshake.AuthMessageFraming | internal/server/relay/relay.go:65-111 | the relay forwards exactly the payload iff the decoder's last chunk ends with the message's newline; a late newline is forwarded as data |
| Base64Url.DecodeOfEncode | internal/server/auth/token.go:41-42 | decoding undoes encoding for every length modulo 3, and encoded text has no dot |
| Base64Url.EncodedLength | internal/server/auth/token.go:41-42 | the encoded length without padding |
| Base64Url.AlphabetIsTable2 | internal/server/auth/token.go:41-42 | the characters are those of Table 2 of RFC 4648 |
| Base64Url.EncodeSpells | internal/server/auth/token.go:41-42 | the encoding holds the bits of the bytes in order, with zeros in the bits left over |
| Base64Url.DecodesExactly | internal/server/auth/token.go:54-62 | of all texts, those that decode to given bytes are exactly the ones that, without line breaks, print sextets holding the bits of the bytes in order |
| Token.VerifyOfSign | internal/server/auth/token.go:31-82 | a signed token verifies to the signed claims exactly while the clock is at most the expiry second |
| Token.AcceptedExactly | internal/server/auth/token.go:48-82 | of all texts, those that verify to given claims are exactly the ones that carry a payload together with its digest, where the payload reads as the claims and they have not expired |
| Token.ForgeryIsRefused | internal/server/auth/token.go:64-70 | a payload under anything but its own digest is refused for its signature |
| Token.ValidatedExactly | cmd/sfo-helper/main.go:1770-1776 | a text validates as a session and role if and only if it carries, with its digest, an unexpired payload that says so |
| Token.RelayTokenLifetime | internal/server/auth/token.go:85-92 | a relay token validates as its session and role up to the end of its expiry second and never after |
| JoinCode.GenerateCode | internal/server/session/store.go:218-232 | a drawn code is SFO- and four characters picked by the random bytes; none if the random source fails |
| JoinCode.HexIsInjective | internal/server/session/store.go:210-216 | different random bytes give different identifiers |
| JoinCode.CleanExactly | cmd/sfo-helper/main.go:1655-1657 | trimming, raising and dropping dashes reads a code from exactly the texts that show it up to case, dashes and outer white space |
| JoinCode.WhoReachesTheCode | cmd/sfo-helper/main.go:1655-1663 | of all Unicode texts, those that reach SFO-XXXX are exactly the ones that show SFOXXXX, or XXXX when it does not start with SFO |
| JoinCode.TypedCodeIsRead | cmd/sfo-helper/main.go:1655-1663 | every case change, dash insertion and outer white space around SFOXXXX normalises to SFO-XXXX |
| JoinCode.BareCodeIsRead | cmd/sfo-helper/main.go:1655-1663 | the bare XXXX form does so exactly when XXXX does not start with SFO |
| Handlers.HandleCreate | cmd/sfo-helper/main.go:1601-1633 | succeeds if and only if the client is within its limit and all three draws succeed; then stores, marks and answers with a new unjoined session made of those draws and a host token; charges one limiter only |
| Handlers.HandleJoin | cmd/sfo-helper/main.go:1635-1684 | joins the session of the normalised code and makes a joiner token for it, or changes nothing in the store |
| Handlers.OneJoinerToken | cmd/sfo-helper/main.go:1665-1674 | on every run at most one joiner relay token is made per session |
| Handlers.TypedCodeJoinsItsSession | cmd/sfo-helper/main.go:1655-1674 | whatever spelling of the code of a live, unjoined, indexed session is typed, the join reaches that session and its token is accepted as that session's joiner throughout its time to live |
| Handlers.CreatedSessionIsJoined | cmd/sfo-helper/main.go:1601-1684 | a session made by the create handler is the one that the join handler finds under any spelling of its code, over every run that leaves it alone, until somebody joins it or its time to live ends, with its flags as their last setters said |
| Handlers.HandlersTokensPairHostWithJoiner | cmd/sfo-helper/main.go:1770-1776 | a relay that accepts only the handlers' tokens pairs a host with a joiner on every run |
| Handlers.PresentedTokensPairHostWithJoiner | internal/server/relay/relay.go:73-84 | the same for whatever texts clients present, as long as nobody but the handlers puts a payload under its digest |

## Left out

- SessionSweeps.SweepingIsUnobservable: the setters' error results are not among the compared answers, because they do show a sweep (`SettersTell`); no caller looks at them. Join's refusals are compared without their text.
- RateLimits.EvictionTheorem: the library's bucket is an exact integer bucket, not floating point, and one request takes one clock reading where the code takes two a moment apart.
- Token.VerifyOfSign: the JSON codec is a pair of functions assumed to read back what it writes (`CodecReads`), and the keyed digest is any function.
- SessionHistory.StoreFollowsRecord: speaks of runs in which the session's code is not drawn again or removed with another session of the same code; without that, `SessionIndex.IndexIsLatest` says where the code leads.
- JoinCode.WhoReachesTheCode: letters outside ASCII that are raised to letters outside ASCII are left as they are, which changes no code that is reached; dashes other than `-` are ordinary characters, as in the code.
- SessionStore.Store.Create: sessions are values in the map, so a caller that keeps the returned pointer and reads it without the lock is not modelled; the same holds for the other operations of the store.
- RelayPairing.PollingIsBounded: the 10 s deadline on reading the authentication message appears only as the possibility that authentication fails.
- Handshake.RelayClient.Connect: dialling, TLS and deadlines are inputs; bufio gives up after a hundred empty reads, which is not modelled.
- RelayStall.EndsExactly: bytes that the kernel buffers for a stalled end are part of its taking data; a write to an end whose remote side has gone away may succeed or fail.
- PeerShutdown.ReturnsExactly: messages and chunks are counted, not carried (their bytes are in `PeerBridge`), and a send on the data channel succeeds or fails without blocking.
- BridgeProtocol.ShutdownExactly: one ConnectRelay call per bridge, and no WaitForGame call running beside it.
- SignalExchange.ExchangeIsSafe: ICE candidates are never sent by the two exchanges and are not part of a message here; HTTP is requests that are looked up, answered, delivered or abandoned.
- WaitForSignal's own loop and sleeps are represented by the steps Ask, Deliver, Abandon and GiveUp.
- Menus, game launching, port probing, UPnP, configuration, HTTP routing, CORS and logging.
- ICE, STUN, TURN and the WebRTC connection itself.
- The quality of random numbers and the strength of the digest.
