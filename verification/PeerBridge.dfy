/** BridgeToTCP from one game socket to the other (internal/p2p/webrtc.go): the loop that
    reads the socket and sends messages, the ordered reliable data channel, the drop-oldest
    buffer, and the loop that reads messages and writes the other socket. */
module PeerBridge {
  import opened Common
  import opened Bytes
  import MB = MessageBuffer

  /** The sizes of the two loops' buffers. */
  datatype Config = Config(readSize: nat, copySize: nat)

  const DEPLOYED := Config(4096, 4096)

  /** The socket-to-channel loop: reading, holding a chunk it has not sent, or ended with a
      chunk it could not send. */
  datatype Pump = Pumping | Holding(chunk: Chunk) | Ended(lost: Chunk)

  /** The channel-to-socket loop. */
  datatype Drain = Reading | Writing(data: Chunk) | Stopped

  datatype State = State(
    read: seq<byte>,
    pump: Pump,
    wire: seq<Chunk>,
    buffer: MB.Buffer<Chunk>,
    drain: Drain,
    written: seq<byte>)

  datatype Event =
    | SocketRead(chunk: Chunk)
    | SocketEnds
    | SendDone
    | SendFails
    | Arrives
    | BufferDrops
    | BufferSends
    | Taken
    | ReadEnds
    | WriteDone
    | WriteFails(k: nat)

  const START := State([], Pumping, [], MB.Start(), Reading, [])

  predicate Enabled(cfg: Config, s: State, e: Event) {
    match e
    case SocketRead(chunk) => s.pump.Pumping? && |chunk| <= cfg.readSize
    case SocketEnds => s.pump.Pumping?
    case SendDone => s.pump.Holding?
    case SendFails => s.pump.Holding?
    case Arrives => s.wire != [] && MB.Enabled(s.buffer, MB.Arrive(s.wire[0]))
    case BufferDrops => MB.Enabled(s.buffer, MB.Drop)
    case BufferSends => MB.Enabled(s.buffer, MB.Send)
    case Taken => s.drain.Reading? && MB.Enabled(s.buffer, MB.Take)
    case ReadEnds => s.drain.Reading?
    case WriteDone => s.drain.Writing?
    case WriteFails(k) => s.drain.Writing? && k <= |s.drain.data|
  }

  function Apply(cfg: Config, s: State, e: Event): State
    requires Enabled(cfg, s, e)
  {
    match e
    case SocketRead(chunk) => s.(read := s.read + chunk, pump := Holding(chunk))
    case SocketEnds => s.(pump := Ended([]))
    case SendDone => s.(pump := Pumping, wire := s.wire + [s.pump.chunk])
    case SendFails => s.(pump := Ended(s.pump.chunk))
    case Arrives => s.(wire := s.wire[1..], buffer := MB.Apply(s.buffer, MB.Arrive(s.wire[0])))
    case BufferDrops => s.(buffer := MB.Apply(s.buffer, MB.Drop))
    case BufferSends => s.(buffer := MB.Apply(s.buffer, MB.Send))
    case Taken => s.(buffer := MB.Apply(s.buffer, MB.Take), drain := Writing(Trimmed(s.buffer.items[0], cfg.copySize)))
    case ReadEnds => s.(drain := Stopped)
    case WriteDone => s.(drain := Reading, written := s.written + s.drain.data)
    case WriteFails(k) => s.(drain := Stopped, written := s.written + s.drain.data[..k])
  }

  ghost predicate Valid(cfg: Config, s: State, es: seq<Event>)
    decreases |es|
  {
    es != [] ==> Enabled(cfg, s, es[0]) && Valid(cfg, Apply(cfg, s, es[0]), es[1..])
  }

  ghost function Exec(cfg: Config, s: State, es: seq<Event>): State
    requires Valid(cfg, s, es)
    decreases |es|
  {
    if es == [] then s else Exec(cfg, Apply(cfg, s, es[0]), es[1..])
  }

  lemma {:induction false} Extend(cfg: Config, s: State, es: seq<Event>, e: Event)
    requires Valid(cfg, s, es) && Enabled(cfg, Exec(cfg, s, es), e)
    ensures Valid(cfg, s, es + [e]) && Exec(cfg, s, es + [e]) == Apply(cfg, Exec(cfg, s, es), e)
    decreases |es|
  {
    if es == [] {
      assert (es + [e])[1..] == [];
    } else {
      Extend(cfg, Apply(cfg, s, es[0]), es[1..], e);
      assert (es + [e])[1..] == es[1..] + [e];
    }
  }

  /** The messages readers have received, in the order received. */
  ghost function Delivered(b: MB.Buffer<Chunk>): seq<Chunk> {
    seq(|b.taken|, i requires 0 <= i < |b.taken| => if b.taken[i] < |b.arrivals| then b.arrivals[b.taken[i]] else [])
  }

  function Unsent(p: Pump): Chunk {
    match p
    case Pumping => []
    case Holding(c) => c
    case Ended(c) => c
  }

  predicate AllWithin(chunks: seq<Chunk>, size: nat) {
    forall i | 0 <= i < |chunks| :: |chunks[i]| <= size
  }

  /** Nothing read is lost before the buffer, and the far socket has got what was delivered,
      except for the message being written. */
  ghost predicate BytesSound(cfg: Config, s: State) {
    && s.read == Flatten(s.buffer.arrivals + s.wire) + Unsent(s.pump)
    && |Unsent(s.pump)| <= cfg.readSize && AllWithin(s.buffer.arrivals, cfg.readSize) && AllWithin(s.wire, cfg.readSize)
    && DrainSound(s.drain, s.written, Flatten(Delivered(s.buffer)))
  }

  predicate DrainSound(d: Drain, written: seq<byte>, delivered: seq<byte>) {
    match d
    case Reading => written == delivered
    case Writing(data) => written + data == delivered
    case Stopped => written <= delivered
  }

  lemma DeliveredStays(b: MB.Buffer<Chunk>, e: MB.Event<Chunk>)
    requires MB.Inv(b) && MB.Enabled(b, e)
    ensures MB.Inv(MB.Apply(b, e))
    ensures !e.Take? ==> Delivered(MB.Apply(b, e)) == Delivered(b)
    ensures e.Take? ==> |b.fates| < |b.arrivals| && b.items[0] == b.arrivals[|b.fates|]
    ensures e.Take? ==> Delivered(MB.Apply(b, e)) == Delivered(b) + [b.items[0]]
  {
    MB.InvKept(b, e);
  }

  lemma SendMovesChunk(arrivals: seq<Chunk>, wire: seq<Chunk>, chunk: Chunk)
    ensures Flatten(arrivals + (wire + [chunk])) + [] == Flatten(arrivals + wire) + chunk
  {
    FlattenSnoc(arrivals + wire, chunk);
    assert arrivals + (wire + [chunk]) == (arrivals + wire) + [chunk];
  }

  lemma SendDoneKeeps(cfg: Config, s: State)
    requires BytesSound(cfg, s) && Enabled(cfg, s, SendDone)
    ensures BytesSound(cfg, Apply(cfg, s, SendDone))
  {
    SendMovesChunk(s.buffer.arrivals, s.wire, s.pump.chunk);
  }

  lemma SourceKeeps(cfg: Config, s: State, e: Event)
    requires BytesSound(cfg, s) && Enabled(cfg, s, e) && (e.SocketRead? || e.SocketEnds? || e.SendFails?)
    ensures BytesSound(cfg, Apply(cfg, s, e))
  {
    var t := Apply(cfg, s, e);
    assert t.buffer == s.buffer && t.wire == s.wire;
  }

  lemma ArrivalKeeps(cfg: Config, s: State)
    requires BytesSound(cfg, s) && MB.Inv(s.buffer) && Enabled(cfg, s, Arrives)
    ensures BytesSound(cfg, Apply(cfg, s, Arrives)) && MB.Inv(Apply(cfg, s, Arrives).buffer)
  {
    DeliveredStays(s.buffer, MB.Arrive(s.wire[0]));
    assert s.buffer.arrivals + [s.wire[0]] + s.wire[1..] == s.buffer.arrivals + s.wire;
  }

  lemma DrainKeeps(cfg: Config, s: State, e: Event)
    requires BytesSound(cfg, s) && Enabled(cfg, s, e) && (e.ReadEnds? || e.WriteDone? || e.WriteFails?)
    ensures BytesSound(cfg, Apply(cfg, s, e))
  {
    if e.WriteFails? {
      assert s.written + s.drain.data == s.written + s.drain.data[..e.k] + s.drain.data[e.k..];
    }
  }

  lemma TakeKeeps(cfg: Config, s: State)
    requires BytesSound(cfg, s) && Enabled(cfg, s, Taken) && |s.buffer.items[0]| <= cfg.copySize
    requires Delivered(MB.Apply(s.buffer, MB.Take)) == Delivered(s.buffer) + [s.buffer.items[0]]
    ensures BytesSound(cfg, Apply(cfg, s, Taken))
  {
    var t := Apply(cfg, s, Taken);
    FlattenSnoc(Delivered(s.buffer), s.buffer.items[0]);
    assert t.buffer.arrivals == s.buffer.arrivals && t.wire == s.wire && t.read == s.read && t.pump == s.pump;
    assert DrainSound(t.drain, t.written, Flatten(Delivered(t.buffer)));
  }

  lemma {:induction false} BytesSoundAlways(cfg: Config, s: State, es: seq<Event>)
    requires BytesSound(cfg, s) && MB.Inv(s.buffer) && Valid(cfg, s, es) && cfg.readSize <= cfg.copySize
    ensures BytesSound(cfg, Exec(cfg, s, es)) && MB.Inv(Exec(cfg, s, es).buffer)
    decreases |es|
  {
    if es != [] {
      match es[0] {
        case Arrives => ArrivalKeeps(cfg, s);
        case Taken =>
          DeliveredStays(s.buffer, MB.Take);
          TakeKeeps(cfg, s);
        case SendDone => SendDoneKeeps(cfg, s);
        case BufferDrops => DeliveredStays(s.buffer, MB.Drop);
        case BufferSends => DeliveredStays(s.buffer, MB.Send);
        case ReadEnds => DrainKeeps(cfg, s, es[0]);
        case WriteDone => DrainKeeps(cfg, s, es[0]);
        case WriteFails(_) => DrainKeeps(cfg, s, es[0]);
        case _ => SourceKeeps(cfg, s, es[0]);
      }
      BytesSoundAlways(cfg, Apply(cfg, s, es[0]), es[1..]);
    }
  }

  lemma DeliveredIsPrefix(b: MB.Buffer<Chunk>)
    requires MB.Inv(b) && b.fullCalls == {}
    ensures |b.taken| <= |b.arrivals| && Delivered(b) == b.arrivals[..|b.taken|]
  {
  }

  lemma BufferHoldsTheRest(b: MB.Buffer<Chunk>)
    requires MB.Inv(b) && b.fullCalls == {}
    ensures |b.taken| <= |b.arrivals| && b.arrivals == b.arrivals[..|b.taken|] + b.items
  {
  }

  lemma SentSplits(b: MB.Buffer<Chunk>, wire: seq<Chunk>)
    requires MB.Inv(b) && b.fullCalls == {}
    ensures Flatten(b.arrivals + wire) == Flatten(Delivered(b)) + Flatten(b.items) + Flatten(wire)
  {
    DeliveredIsPrefix(b);
    BufferHoldsTheRest(b);
    var given := Delivered(b);
    assert b.arrivals == given + b.items;
    FlattenConcat(given, b.items);
    FlattenConcat(b.arrivals, wire);
  }

  lemma WrittenIsPrefix(read: seq<byte>, pump: Pump, wire: seq<Chunk>, b: MB.Buffer<Chunk>, written: seq<byte>)
    requires MB.Inv(b) && b.fullCalls == {} && written <= Flatten(Delivered(b))
    requires read == Flatten(b.arrivals + wire) + Unsent(pump)
    ensures written <= read
  {
    SentSplits(b, wire);
  }

  /** What the near socket has yielded along a run. */
  function Yielded(es: seq<Event>): seq<byte> {
    if es == [] then [] else (if es[0].SocketRead? then es[0].chunk else []) + Yielded(es[1..])
  }

  lemma {:induction false} ReadIsYielded(cfg: Config, s: State, es: seq<Event>)
    requires Valid(cfg, s, es)
    ensures Exec(cfg, s, es).read == s.read + Yielded(es)
    decreases |es|
  {
    if es != [] { ReadIsYielded(cfg, Apply(cfg, s, es[0]), es[1..]); }
  }

  /** On every run: what reaches the far socket is, up to a last partial write, the
      concatenation of whole messages, taken in the order they were sent and never twice; and
      if no arrival found the buffer full it is a prefix of what was read from the near one. */
  lemma BytesArriveInOrder(cfg: Config, es: seq<Event>)
    requires Valid(cfg, START, es) && cfg.readSize <= cfg.copySize
    ensures var s := Exec(cfg, START, es);
      && s.read == Yielded(es)
      && MB.Inv(s.buffer) && s.written <= Flatten(Delivered(s.buffer))
      && (s.buffer.fullCalls == {} ==> s.written <= s.read)
  {
    ReadIsYielded(cfg, START, es);
    assert START.buffer.arrivals + START.wire == [];
    BytesSoundAlways(cfg, START, es);
    var s := Exec(cfg, START, es);
    assert s.written <= Flatten(Delivered(s.buffer));
    if s.buffer.fullCalls == {} { WrittenIsPrefix(s.read, s.pump, s.wire, s.buffer, s.written); }
  }

  // ---------- A loop that has ended ----------

  /** A loop that has ended stays ended: the far socket gets nothing more, or the near one is
      read no more and nothing more is sent. */
  lemma {:induction false} LoopsEndForGood(cfg: Config, s: State, es: seq<Event>)
    requires Valid(cfg, s, es)
    ensures var t := Exec(cfg, s, es);
      && (s.drain.Stopped? ==> t.drain.Stopped? && t.written == s.written)
      && (s.pump.Ended? ==> t.pump == s.pump && t.read == s.read && |t.wire| <= |s.wire|)
    decreases |es|
  {
    if es != [] { LoopsEndForGood(cfg, Apply(cfg, s, es[0]), es[1..]); }
  }

  /** And a failed read or write ends it. */
  lemma FailureEnds(cfg: Config, s: State, e: Event)
    requires Enabled(cfg, s, e)
    ensures e.ReadEnds? || e.WriteFails? ==> Apply(cfg, s, e).drain.Stopped?
    ensures e.SocketEnds? || e.SendFails? ==> Apply(cfg, s, e).pump.Ended?
  {
  }

  // ---------- Both directions at once ----------

  /** One machine: its end of the peer connection, and its game's socket. */
  datatype Peer = Peer(closed: bool, gone: bool)

  /** Both peers run BridgeToTCP: `there` leads from the near game to the far one, `back` the
      other way. Each machine's connection and socket serve both directions. */
  datatype Duplex = Duplex(there: State, back: State, near: Peer, far: Peer)

  datatype Step = There(event: Event) | Back(event: Event) | Closes(nearOne: bool) | GameGoes(nearOne: bool)

  const BOTH := Duplex(START, START, Peer(false, false), Peer(false, false))

  /** A loop fails only for a reason: its own game is gone, its own end is closed, or, for a
      send, either end is. */
  predicate Allowed(e: Event, from: Peer, to: Peer) {
    match e
    case SocketEnds => from.gone
    case SendFails => from.closed || to.closed
    case ReadEnds => to.closed
    case WriteFails(_) => to.gone
    case _ => true
  }

  predicate StepEnabled(cfg: Config, d: Duplex, k: Step) {
    match k
    case There(e) => Enabled(cfg, d.there, e) && Allowed(e, d.near, d.far)
    case Back(e) => Enabled(cfg, d.back, e) && Allowed(e, d.far, d.near)
    case _ => true
  }

  function ApplyStep(cfg: Config, d: Duplex, k: Step): Duplex
    requires StepEnabled(cfg, d, k)
  {
    match k
    case There(e) => d.(there := Apply(cfg, d.there, e))
    case Back(e) => d.(back := Apply(cfg, d.back, e))
    case Closes(n) => if n then d.(near := d.near.(closed := true)) else d.(far := d.far.(closed := true))
    case GameGoes(n) => if n then d.(near := d.near.(gone := true)) else d.(far := d.far.(gone := true))
  }

  ghost predicate DuplexValid(cfg: Config, d: Duplex, ks: seq<Step>)
    decreases |ks|
  {
    ks != [] ==> StepEnabled(cfg, d, ks[0]) && DuplexValid(cfg, ApplyStep(cfg, d, ks[0]), ks[1..])
  }

  ghost function DuplexExec(cfg: Config, d: Duplex, ks: seq<Step>): Duplex
    requires DuplexValid(cfg, d, ks)
    decreases |ks|
  {
    if ks == [] then d else DuplexExec(cfg, ApplyStep(cfg, d, ks[0]), ks[1..])
  }

  predicate Leads(k: Step, there: bool) { if there then k.There? else k.Back? }

  function EventsOf(ks: seq<Step>, there: bool): seq<Event> {
    if ks == [] then []
    else
      (if Leads(ks[0], there) then [ks[0].event] else []) + EventsOf(ks[1..], there)
  }

  function Way(d: Duplex, there: bool): State { if there then d.there else d.back }

  /** Each direction of a run of both is a run of that direction. */
  lemma {:induction false} DirectionRuns(cfg: Config, d: Duplex, ks: seq<Step>, there: bool)
    requires DuplexValid(cfg, d, ks)
    ensures Valid(cfg, Way(d, there), EventsOf(ks, there))
    ensures Way(DuplexExec(cfg, d, ks), there) == Exec(cfg, Way(d, there), EventsOf(ks, there))
    decreases |ks|
  {
    if ks != [] {
      DirectionRuns(cfg, ApplyStep(cfg, d, ks[0]), ks[1..], there);
      EventsOfTail(ks, there);
      StepMovesOneWay(cfg, d, ks[0], there);
    }
  }

  lemma StepMovesOneWay(cfg: Config, d: Duplex, k: Step, there: bool)
    requires StepEnabled(cfg, d, k)
    ensures var t := Way(ApplyStep(cfg, d, k), there);
      if Leads(k, there) then Enabled(cfg, Way(d, there), k.event) && t == Apply(cfg, Way(d, there), k.event)
      else t == Way(d, there)
  {
  }

  lemma EventsOfTail(ks: seq<Step>, there: bool)
    requires ks != []
    ensures var es, rest := EventsOf(ks, there), EventsOf(ks[1..], there);
      if Leads(ks[0], there) then es != [] && es[0] == ks[0].event && es[1..] == rest
      else es == rest
  {
  }

  /** Why the loops of one direction have stopped. */
  predicate StopsExplained(s: State, from: Peer, to: Peer) {
    && (s.drain.Stopped? ==> to.closed || to.gone)
    && (s.pump.Ended? ==> from.gone || from.closed || to.closed)
    && (s.pump.Ended? && s.pump.lost != [] ==> from.closed || to.closed)
  }

  lemma {:induction false} StopsExplainedAlways(cfg: Config, d: Duplex, ks: seq<Step>)
    requires DuplexValid(cfg, d, ks)
    requires StopsExplained(d.there, d.near, d.far) && StopsExplained(d.back, d.far, d.near)
    ensures var t := DuplexExec(cfg, d, ks);
      StopsExplained(t.there, t.near, t.far) && StopsExplained(t.back, t.far, t.near)
    decreases |ks|
  {
    if ks != [] { StopsExplainedAlways(cfg, ApplyStep(cfg, d, ks[0]), ks[1..]); }
  }

  /** The bytes between the two sockets: being written, buffered, on the wire, not yet sent. */
  function InFlight(s: State): seq<byte> {
    (if s.drain.Writing? then s.drain.data else []) + Flatten(s.buffer.items) + Flatten(s.wire) + Unsent(s.pump)
  }

  /** While the drain runs and no arrival has found the buffer full, no byte is lost. */
  lemma NothingMissing(read: seq<byte>, pump: Pump, wire: seq<Chunk>, b: MB.Buffer<Chunk>, d: Drain, written: seq<byte>)
    requires MB.Inv(b) && b.fullCalls == {} && !d.Stopped?
    requires read == Flatten(b.arrivals + wire) + Unsent(pump) && DrainSound(d, written, Flatten(Delivered(b)))
    ensures read == written + InFlight(State(read, pump, wire, b, d, written))
  {
    SentSplits(b, wire);
    var held: seq<byte> := if d.Writing? then d.data else [];
    assert Flatten(Delivered(b)) == written + held;
    Reassociate(written, held, Flatten(b.items), Flatten(wire), Unsent(pump));
  }

  lemma Reassociate(u: seq<byte>, v: seq<byte>, w: seq<byte>, x: seq<byte>, y: seq<byte>)
    ensures u + v + w + x + y == u + (v + w + x + y)
  {
  }

  /** What one direction owes to the two machines. */
  ghost predicate Delivers(s: State, from: Peer, to: Peer) {
    && MB.Inv(s.buffer) && s.written <= Flatten(Delivered(s.buffer))
    && (s.buffer.fullCalls == {} ==> s.written <= s.read)
    && (s.buffer.fullCalls == {} && !to.closed && !to.gone ==> s.read == s.written + InFlight(s))
    && (!from.closed && !to.closed ==> !s.pump.Ended? || (from.gone && s.pump.lost == []))
  }

  /** Whatever the interleaving of the two directions: in each of them the far socket gets
      whole messages in order; while no message finds the buffer full and the receiving machine
      is neither closed nor without its game, every byte read is written or in flight; and until
      one machine closes, the reading loop ends only with its own game and drops nothing. So
      the end of one game stops only the loops that use its socket. */
  lemma BothDirectionsInOrder(cfg: Config, ks: seq<Step>)
    requires DuplexValid(cfg, BOTH, ks) && cfg.readSize <= cfg.copySize
    ensures var d := DuplexExec(cfg, BOTH, ks); Delivers(d.there, d.near, d.far) && Delivers(d.back, d.far, d.near)
  {
    DirectionRuns(cfg, BOTH, ks, true);
    DirectionRuns(cfg, BOTH, ks, false);
    StopsExplainedAlways(cfg, BOTH, ks);
    OneDirectionDelivers(cfg, EventsOf(ks, true));
    OneDirectionDelivers(cfg, EventsOf(ks, false));
  }

  lemma OneDirectionDelivers(cfg: Config, es: seq<Event>)
    requires Valid(cfg, START, es) && cfg.readSize <= cfg.copySize
    ensures var s := Exec(cfg, START, es);
      && MB.Inv(s.buffer) && s.written <= Flatten(Delivered(s.buffer))
      && (s.buffer.fullCalls == {} ==> s.written <= s.read)
      && (s.buffer.fullCalls == {} && !s.drain.Stopped? ==> s.read == s.written + InFlight(s))
  {
    BytesArriveInOrder(cfg, es);
    assert START.buffer.arrivals + START.wire == [];
    BytesSoundAlways(cfg, START, es);
    var s := Exec(cfg, START, es);
    if s.buffer.fullCalls == {} && !s.drain.Stopped? {
      NothingMissing(s.read, s.pump, s.wire, s.buffer, s.drain, s.written);
    }
  }

  // ---------- Why both buffers must agree ----------

  ghost predicate AlwaysPrefix(cfg: Config) {
    forall es {:trigger Valid(cfg, START, es)} ::
      Valid(cfg, START, es) && Exec(cfg, START, es).buffer.fullCalls == {} ==>
      Exec(cfg, START, es).written <= Exec(cfg, START, es).read
  }

  function Zeros(n: nat): Chunk { seq(n, _ => 0) }

  /** One chunk longer than the copy buffer, then one more byte. */
  function TruncatingRun(n: nat): seq<Event> {
    [SocketRead(Zeros(n))] + [SendDone] + [Arrives] + [Taken] + [WriteDone] +
    [SocketRead([1])] + [SendDone] + [Arrives] + [Taken] + [WriteDone]
  }

  /** Both loops at rest and nothing in between. */
  predicate Quiet(s: State) {
    && s.pump.Pumping? && s.drain.Reading? && s.wire == []
    && s.buffer.items == [] && s.buffer.producer.Idle? && s.buffer.fullCalls == {}
  }

  /** One chunk carried from socket to socket through an empty buffer. */
  lemma CarryOne(cfg: Config, es: seq<Event>, chunk: Chunk)
    requires Valid(cfg, START, es) && |chunk| <= cfg.readSize
    requires Quiet(Exec(cfg, START, es))
    ensures var r := es + [SocketRead(chunk)] + [SendDone] + [Arrives] + [Taken] + [WriteDone];
      Valid(cfg, START, r) &&
      var s, t := Exec(cfg, START, es), Exec(cfg, START, r);
      && Quiet(t) && t.read == s.read + chunk && t.written == s.written + Trimmed(chunk, cfg.copySize)
  {
    var r := es;
    Extend(cfg, START, r, SocketRead(chunk));
    r := r + [SocketRead(chunk)];
    Extend(cfg, START, r, SendDone);
    r := r + [SendDone];
    Extend(cfg, START, r, Arrives);
    r := r + [Arrives];
    Extend(cfg, START, r, Taken);
    r := r + [Taken];
    Extend(cfg, START, r, WriteDone);
  }

  lemma TruncationShows(cfg: Config)
    requires 1 <= cfg.copySize < cfg.readSize
    ensures Valid(cfg, START, TruncatingRun(cfg.copySize + 1))
    ensures var s := Exec(cfg, START, TruncatingRun(cfg.copySize + 1));
      s.buffer.fullCalls == {} && !(s.written <= s.read)
  {
    var n := cfg.copySize;
    var zeros := Zeros(n + 1);
    CarryOne(cfg, [], zeros);
    var r := [SocketRead(zeros)] + [SendDone] + [Arrives] + [Taken] + [WriteDone];
    assert [] + [SocketRead(zeros)] == [SocketRead(zeros)];
    CarryOne(cfg, r, [1]);
    assert r + [SocketRead([1])] + [SendDone] + [Arrives] + [Taken] + [WriteDone] == TruncatingRun(n + 1);
    var s := Exec(cfg, START, TruncatingRun(n + 1));
    assert s.read == [] + zeros + [1] && s.written == [] + zeros[..n] + [1];
    assert s.read[n] == 0 && s.written[n] == 1;
  }

  /** The bytes always arrive as a prefix, whenever no arrival finds the buffer full, exactly
      when the copying loop's buffer is at least as large as the reading loop's; both are
      4096 bytes. */
  lemma SizesDecide(cfg: Config)
    requires 1 <= cfg.copySize
    ensures AlwaysPrefix(cfg) <==> cfg.readSize <= cfg.copySize
    ensures AlwaysPrefix(DEPLOYED)
  {
    forall c: Config, es | c.readSize <= c.copySize && Valid(c, START, es) && Exec(c, START, es).buffer.fullCalls == {}
      ensures Exec(c, START, es).written <= Exec(c, START, es).read
    {
      BytesArriveInOrder(c, es);
    }
    if cfg.copySize < cfg.readSize { TruncationShows(cfg); }
  }
}
