/** The bounded drop-oldest buffer between the data channel and its readers
    (internal/p2p/webrtc.go): one producer whose OnMessage call is up to three channel
    operations, interleaved with any number of readers. */
module MessageBuffer {
  import opened Common

  const CAPACITY: nat := 256

  /** Where the producer is inside OnMessage: before the call, after finding the buffer full,
      or at the final blocking send. */
  datatype Producer = Idle | FoundFull | Sending

  /** How a message left the buffer: to a reader, or dropped by the OnMessage call `call`. */
  datatype Fate = Taken | DroppedBy(call: nat)

  /** `arrivals` lists the messages of all OnMessage calls so far, so a call is named by its
      index; `fates[i]` tells how the i-th message left; `fullCalls` are the calls that found
      the buffer full; `taken` lists the indices of the messages given to readers. */
  datatype Buffer<T> = Buffer(
    items: seq<T>,
    producer: Producer,
    arrivals: seq<T>,
    fates: seq<Fate>,
    fullCalls: set<nat>,
    taken: seq<nat>)

  function Start<T>(): Buffer<T> { Buffer([], Idle, [], [], {}, []) }

  datatype Event<T> = Arrive(msg: T) | Drop | Send | Take

  /** The final send blocks while the buffer is full. */
  predicate Enabled<T>(b: Buffer<T>, e: Event<T>) {
    match e
    case Arrive(_) => b.producer.Idle?
    case Drop => b.producer.FoundFull? && b.arrivals != []
    case Send => b.producer.Sending? && |b.items| < CAPACITY && b.arrivals != []
    case Take => b.items != []
  }

  function Apply<T>(b: Buffer<T>, e: Event<T>): Buffer<T>
    requires Enabled(b, e)
  {
    match e
    case Arrive(msg) =>
      var n := b.(arrivals := b.arrivals + [msg]);
      if |b.items| < CAPACITY then n.(items := b.items + [msg])
      else n.(producer := FoundFull, fullCalls := b.fullCalls + {|b.arrivals|})
    case Drop =>
      if b.items == [] then b.(producer := Sending)
      else b.(producer := Sending, items := b.items[1..], fates := b.fates + [DroppedBy(|b.arrivals| - 1)])
    case Send => b.(producer := Idle, items := b.items + [b.arrivals[|b.arrivals| - 1]])
    case Take => b.(items := b.items[1..], fates := b.fates + [Taken], taken := b.taken + [|b.fates|])
  }

  ghost predicate Valid<T>(b: Buffer<T>, es: seq<Event<T>>)
    decreases |es|
  {
    es != [] ==> Enabled(b, es[0]) && Valid(Apply(b, es[0]), es[1..])
  }

  ghost function Exec<T>(b: Buffer<T>, es: seq<Event<T>>): Buffer<T>
    requires Valid(b, es)
    decreases |es|
  {
    if es == [] then b else Exec(Apply(b, es[0]), es[1..])
  }

  /** The arrivals that have been put into the buffer. */
  function Entered<T>(b: Buffer<T>): int { |b.arrivals| - if b.producer.Idle? then 0 else 1 }

  ghost predicate Inv<T>(b: Buffer<T>) {
    && |b.items| <= CAPACITY
    && (b.producer.Sending? ==> |b.items| < CAPACITY)
    && |b.fates| <= Entered(b)
    && b.items == b.arrivals[|b.fates|..Entered(b)]
    && (!b.producer.Idle? ==> |b.arrivals| - 1 in b.fullCalls)
    && DropsExplained(b)
    && TakenSound(b)
    && (b.fullCalls == {} ==> |b.taken| == |b.fates| && forall i | 0 <= i < |b.taken| :: b.taken[i] == i)
  }

  /** A message is dropped only by a later call that found the buffer full, and each call
      drops at most one. */
  ghost predicate DropsExplained<T>(b: Buffer<T>) {
    && (forall i | 0 <= i < |b.fates| && b.fates[i].DroppedBy? ::
          i < b.fates[i].call < |b.arrivals| && b.fates[i].call in b.fullCalls &&
          (b.producer.FoundFull? ==> b.fates[i].call < |b.arrivals| - 1))
    && (forall i, j | 0 <= i < j < |b.fates| && b.fates[i].DroppedBy? && b.fates[j].DroppedBy? ::
          b.fates[i].call < b.fates[j].call)
  }

  /** Readers got exactly the messages marked as taken, in arrival order and once each. */
  ghost predicate TakenSound<T>(b: Buffer<T>) {
    && (forall i | 0 <= i < |b.taken| :: b.taken[i] < |b.fates| && b.fates[b.taken[i]].Taken?)
    && (forall i, j | 0 <= i < j < |b.taken| :: b.taken[i] < b.taken[j])
    && (forall k | 0 <= k < |b.fates| && b.fates[k].Taken? :: k in b.taken)
  }

  /** The producer's first select and its final send. */
  lemma PutKeeps<T>(b: Buffer<T>, e: Event<T>)
    requires Inv(b) && Enabled(b, e) && (e.Arrive? || e.Send?)
    ensures Inv(Apply(b, e))
  {
    var c := Apply(b, e);
    assert c.items == c.arrivals[|c.fates|..Entered(c)];
    assert TakenSound(c) && DropsExplained(c);
  }

  /** The two ways a message leaves. */
  lemma LeaveKeeps<T>(b: Buffer<T>, e: Event<T>)
    requires Inv(b) && Enabled(b, e) && (e.Drop? || e.Take?)
    ensures Inv(Apply(b, e))
  {
    var c := Apply(b, e);
    assert c.items == c.arrivals[|c.fates|..Entered(c)];
    forall k | 0 <= k < |c.fates| && c.fates[k].Taken? ensures k in c.taken {
      if k < |b.fates| { assert k in b.taken; } else { assert c.taken[|b.taken|] == k; }
    }
    assert TakenSound(c);
    assert DropsExplained(c);
  }

  lemma InvKept<T>(b: Buffer<T>, e: Event<T>)
    requires Inv(b) && Enabled(b, e)
    ensures Inv(Apply(b, e))
  {
    if e.Arrive? || e.Send? { PutKeeps(b, e); } else { LeaveKeeps(b, e); }
  }

  lemma {:induction false} InvAlways<T>(b: Buffer<T>, es: seq<Event<T>>)
    requires Inv(b) && Valid(b, es)
    ensures Inv(Exec(b, es))
    decreases |es|
  {
    if es != [] {
      InvKept(b, es[0]);
      InvAlways(Apply(b, es[0]), es[1..]);
    }
  }

  /** The messages of the calls, and the number of reads, along a run. */
  function Called<T>(es: seq<Event<T>>): seq<T> {
    if es == [] then [] else (if es[0].Arrive? then [es[0].msg] else []) + Called(es[1..])
  }

  function Reads<T>(es: seq<Event<T>>): nat {
    if es == [] then 0 else (if es[0].Take? then 1 else 0) + Reads(es[1..])
  }

  /** Every call arrives and every read gets a message. */
  lemma {:induction false} CallsAndReadsCount<T>(b: Buffer<T>, es: seq<Event<T>>)
    requires Valid(b, es)
    ensures Exec(b, es).arrivals == b.arrivals + Called(es)
    ensures |Exec(b, es).taken| == |b.taken| + Reads(es)
    decreases |es|
  {
    if es != [] { CallsAndReadsCount(Apply(b, es[0]), es[1..]); }
  }

  /** The calls that find the buffer holding its capacity, along a run. */
  ghost function CallsAtCapacity<T>(b: Buffer<T>, es: seq<Event<T>>): set<nat>
    requires Valid(b, es)
    decreases |es|
  {
    if es == [] then {}
    else
      (if es[0].Arrive? && |b.items| >= CAPACITY then {|b.arrivals|} else {}) +
      CallsAtCapacity(Apply(b, es[0]), es[1..])
  }

  /** No other call drops anything. */
  lemma {:induction false} FullExactly<T>(b: Buffer<T>, es: seq<Event<T>>)
    requires Valid(b, es)
    ensures Exec(b, es).fullCalls == b.fullCalls + CallsAtCapacity(b, es)
    decreases |es|
  {
    if es != [] { FullExactly(Apply(b, es[0]), es[1..]); }
  }

  /** Under every interleaving the buffer never holds more than its capacity, the final
      blocking send always has room, what left plus what is held is exactly what entered, in
      order, readers never get a message twice or out of order, and every drop is owed to a
      later call that found the buffer full, one drop a call. */
  lemma DropOldestIsSound<T>(es: seq<Event<T>>)
    requires Valid(Start(), es)
    ensures var b := Exec(Start(), es);
      && |b.items| <= CAPACITY
      && (b.producer.Sending? ==> Enabled(b, Send))
      && |b.fates| + |b.items| == Entered(b) && b.items == b.arrivals[|b.fates|..Entered(b)]
      && TakenSound(b) && DropsExplained(b)
      && b.arrivals == Called(es) && |b.taken| == Reads(es) && b.fullCalls == CallsAtCapacity(Start(), es)
  {
    InvAlways(Start<T>(), es);
    FullExactly(Start<T>(), es);
    CallsAndReadsCount(Start<T>(), es);
  }

  /** If no call ever found the buffer full, nothing is lost: readers have received exactly
      the first arrivals. */
  lemma NoFullNoLoss<T>(es: seq<Event<T>>)
    requires Valid(Start(), es) && Exec(Start(), es).fullCalls == {}
    ensures var b := Exec(Start(), es);
      && b.arrivals == Called(es)
      && |b.taken| + |b.items| == |b.arrivals| && forall i | 0 <= i < |b.taken| :: b.taken[i] == i
  {
    InvAlways(Start<T>(), es);
    CallsAndReadsCount(Start<T>(), es);
  }

  /** A reader may make room between the two selects: then a message is dropped although the
      buffer is no longer full. */
  lemma DropDespiteRoom<T>(b: Buffer<T>, msg: T)
    requires Inv(b) && b.producer.Idle? && |b.items| == CAPACITY
    ensures var es := [Arrive(msg), Take, Drop];
      && Valid(b, es)
      && |Apply(Apply(b, es[0]), es[1]).items| == CAPACITY - 1
      && Exec(b, es).fates == b.fates + [Taken, DroppedBy(|b.arrivals|)]
  {
    var es := [Arrive(msg), Take, Drop];
    var b1 := Apply(b, es[0]);
    var b2 := Apply(b1, es[1]);
    assert es[1..] == [es[1], es[2]] && es[1..][1..] == [es[2]];
    assert Valid(b2, [es[2]]);
    assert Valid(b1, es[1..]);
    assert Exec(b2, [es[2]]) == Apply(b2, es[2]);
    assert Exec(b1, es[1..]) == Exec(b2, [es[2]]);
  }

  /** The buffer and the close signal as used by one thread at a time. */
  class Channel {
    var readBuf: seq<seq<byte>>
    var closed: bool

    constructor ()
      ensures readBuf == [] && !closed
    {
      readBuf, closed := [], false;
    }

    method Close()
      modifies this`closed
      ensures closed
    {
      closed := true;
    }

    method OnMessage(msg: seq<byte>)
      requires |readBuf| <= CAPACITY
      modifies this`readBuf
      ensures |readBuf| <= CAPACITY
      ensures readBuf == if |old(readBuf)| < CAPACITY then old(readBuf) + [msg] else old(readBuf)[1..] + [msg]
    {
      if |readBuf| < CAPACITY {
        readBuf := readBuf + [msg];
      } else {
        if readBuf != [] { readBuf := readBuf[1..]; }
        readBuf := readBuf + [msg];
      }
    }

    /** Read copies the oldest message and discards what does not fit. It blocks while there
        is neither a message nor the close signal; when there are both, the select may pick
        either, and picking the close signal (`pickClose`) ends the stream. */
    method Read(b: array<byte>, pickClose: bool) returns (n: Option<nat>)
      requires readBuf != [] || closed
      modifies this`readBuf, b
      ensures n.None? <==> closed && (old(readBuf) == [] || pickClose)
      ensures n.None? ==> readBuf == old(readBuf) && b[..] == old(b[..])
      ensures n.Some? ==> var data := old(readBuf)[0];
        && readBuf == old(readBuf)[1..]
        && n.value == (if |data| <= b.Length then |data| else b.Length)
        && b[..n.value] == data[..n.value] && b[n.value..] == old(b[..])[n.value..]
    {
      if closed && (readBuf == [] || pickClose) { return None; }
      var data := readBuf[0];
      readBuf := readBuf[1..];
      var k := if |data| <= b.Length then |data| else b.Length;
      var i := 0;
      while i < k
        invariant 0 <= i <= k && readBuf == old(readBuf)[1..]
        invariant forall j | 0 <= j < i :: b[j] == data[j]
        invariant forall j | i <= j < b.Length :: b[j] == old(b[j])
      {
        b[i] := data[i];
        i := i + 1;
      }
      assert b[..k] == data[..k] && b[k..] == old(b[..])[k..];
      n := Some(k);
    }
  }
}
