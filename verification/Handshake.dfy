/** The relay handshake (internal/client/transport/relay.go, internal/server/relay/relay.go):
    a buffered read takes whole chunks off the connection until the expected line or value
    is complete, and what it has read beyond that is discarded with the buffer. */
module Handshake {
  import opened Common
  import opened Bytes

  const NEWLINE: byte := 10

  /** How many chunks a buffered reader takes to cover the first `need` bytes. */
  function Cut(chunks: seq<Chunk>, need: int): (k: nat)
    ensures k <= |chunks|
  {
    if need <= 0 || chunks == [] then 0 else 1 + Cut(chunks[1..], need - |chunks[0]|)
  }

  lemma {:induction false} FlattenHead(chunks: seq<Chunk>, k: nat)
    requires 0 < k <= |chunks|
    ensures Flatten(chunks[..k]) == chunks[0] + Flatten(chunks[1..][..k - 1])
  {
    assert chunks[..k] == [chunks[0]] + chunks[1..][..k - 1];
    FlattenConcat([chunks[0]], chunks[1..][..k - 1]);
    FlattenSnoc([], chunks[0]);
    assert [] + [chunks[0]] == [chunks[0]];
  }

  lemma HeadLength(chunks: seq<Chunk>, k: nat)
    requires 0 < k <= |chunks|
    ensures |Flatten(chunks[..k])| == |chunks[0]| + |Flatten(chunks[1..][..k - 1])|
  {
    FlattenHead(chunks, k);
  }

  /** The cut is the least chunk boundary that covers `need` bytes. */
  lemma {:induction false} CutIsLeastBoundary(chunks: seq<Chunk>, need: int)
    requires need <= |Flatten(chunks)|
    ensures var k := Cut(chunks, need);
      need <= |Flatten(chunks[..k])| && (k > 0 ==> |Flatten(chunks[..k - 1])| < need)
    decreases |chunks|
  {
    if 0 < need && chunks != [] {
      var k := Cut(chunks, need);
      HeadLength(chunks, |chunks|);
      assert chunks[1..][..|chunks| - 1] == chunks[1..] && chunks[..|chunks|] == chunks;
      CutIsLeastBoundary(chunks[1..], need - |chunks[0]|);
      HeadLength(chunks, k);
      if k > 1 { HeadLength(chunks, k - 1); }
    }
  }

  lemma SplitAt(chunks: seq<Chunk>, k: nat)
    requires k <= |chunks|
    ensures Flatten(chunks) == Flatten(chunks[..k]) + Flatten(chunks[k..])
  {
    assert chunks == chunks[..k] + chunks[k..];
    FlattenConcat(chunks[..k], chunks[k..]);
  }

  /** The line is the stream up to and including its first newline, at index `p`. */
  predicate FirstNewline(stream: seq<byte>, p: nat) {
    p < |stream| && stream[p] == NEWLINE && NEWLINE !in stream[..p]
  }

  /** What the discarded buffer held, and what the connection still yields, after a reader
      that needed `need` bytes of the stream. */
  function Residue(chunks: seq<Chunk>, need: nat): seq<byte>
    requires need <= |Flatten(chunks[..Cut(chunks, need)])|
  {
    Flatten(chunks[..Cut(chunks, need)])[need..]
  }

  function Remaining(chunks: seq<Chunk>, need: nat): seq<byte> {
    Flatten(chunks[Cut(chunks, need)..])
  }

  /** For every chunking: the connection yields the peer's stream after the first `need` bytes
      minus exactly the residue, so it is lossless if and only if the residue is empty. */
  lemma LosslessIffNoResidue(chunks: seq<Chunk>, need: nat)
    requires need <= |Flatten(chunks)|
    ensures need <= |Flatten(chunks[..Cut(chunks, need)])|
    ensures Flatten(chunks)[need..] == Residue(chunks, need) + Remaining(chunks, need)
    ensures Remaining(chunks, need) == Flatten(chunks)[need..] <==> Residue(chunks, need) == []
  {
    CutIsLeastBoundary(chunks, need);
    SplitAt(chunks, Cut(chunks, need));
  }

  /** And the loss is up to the network: for every stream and every point at or beyond the
      needed bytes there is a chunking that loses exactly the bytes in between. */
  lemma AnyAmountCanBeLost(stream: seq<byte>, need: nat, upTo: nat)
    requires 0 < need <= upTo <= |stream|
    ensures var chunks := [stream[..upTo], stream[upTo..]];
      && Flatten(chunks) == stream
      && need <= |Flatten(chunks[..Cut(chunks, need)])|
      && Residue(chunks, need) == stream[need..upTo]
      && Remaining(chunks, need) == stream[upTo..]
  {
    var a, b := stream[..upTo], stream[upTo..];
    var chunks := [a, b];
    FlattenOne(a);
    FlattenOne(b);
    FlattenSnoc([a], b);
    assert chunks == [a] + [b];
    assert Cut(chunks, need) == 1;
    assert chunks[..1] == [a] && chunks[1..] == [b];
    assert a[need..] == stream[need..upTo];
  }

  lemma FlattenOne(a: Chunk)
    ensures Flatten([a]) == a
  {
    assert [a][..0] == [];
  }

  // ---------- The client's side: Connect ----------

  datatype Outcome = Connected | DialFailed | WriteFailed | NoResponse | BadResponse | Rejected

  /** What JSON decoding says of a response line: malformed, or its success flag. */
  type Decoder = seq<byte> -> Option<bool>

  method IndexByte(chunk: Chunk) returns (j: nat)
    ensures j <= |chunk| && NEWLINE !in chunk[..j] && (j < |chunk| ==> chunk[j] == NEWLINE)
  {
    j := 0;
    while j < |chunk| && chunk[j] != NEWLINE
      invariant 0 <= j <= |chunk| && NEWLINE !in chunk[..j]
    {
      j := j + 1;
    }
  }

  /** bufio's ReadBytes: take chunks until one holds a newline. */
  method ReadLine(chunks: seq<Chunk>) returns (line: Option<seq<byte>>, used: nat)
    ensures used <= |chunks|
    ensures line.None? <==> NEWLINE !in Flatten(chunks)
    ensures line.None? ==> used == |chunks|
    ensures line.Some? ==> |line.value| > 0 && |line.value| <= |Flatten(chunks)|
    ensures line.Some? ==>
      FirstNewline(Flatten(chunks), |line.value| - 1) && line.value == Flatten(chunks)[..|line.value|]
    ensures line.Some? ==> used == Cut(chunks, |line.value|)
  {
    var full: seq<byte> := [];
    used := 0;
    while used < |chunks|
      invariant 0 <= used <= |chunks|
      invariant full == Flatten(chunks[..used]) && NEWLINE !in full
    {
      var chunk := chunks[used];
      var j := IndexByte(chunk);
      if j < |chunk| {
        LineEndsHere(chunks, used, j);
        line := Some(full + chunk[..j + 1]);
        used := used + 1;
        return;
      }
      assert chunks[..used + 1] == chunks[..used] + [chunk];
      FlattenSnoc(chunks[..used], chunk);
      full := full + chunk;
      used := used + 1;
    }
    assert chunks[..used] == chunks;
    line := None;
  }

  /** The first newline of the stream is at offset `j` of chunk `used`. */
  lemma LineEndsHere(chunks: seq<Chunk>, used: nat, j: nat)
    requires used < |chunks| && j < |chunks[used]| && chunks[used][j] == NEWLINE
    requires NEWLINE !in Flatten(chunks[..used]) && NEWLINE !in chunks[used][..j]
    ensures var line := Flatten(chunks[..used]) + chunks[used][..j + 1];
      && |line| <= |Flatten(chunks)| && line == Flatten(chunks)[..|line|]
      && FirstNewline(Flatten(chunks), |line| - 1) && Cut(chunks, |line|) == used + 1
  {
    var chunk, before := chunks[used], Flatten(chunks[..used]);
    assert chunks[..used + 1] == chunks[..used] + [chunk];
    FlattenSnoc(chunks[..used], chunk);
    SplitAt(chunks, used + 1);
    var line := before + chunk[..j + 1];
    assert Flatten(chunks)[..|line|] == line;
    assert Flatten(chunks)[..|line| - 1] == before + chunk[..j];
    BoundaryIsUnique(chunks, |line|, used + 1);
  }

  /** Only one chunk count is the least that covers `need` bytes. */
  lemma BoundaryIsUnique(chunks: seq<Chunk>, need: nat, k: nat)
    requires 0 < k <= |chunks| && need <= |Flatten(chunks)|
    requires |Flatten(chunks[..k - 1])| < need <= |Flatten(chunks[..k])|
    ensures Cut(chunks, need) == k
  {
    CutIsLeastBoundary(chunks, need);
    var c := Cut(chunks, need);
    if c < k { PrefixesGrow(chunks, c, k - 1); }
    if k < c { PrefixesGrow(chunks, k, c - 1); }
  }

  lemma PrefixesGrow(chunks: seq<Chunk>, a: nat, b: nat)
    requires a <= b <= |chunks|
    ensures |Flatten(chunks[..a])| <= |Flatten(chunks[..b])|
  {
    SplitAt(chunks[..b], a);
    assert chunks[..b][..a] == chunks[..a];
  }

  /** The relay's stream begins with a line that decodes to `resp`. */
  ghost predicate Begins(incoming: seq<Chunk>, decode: Decoder, resp: Option<bool>) {
    exists p: nat :: FirstNewline(Flatten(incoming), p) && decode(Flatten(incoming)[..p + 1]) == resp
  }

  class RelayClient {
    /** The connection kept for forwarding, as the chunks it will still deliver. */
    var conn: Option<seq<Chunk>>
    var sessionID: string
    var role: string

    constructor ()
      ensures conn == None
    {
      conn, sessionID, role := None, "", "";
    }

    /** `dialled` and `sent` tell whether the relay could be reached and the authentication
        message be written, and `incoming` is the relay's stream as the network chunks it. The
        kept connection has lost exactly the residue of the response line. Every failure keeps
        no new connection and leaves none open: `closed` tells whether Connect closed the
        connection that it dialled. */
    method Connect(sessionID: string, role: string, dialled: bool, sent: bool, incoming: seq<Chunk>, decode: Decoder)
      returns (r: Outcome, closed: bool)
      modifies this
      ensures this.sessionID == sessionID && this.role == role
      ensures !r.Connected? ==> conn == old(conn)
      ensures closed <==> dialled && !r.Connected?
      ensures r.DialFailed? <==> !dialled
      ensures r.WriteFailed? <==> dialled && !sent
      ensures r.NoResponse? <==> dialled && sent && NEWLINE !in Flatten(incoming)
      ensures r.BadResponse? <==> dialled && sent && Begins(incoming, decode, None)
      ensures r.Rejected? <==> dialled && sent && Begins(incoming, decode, Some(false))
      ensures r.Connected? <==> dialled && sent && Begins(incoming, decode, Some(true))
      ensures r.Connected? ==> exists p: nat ::
        FirstNewline(Flatten(incoming), p) && conn.Some? && Flatten(conn.value) == Remaining(incoming, p + 1)
    {
      this.sessionID, this.role := sessionID, role;
      if !dialled { return DialFailed, false; }
      if !sent { return WriteFailed, true; }
      var line, used := ReadLine(incoming);
      if line.None? { return NoResponse, true; }
      ghost var p := |line.value| - 1;
      assert forall q: nat :: FirstNewline(Flatten(incoming), q) ==> q == p;
      var resp := decode(line.value);
      assert FirstNewline(Flatten(incoming), p) && Flatten(incoming)[..p + 1] == line.value;
      if resp.None? { return BadResponse, true; }
      if !resp.value { return Rejected, true; }
      conn := Some(incoming[used..]);
      r, closed := Connected, false;
    }
  }

  // ---------- The relay's side: the authentication message ----------

  /** The relay's JSON decoder needs the `value` bytes of the message, not the newline after
      it. Of the client's stream message + newline + payload the relay therefore forwards
      exactly the payload if and only if the decoder's last chunk ends with that newline; if
      the newline arrives later it is forwarded as game data. */
  lemma AuthMessageFraming(value: seq<byte>, payload: seq<byte>, chunks: seq<Chunk>)
    requires Flatten(chunks) == value + [NEWLINE] + payload
    ensures |value| <= |Flatten(chunks[..Cut(chunks, |value|)])|
    ensures Remaining(chunks, |value|) == payload <==> Residue(chunks, |value|) == [NEWLINE]
    ensures Residue(chunks, |value|) == [] ==> Remaining(chunks, |value|) == [NEWLINE] + payload
  {
    LosslessIffNoResidue(chunks, |value|);
    assert Flatten(chunks)[|value|..] == [NEWLINE] + payload;
    var lost, left := Residue(chunks, |value|), Remaining(chunks, |value|);
    assert lost + left == [NEWLINE] + payload;
    if left == payload {
      assert |lost| == 1 && lost == (lost + left)[..1];
    }
    if lost == [NEWLINE] {
      assert left == (lost + left)[1..] && payload == ([NEWLINE] + payload)[1..];
    }
  }
}
