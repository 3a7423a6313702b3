/**
 DoIP packets on a TCP stream (transport/doip/packet.py and the receive loop of
 transport/doip/server.py), after the generic DoIP header of ISO 13400-2.
 */
module DoipFraming {
  import opened Base

  const DOIP_VERSION: byte := 0x02
  const DOIP_INVERSE_VERSION: byte := 0xFD
  const DOIP_HEADER_SIZE := 8

  datatype Packet = Packet(payloadType: nat, payload: Bytes)

  datatype FramingError = FieldOutOfRange | IncompleteHeader | InvalidVersion | IncompletePayload

  /** The values `struct.pack("!BBHI", ...)` accepts. */
  predicate Encodable(p: Packet) {
    p.payloadType < TWO_POW_16 && |p.payload| < TWO_POW_32
  }

  function Header(p: Packet): (r: Bytes)
    requires Encodable(p)
    ensures |r| == DOIP_HEADER_SIZE
  {
    [DOIP_VERSION, DOIP_INVERSE_VERSION] + U16(p.payloadType) + U32(|p.payload|)
  }

  function Encode(p: Packet): Bytes
    requires Encodable(p)
  {
    Header(p) + p.payload
  }

  predicate GoodVersion(data: Bytes)
    requires |data| >= DOIP_HEADER_SIZE
  {
    data[0] == DOIP_VERSION && data[1] == DOIP_INVERSE_VERSION
  }

  function PacketLength(data: Bytes): nat
    requires |data| >= DOIP_HEADER_SIZE
  {
    DOIP_HEADER_SIZE + FromBigEndian(data[4..8])
  }

  /** The packet at the front of `data`, whose bytes have all arrived. */
  function Front(data: Bytes): Packet
    requires DOIP_HEADER_SIZE <= |data| && PacketLength(data) <= |data|
  {
    Packet(FromBigEndian(data[2..4]), data[DOIP_HEADER_SIZE..PacketLength(data)])
  }

  function ParsePacket(data: Bytes): Result<Packet, FramingError> {
    if |data| < DOIP_HEADER_SIZE then Err(IncompleteHeader)
    else if !GoodVersion(data) then Err(InvalidVersion)
    else if |data| < PacketLength(data) then Err(IncompletePayload)
    else Ok(Front(data))
  }

  /** Every proper prefix of a packet is incomplete, and says where it was cut. */
  lemma PrefixIsIncomplete(p: Packet, k: nat)
    requires Encodable(p) && k < |Encode(p)|
    ensures ParsePacket(Encode(p)[..k]) == Err(if k < DOIP_HEADER_SIZE then IncompleteHeader else IncompletePayload)
  {
    var data := Encode(p)[..k];
    if k >= DOIP_HEADER_SIZE {
      assert data[4..8] == U32(|p.payload|);
      U32RoundTrip(|p.payload|);
    }
  }

  /** What is left of a stream after `extract_packets`; `invalid` when it raised. */
  datatype Extraction = Extraction(packets: seq<Packet>, rest: Bytes, invalid: bool)

  function Extract(data: Bytes): Extraction {
    match ParsePacket(data)
    case Ok(p) =>
      var tail := Extract(data[PacketLength(data)..]);
      tail.(packets := [p] + tail.packets)
    case Err(e) => Extraction([], data, e == InvalidVersion)
  }

  /** Taking the packet at the front of the buffer after those already taken. */
  lemma TakePacket(data: Bytes, taken: seq<Packet>)
    requires ParsePacket(data).Ok?
    ensures var rest := Extract(data[PacketLength(data)..]);
      Extract(data).(packets := taken + Extract(data).packets)
      == rest.(packets := taken + [Front(data)] + rest.packets)
  {
    var rest := Extract(data[PacketLength(data)..]);
    assert taken + ([Front(data)] + rest.packets) == taken + [Front(data)] + rest.packets;
  }

  /** The growing receive buffer of one connection. */
  class StreamBuffer {
    var data: Bytes

    constructor ()
      ensures data == []
    {
      data := [];
    }

    method ExtractPackets() returns (r: Result<seq<Packet>, FramingError>)
      modifies this
      ensures data == Extract(old(data)).rest
      ensures r == if Extract(old(data)).invalid then Err(InvalidVersion) else Ok(Extract(old(data)).packets)
    {
      var packets: seq<Packet> := [];
      while |data| >= DOIP_HEADER_SIZE
        invariant Extract(old(data)) == Extract(data).(packets := packets + Extract(data).packets)
        decreases |data|
      {
        if !GoodVersion(data) {
          return Err(InvalidVersion);
        }
        var packetLength := PacketLength(data);
        if |data| < packetLength {
          break;
        }
        TakePacket(data, packets);
        packets := packets + [Front(data)];
        data := data[packetLength..];
      }
      assert Extract(data) == Extraction([], data, false);
      assert packets + [] == packets;
      return Ok(packets);
    }
  }

  /** A connection: the packets processed so far, the bytes still waiting, and whether it is closed. */
  datatype Connection = Connection(processed: seq<Packet>, buffer: Bytes, closed: bool)

  /** One turn of the receive loop; an empty chunk is the peer closing the stream. */
  function Receive(c: Connection, chunk: Bytes): Connection {
    if c.closed || chunk == [] then c.(closed := true)
    else
      var e := Extract(c.buffer + chunk);
      if e.invalid then c.(buffer := e.rest, closed := true)
      else Connection(c.processed + e.packets, e.rest, false)
  }

  function ReceiveAll(c: Connection, chunks: seq<Bytes>): Connection
    decreases |chunks|
  {
    if chunks == [] then c else ReceiveAll(Receive(c, chunks[0]), chunks[1..])
  }

  const NEW_CONNECTION := Connection([], [], false)

  method HandleClient(chunks: seq<Bytes>) returns (c: Connection)
    ensures c == ReceiveAll(NEW_CONNECTION, chunks)
  {
    var buffer := new StreamBuffer();
    c := NEW_CONNECTION;
    for i := 0 to |chunks|
      invariant !c.closed && buffer.data == c.buffer
      invariant ReceiveAll(NEW_CONNECTION, chunks) == ReceiveAll(c, chunks[i..])
    {
      ghost var before := c;
      ghost var later := chunks[i + 1..];
      assert chunks[i..][0] == chunks[i] && chunks[i..][1..] == later;
      if chunks[i] == [] {
        c := c.(closed := true);
        ClosedStaysClosed(c, later);
        return;
      }
      buffer.data := buffer.data + chunks[i];
      var r := buffer.ExtractPackets();
      if r.Err? {
        c := c.(buffer := buffer.data, closed := true);
        ClosedStaysClosed(c, later);
        return;
      }
      c := Connection(c.processed + r.value, buffer.data, false);
      assert c == Receive(before, chunks[i]);
    }
  }

  lemma {:induction false} ClosedStaysClosed(c: Connection, chunks: seq<Bytes>)
    requires c.closed
    ensures ReceiveAll(c, chunks) == c
  {
    if chunks != [] {
      ClosedStaysClosed(c, chunks[1..]);
    }
  }

  // ----- round trip of one packet

  lemma ParseEncoded(p: Packet, tail: Bytes)
    requires Encodable(p)
    ensures ParsePacket(Encode(p) + tail) == Ok(p)
    ensures PacketLength(Encode(p) + tail) == |Encode(p)|
    ensures (Encode(p) + tail)[|Encode(p)|..] == tail
  {
    var data := Encode(p) + tail;
    U16RoundTrip(p.payloadType);
    U32RoundTrip(|p.payload|);
    assert data[2..4] == U16(p.payloadType);
    assert data[4..8] == U32(|p.payload|);
    assert data[8..8 + |p.payload|] == p.payload;
  }

  /** Conversely every packet that parses is the encoding of what it parsed to: framing loses nothing. */
  lemma EncodeParsed(data: Bytes)
    requires ParsePacket(data).Ok?
    ensures Encodable(ParsePacket(data).value)
    ensures Encode(ParsePacket(data).value) == data[..PacketLength(data)]
  {
    var p := ParsePacket(data).value;
    TwoBytesBack(data[2..4]);
    FourBytesBack(data[4..8]);
    assert data[..2] == [DOIP_VERSION, DOIP_INVERSE_VERSION];
    assert data[..8] == data[..2] + data[2..4] + data[4..8];
    assert data[..PacketLength(data)] == data[..8] + p.payload;
  }

  lemma TwoBytesBack(b: Bytes)
    requires |b| == 2
    ensures FromBigEndian(b) < TWO_POW_16 && U16(FromBigEndian(b)) == b
  {
    BigEndianSnoc([], b[0]);
    BigEndianSnoc([b[0]], b[1]);
    assert [] + [b[0]] == [b[0]] && [b[0]] + [b[1]] == b;
  }

  lemma FourBytesBack(b: Bytes)
    requires |b| == 4
    ensures FromBigEndian(b) < TWO_POW_32 && U32(FromBigEndian(b)) == b
  {
    FourBytes(b[0], b[1], b[2], b[3]);
    assert b == [b[0], b[1], b[2], b[3]];
    var n: nat, hi: nat, lo: nat := FromBigEndian(b), 0x100 * b[0] as nat + b[1], 0x100 * b[2] as nat + b[3];
    assert n == TWO_POW_16 * hi + lo && lo < TWO_POW_16;
    assert n / TWO_POW_16 == hi && n % TWO_POW_16 == lo;
  }

  // ----- streams

  lemma ParseAppend(a: Bytes, b: Bytes)
    ensures ParsePacket(a).Ok? ==>
      ParsePacket(a + b) == ParsePacket(a) && PacketLength(a + b) == PacketLength(a)
      && (a + b)[PacketLength(a)..] == a[PacketLength(a)..] + b
    ensures ParsePacket(a) == Err(InvalidVersion) ==> ParsePacket(a + b) == Err(InvalidVersion)
  {
    if ParsePacket(a).Ok? {
      assert (a + b)[4..8] == a[4..8] && (a + b)[2..4] == a[2..4];
      assert (a + b)[8..PacketLength(a)] == a[8..PacketLength(a)];
    }
  }

  /** More bytes only add packets after the ones already found, unless the stream was already invalid. */
  lemma {:induction false} ExtractAppend(a: Bytes, b: Bytes)
    ensures var x := Extract(a);
      x.invalid ==> Extract(a + b).invalid && Extract(a + b).packets == x.packets
    ensures var x := Extract(a);
      !x.invalid ==> Extract(a + b) == Extract(x.rest + b).(packets := x.packets + Extract(x.rest + b).packets)
    decreases |a|
  {
    ParseAppend(a, b);
    match ParsePacket(a)
    case Ok(p) =>
      var n := PacketLength(a);
      ExtractAppend(a[n..], b);
      var tail := Extract(a[n..]);
      assert [p] + (tail.packets + Extract(tail.rest + b).packets)
        == ([p] + tail.packets) + Extract(tail.rest + b).packets;
    case Err(e) =>
      assert [] + Extract(a + b).packets == Extract(a + b).packets;
  }

  lemma ExtractRest(a: Bytes)
    requires !Extract(a).invalid
    ensures Extract(Extract(a).rest) == Extraction([], Extract(a).rest, false)
  {
    ExtractAppend(a, []);
    assert a + [] == a;
    assert Extract(a).rest + [] == Extract(a).rest;
    var again := Extract(Extract(a).rest);
    assert |Extract(a).packets| == |Extract(a).packets| + |again.packets|;
  }

  predicate Open(chunks: seq<Bytes>) {
    forall i | 0 <= i < |chunks| :: chunks[i] != []
  }

  /** An open connection that has already taken every complete packet out of its buffer. */
  predicate Drained(c: Connection) {
    !c.closed && Extract(c.buffer) == Extraction([], c.buffer, false)
  }

  lemma ReceiveStep(c: Connection, chunk: Bytes, later: Bytes)
    requires Drained(c) && chunk != []
    ensures var next, whole := Receive(c, chunk), Extract(c.buffer + (chunk + later));
      if next.closed then whole.invalid && next.processed == c.processed
      else Drained(next) && var tail := Extract(next.buffer + later);
           whole.invalid == tail.invalid && whole.rest == tail.rest
           && c.processed + whole.packets == next.processed + tail.packets
  {
    var first := c.buffer + chunk;
    assert c.buffer + (chunk + later) == first + later;
    ExtractAppend(first, later);
    if !Extract(first).invalid {
      ExtractRest(first);
      var tail := Extract(Extract(first).rest + later);
      assert c.processed + (Extract(first).packets + tail.packets)
          == (c.processed + Extract(first).packets) + tail.packets;
    }
  }

  /** What the whole stream `whole` says the connection should have come to. */
  predicate MatchesStream(c: Connection, end: Connection, whole: Extraction) {
    && end.closed == whole.invalid
    && (!whole.invalid ==> end == Connection(c.processed + whole.packets, whole.rest, false))
    && (whole.invalid ==> end.processed <= c.processed + whole.packets)
  }

  /**
   Framing does not depend on how TCP cut the stream: the connection is closed exactly when the whole
   stream holds an invalid header; otherwise what was processed and what is left are those of the whole stream.
   When it is closed, what was processed is still a prefix of the packets before the bad header.
   */
  lemma {:induction false} ChunkingIsInvisible(c: Connection, chunks: seq<Bytes>)
    requires Drained(c) && Open(chunks)
    ensures MatchesStream(c, ReceiveAll(c, chunks), Extract(c.buffer + Flatten(chunks)))
    decreases |chunks|
  {
    if chunks == [] {
      assert c.buffer + Flatten(chunks) == c.buffer;
      assert c.processed + [] == c.processed;
    } else {
      var next := Receive(c, chunks[0]);
      ReceiveStep(c, chunks[0], Flatten(chunks[1..]));
      if next.closed {
        ClosedStaysClosed(next, chunks[1..]);
      } else {
        ChunkingIsInvisible(next, chunks[1..]);
      }
    }
  }

  /** The stream up to the chunk with number `k`, with what the connection already held before it. */
  function StreamTo(c: Connection, chunks: seq<Bytes>, k: nat): Bytes
    requires k <= |chunks|
  {
    c.buffer + Flatten(chunks[..k])
  }

  /** Chunk `k` brings the first invalid header. */
  predicate BringsBadHeader(c: Connection, chunks: seq<Bytes>, k: nat)
    requires k < |chunks|
  {
    !Extract(StreamTo(c, chunks, k)).invalid && Extract(StreamTo(c, chunks, k + 1)).invalid
  }

  lemma StreamGrows(c: Connection, chunks: seq<Bytes>, k: nat)
    requires k < |chunks|
    ensures StreamTo(c, chunks, k + 1) == StreamTo(c, chunks, k) + chunks[k]
    ensures StreamTo(c, chunks, |chunks|) == StreamTo(c, chunks, k) + Flatten(chunks[k..])
  {
    assert chunks[..k + 1] == chunks[..k] + [chunks[k]];
    FlattenSnoc(chunks[..k], chunks[k]);
    assert chunks[..|chunks|] == chunks == chunks[..k] + chunks[k..];
    FlattenAppend(chunks[..k], chunks[k..]);
  }

  /** If a stream turns invalid, one chunk does it. */
  lemma {:induction false} SomeChunkIsBad(c: Connection, chunks: seq<Bytes>, n: nat) returns (k: nat)
    requires Drained(c) && n <= |chunks| && Extract(StreamTo(c, chunks, n)).invalid
    ensures k < n && BringsBadHeader(c, chunks, k)
  {
    assert c.buffer + [] == c.buffer;
    if n == 0 {
      assert false;
    } else if Extract(StreamTo(c, chunks, n - 1)).invalid {
      k := SomeChunkIsBad(c, chunks, n - 1);
    } else {
      k := n - 1;
    }
  }

  lemma ReceivedUpTo(c: Connection, chunks: seq<Bytes>, k: nat)
    requires Drained(c) && Open(chunks) && k <= |chunks| && !Extract(StreamTo(c, chunks, k)).invalid
    ensures var e := Extract(StreamTo(c, chunks, k));
      ReceiveAll(c, chunks[..k]) == Connection(c.processed + e.packets, e.rest, false)
  {
    ChunkingIsInvisible(c, chunks[..k]);
  }

  lemma {:induction false} ReceiveSplit(c: Connection, a: seq<Bytes>, b: seq<Bytes>)
    ensures ReceiveAll(c, a + b) == ReceiveAll(ReceiveAll(c, a), b)
    decreases |a|
  {
    if a == [] {
      assert a + b == b;
    } else {
      assert (a + b)[1..] == a[1..] + b;
      ReceiveSplit(Receive(c, a[0]), a[1..], b);
    }
  }

  /** Nothing after an invalid header changes what was extracted before it. */
  lemma WholeStreamEnds(c: Connection, chunks: seq<Bytes>, k: nat)
    requires k < |chunks| && BringsBadHeader(c, chunks, k)
    ensures var whole, now := Extract(StreamTo(c, chunks, |chunks|)), Extract(StreamTo(c, chunks, k + 1));
      whole.invalid && whole.packets == now.packets
  {
    if k + 1 < |chunks| {
      StreamGrows(c, chunks, k + 1);
      ExtractAppend(StreamTo(c, chunks, k + 1), Flatten(chunks[k + 1..]));
    }
  }

  /** The connection closes at the bad chunk and keeps what was processed before it. */
  lemma BadChunkCloses(c: Connection, chunks: seq<Bytes>, k: nat)
    requires Drained(c) && Open(chunks) && k < |chunks| && BringsBadHeader(c, chunks, k)
    ensures var end := ReceiveAll(c, chunks);
      end.closed && end.processed == c.processed + Extract(StreamTo(c, chunks, k)).packets
  {
    var before := Extract(StreamTo(c, chunks, k));
    var next := Connection(c.processed + before.packets, before.rest, false);
    ReceivedUpTo(c, chunks, k);
    StreamGrows(c, chunks, k);
    ExtractAppend(StreamTo(c, chunks, k), chunks[k]);
    ReceiveSplit(c, chunks[..k], chunks[k..]);
    assert chunks == chunks[..k] + chunks[k..] && chunks[k..][0] == chunks[k];
    ClosedStaysClosed(Receive(next, chunks[k]), chunks[k..][1..]);
  }

  /** The packets of the whole stream are those before the bad chunk and those it completes. */
  lemma BadChunkCompletes(c: Connection, chunks: seq<Bytes>, k: nat)
    requires k < |chunks| && BringsBadHeader(c, chunks, k)
    ensures var before, whole := Extract(StreamTo(c, chunks, k)), Extract(StreamTo(c, chunks, |chunks|));
      var waiting := Extract(before.rest + chunks[k]);
      whole.invalid && waiting.invalid && whole.packets == before.packets + waiting.packets
  {
    StreamGrows(c, chunks, k);
    ExtractAppend(StreamTo(c, chunks, k), chunks[k]);
    WholeStreamEnds(c, chunks, k);
  }

  /**
   On an invalid stream chunking does show, in exactly this way: the connection closes with everything processed that
   was complete before the chunk with the bad header, and the good packets that this chunk completes are lost. So
   nothing is lost exactly if that header is already at the front of what is waiting once the chunk has arrived.
   */
  lemma BadChunkIsLost(c: Connection, chunks: seq<Bytes>, k: nat)
    requires Drained(c) && Open(chunks) && k < |chunks| && BringsBadHeader(c, chunks, k)
    ensures var before, whole := Extract(StreamTo(c, chunks, k)), Extract(StreamTo(c, chunks, |chunks|));
      var end := ReceiveAll(c, chunks);
      && whole.invalid && end.closed && end.processed == c.processed + before.packets
      && whole.packets == before.packets + Extract(before.rest + chunks[k]).packets
      && (end.processed == c.processed + whole.packets <==> ParsePacket(before.rest + chunks[k]) == Err(InvalidVersion))
  {
    BadChunkCloses(c, chunks, k);
    BadChunkCompletes(c, chunks, k);
    var before := Extract(StreamTo(c, chunks, k));
    NoneBeforeBadHeader(before.rest + chunks[k]);
    SamePackets(c.processed, before.packets, Extract(before.rest + chunks[k]).packets);
  }

  lemma NoneBeforeBadHeader(data: Bytes)
    requires Extract(data).invalid
    ensures Extract(data).packets == [] <==> ParsePacket(data) == Err(InvalidVersion)
  {
  }

  lemma SamePackets(processed: seq<Packet>, before: seq<Packet>, more: seq<Packet>)
    ensures processed + before == processed + (before + more) <==> more == []
  {
    assert |processed + (before + more)| == |processed| + |before| + |more|;
  }

  function EncodeAll(ps: seq<Packet>): Bytes
    requires forall p | p in ps :: Encodable(p)
  {
    if ps == [] then [] else Encode(ps[0]) + EncodeAll(ps[1..])
  }

  /** `rest` is what a receiver holds after `k` packets of `ps`: less than one more packet. */
  predicate Partial(ps: seq<Packet>, k: nat, rest: Bytes)
    requires forall p | p in ps :: Encodable(p)
  {
    if k < |ps| then rest < Encode(ps[k]) else k == |ps| && rest == []
  }

  lemma CutShort(p: Packet, s: Bytes)
    requires Encodable(p) && s < Encode(p)
    ensures Extract(s) == Extraction([], s, false)
  {
    var whole := Encode(p);
    ParseEncoded(p, []);
    assert whole + [] == whole;
    if |s| >= DOIP_HEADER_SIZE {
      assert s[4..8] == whole[4..8];
    }
  }

  /** A stream cut anywhere splits into whole packets and a proper prefix of the next one. */
  lemma {:induction false} ExtractPrefix(ps: seq<Packet>, s: Bytes) returns (k: nat)
    requires forall p | p in ps :: Encodable(p)
    requires s <= EncodeAll(ps)
    ensures k <= |ps| && Extract(s).packets == ps[..k] && !Extract(s).invalid
    ensures Partial(ps, k, Extract(s).rest)
    decreases |ps|
  {
    if ps == [] {
      return 0;
    }
    var first, all := Encode(ps[0]), EncodeAll(ps);
    if |s| < |first| {
      assert s == all[..|s|] == first[..|s|];
      CutShort(ps[0], s);
      return 0;
    }
    var t := s[|first|..];
    assert s == first + t;
    assert t == all[|first|..][..|t|] == EncodeAll(ps[1..])[..|t|];
    ParseEncoded(ps[0], t);
    k := ExtractPrefix(ps[1..], t);
    assert [ps[0]] + ps[1..][..k] == ps[..k + 1];
    k := k + 1;
  }

  /**
   The receive loop, given any non-empty chunks that so far make up a prefix of the packets' bytes, stays
   open, has processed exactly the packets that are complete, in order, and holds a proper prefix of the next.
   */
  lemma PacketsSurviveChunking(ps: seq<Packet>, chunks: seq<Bytes>) returns (k: nat)
    requires forall p | p in ps :: Encodable(p)
    requires Open(chunks) && Flatten(chunks) <= EncodeAll(ps)
    ensures k <= |ps| && var c := ReceiveAll(NEW_CONNECTION, chunks);
      !c.closed && c.processed == ps[..k] && Partial(ps, k, c.buffer)
    ensures Flatten(chunks) == EncodeAll(ps) ==> k == |ps|
  {
    var s := Flatten(chunks);
    assert [] + s == s;
    ChunkingIsInvisible(NEW_CONNECTION, chunks);
    k := ExtractPrefix(ps, s);
    if s == EncodeAll(ps) {
      ExtractWhole(ps);
    }
  }

  lemma {:induction false} ExtractWhole(ps: seq<Packet>)
    requires forall p | p in ps :: Encodable(p)
    ensures Extract(EncodeAll(ps)) == Extraction(ps, [], false)
  {
    if ps != [] {
      ParseEncoded(ps[0], EncodeAll(ps[1..]));
      ExtractWhole(ps[1..]);
    }
  }

  /** For one: a good packet is dropped when the bad header arrives in the same chunk, and processed otherwise. */
  lemma BadHeaderDropsItsChunk(p: Packet, bad: Bytes)
    requires Encodable(p) && |bad| >= DOIP_HEADER_SIZE && !GoodVersion(bad)
    ensures ReceiveAll(NEW_CONNECTION, [Encode(p), bad]).processed == [p]
    ensures ReceiveAll(NEW_CONNECTION, [Encode(p) + bad]).processed == []
  {
    ParseEncoded(p, []);
    ParseEncoded(p, bad);
    assert Encode(p) + [] == Encode(p) && [] + Encode(p) == Encode(p);
    assert [] + (Encode(p) + bad) == Encode(p) + bad && [] + bad == bad;
    assert [] + [p] == [p];
    assert [Encode(p), bad][1..] == [bad] && [bad][1..] == [];
    assert [Encode(p) + bad][1..] == [];
    var c := Connection([p], [], false);
    assert Extract(Encode(p)) == Extraction([p], [], false);
    assert Receive(NEW_CONNECTION, Encode(p)) == c;
    assert Receive(c, bad) == Connection([p], bad, true);
    calc {
      ReceiveAll(NEW_CONNECTION, [Encode(p), bad]);
      ReceiveAll(c, [bad]);
      ReceiveAll(Receive(c, bad), []);
    }
  }
}
