/** The connection request: two bytes on the protocol layer. */
module SynPacket {
  import opened Bytes
  import opened Layout
  import opened Packets

  const LENGTH: nat := 2

  datatype SynRequest = SynRequest(req: u8, confNumber: u8)

  function Payload(r: SynRequest): (bytes: seq<byte>)
    ensures |bytes| == LENGTH
  {
    LittleEndian(r.req, 1) + LittleEndian(r.confNumber, 1)
  }

  lemma PayloadParts(r: SynRequest)
    ensures Payload(r) == [r.req as byte, r.confNumber as byte]
  {
  }

  method Serialize(data: array<byte>, r: SynRequest, p: Layer, h: PacketHeader)
    requires p.Protocol? && LENGTH + BASE_LENGTH <= data.Length
    modifies data
    ensures data[..] == Frame(old(data[..]), Payload(r), LayerBytes(p), HeaderBytes(h), 0)
  {
    ghost var before := data[..];
    Memcpy(data, 0, LittleEndian(r.req, 1));
    Memcpy(data, 1, LittleEndian(r.confNumber, 1));
    PutBehind(before, LittleEndian(r.req, 1), LittleEndian(r.confNumber, 1));
    AddLayerHeader(data, LENGTH, p, h);
  }

  method Deserialize(data: array<byte>, tail: nat, previous: SynRequest) returns (content: SynRequest)
    requires LENGTH <= tail <= data.Length
    ensures content == SynRequest(U8(data[tail - 2..tail - 1]), U8(data[tail - 1..tail]))
  {
    content := previous.(confNumber := U8(data[tail - 1..tail]));
    content := content.(req := U8(data[tail - 2..tail - 1]));
  }

  // Over the wire as written, the request comes back; the operation and the base header do
  // exactly when the overwritten byte coincides.
  lemma RoundTrip(buffer: seq<byte>, r: SynRequest, p: Layer, h: PacketHeader, receiver: PacketHeader)
    requires p.Protocol? && LENGTH + 1 + BASE_LENGTH <= |buffer|
    ensures var wire := Frame(buffer, Payload(r), LayerBytes(p), HeaderBytes(h), 0);
      && SynRequest(U8(wire[0..1]), U8(wire[1..2])) == r
      && (HeadersRecovered(wire, LENGTH + 1 + BASE_LENGTH, p, h, receiver)
          <==> LayerBytes(p) + HeaderBytes(h) == HeaderBytes(h) + [buffer[LENGTH + BASE_LENGTH]])
  {
    StackAsWritten(buffer, Payload(r), p, h, receiver);
    var wire := Frame(buffer, Payload(r), LayerBytes(p), HeaderBytes(h), 0);
    SlicesMeet(wire, 0, 1, 2);
    assert wire[0..2] == wire[..2] == Payload(r);
    SplitEqual(wire[0..1], wire[1..2], LittleEndian(r.req, 1), LittleEndian(r.confNumber, 1));
    U8Of(r.req);
    U8Of(r.confNumber);
    assert buffer[LENGTH + BASE_LENGTH..LENGTH + BASE_LENGTH + 1] == [buffer[LENGTH + BASE_LENGTH]];
  }
}
