/** The primary-attack notification: eight fields in 26 bytes on the event layer. One field of
    the record, the experience, is not among them. */
module NotifyPacket {
  import opened Bytes
  import opened Layout
  import opened Packets

  const LENGTH: nat := 26

  datatype PrimaryNotify = PrimaryNotify(
    attack: u8, playerX: u32, playerY: u32, playerZ: u32, targetX: u32, targetY: u32, targetZ: u32,
    experience: u16, conf: u8)

  function Fields(a: PrimaryNotify): seq<Field> {
    [ Field(0, LittleEndian(a.attack, 1)),
      Field(1, LittleEndian(a.playerX, 4)), Field(5, LittleEndian(a.playerY, 4)),
      Field(9, LittleEndian(a.playerZ, 4)),
      Field(13, LittleEndian(a.targetX, 4)), Field(17, LittleEndian(a.targetY, 4)),
      Field(21, LittleEndian(a.targetZ, 4)),
      Field(25, LittleEndian(a.conf, 1)) ]
  }

  lemma FieldsPacked(a: PrimaryNotify)
    ensures Packed(Fields(a)) && |Join(Fields(a))| == LENGTH
    ensures Fits(Fields(a), LENGTH)
  {
    PackedEnd(Fields(a), |Fields(a)|);
  }

  // The bytes of the eight fields.
  function Payload(a: PrimaryNotify): (bytes: seq<byte>)
    ensures |bytes| == LENGTH
  {
    FieldsPacked(a);
    Join(Fields(a))
  }

  // Where each field is, counted from the front.
  lemma PayloadParts(a: PrimaryNotify)
    ensures Payload(a)[0..1] == LittleEndian(a.attack, 1) && Payload(a)[1..5] == LittleEndian(a.playerX, 4)
    ensures Payload(a)[5..9] == LittleEndian(a.playerY, 4) && Payload(a)[9..13] == LittleEndian(a.playerZ, 4)
    ensures Payload(a)[13..17] == LittleEndian(a.targetX, 4) && Payload(a)[17..21] == LittleEndian(a.targetY, 4)
    ensures Payload(a)[21..25] == LittleEndian(a.targetZ, 4) && Payload(a)[25..26] == LittleEndian(a.conf, 1)
  {
    var fs := Fields(a);
    FieldsPacked(a);
    PackedSlice(fs, 0, |fs|); PackedSlice(fs, 1, |fs|); PackedSlice(fs, 2, |fs|);
    PackedSlice(fs, 3, |fs|); PackedSlice(fs, 4, |fs|); PackedSlice(fs, 5, |fs|);
    PackedSlice(fs, 6, |fs|); PackedSlice(fs, 7, |fs|);
  }

  method Serialize(data: array<byte>, a: PrimaryNotify, e: Layer, h: PacketHeader)
    requires e.Event? && LENGTH + BASE_LENGTH <= data.Length
    modifies data
    ensures data[..] == Frame(old(data[..]), Payload(a), LayerBytes(e), HeaderBytes(h), 0)
  {
    FieldsPacked(a);
    ghost var before, fs := data[..], Fields(a);
    CopyPayload(data, a, before);
    WriteHeaders(data, LENGTH, e, h, before, fs);
  }

  method CopyPayload(data: array<byte>, a: PrimaryNotify, ghost before: seq<byte>)
    requires LENGTH <= data.Length == |before| && Fits(Fields(a), |before|) && data[..] == before
    modifies data
    ensures data[..] == WriteAll(before, Fields(a))
  {
    ghost var fs := Fields(a);
    Copy(data, 0, LittleEndian(a.attack, 1), before, fs, 0);
    Copy(data, 1, LittleEndian(a.playerX, 4), before, fs, 1);
    Copy(data, 5, LittleEndian(a.playerY, 4), before, fs, 2);
    Copy(data, 9, LittleEndian(a.playerZ, 4), before, fs, 3);
    Copy(data, 13, LittleEndian(a.targetX, 4), before, fs, 4);
    Copy(data, 17, LittleEndian(a.targetY, 4), before, fs, 5);
    Copy(data, 21, LittleEndian(a.targetZ, 4), before, fs, 6);
    Copy(data, 25, LittleEndian(a.conf, 1), before, fs, 7);
  }

  // The receiver's record keeps whatever experience it had.
  function Read(wire: seq<byte>, tail: nat, previous: PrimaryNotify): PrimaryNotify
    requires LENGTH <= tail <= |wire|
  {
    PrimaryNotify(
      U8(wire[tail - 26..tail - 25]),
      U32(wire[tail - 25..tail - 21]), U32(wire[tail - 21..tail - 17]), U32(wire[tail - 17..tail - 13]),
      U32(wire[tail - 13..tail - 9]), U32(wire[tail - 9..tail - 5]), U32(wire[tail - 5..tail - 1]),
      previous.experience, U8(wire[tail - 1..tail]))
  }

  method Deserialize(data: array<byte>, tail: nat, previous: PrimaryNotify) returns (content: PrimaryNotify)
    requires LENGTH <= tail <= data.Length
    ensures content == Read(data[..], tail, previous)
  {
    content := previous.(conf := U8(data[tail - 1..tail]));
    content := content.(targetZ := U32(data[tail - 5..tail - 1]));
    content := content.(targetY := U32(data[tail - 9..tail - 5]));
    content := content.(targetX := U32(data[tail - 13..tail - 9]));
    content := content.(playerZ := U32(data[tail - 17..tail - 13]));
    content := content.(playerY := U32(data[tail - 21..tail - 17]));
    content := content.(playerX := U32(data[tail - 25..tail - 21]));
    content := content.(attack := U8(data[tail - 26..tail - 25]));
  }

  lemma ReadsBack(wire: seq<byte>, tail: nat, a: PrimaryNotify, previous: PrimaryNotify)
    requires LENGTH <= tail <= |wire| && wire[tail - LENGTH..tail] == Payload(a)
    ensures Read(wire, tail, previous) == a.(experience := previous.experience)
  {
    ReadsPlayer(wire, tail, a);
    ReadsTarget(wire, tail, a);
  }

  lemma ReadsPlayer(wire: seq<byte>, tail: nat, a: PrimaryNotify)
    requires LENGTH <= tail <= |wire| && wire[tail - LENGTH..tail] == Payload(a)
    ensures U8(wire[tail - 26..tail - 25]) == a.attack && U32(wire[tail - 25..tail - 21]) == a.playerX
    ensures U32(wire[tail - 21..tail - 17]) == a.playerY && U32(wire[tail - 17..tail - 13]) == a.playerZ
  {
    var fs := Fields(a);
    FieldsPacked(a);
    FieldReads(wire, tail, fs, 0); U8Of(a.attack);
    FieldReads(wire, tail, fs, 1); U32Of(a.playerX);
    FieldReads(wire, tail, fs, 2); U32Of(a.playerY);
    FieldReads(wire, tail, fs, 3); U32Of(a.playerZ);
  }

  lemma ReadsTarget(wire: seq<byte>, tail: nat, a: PrimaryNotify)
    requires LENGTH <= tail <= |wire| && wire[tail - LENGTH..tail] == Payload(a)
    ensures U32(wire[tail - 13..tail - 9]) == a.targetX && U32(wire[tail - 9..tail - 5]) == a.targetY
    ensures U32(wire[tail - 5..tail - 1]) == a.targetZ && U8(wire[tail - 1..tail]) == a.conf
  {
    var fs := Fields(a);
    FieldsPacked(a);
    FieldReads(wire, tail, fs, 4); U32Of(a.targetX);
    FieldReads(wire, tail, fs, 5); U32Of(a.targetY);
    FieldReads(wire, tail, fs, 6); U32Of(a.targetZ);
    FieldReads(wire, tail, fs, 7); U8Of(a.conf);
  }

  // Over the wire as written, everything but the experience comes back; the experience does
  // if and only if the receiver already had it. The headers are as for every layer.
  lemma RoundTrip(buffer: seq<byte>, a: PrimaryNotify, e: Layer, h: PacketHeader, receiver: PacketHeader,
                  previous: PrimaryNotify)
    requires e.Event? && LENGTH + 2 + BASE_LENGTH <= |buffer|
    ensures var wire := Frame(buffer, Payload(a), LayerBytes(e), HeaderBytes(h), 0);
      var residue := buffer[LENGTH + BASE_LENGTH..LENGTH + BASE_LENGTH + 2];
      && Read(wire, LENGTH, previous) == a.(experience := previous.experience)
      && (Read(wire, LENGTH, previous) == a <==> previous.experience == a.experience)
      && (HeadersRecovered(wire, LENGTH + 2 + BASE_LENGTH, e, h, receiver)
          <==> LayerBytes(e) + HeaderBytes(h) == HeaderBytes(h) + residue)
  {
    StackAsWritten(buffer, Payload(a), e, h, receiver);
    ReadsBack(Frame(buffer, Payload(a), LayerBytes(e), HeaderBytes(h), 0), LENGTH, a, previous);
  }
}
