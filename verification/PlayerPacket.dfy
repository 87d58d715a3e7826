/** The local player update: seventeen fields in 46 bytes on the sync layer. */
module PlayerPacket {
  import opened Bytes
  import opened Layout
  import opened Packets

  const LENGTH: nat := 46

  datatype PlayerUpdate = PlayerUpdate(
    playerId: u16, gold: u16, health: u16, maxHealth: u16, mana: u16, maxMana: u16, cs: u16,
    experience: u32, x: u32, y: u32, z: u32, rotX: u32, rotY: u32, rotZ: u32,
    autoTarget: u16, respawnTimer: u8, level: u8)

  function Fields(p: PlayerUpdate): seq<Field> {
    [ Field(0, LittleEndian(p.playerId, 2)), Field(2, LittleEndian(p.gold, 2)),
      Field(4, LittleEndian(p.health, 2)), Field(6, LittleEndian(p.maxHealth, 2)),
      Field(8, LittleEndian(p.mana, 2)), Field(10, LittleEndian(p.maxMana, 2)) ]
    + [ Field(12, LittleEndian(p.cs, 2)), Field(14, LittleEndian(p.experience, 4)),
        Field(18, LittleEndian(p.x, 4)), Field(22, LittleEndian(p.y, 4)),
        Field(26, LittleEndian(p.z, 4)), Field(30, LittleEndian(p.rotX, 4)) ]
    + [ Field(34, LittleEndian(p.rotY, 4)), Field(38, LittleEndian(p.rotZ, 4)),
        Field(42, LittleEndian(p.autoTarget, 2)), Field(44, LittleEndian(p.respawnTimer, 1)),
        Field(45, LittleEndian(p.level, 1)) ]
  }

  // The table field by field.
  ghost predicate IsTable(fs: seq<Field>, p: PlayerUpdate) {
    && |fs| == 17
    && fs[0] == Field(0, LittleEndian(p.playerId, 2)) && fs[1] == Field(2, LittleEndian(p.gold, 2))
    && fs[2] == Field(4, LittleEndian(p.health, 2)) && fs[3] == Field(6, LittleEndian(p.maxHealth, 2))
    && fs[4] == Field(8, LittleEndian(p.mana, 2)) && fs[5] == Field(10, LittleEndian(p.maxMana, 2))
    && fs[6] == Field(12, LittleEndian(p.cs, 2)) && fs[7] == Field(14, LittleEndian(p.experience, 4))
    && fs[8] == Field(18, LittleEndian(p.x, 4)) && fs[9] == Field(22, LittleEndian(p.y, 4))
    && fs[10] == Field(26, LittleEndian(p.z, 4)) && fs[11] == Field(30, LittleEndian(p.rotX, 4))
    && fs[12] == Field(34, LittleEndian(p.rotY, 4)) && fs[13] == Field(38, LittleEndian(p.rotZ, 4))
    && fs[14] == Field(42, LittleEndian(p.autoTarget, 2)) && fs[15] == Field(44, LittleEndian(p.respawnTimer, 1))
    && fs[16] == Field(45, LittleEndian(p.level, 1))
  }

  lemma FieldsTable(p: PlayerUpdate)
    ensures IsTable(Fields(p), p)
  {
  }

  lemma TablePacked(fs: seq<Field>, p: PlayerUpdate)
    requires IsTable(fs, p)
    ensures Packed(fs) && |Join(fs)| == LENGTH && Fits(fs, LENGTH)
  {
    PackedEnd(fs, 17);
  }

  lemma FieldsPacked(p: PlayerUpdate)
    ensures |Join(Fields(p))| == LENGTH
  {
    FieldsTable(p);
    TablePacked(Fields(p), p);
  }

  // The bytes of the seventeen fields.
  function Payload(p: PlayerUpdate): (bytes: seq<byte>)
    ensures |bytes| == LENGTH
  {
    FieldsPacked(p);
    Join(Fields(p))
  }

  // Where each field is, counted from the front.
  lemma PayloadParts(p: PlayerUpdate)
    ensures Payload(p)[0..2] == LittleEndian(p.playerId, 2) && Payload(p)[2..4] == LittleEndian(p.gold, 2)
    ensures Payload(p)[4..6] == LittleEndian(p.health, 2) && Payload(p)[6..8] == LittleEndian(p.maxHealth, 2)
    ensures Payload(p)[8..10] == LittleEndian(p.mana, 2) && Payload(p)[10..12] == LittleEndian(p.maxMana, 2)
    ensures Payload(p)[12..14] == LittleEndian(p.cs, 2) && Payload(p)[14..18] == LittleEndian(p.experience, 4)
    ensures Payload(p)[18..22] == LittleEndian(p.x, 4) && Payload(p)[22..26] == LittleEndian(p.y, 4)
    ensures Payload(p)[26..30] == LittleEndian(p.z, 4) && Payload(p)[30..34] == LittleEndian(p.rotX, 4)
    ensures Payload(p)[34..38] == LittleEndian(p.rotY, 4) && Payload(p)[38..42] == LittleEndian(p.rotZ, 4)
    ensures Payload(p)[42..44] == LittleEndian(p.autoTarget, 2) && Payload(p)[44..45] == LittleEndian(p.respawnTimer, 1)
    ensures Payload(p)[45..46] == LittleEndian(p.level, 1)
  {
    FieldsTable(p);
    TableParts(Fields(p), p);
  }

  lemma TableParts(fs: seq<Field>, p: PlayerUpdate)
    requires IsTable(fs, p)
    ensures |Join(fs)| == LENGTH
    ensures Join(fs)[0..2] == LittleEndian(p.playerId, 2) && Join(fs)[2..4] == LittleEndian(p.gold, 2)
    ensures Join(fs)[4..6] == LittleEndian(p.health, 2) && Join(fs)[6..8] == LittleEndian(p.maxHealth, 2)
    ensures Join(fs)[8..10] == LittleEndian(p.mana, 2) && Join(fs)[10..12] == LittleEndian(p.maxMana, 2)
    ensures Join(fs)[12..14] == LittleEndian(p.cs, 2) && Join(fs)[14..18] == LittleEndian(p.experience, 4)
    ensures Join(fs)[18..22] == LittleEndian(p.x, 4) && Join(fs)[22..26] == LittleEndian(p.y, 4)
    ensures Join(fs)[26..30] == LittleEndian(p.z, 4) && Join(fs)[30..34] == LittleEndian(p.rotX, 4)
    ensures Join(fs)[34..38] == LittleEndian(p.rotY, 4) && Join(fs)[38..42] == LittleEndian(p.rotZ, 4)
    ensures Join(fs)[42..44] == LittleEndian(p.autoTarget, 2) && Join(fs)[44..45] == LittleEndian(p.respawnTimer, 1)
    ensures Join(fs)[45..46] == LittleEndian(p.level, 1)
  {
    TablePacked(fs, p);
    PackedSlice(fs, 0, |fs|); PackedSlice(fs, 1, |fs|); PackedSlice(fs, 2, |fs|);
    PackedSlice(fs, 3, |fs|); PackedSlice(fs, 4, |fs|); PackedSlice(fs, 5, |fs|);
    PackedSlice(fs, 6, |fs|); PackedSlice(fs, 7, |fs|); PackedSlice(fs, 8, |fs|);
    PackedSlice(fs, 9, |fs|); PackedSlice(fs, 10, |fs|); PackedSlice(fs, 11, |fs|);
    PackedSlice(fs, 12, |fs|); PackedSlice(fs, 13, |fs|); PackedSlice(fs, 14, |fs|);
    PackedSlice(fs, 15, |fs|); PackedSlice(fs, 16, |fs|);
  }

  method Serialize(data: array<byte>, p: PlayerUpdate, s: Layer, h: PacketHeader)
    requires s.Sync? && LENGTH + BASE_LENGTH <= data.Length
    modifies data
    ensures data[..] == Frame(old(data[..]), Payload(p), LayerBytes(s), HeaderBytes(h), 0)
  {
    ghost var before := data[..];
    FieldsTable(p);
    TablePacked(Fields(p), p);
    FitsLarger(Fields(p), LENGTH, data.Length);
    CopyPayload(data, p, before, Fields(p));
    WriteHeaders(data, LENGTH, s, h, before, Fields(p));
  }

  method CopyPayload(data: array<byte>, p: PlayerUpdate, ghost before: seq<byte>, ghost fs: seq<Field>)
    requires LENGTH <= data.Length == |before| && data[..] == before
    requires IsTable(fs, p) && Fits(fs, |before|)
    modifies data
    ensures data[..] == WriteAll(before, fs)
  {
    Copy(data, 0, LittleEndian(p.playerId, 2), before, fs, 0);
    Copy(data, 2, LittleEndian(p.gold, 2), before, fs, 1);
    Copy(data, 4, LittleEndian(p.health, 2), before, fs, 2);
    Copy(data, 6, LittleEndian(p.maxHealth, 2), before, fs, 3);
    Copy(data, 8, LittleEndian(p.mana, 2), before, fs, 4);
    Copy(data, 10, LittleEndian(p.maxMana, 2), before, fs, 5);
    Copy(data, 12, LittleEndian(p.cs, 2), before, fs, 6);
    Copy(data, 14, LittleEndian(p.experience, 4), before, fs, 7);
    Copy(data, 18, LittleEndian(p.x, 4), before, fs, 8);
    Copy(data, 22, LittleEndian(p.y, 4), before, fs, 9);
    Copy(data, 26, LittleEndian(p.z, 4), before, fs, 10);
    Copy(data, 30, LittleEndian(p.rotX, 4), before, fs, 11);
    Copy(data, 34, LittleEndian(p.rotY, 4), before, fs, 12);
    Copy(data, 38, LittleEndian(p.rotZ, 4), before, fs, 13);
    Copy(data, 42, LittleEndian(p.autoTarget, 2), before, fs, 14);
    Copy(data, 44, LittleEndian(p.respawnTimer, 1), before, fs, 15);
    Copy(data, 45, LittleEndian(p.level, 1), before, fs, 16);
  }

  function Read(wire: seq<byte>, tail: nat): PlayerUpdate
    requires LENGTH <= tail <= |wire|
  {
    PlayerUpdate(
      U16(wire[tail - 46..tail - 44]), U16(wire[tail - 44..tail - 42]), U16(wire[tail - 42..tail - 40]),
      U16(wire[tail - 40..tail - 38]), U16(wire[tail - 38..tail - 36]), U16(wire[tail - 36..tail - 34]),
      U16(wire[tail - 34..tail - 32]), U32(wire[tail - 32..tail - 28]),
      U32(wire[tail - 28..tail - 24]), U32(wire[tail - 24..tail - 20]), U32(wire[tail - 20..tail - 16]),
      U32(wire[tail - 16..tail - 12]), U32(wire[tail - 12..tail - 8]), U32(wire[tail - 8..tail - 4]),
      U16(wire[tail - 4..tail - 2]), U8(wire[tail - 2..tail - 1]), U8(wire[tail - 1..tail]))
  }

  method Deserialize(data: array<byte>, tail: nat, previous: PlayerUpdate) returns (content: PlayerUpdate)
    requires LENGTH <= tail <= data.Length
    ensures content == Read(data[..], tail)
  {
    content := previous.(level := U8(data[tail - 1..tail]));
    content := content.(respawnTimer := U8(data[tail - 2..tail - 1]));
    content := content.(autoTarget := U16(data[tail - 4..tail - 2]));
    content := content.(rotZ := U32(data[tail - 8..tail - 4]));
    content := content.(rotY := U32(data[tail - 12..tail - 8]));
    content := content.(rotX := U32(data[tail - 16..tail - 12]));
    content := content.(z := U32(data[tail - 20..tail - 16]));
    content := content.(y := U32(data[tail - 24..tail - 20]));
    content := content.(x := U32(data[tail - 28..tail - 24]));
    content := content.(experience := U32(data[tail - 32..tail - 28]));
    content := content.(cs := U16(data[tail - 34..tail - 32]));
    content := content.(maxMana := U16(data[tail - 36..tail - 34]));
    content := content.(mana := U16(data[tail - 38..tail - 36]));
    content := content.(maxHealth := U16(data[tail - 40..tail - 38]));
    content := content.(health := U16(data[tail - 42..tail - 40]));
    content := content.(gold := U16(data[tail - 44..tail - 42]));
    content := content.(playerId := U16(data[tail - 46..tail - 44]));
  }

  // Every field is read from where it was written.
  lemma ReadsBack(wire: seq<byte>, tail: nat, p: PlayerUpdate)
    requires LENGTH <= tail <= |wire| && wire[tail - LENGTH..tail] == Payload(p)
    ensures Read(wire, tail) == p
  {
    FieldsTable(p);
    TablePacked(Fields(p), p);
    ReadsShorts(wire, tail, p, Fields(p));
    ReadsNumbers(wire, tail, p, Fields(p));
    ReadsEnd(wire, tail, p, Fields(p));
  }

  lemma ReadsShorts(wire: seq<byte>, tail: nat, p: PlayerUpdate, fs: seq<Field>)
    requires LENGTH <= tail <= |wire| && IsTable(fs, p) && wire[tail - LENGTH..tail] == Join(fs)
    ensures U16(wire[tail - 46..tail - 44]) == p.playerId && U16(wire[tail - 44..tail - 42]) == p.gold
    ensures U16(wire[tail - 42..tail - 40]) == p.health && U16(wire[tail - 40..tail - 38]) == p.maxHealth
    ensures U16(wire[tail - 38..tail - 36]) == p.mana && U16(wire[tail - 36..tail - 34]) == p.maxMana
    ensures U16(wire[tail - 34..tail - 32]) == p.cs
  {
    TablePacked(fs, p);
    FieldReads(wire, tail, fs, 0); U16Of(p.playerId);
    FieldReads(wire, tail, fs, 1); U16Of(p.gold);
    FieldReads(wire, tail, fs, 2); U16Of(p.health);
    FieldReads(wire, tail, fs, 3); U16Of(p.maxHealth);
    FieldReads(wire, tail, fs, 4); U16Of(p.mana);
    FieldReads(wire, tail, fs, 5); U16Of(p.maxMana);
    FieldReads(wire, tail, fs, 6); U16Of(p.cs);
  }

  lemma ReadsNumbers(wire: seq<byte>, tail: nat, p: PlayerUpdate, fs: seq<Field>)
    requires LENGTH <= tail <= |wire| && IsTable(fs, p) && wire[tail - LENGTH..tail] == Join(fs)
    ensures U32(wire[tail - 32..tail - 28]) == p.experience
    ensures U32(wire[tail - 28..tail - 24]) == p.x && U32(wire[tail - 24..tail - 20]) == p.y
    ensures U32(wire[tail - 20..tail - 16]) == p.z && U32(wire[tail - 16..tail - 12]) == p.rotX
  {
    TablePacked(fs, p);
    FieldReads(wire, tail, fs, 7); U32Of(p.experience);
    FieldReads(wire, tail, fs, 8); U32Of(p.x);
    FieldReads(wire, tail, fs, 9); U32Of(p.y);
    FieldReads(wire, tail, fs, 10); U32Of(p.z);
    FieldReads(wire, tail, fs, 11); U32Of(p.rotX);
  }

  lemma ReadsEnd(wire: seq<byte>, tail: nat, p: PlayerUpdate, fs: seq<Field>)
    requires LENGTH <= tail <= |wire| && IsTable(fs, p) && wire[tail - LENGTH..tail] == Join(fs)
    ensures U32(wire[tail - 12..tail - 8]) == p.rotY
    ensures U32(wire[tail - 8..tail - 4]) == p.rotZ && U16(wire[tail - 4..tail - 2]) == p.autoTarget
    ensures U8(wire[tail - 2..tail - 1]) == p.respawnTimer && U8(wire[tail - 1..tail]) == p.level
  {
    TablePacked(fs, p);
    FieldReads(wire, tail, fs, 12); U32Of(p.rotY);
    FieldReads(wire, tail, fs, 13); U32Of(p.rotZ);
    FieldReads(wire, tail, fs, 14); U16Of(p.autoTarget);
    FieldReads(wire, tail, fs, 15); U8Of(p.respawnTimer);
    FieldReads(wire, tail, fs, 16); U8Of(p.level);
  }

  // From the serialiser's buffer, the payload always comes back, and the headers do exactly
  // when the overwritten bytes coincide.
  lemma RoundTrip(buffer: seq<byte>, p: PlayerUpdate, s: Layer, h: PacketHeader, receiver: PacketHeader)
    requires s.Sync? && LENGTH + 2 + BASE_LENGTH <= |buffer|
    ensures var wire := Frame(buffer, Payload(p), LayerBytes(s), HeaderBytes(h), 0);
      var residue := buffer[LENGTH + BASE_LENGTH..LENGTH + BASE_LENGTH + 2];
      && Read(wire, LENGTH) == p
      && (HeadersRecovered(wire, LENGTH + 2 + BASE_LENGTH, s, h, receiver)
          <==> LayerBytes(s) + HeaderBytes(h) == HeaderBytes(h) + residue)
  {
    StackAsWritten(buffer, Payload(p), s, h, receiver);
    ReadsBack(Frame(buffer, Payload(p), LayerBytes(s), HeaderBytes(h), 0), LENGTH, p);
  }
}
