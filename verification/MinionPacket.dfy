/** The minion update on the sync layer, whose write and read offsets disagree: `z` is written
    where `rotX` also goes, and `y` and `z` are read two bytes below where they were written. */
module MinionPacket {
  import opened Bytes
  import opened Layout
  import opened Packets

  const LENGTH: nat := 30
  const HALF: nat := 0x1_0000

  datatype MinionUpdate = MinionUpdate(
    id: u16, health: u16, maxHealth: u16, x: u32, y: u32, z: u32, rotX: u32, rotY: u32, rotZ: u32, autoTarget: u16)

  function Fields(m: MinionUpdate): seq<Field> {
    [ Field(0, LittleEndian(m.id, 2)), Field(2, LittleEndian(m.health, 2)), Field(4, LittleEndian(m.maxHealth, 2)),
      Field(6, LittleEndian(m.x, 4)), Field(10, LittleEndian(m.y, 4)), Field(14, LittleEndian(m.z, 4)),
      Field(16, LittleEndian(m.rotX, 4)), Field(20, LittleEndian(m.rotY, 4)), Field(24, LittleEndian(m.rotZ, 4)),
      Field(28, LittleEndian(m.autoTarget, 2)) ]
  }

  // What is left of the table once rotX has overwritten the end of z: only its low half.
  function Effective(m: MinionUpdate): seq<Field> {
    [ Field(0, LittleEndian(m.id, 2)), Field(2, LittleEndian(m.health, 2)), Field(4, LittleEndian(m.maxHealth, 2)),
      Field(6, LittleEndian(m.x, 4)), Field(10, LittleEndian(m.y, 4)), Field(14, LittleEndian(m.z % HALF, 2)),
      Field(16, LittleEndian(m.rotX, 4)), Field(20, LittleEndian(m.rotY, 4)), Field(24, LittleEndian(m.rotZ, 4)),
      Field(28, LittleEndian(m.autoTarget, 2)) ]
  }

  lemma EffectivePacked(m: MinionUpdate)
    ensures Packed(Effective(m)) && |Join(Effective(m))| == LENGTH
    ensures forall n :: LENGTH <= n ==> Fits(Effective(m), n)
  {
    PackedEnd(Effective(m), |Effective(m)|);
  }

  lemma FieldsFit(m: MinionUpdate, n: nat)
    requires LENGTH <= n
    ensures Fits(Fields(m), n)
  {
  }

  // The bytes that end up before the header.
  function Payload(m: MinionUpdate): (bytes: seq<byte>)
    ensures |bytes| == LENGTH
  {
    EffectivePacked(m);
    Join(Effective(m))
  }

  // Where each field is, counted from the front.
  lemma PayloadParts(m: MinionUpdate)
    ensures Payload(m)[0..2] == LittleEndian(m.id, 2) && Payload(m)[2..4] == LittleEndian(m.health, 2)
    ensures Payload(m)[4..6] == LittleEndian(m.maxHealth, 2) && Payload(m)[6..10] == LittleEndian(m.x, 4)
    ensures Payload(m)[10..14] == LittleEndian(m.y, 4) && Payload(m)[16..20] == LittleEndian(m.rotX, 4)
    ensures Payload(m)[20..24] == LittleEndian(m.rotY, 4) && Payload(m)[24..28] == LittleEndian(m.rotZ, 4)
    ensures Payload(m)[28..30] == LittleEndian(m.autoTarget, 2)
    ensures Payload(m)[14..16] == LittleEndian(m.z % 65536, 2)
  {
    var fs := Effective(m);
    EffectivePacked(m);
    PackedSlice(fs, 0, |fs|); PackedSlice(fs, 1, |fs|); PackedSlice(fs, 2, |fs|);
    PackedSlice(fs, 3, |fs|); PackedSlice(fs, 4, |fs|); PackedSlice(fs, 5, |fs|);
    PackedSlice(fs, 6, |fs|); PackedSlice(fs, 7, |fs|); PackedSlice(fs, 8, |fs|);
    PackedSlice(fs, 9, |fs|);
  }

  method Serialize(data: array<byte>, m: MinionUpdate, s: Layer, h: PacketHeader)
    requires s.Sync? && LENGTH + BASE_LENGTH <= data.Length
    modifies data
    ensures data[..] == Frame(old(data[..]), Payload(m), LayerBytes(s), HeaderBytes(h), 0)
  {
    ghost var before := data[..];
    FieldsFit(m, data.Length);
    CopyPayload(data, m, before);
    EffectivePacked(m);
    SameBytes(before, m);
    WriteHeaders(data, LENGTH, s, h, before, Effective(m));
  }

  method CopyPayload(data: array<byte>, m: MinionUpdate, ghost before: seq<byte>)
    requires LENGTH <= data.Length == |before| && Fits(Fields(m), |before|) && data[..] == before
    modifies data
    ensures data[..] == WriteAll(before, Fields(m))
  {
    ghost var fs := Fields(m);
    Copy(data, 0, LittleEndian(m.id, 2), before, fs, 0);
    Copy(data, 2, LittleEndian(m.health, 2), before, fs, 1);
    Copy(data, 4, LittleEndian(m.maxHealth, 2), before, fs, 2);
    Copy(data, 6, LittleEndian(m.x, 4), before, fs, 3);
    Copy(data, 10, LittleEndian(m.y, 4), before, fs, 4);
    Copy(data, 14, LittleEndian(m.z, 4), before, fs, 5);
    Copy(data, 16, LittleEndian(m.rotX, 4), before, fs, 6);
    Copy(data, 20, LittleEndian(m.rotY, 4), before, fs, 7);
    Copy(data, 24, LittleEndian(m.rotZ, 4), before, fs, 8);
    Copy(data, 28, LittleEndian(m.autoTarget, 2), before, fs, 9);
  }

  lemma EffectiveCuts(m: MinionUpdate)
    ensures CutShort(Fields(m), Effective(m), 5, LittleEndian(m.z / HALF, 2))
  {
    Halves(m.z);
  }

  lemma SameBytes(buffer: seq<byte>, m: MinionUpdate)
    requires LENGTH <= |buffer| && Fits(Fields(m), |buffer|) && Fits(Effective(m), |buffer|)
    ensures WriteAll(buffer, Fields(m)) == WriteAll(buffer, Effective(m))
  {
    EffectiveCuts(m);
    Trimmed(buffer, Fields(m), Effective(m), 5, LittleEndian(m.z / HALF, 2), 10);
  }

  // ---------- What the receiver makes of it ----------

  function Read(wire: seq<byte>, tail: nat): MinionUpdate
    requires LENGTH <= tail <= |wire|
  {
    MinionUpdate(
      U16(wire[tail - 30..tail - 28]), U16(wire[tail - 28..tail - 26]), U16(wire[tail - 26..tail - 24]),
      U32(wire[tail - 24..tail - 20]), U32(wire[tail - 22..tail - 18]), U32(wire[tail - 18..tail - 14]),
      U32(wire[tail - 14..tail - 10]), U32(wire[tail - 10..tail - 6]), U32(wire[tail - 6..tail - 2]),
      U16(wire[tail - 2..tail]))
  }

  method Deserialize(data: array<byte>, tail: nat, previous: MinionUpdate) returns (content: MinionUpdate)
    requires LENGTH <= tail <= data.Length
    ensures content == Read(data[..], tail)
  {
    content := previous.(autoTarget := U16(data[tail - 2..tail]));
    content := content.(rotZ := U32(data[tail - 6..tail - 2]));
    content := content.(rotY := U32(data[tail - 10..tail - 6]));
    content := content.(rotX := U32(data[tail - 14..tail - 10]));
    content := content.(z := U32(data[tail - 18..tail - 14]));
    content := content.(y := U32(data[tail - 22..tail - 18]));
    content := content.(x := U32(data[tail - 24..tail - 20]));
    content := content.(maxHealth := U16(data[tail - 26..tail - 24]));
    content := content.(health := U16(data[tail - 28..tail - 26]));
    content := content.(id := U16(data[tail - 30..tail - 28]));
  }

  // y takes the upper half of x as its low half and its own low half as its upper half, and
  // z likewise from y.
  function Shifted(m: MinionUpdate): MinionUpdate {
    m.(y := m.x / HALF + HALF * (m.y % HALF), z := m.y / HALF + HALF * (m.z % HALF))
  }

  lemma ReadsRest(wire: seq<byte>, tail: nat, m: MinionUpdate)
    requires LENGTH <= tail <= |wire| && wire[tail - LENGTH..tail] == Payload(m)
    ensures U16(wire[tail - 30..tail - 28]) == m.id && U16(wire[tail - 28..tail - 26]) == m.health
    ensures U16(wire[tail - 26..tail - 24]) == m.maxHealth && U32(wire[tail - 14..tail - 10]) == m.rotX
    ensures U32(wire[tail - 10..tail - 6]) == m.rotY && U32(wire[tail - 6..tail - 2]) == m.rotZ
    ensures U16(wire[tail - 2..tail]) == m.autoTarget
  {
    var fs := Effective(m);
    EffectivePacked(m);
    FieldReads(wire, tail, fs, 0); U16Of(m.id);
    FieldReads(wire, tail, fs, 1); U16Of(m.health);
    FieldReads(wire, tail, fs, 2); U16Of(m.maxHealth);
    FieldReads(wire, tail, fs, 6); U32Of(m.rotX);
    FieldReads(wire, tail, fs, 7); U32Of(m.rotY);
    FieldReads(wire, tail, fs, 8); U32Of(m.rotZ);
    FieldReads(wire, tail, fs, 9); U16Of(m.autoTarget);
  }

  // Four bytes from the middle of a number on, the rest of them being those of another.
  lemma ReadsAcross(wire: seq<byte>, at: nat, v: u32, next: u16)
    requires at + 6 <= |wire| && wire[at..at + 4] == LittleEndian(v, 4) && wire[at + 4..at + 6] == LittleEndian(next, 2)
    ensures U32(wire[at + 2..at + 6]) == v / HALF + HALF * next
  {
    ReadsHalves(wire, at, v);
    SlicesMeet(wire, at + 2, at + 4, at + 6);
    FromHalves(v / HALF, next);
  }

  lemma ThreeCoordinates(wire: seq<byte>, at: nat, x: u32, y: u32, z: u16)
    requires at + 10 <= |wire| && wire[at..at + 4] == LittleEndian(x, 4) && wire[at + 4..at + 8] == LittleEndian(y, 4)
    requires wire[at + 8..at + 10] == LittleEndian(z, 2)
    ensures U32(wire[at..at + 4]) == x
    ensures U32(wire[at + 2..at + 6]) == x / HALF + HALF * (y % HALF)
    ensures U32(wire[at + 6..at + 10]) == y / HALF + HALF * z
  {
    U32Of(x);
    ReadsHalves(wire, at + 4, y);
    ReadsAcross(wire, at, x, y % HALF);
    ReadsAcross(wire, at + 4, y, z);
  }

  lemma ReadsCoordinates(wire: seq<byte>, tail: nat, m: MinionUpdate)
    requires LENGTH <= tail <= |wire| && wire[tail - LENGTH..tail] == Payload(m)
    ensures U32(wire[tail - 24..tail - 20]) == m.x
    ensures U32(wire[tail - 22..tail - 18]) == m.x / HALF + HALF * (m.y % HALF)
    ensures U32(wire[tail - 18..tail - 14]) == m.y / HALF + HALF * (m.z % HALF)
  {
    CoordinatesAre(wire, tail, m);
    ThreeCoordinates(wire, tail - 24, m.x, m.y, m.z % HALF);
  }

  lemma CoordinatesAre(wire: seq<byte>, tail: nat, m: MinionUpdate)
    requires LENGTH <= tail <= |wire| && wire[tail - LENGTH..tail] == Payload(m)
    ensures wire[tail - 24..tail - 20] == LittleEndian(m.x, 4) && wire[tail - 20..tail - 16] == LittleEndian(m.y, 4)
    ensures wire[tail - 16..tail - 14] == LittleEndian(m.z % HALF, 2)
  {
    EffectivePacked(m);
    CoordinatesFrom(wire, tail, Effective(m), m);
  }

  lemma CoordinatesFrom(wire: seq<byte>, tail: nat, fs: seq<Field>, m: MinionUpdate)
    requires Packed(fs) && |fs| == 10 && |Join(fs)| == LENGTH <= tail <= |wire|
    requires wire[tail - LENGTH..tail] == Join(fs)
    requires fs[3] == Field(6, LittleEndian(m.x, 4)) && fs[4] == Field(10, LittleEndian(m.y, 4))
    requires fs[5] == Field(14, LittleEndian(m.z % HALF, 2))
    ensures wire[tail - 24..tail - 20] == LittleEndian(m.x, 4) && wire[tail - 20..tail - 16] == LittleEndian(m.y, 4)
    ensures wire[tail - 16..tail - 14] == LittleEndian(m.z % HALF, 2)
  {
    FieldReads(wire, tail, fs, 3);
    FieldReads(wire, tail, fs, 4);
    FieldReads(wire, tail, fs, 5);
  }

  lemma ReadsHalves(wire: seq<byte>, at: nat, v: u32)
    requires at + 4 <= |wire| && wire[at..at + 4] == LittleEndian(v, 4)
    ensures wire[at..at + 2] == LittleEndian(v % HALF, 2) && wire[at + 2..at + 4] == LittleEndian(v / HALF, 2)
  {
    Halves(v);
    SlicesMeet(wire, at, at + 2, at + 4);
    SplitEqual(wire[at..at + 2], wire[at + 2..at + 4], LittleEndian(v % HALF, 2), LittleEndian(v / HALF, 2));
  }

  // For every update: all fields but y and z come back, and these two come back shifted.
  lemma Decodes(wire: seq<byte>, tail: nat, m: MinionUpdate)
    requires LENGTH <= tail <= |wire| && wire[tail - LENGTH..tail] == Payload(m)
    ensures Read(wire, tail) == Shifted(m)
  {
    ReadsRest(wire, tail, m);
    ReadsCoordinates(wire, tail, m);
  }

  // The codec round-trips an update if and only if the upper half of x, both halves of y and
  // both halves of z are all the same.
  lemma RoundTripExactly(m: MinionUpdate)
    ensures Shifted(m) == m <==>
              m.x / HALF == m.y % HALF == m.y / HALF == m.z % HALF == m.z / HALF
  {
    MadeOfHalves(m.y, m.x / HALF, m.y % HALF);
    MadeOfHalves(m.z, m.y / HALF, m.z % HALF);
  }

  lemma MadeOfHalves(v: nat, low: nat, high: nat)
    requires low < HALF
    ensures low + HALF * high == v <==> low == v % HALF && high == v / HALF
  {
  }

  // Two updates give the same payload if and only if they differ at most in the upper half
  // of z: that half is what is lost, and nothing else.
  lemma OnlyUpperHalfLost(m: MinionUpdate, n: MinionUpdate)
    ensures Payload(m) == Payload(n) <==> m == n.(z := m.z) && m.z % HALF == n.z % HALF
  {
    if Payload(m) == Payload(n) {
      assert Payload(m)[0..LENGTH] == Payload(m) && Payload(n)[0..LENGTH] == Payload(n);
      Decodes(Payload(m), LENGTH, m);
      Decodes(Payload(n), LENGTH, n);
      assert Shifted(m) == Shifted(n);
      ShiftedDetermines(m, n);
    }
  }

  lemma ShiftedDetermines(m: MinionUpdate, n: MinionUpdate)
    requires Shifted(m) == Shifted(n)
    ensures m == n.(z := m.z) && m.z % HALF == n.z % HALF
  {
    var y, z := Shifted(m).y, Shifted(m).z;
    assert y / HALF == m.y % HALF == n.y % HALF;
    assert z % HALF == m.y / HALF == n.y / HALF;
    assert z / HALF == m.z % HALF == n.z % HALF;
  }

  // Through the serialiser and the deserialisers, as written.
  lemma RoundTrip(buffer: seq<byte>, m: MinionUpdate, s: Layer, h: PacketHeader, receiver: PacketHeader)
    requires s.Sync? && LENGTH + 2 + BASE_LENGTH <= |buffer|
    ensures var wire := Frame(buffer, Payload(m), LayerBytes(s), HeaderBytes(h), 0);
      var residue := buffer[LENGTH + BASE_LENGTH..LENGTH + BASE_LENGTH + 2];
      && Read(wire, LENGTH) == Shifted(m)
      && (HeadersRecovered(wire, LENGTH + 2 + BASE_LENGTH, s, h, receiver)
          <==> LayerBytes(s) + HeaderBytes(h) == HeaderBytes(h) + residue)
  {
    StackAsWritten(buffer, Payload(m), s, h, receiver);
    Decodes(Frame(buffer, Payload(m), LayerBytes(s), HeaderBytes(h), 0), LENGTH, m);
  }
}
