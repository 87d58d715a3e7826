/** The layered packets: a payload, one layer header (event, sync or protocol) and the base
    header, written front to back and read back from the tail. */
module Packets {
  import opened Bytes
  import opened Layout

  // ---------- Headers ----------

  // `kind` is a field of the header that never goes on the wire.
  datatype PacketHeader = PacketHeader(gameId: u32, serverId: u16, sequenceNum: u16, ackBitfield: u32, kind: u8)

  datatype Layer =
    | Event(priority: u8, event: u8)
    | Sync(priority: u8, sync: u8)
    | Protocol(op: u8)

  function HeaderBytes(h: PacketHeader): (r: seq<byte>)
    ensures |r| == BASE_LENGTH
  {
    LittleEndian(h.gameId, 4) + LittleEndian(h.serverId, 2) + LittleEndian(h.sequenceNum, 2)
    + LittleEndian(h.ackBitfield, 4)
  }

  function LayerLength(l: Layer): nat {
    if l.Protocol? then 1 else 2
  }

  function LayerBytes(l: Layer): (r: seq<byte>)
    ensures |r| == LayerLength(l)
  {
    match l
    case Event(priority, event) => LittleEndian(priority, 1) + LittleEndian(event, 1)
    case Sync(priority, sync) => LittleEndian(priority, 1) + LittleEndian(sync, 1)
    case Protocol(op) => LittleEndian(op, 1)
  }

  lemma PutAfter(buffer: seq<byte>, at: nat, s: seq<byte>, t: seq<byte>)
    requires at + |s| + |t| <= |buffer|
    ensures Put(Put(buffer, at, s), at + |s|, t) == Put(buffer, at, s + t)
  {
  }

  method AddBaseHeader(data: array<byte>, tail: nat, h: PacketHeader)
    requires tail + BASE_LENGTH <= data.Length
    modifies data
    ensures data[..] == Put(old(data[..]), tail, HeaderBytes(h))
  {
    ghost var before := data[..];
    var game, server := LittleEndian(h.gameId, 4), LittleEndian(h.serverId, 2);
    var sequence, ack := LittleEndian(h.sequenceNum, 2), LittleEndian(h.ackBitfield, 4);
    Memcpy(data, tail, game);
    Memcpy(data, tail + 4, server);
    PutAfter(before, tail, game, server);
    Memcpy(data, tail + 6, sequence);
    PutAfter(before, tail, game + server, sequence);
    Memcpy(data, tail + 8, ack);
    PutAfter(before, tail, game + server + sequence, ack);
  }

  // The layers' add_header methods pass their own tail on to the base class.
  method AddLayerHeader(data: array<byte>, tail: nat, l: Layer, h: PacketHeader)
    requires tail + BASE_LENGTH <= data.Length
    modifies data
    ensures data[..] == Put(Put(old(data[..]), tail, LayerBytes(l)), tail, HeaderBytes(h))
  {
    ghost var before := data[..];
    match l {
      case Event(priority, event) =>
        Memcpy(data, tail, LittleEndian(priority, 1));
        Memcpy(data, tail + 1, LittleEndian(event, 1));
        PutAfter(before, tail, LittleEndian(priority, 1), LittleEndian(event, 1));
      case Sync(priority, sync) =>
        Memcpy(data, tail, LittleEndian(priority, 1));
        Memcpy(data, tail + 1, LittleEndian(sync, 1));
        PutAfter(before, tail, LittleEndian(priority, 1), LittleEndian(sync, 1));
      case Protocol(op) =>
        Memcpy(data, tail, LittleEndian(op, 1));
    }
    AddBaseHeader(data, tail, h);
  }

  function ReadHeader(wire: seq<byte>, tail: nat, receiver: PacketHeader): PacketHeader
    requires BASE_LENGTH <= tail <= |wire|
  {
    PacketHeader(U32(wire[tail - 12..tail - 8]), U16(wire[tail - 8..tail - 6]),
                 U16(wire[tail - 6..tail - 4]), U32(wire[tail - 4..tail]), receiver.kind)
  }

  // The receiver picks the deserialiser of the layer it expects.
  function ReadLayer(wire: seq<byte>, tail: nat, expected: Layer): Layer
    requires LayerLength(expected) <= tail <= |wire|
  {
    match expected
    case Event(_, _) => Event(U8(wire[tail - 2..tail - 1]), U8(wire[tail - 1..tail]))
    case Sync(_, _) => Sync(U8(wire[tail - 2..tail - 1]), U8(wire[tail - 1..tail]))
    case Protocol(_) => Protocol(U8(wire[tail - 1..tail]))
  }

  // Both header deserialisers in turn: what they fill in, and where they leave the tail.
  method StripHeaders(data: array<byte>, start: nat, receiver: PacketHeader, expected: Layer)
    returns (h: PacketHeader, l: Layer, tail: nat)
    requires LayerLength(expected) + BASE_LENGTH <= start <= data.Length
    ensures h == ReadHeader(data[..], start, receiver)
    ensures l == ReadLayer(data[..], start - BASE_LENGTH, expected)
    ensures tail == start - BASE_LENGTH - LayerLength(expected)
  {
    tail := start;
    h := receiver.(gameId := U32(data[tail - 12..tail - 8]));
    h := h.(serverId := U16(data[tail - 8..tail - 6]));
    h := h.(sequenceNum := U16(data[tail - 6..tail - 4]));
    h := h.(ackBitfield := U32(data[tail - 4..tail]));
    tail := tail - 12;
    match expected {
      case Event(_, _) =>
        l := Event(U8(data[tail - 2..tail - 1]), U8(data[tail - 1..tail]));
        tail := tail - 2;
      case Sync(_, _) =>
        l := Sync(U8(data[tail - 2..tail - 1]), U8(data[tail - 1..tail]));
        tail := tail - 2;
      case Protocol(_) =>
        l := Protocol(U8(data[tail - 1..tail]));
        tail := tail - 1;
    }
  }

  lemma LayerParts(l: Layer)
    ensures l.Event? ==> LayerBytes(l)[0] == l.priority as byte && LayerBytes(l)[1] == l.event as byte
    ensures l.Sync? ==> LayerBytes(l)[0] == l.priority as byte && LayerBytes(l)[1] == l.sync as byte
    ensures l.Protocol? ==> LayerBytes(l) == [l.op as byte]
  {
  }

  // Which bytes of the wire each field of a layer header is read from.
  lemma LayerReadFrom(wire: seq<byte>, tail: nat, expected: Layer)
    requires LayerLength(expected) <= tail <= |wire|
    ensures var l := ReadLayer(wire, tail, expected);
      && (expected.Event? ==> l.Event? && l.priority == wire[tail - 2] as int && l.event == wire[tail - 1] as int)
      && (expected.Sync? ==> l.Sync? && l.priority == wire[tail - 2] as int && l.sync == wire[tail - 1] as int)
      && (expected.Protocol? ==> l.Protocol? && l.op == wire[tail - 1] as int)
  {
    OneByte(wire, tail - 1);
    if !expected.Protocol? { OneByte(wire, tail - 2); }
  }

  lemma OneByte(wire: seq<byte>, at: nat)
    requires at < |wire|
    ensures U8(wire[at..at + 1]) == wire[at] as int
  {
    assert wire[at..at + 1] == [wire[at]];
    assert Value([wire[at]][1..]) == 0;
  }

  lemma HeaderParts(h: PacketHeader)
    ensures HeaderBytes(h)[0..4] == LittleEndian(h.gameId, 4) && HeaderBytes(h)[4..6] == LittleEndian(h.serverId, 2)
    ensures HeaderBytes(h)[6..8] == LittleEndian(h.sequenceNum, 2)
    ensures HeaderBytes(h)[8..12] == LittleEndian(h.ackBitfield, 4)
  {
  }

  // A base header reads back as itself exactly from its own bytes.
  lemma HeaderReads(wire: seq<byte>, tail: nat, h: PacketHeader, receiver: PacketHeader)
    requires BASE_LENGTH <= tail <= |wire|
    ensures ReadHeader(wire, tail, receiver) == h.(kind := receiver.kind)
       <==> wire[tail - BASE_LENGTH..tail] == HeaderBytes(h)
  {
    var bytes, r := wire[tail - BASE_LENGTH..tail], ReadHeader(wire, tail, receiver);
    SlicesMeet(wire, tail - 12, tail - 8, tail - 6);
    SlicesMeet(wire, tail - 12, tail - 6, tail - 4);
    SlicesMeet(wire, tail - 12, tail - 4, tail);
    assert HeaderBytes(r) == bytes by {
      LittleEndianOfValue(wire[tail - 12..tail - 8]);
      LittleEndianOfValue(wire[tail - 8..tail - 6]);
      LittleEndianOfValue(wire[tail - 6..tail - 4]);
      LittleEndianOfValue(wire[tail - 4..tail]);
    }
    if bytes == HeaderBytes(h) {
      HeaderParts(h);
      HeaderParts(r);
      U32Of(h.gameId); U16Of(h.serverId); U16Of(h.sequenceNum); U32Of(h.ackBitfield);
      U32Of(r.gameId); U16Of(r.serverId); U16Of(r.sequenceNum); U32Of(r.ackBitfield);
    }
  }

  lemma LayerReads(wire: seq<byte>, tail: nat, l: Layer)
    requires LayerLength(l) <= tail <= |wire|
    ensures ReadLayer(wire, tail, l) == l <==> wire[tail - LayerLength(l)..tail] == LayerBytes(l)
  {
    var r := ReadLayer(wire, tail, l);
    assert LayerBytes(r) == wire[tail - LayerLength(l)..tail] by {
      LittleEndianOfValue(wire[tail - 1..tail]);
      if !l.Protocol? {
        LittleEndianOfValue(wire[tail - 2..tail - 1]);
        assert wire[tail - 2..tail] == wire[tail - 2..tail - 1] + wire[tail - 1..tail];
      }
    }
    if LayerBytes(r) == LayerBytes(l) { LayerInjective(r, l); }
  }

  lemma LayerInjective(l: Layer, m: Layer)
    requires LayerBytes(l) == LayerBytes(m)
    requires l.Event? == m.Event? && l.Sync? == m.Sync?
    ensures l == m
  {
    match l
    case Protocol(op) =>
      U8Of(op);
      U8Of(m.op);
    case Event(p, e) =>
      SplitEqual(LittleEndian(p, 1), LittleEndian(e, 1), LittleEndian(m.priority, 1), LittleEndian(m.event, 1));
      U8Of(p); U8Of(e); U8Of(m.priority); U8Of(m.event);
    case Sync(p, e) =>
      SplitEqual(LittleEndian(p, 1), LittleEndian(e, 1), LittleEndian(m.priority, 1), LittleEndian(m.sync, 1));
      U8Of(p); U8Of(e); U8Of(m.priority); U8Of(m.sync);
  }

  // ---------- The whole stack ----------

  // Both headers come back from a tail `end`, up to the kind, which is not sent.
  ghost predicate HeadersRecovered(wire: seq<byte>, end: nat, l: Layer, h: PacketHeader, receiver: PacketHeader)
    requires LayerLength(l) + BASE_LENGTH <= end <= |wire|
  {
    && ReadHeader(wire, end, receiver) == h.(kind := receiver.kind)
    && ReadLayer(wire, end - BASE_LENGTH, l) == l
  }

  lemma RecoveredIffParsed(wire: seq<byte>, n: nat, l: Layer, h: PacketHeader, receiver: PacketHeader)
    requires n + LayerLength(l) + BASE_LENGTH <= |wire|
    ensures HeadersRecovered(wire, n + LayerLength(l) + BASE_LENGTH, l, h, receiver)
       <==> wire[n..n + LayerLength(l)] == LayerBytes(l)
            && wire[n + LayerLength(l)..n + LayerLength(l) + BASE_LENGTH] == HeaderBytes(h)
  {
    var split := n + LayerLength(l);
    var end := split + BASE_LENGTH;
    HeaderReads(wire, end, h, receiver);
    LayerReads(wire, split, l);
    assert end - BASE_LENGTH == split && split - LayerLength(l) == n;
  }

  // As meant, with the base header behind the layer header: whatever was sent comes back.
  lemma StackAsMeant(buffer: seq<byte>, payload: seq<byte>, l: Layer, h: PacketHeader, receiver: PacketHeader)
    requires |payload| + LayerLength(l) + BASE_LENGTH <= |buffer|
    ensures var wire := Frame(buffer, payload, LayerBytes(l), HeaderBytes(h), LayerLength(l));
      && wire[..|payload|] == payload
      && HeadersRecovered(wire, |payload| + LayerLength(l) + BASE_LENGTH, l, h, receiver)
  {
    AdjacentHeaders(buffer, payload, LayerBytes(l), HeaderBytes(h));
    var wire := Frame(buffer, payload, LayerBytes(l), HeaderBytes(h), LayerLength(l));
    RecoveredIffParsed(wire, |payload|, l, h, receiver);
  }

  // As written, with the base header over the layer header: the payload comes back, and the
  // headers do if and only if the bytes of both coincide with the base header's own followed
  // by what the buffer held after it.
  lemma StackAsWritten(buffer: seq<byte>, payload: seq<byte>, l: Layer, h: PacketHeader, receiver: PacketHeader)
    requires |payload| + LayerLength(l) + BASE_LENGTH <= |buffer|
    ensures var wire := Frame(buffer, payload, LayerBytes(l), HeaderBytes(h), 0);
      var base := |payload| + BASE_LENGTH;
      && wire[..|payload|] == payload
      && (HeadersRecovered(wire, base + LayerLength(l), l, h, receiver)
          <==> LayerBytes(l) + HeaderBytes(h) == HeaderBytes(h) + buffer[base..base + LayerLength(l)])
  {
    OverwrittenHeaders(buffer, payload, LayerBytes(l), HeaderBytes(h));
    RecoveredIffParsed(Frame(buffer, payload, LayerBytes(l), HeaderBytes(h), 0), |payload|, l, h, receiver);
  }

  // So in a cleared buffer no packet that carries the game's id gets its headers across.
  lemma GameIdNeverCrosses(buffer: seq<byte>, payload: seq<byte>, l: Layer, h: PacketHeader, receiver: PacketHeader)
    requires |payload| + LayerLength(l) + BASE_LENGTH <= |buffer|
    requires forall i :: 0 <= i < |buffer| ==> buffer[i] == 0
    requires h.gameId == 59343074
    ensures !HeadersRecovered(Frame(buffer, payload, LayerBytes(l), HeaderBytes(h), 0),
                              |payload| + LayerLength(l) + BASE_LENGTH, l, h, receiver)
  {
    var base := |payload| + BASE_LENGTH;
    StackAsWritten(buffer, payload, l, h, receiver);
    OverwrittenInClearedBuffer(LayerBytes(l), HeaderBytes(h), buffer[base..base + LayerLength(l)]);
    HeaderParts(h);
    assert HeaderBytes(h)[0] == LittleEndian(h.gameId, 4)[0] == (59343074 % 256) as byte != 0;
  }

  // ---------- Reading the fields of a packed payload from the tail ----------

  lemma FieldReads(wire: seq<byte>, tail: nat, fields: seq<Field>, k: nat)
    requires Packed(fields) && k < |fields| && |Join(fields)| <= tail <= |wire|
    requires wire[tail - |Join(fields)|..tail] == Join(fields)
    ensures fields[k].End() <= |Join(fields)|
    ensures var from := tail - |Join(fields)|;
      wire[from + fields[k].at..from + fields[k].End()] == fields[k].bytes
  {
    PackedSlice(fields, k, |fields|);
    var from := tail - |Join(fields)|;
    SliceOfSlice(wire, from, tail, fields[k].at, fields[k].End());
  }

  // Serialising a packed payload and then the headers at its tail is one frame.
  method WriteHeaders(data: array<byte>, tail: nat, l: Layer, h: PacketHeader,
                      ghost before: seq<byte>, ghost fields: seq<Field>)
    requires |before| == data.Length && Fits(fields, |before|) && Packed(fields)
    requires tail == |Join(fields)| && tail + BASE_LENGTH <= data.Length
    requires data[..] == WriteAll(before, fields)
    modifies data
    ensures data[..] == Frame(before, Join(fields), LayerBytes(l), HeaderBytes(h), 0)
  {
    PackedIsPut(before, fields, |fields|);
    AddLayerHeader(data, tail, l, h);
  }
}
