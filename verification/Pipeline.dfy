/** The match server's input pipeline: one thread receives datagrams into a buffer, builds a
    packet of each and pushes it on a bounded queue; another pops packets and processes them. */
module Pipeline {
  import opened Bytes

  const MAX_PACKET_SIZE: nat := 1024
  const CAPACITY: nat := 2000

  // A packet always carries the whole buffer.
  datatype Packet = Packet(address: nat, data: seq<byte>)

  // One processing of a packet, and whether the pop before it delivered that packet.
  datatype Processed = Processed(packet: Packet, delivered: bool)

  datatype State = State(buffer: seq<byte>, client: nat, queue: seq<Packet>, current: Packet,
                         built: seq<Packet>, pushed: seq<Packet>, processed: seq<Processed>)

  // Turns of the two threads, in any order.
  datatype Event =
    | Arrives(address: nat, datagram: seq<byte>)
    | ReceiveFails
    | Converts

  // A receive stores at most one byte less than the buffer holds.
  function Stored(datagram: seq<byte>): (r: seq<byte>)
    ensures |r| < MAX_PACKET_SIZE
  {
    if |datagram| < MAX_PACKET_SIZE then datagram else datagram[..MAX_PACKET_SIZE - 1]
  }

  // What is behind the datagram in the buffer stays.
  function Overwritten(buffer: seq<byte>, bytes: seq<byte>): (r: seq<byte>)
    requires |bytes| <= |buffer|
    ensures |r| == |buffer|
  {
    bytes + buffer[|bytes|..]
  }

  // A push on a full queue fails, and nobody looks.
  function Pushed(s: State): State {
    var p := Packet(s.client, s.buffer);
    if |s.queue| < CAPACITY then
      s.(built := s.built + [p], queue := s.queue + [p], pushed := s.pushed + [p])
    else
      s.(built := s.built + [p])
  }

  // A failed receive is reported, and a packet is built all the same. A pop from an empty
  // queue fails, and the previous packet is processed again.
  function Apply(s: State, e: Event): State {
    match e
    case Arrives(address, datagram) =>
      Pushed(s.(client := address,
                buffer := if |s.buffer| == MAX_PACKET_SIZE then Overwritten(s.buffer, Stored(datagram)) else s.buffer))
    case ReceiveFails => Pushed(s)
    case Converts =>
      if s.queue == [] then s.(processed := s.processed + [Processed(s.current, false)])
      else
        s.(current := s.queue[0], queue := s.queue[1..], processed := s.processed + [Processed(s.queue[0], true)])
  }

  // Neither the address nor the packet that is processed first has a value to begin with.
  function Initial(client: nat, current: Packet): State {
    State(seq(MAX_PACKET_SIZE, _ => 0), client, [], current, [], [], [])
  }

  function Run(start: State, events: seq<Event>): State {
    if events == [] then start
    else Apply(Run(start, events[..|events| - 1]), events[|events| - 1])
  }

  // ---------- The turns as the threads take them ----------

  class Shared {
    var buffer: array<byte>
    var currentClient: nat
    var queue: seq<Packet>
    var currentPacket: Packet
    ghost var built: seq<Packet>
    ghost var pushed: seq<Packet>
    ghost var processed: seq<Processed>

    ghost function Value(): State
      reads this, buffer
    {
      State(buffer[..], currentClient, queue, currentPacket, built, pushed, processed)
    }

    constructor (client: nat, current: Packet)
      ensures buffer.Length == MAX_PACKET_SIZE && fresh(buffer)
      ensures Value() == Initial(client, current)
    {
      buffer := new byte[MAX_PACKET_SIZE](_ => 0);
      currentClient, queue, currentPacket, built, pushed, processed := client, [], current, [], [], [];
      new;
      assert buffer[..] == seq(MAX_PACKET_SIZE, _ => 0);
    }

    // One turn of the acceptor. The event says what recvfrom found.
    method ReceiveOne(e: Event)
      requires !e.Converts? && buffer.Length == MAX_PACKET_SIZE
      modifies this, buffer
      ensures buffer == old(buffer) && Value() == Apply(old(Value()), e)
    {
      if e.Arrives? {
        var bytes := Stored(e.datagram);
        ghost var before := buffer[..];
        forall p | 0 <= p < |bytes| {
          buffer[p] := bytes[p];
        }
        assert buffer[..] == Overwritten(before, bytes);
        currentClient := e.address;
      }
      var pack := Packet(currentClient, buffer[..]);
      built := built + [pack];
      if |queue| < CAPACITY {
        queue := queue + [pack];
        pushed := pushed + [pack];
      }
    }

    // One turn of the converter.
    method ConvertOne()
      modifies this
      ensures buffer == old(buffer) && Value() == Apply(old(Value()), Converts)
    {
      ghost var delivered := queue != [];
      if queue != [] {
        currentPacket := queue[0];
        queue := queue[1..];
      }
      processed := processed + [Processed(currentPacket, delivered)];
    }
  }

  // ---------- What every interleaving keeps ----------

  // The packets that were processed right after being popped.
  function Popped(processed: seq<Processed>): seq<Packet> {
    if processed == [] then []
    else
      var last := processed[|processed| - 1];
      Popped(processed[..|processed| - 1]) + if last.delivered then [last.packet] else []
  }

  // A packet processed without a pop is the one processed just before, or the initial one.
  ghost predicate RepeatsAt(processed: seq<Processed>, initial: Packet, i: int) {
    0 <= i < |processed| && !processed[i].delivered ==>
      processed[i].packet == if i == 0 then initial else processed[i - 1].packet
  }

  ghost predicate RepeatsThePrevious(processed: seq<Processed>, initial: Packet) {
    forall i :: RepeatsAt(processed, initial, i)
  }

  // An order-preserving selection of `from`, by strictly increasing positions.
  ghost predicate Selects(sub: seq<Packet>, from: seq<Packet>, at: seq<int>) {
    && |at| == |sub|
    && (forall i :: 0 <= i < |at| ==> 0 <= at[i] < |from| && from[at[i]] == sub[i])
    && (forall i, j :: 0 <= i < j < |at| ==> at[i] < at[j])
  }

  ghost predicate Subsequence(sub: seq<Packet>, from: seq<Packet>) {
    exists at :: Selects(sub, from, at)
  }

  lemma SubsequenceGrows(sub: seq<Packet>, from: seq<Packet>, p: Packet)
    requires Subsequence(sub, from)
    ensures Subsequence(sub, from + [p]) && Subsequence(sub + [p], from + [p])
  {
    var at :| Selects(sub, from, at);
    assert Selects(sub, from + [p], at);
    assert Selects(sub + [p], from + [p], at + [|from|]);
  }

  lemma SubsequencePrefix(sub: seq<Packet>, from: seq<Packet>, n: nat)
    requires Subsequence(sub, from) && n <= |sub|
    ensures Subsequence(sub[..n], from)
  {
    var at :| Selects(sub, from, at);
    assert Selects(sub[..n], from, at[..n]);
  }

  ghost predicate Consistent(s: State, initial: Packet) {
    && |s.buffer| == MAX_PACKET_SIZE
    && |s.queue| <= 2000
    && s.pushed == Popped(s.processed) + s.queue
    && Subsequence(s.pushed, s.built)
    && RepeatsThePrevious(s.processed, initial)
    && s.current == if s.processed == [] then initial else s.processed[|s.processed| - 1].packet
  }

  lemma PoppedAppend(processed: seq<Processed>, e: Processed)
    ensures Popped(processed + [e]) == if e.delivered then Popped(processed) + [e.packet] else Popped(processed)
  {
    assert (processed + [e])[..|processed|] == processed;
  }

  lemma RepeatsAppend(processed: seq<Processed>, e: Processed, initial: Packet)
    requires RepeatsThePrevious(processed, initial)
    requires !e.delivered ==> e.packet == if processed == [] then initial else processed[|processed| - 1].packet
    ensures RepeatsThePrevious(processed + [e], initial)
  {
    var now := processed + [e];
    forall i ensures RepeatsAt(now, initial, i) {
      assert RepeatsAt(processed, initial, i);
      assert 0 < i <= |processed| ==> now[i - 1] == processed[i - 1];
    }
  }

  lemma PushConsistent(s: State, initial: Packet)
    requires Consistent(s, initial)
    ensures Consistent(Pushed(s), initial)
  {
    var p := Packet(s.client, s.buffer);
    SubsequenceGrows(s.pushed, s.built, p);
    assert s.pushed + [p] == Popped(s.processed) + (s.queue + [p]);
  }

  // A receive changes the buffer and the address, which nothing depends on but the length.
  lemma OverwriteConsistent(s: State, address: nat, datagram: seq<byte>, initial: Packet)
    requires Consistent(s, initial)
    ensures Consistent(s.(client := address, buffer := Overwritten(s.buffer, Stored(datagram))), initial)
  {
  }

  lemma PopConsistent(s: State, initial: Packet)
    requires Consistent(s, initial) && s.queue != []
    ensures Consistent(Apply(s, Converts), initial)
  {
    var last := Processed(s.queue[0], true);
    PoppedAppend(s.processed, last);
    RepeatsAppend(s.processed, last, initial);
    assert Popped(s.processed) + s.queue == (Popped(s.processed) + [s.queue[0]]) + s.queue[1..];
  }

  lemma RepeatConsistent(s: State, initial: Packet)
    requires Consistent(s, initial) && s.queue == []
    ensures Consistent(Apply(s, Converts), initial)
  {
    var last := Processed(s.current, false);
    PoppedAppend(s.processed, last);
    RepeatsAppend(s.processed, last, initial);
  }

  lemma ApplyConsistent(s: State, e: Event, initial: Packet)
    requires Consistent(s, initial)
    ensures Consistent(Apply(s, e), initial)
  {
    match e
    case Arrives(address, datagram) =>
      OverwriteConsistent(s, address, datagram, initial);
      PushConsistent(s.(client := address, buffer := Overwritten(s.buffer, Stored(datagram))), initial);
    case ReceiveFails => PushConsistent(s, initial);
    case Converts =>
      if s.queue == [] { RepeatConsistent(s, initial); } else { PopConsistent(s, initial); }
  }

  // For any interleaving: what was pushed is what was popped and then what is queued, at most
  // CAPACITY of it; what was pushed keeps the order of what was built; and what was processed
  // is what was popped, in order, with each failed pop repeating the packet before it.
  lemma {:induction false} RunConsistent(client: nat, initial: Packet, events: seq<Event>)
    ensures Consistent(Run(Initial(client, initial), events), initial)
  {
    var start := Initial(client, initial);
    if events == [] {
      assert Selects([], [], []);
    } else {
      RunConsistent(client, initial, events[..|events| - 1]);
      ApplyConsistent(Run(start, events[..|events| - 1]), events[|events| - 1], initial);
    }
  }

  // So the packets processed, repeats aside, are a prefix of those pushed and an
  // order-preserving part of those built.
  lemma ProcessedInOrder(client: nat, initial: Packet, events: seq<Event>)
    ensures var s := Run(Initial(client, initial), events);
      Popped(s.processed) <= s.pushed && Subsequence(Popped(s.processed), s.built)
  {
    var s := Run(Initial(client, initial), events);
    RunConsistent(client, initial, events);
    SubsequencePrefix(s.pushed, s.built, |Popped(s.processed)|);
    assert s.pushed[..|Popped(s.processed)|] == Popped(s.processed);
  }

  // ---------- What the packets carry ----------

  // The acceptor's turns.
  function Turns(events: seq<Event>): seq<Event> {
    if events == [] then []
    else
      var most, last := events[..|events| - 1], events[|events| - 1];
      if last.Converts? then Turns(most) else Turns(most) + [last]
  }

  // The address of the last datagram to arrive, or the one the thread began with.
  function LastAddress(turns: seq<Event>, initial: nat): nat {
    if turns == [] then initial
    else
      var last := turns[|turns| - 1];
      if last.Arrives? then last.address else LastAddress(turns[..|turns| - 1], initial)
  }

  // Byte p of the last datagram to have one among the first 1023, or 0.
  function LastByte(turns: seq<Event>, p: nat): byte {
    if turns == [] then 0
    else
      var last := turns[|turns| - 1];
      if last.Arrives? && p < |last.datagram| && p < 1023 then last.datagram[p]
      else LastByte(turns[..|turns| - 1], p)
  }

  // A packet as the turns up to and including its own determine it.
  ghost predicate CarriesLast(packet: Packet, turns: seq<Event>, initial: nat) {
    && packet.address == LastAddress(turns, initial)
    && |packet.data| == 1024
    && forall p :: 0 <= p < 1024 ==> packet.data[p] == LastByte(turns, p)
  }

  // One packet to a turn, each carrying what its turn makes it carry.
  ghost predicate BuiltFrom(built: seq<Packet>, turns: seq<Event>, initial: nat) {
    && |built| == |turns|
    && forall n :: 0 <= n < |built| ==> CarriesLast(built[n], turns[..n + 1], initial)
  }

  lemma NextBuilt(built: seq<Packet>, packet: Packet, turns: seq<Event>, last: Event, initial: nat)
    requires BuiltFrom(built, turns, initial) && CarriesLast(packet, turns + [last], initial)
    ensures BuiltFrom(built + [packet], turns + [last], initial)
  {
    var now := turns + [last];
    forall n | 0 <= n < |built + [packet]| ensures CarriesLast((built + [packet])[n], now[..n + 1], initial) {
      if n < |built| {
        assert now[..n + 1] == turns[..n + 1];
      } else {
        assert now[..n + 1] == now;
      }
    }
  }

  // The thread's own buffer and address.
  lemma NextCarried(s: State, e: Event, turns: seq<Event>, initial: nat)
    requires CarriesLast(Packet(s.client, s.buffer), turns, initial) && !e.Converts?
    ensures var t := Apply(s, e); CarriesLast(Packet(t.client, t.buffer), turns + [e], initial)
  {
    assert (turns + [e])[..|turns|] == turns;
  }

  // Over every run: one packet is built for each turn of the acceptor, with the address of the
  // last datagram up to then, and with byte p of the last datagram up to then that has one.
  lemma {:induction false} PacketsCarryDatagrams(client: nat, initial: Packet, events: seq<Event>)
    ensures var s := Run(Initial(client, initial), events);
      BuiltFrom(s.built, Turns(events), client) && CarriesLast(Packet(s.client, s.buffer), Turns(events), client)
  {
    if events != [] {
      var n := |events| - 1;
      var before, last := Run(Initial(client, initial), events[..n]), events[n];
      PacketsCarryDatagrams(client, initial, events[..n]);
      if !last.Converts? {
        NextCarried(before, last, Turns(events[..n]), client);
        var now := Apply(before, last);
        NextBuilt(before.built, Packet(now.client, now.buffer), Turns(events[..n]), last, client);
      }
    }
  }

  // ---------- Exactly when nothing is lost and nothing repeated ----------

  // The acceptor's turn n finds the queue full.
  ghost predicate FindsFull(start: State, events: seq<Event>, n: int) {
    0 <= n < |events| && !events[n].Converts? && |Run(start, events[..n]).queue| >= 2000
  }

  // The converter's turn n finds the queue empty.
  ghost predicate FindsEmpty(start: State, events: seq<Event>, n: int) {
    0 <= n < |events| && events[n].Converts? && Run(start, events[..n]).queue == []
  }

  ghost predicate SomeFull(start: State, events: seq<Event>) {
    exists n :: FindsFull(start, events, n)
  }

  ghost predicate SomeEmpty(start: State, events: seq<Event>) {
    exists n :: FindsEmpty(start, events, n)
  }

  lemma FindsPrefix(start: State, events: seq<Event>, m: nat, n: int)
    requires n < m <= |events|
    ensures FindsFull(start, events[..m], n) <==> FindsFull(start, events, n)
    ensures FindsEmpty(start, events[..m], n) <==> FindsEmpty(start, events, n)
  {
    if 0 <= n { assert events[..m][..n] == events[..n]; }
  }

  lemma FullStep(start: State, events: seq<Event>)
    requires events != []
    ensures SomeFull(start, events)
       <==> SomeFull(start, events[..|events| - 1]) || FindsFull(start, events, |events| - 1)
  {
    var m := |events| - 1;
    if n :| FindsFull(start, events, n) {
      if n < m { FindsPrefix(start, events, m, n); }
    }
    if n :| FindsFull(start, events[..m], n) {
      FindsPrefix(start, events, m, n);
    }
  }

  lemma EmptyStep(start: State, events: seq<Event>)
    requires events != []
    ensures SomeEmpty(start, events)
       <==> SomeEmpty(start, events[..|events| - 1]) || FindsEmpty(start, events, |events| - 1)
  {
    var m := |events| - 1;
    if n :| FindsEmpty(start, events, n) {
      if n < m { FindsPrefix(start, events, m, n); }
    }
    if n :| FindsEmpty(start, events[..m], n) {
      FindsPrefix(start, events, m, n);
    }
  }

  // No packet is dropped if and only if no turn of the acceptor finds the queue full.
  lemma {:induction false} LossExactly(start: State, events: seq<Event>)
    requires |start.pushed| == |start.built|
    ensures |Run(start, events).pushed| <= |Run(start, events).built|
    ensures |Run(start, events).pushed| < |Run(start, events).built| <==> SomeFull(start, events)
  {
    if events != [] {
      LossExactly(start, events[..|events| - 1]);
      FullStep(start, events);
    }
  }

  // No packet is processed twice if and only if no turn of the converter finds it empty.
  lemma {:induction false} RepetitionExactly(start: State, events: seq<Event>)
    requires start.processed == []
    ensures |Popped(Run(start, events).processed)| <= |Run(start, events).processed|
    ensures |Popped(Run(start, events).processed)| < |Run(start, events).processed|
       <==> SomeEmpty(start, events)
  {
    if events != [] {
      var before, s := Run(start, events[..|events| - 1]), Run(start, events);
      RepetitionExactly(start, events[..|events| - 1]);
      EmptyStep(start, events);
      if events[|events| - 1].Converts? {
        PoppedAppend(before.processed, s.processed[|before.processed|]);
      }
    }
  }
}
