/** The login server as a whole: any number of visits at once, each with its own server child,
    over one credentials table whose INSERT fails on a username it already holds. */
module Credentials {
  import opened CStrings
  import opened Handshake
  import opened Options
  import Hex

  // An INSERT the database was asked for, accepted or not, and the visit that asked.
  datatype Row = Row(name: string, hash: string, asker: nat)

  // A visit, and how many INSERTs had been asked for when it put its own question.
  datatype Slot = Slot(session: Session, at: nat)

  datatype World = World(table: map<string, string>, inserts: seq<Row>, slots: seq<Slot>)

  datatype Event =
    | Arrive(visit: Visit, port: int, random: string)
    | ClientOf(who: nat)
    | ServerOf(who: nat)
    | SecureOf(who: nat)
    | AskOf(who: nat)

  const EMPTY: World := World(map[], [], [])

  predicate Sound(w: World) {
    forall i :: 0 <= i < |w.slots| ==> w.slots[i].session.visit.Valid()
  }

  function Stored(table: map<string, string>, name: string): Option<string> {
    if name in table then Some(table[name]) else None
  }

  function Moved(sha: Sha, w: World, who: nat, move: Move): (r: World)
    requires Sound(w) && who < |w.slots|
  {
    w.(slots := w.slots[who := w.slots[who].(session := Step(sha, w.slots[who].session, move))])
  }

  predicate AsksNow(w: World, who: nat) {
    who < |w.slots| && ServerTurn(w.slots[who].session.server.pc).Ask?
  }

  // The SELECT of a login, or the INSERT of a sign-up.
  function Asked(sha: Sha, w: World, who: nat): World
    requires Sound(w) && AsksNow(w, who)
  {
    var s := w.slots[who].session.server;
    var name, hash := CString(s.nameBuffer), Hash(sha, CString(s.passBuffer));
    var slots := w.slots[who :=
      Slot(Step(sha, w.slots[who].session, Answer(Stored(w.table, name))), |w.inserts|)];
    if s.pc.Insert? then
      World(if name in w.table then w.table else w.table[name := hash], w.inserts + [Row(name, hash, who)], slots)
    else w.(slots := slots)
  }

  // An event that cannot happen yet changes nothing. A name or a password that cannot be typed
  // at the client's prompt, or that overruns its buffers, does not arrive.
  function Apply(sha: Sha, w: World, e: Event): (r: World)
    requires Sound(w)
    ensures Sound(r)
  {
    match e
    case Arrive(visit, port, random) =>
      if visit.Valid() then w.(slots := w.slots + [Slot(Opened(visit, port, random), 0)]) else w
    case ClientOf(who) => if who < |w.slots| then Moved(sha, w, who, ClientMoves) else w
    case ServerOf(who) => if who < |w.slots| then Moved(sha, w, who, ServerMoves) else w
    case SecureOf(who) => if who < |w.slots| then Moved(sha, w, who, Secure) else w
    case AskOf(who) =>
      if AsksNow(w, who) then Asked(sha, w, who) else w
  }

  function Run(sha: Sha, events: seq<Event>): (r: World)
    ensures Sound(r)
  {
    if events == [] then EMPTY else Apply(sha, Run(sha, events[..|events| - 1]), events[|events| - 1])
  }

  // ---------- What every run keeps ----------

  ghost predicate Unnamed(inserts: seq<Row>, n: nat, name: string)
    requires n <= |inserts|
  {
    forall k :: 0 <= k < n ==> inserts[k].name != name
  }

  // Among the first n INSERTs, the first for this name stored this hash; or none was for it.
  ghost predicate FirstWins(inserts: seq<Row>, n: nat, name: string, row: Option<string>)
    requires n <= |inserts|
  {
    match row
    case None => Unnamed(inserts, n, name)
    case Some(hash) =>
      exists k :: 0 <= k < n && inserts[k].name == name && inserts[k].hash == hash && Unnamed(inserts, k, name)
  }

  ghost predicate TableRight(table: map<string, string>, inserts: seq<Row>) {
    forall name :: FirstWins(inserts, |inserts|, name, Stored(table, name))
  }

  // A visit that has had its answer had the right one; a sign-up's INSERT is on record.
  ghost predicate SlotRight(sha: Sha, inserts: seq<Row>, slot: Slot, who: nat) {
    && InStep(sha, slot.session)
    && var v := slot.session.visit;
      (Answered(slot.session.server.pc) ==>
        && slot.at <= |inserts|
        && FirstWins(inserts, slot.at, v.name, slot.session.server.row)
        && (v.signup ==> slot.at < |inserts| && inserts[slot.at] == Row(v.name, Hash(sha, v.password), who)))
  }

  // An INSERT on record was asked for by the visit it names.
  predicate RowRight(w: World, k: nat)
    requires k < |w.inserts|
  {
    var who := w.inserts[k].asker;
    && who < |w.slots| && w.slots[who].at == k
    && w.slots[who].session.visit.signup && Answered(w.slots[who].session.server.pc)
  }

  ghost predicate Consistent(sha: Sha, w: World) {
    && TableRight(w.table, w.inserts)
    && (forall i :: 0 <= i < |w.slots| ==> SlotRight(sha, w.inserts, w.slots[i], i))
    && (forall k :: 0 <= k < |w.inserts| ==> RowRight(w, k))
  }

  // A session in step whose answer stands.
  lemma MoverRight(sha: Sha, inserts: seq<Row>, slot: Slot, y: Session, who: nat)
    requires SlotRight(sha, inserts, slot, who) && InStep(sha, y) && AnswerStands(slot.session, y)
    ensures SlotRight(sha, inserts, slot.(session := y), who)
  {
  }

  lemma MovedRow(w: World, who: nat, slot: Slot, k: nat)
    requires who < |w.slots| && k < |w.inserts| && RowRight(w, k)
    requires slot.at == w.slots[who].at && slot.session.visit == w.slots[who].session.visit
    requires Answered(slot.session.server.pc) == Answered(w.slots[who].session.server.pc)
    ensures RowRight(w.(slots := w.slots[who := slot]), k)
  {
  }

  lemma MovedConsistent(sha: Sha, w: World, who: nat, move: Move)
    requires Sound(w) && Consistent(sha, w) && who < |w.slots| && !move.Answer?
    ensures Consistent(sha, Moved(sha, w, who, move))
  {
    var r, x := Moved(sha, w, who, move), w.slots[who].session;
    var y := Step(sha, x, move);
    assert SlotRight(sha, w.inserts, w.slots[who], who);
    StepKeeps(sha, x, move);
    MoverRight(sha, w.inserts, w.slots[who], y, who);
    forall i | 0 <= i < |r.slots| ensures SlotRight(sha, r.inserts, r.slots[i], i) {
      assert i != who ==> SlotRight(sha, w.inserts, w.slots[i], i);
    }
    forall k | 0 <= k < |r.inserts| ensures RowRight(r, k) {
      MovedRow(w, who, w.slots[who].(session := y), k);
    }
  }

  // One more INSERT does not change who was first among the earlier ones.
  lemma FirstStays(inserts: seq<Row>, more: seq<Row>, n: nat, name: string, row: Option<string>)
    requires n <= |inserts| && FirstWins(inserts, n, name, row)
    ensures FirstWins(inserts + more, n, name, row)
  {
    var all := inserts + more;
    if row.Some? {
      var k :| 0 <= k < n && inserts[k].name == name && inserts[k].hash == row.value && Unnamed(inserts, k, name);
      assert all[k] == inserts[k] && Unnamed(all, k, name);
    }
  }

  // The INSERT goes into the table exactly when its name is new there.
  lemma InsertRight(table: map<string, string>, inserts: seq<Row>, row: Row)
    requires TableRight(table, inserts)
    ensures TableRight(if row.name in table then table else table[row.name := row.hash], inserts + [row])
  {
    var all, now := inserts + [row], if row.name in table then table else table[row.name := row.hash];
    forall name ensures FirstWins(all, |all|, name, Stored(now, name)) {
      assert FirstWins(inserts, |inserts|, name, Stored(table, name));
      FirstStays(inserts, [row], |inserts|, name, Stored(table, name));
      if name == row.name && name !in table {
        assert all[|inserts|] == row && Unnamed(all, |inserts|, name);
      }
    }
  }

  // What the question of visit `who` puts on record.
  function Asking(sha: Sha, w: World, who: nat): seq<Row>
    requires who < |w.slots|
  {
    var v := w.slots[who].session.visit;
    if v.signup then [Row(v.name, Hash(sha, v.password), who)] else []
  }

  lemma AskedIs(sha: Sha, w: World, who: nat)
    requires Sound(w) && AsksNow(w, who) && InStep(sha, w.slots[who].session)
    ensures var r, x := Asked(sha, w, who), w.slots[who].session;
      && r.inserts == w.inserts + Asking(sha, w, who)
      && r.slots == w.slots[who := Slot(Step(sha, x, Answer(Stored(w.table, x.visit.name))), |w.inserts|)]
      && r.table == if x.visit.signup && x.visit.name !in w.table
                    then w.table[x.visit.name := Hash(sha, x.visit.password)] else w.table
  {
    AsksForTheVisitor(sha, w.slots[who].session.visit, w.slots[who].session.server);
  }

  // The visit that asked has had the right answer, and its INSERT is on record.
  lemma AskerRight(sha: Sha, w: World, who: nat)
    requires Sound(w) && Consistent(sha, w) && AsksNow(w, who)
    ensures SlotRight(sha, Asked(sha, w, who).inserts, Asked(sha, w, who).slots[who], who)
  {
    var x := w.slots[who].session;
    assert SlotRight(sha, w.inserts, w.slots[who], who);
    AskedIs(sha, w, who);
    AnswerKeeps(sha, x, Stored(w.table, x.visit.name));
    FirstStays(w.inserts, Asking(sha, w, who), |w.inserts|, x.visit.name, Stored(w.table, x.visit.name));
  }

  lemma OtherRight(sha: Sha, inserts: seq<Row>, more: seq<Row>, slot: Slot, i: nat)
    requires SlotRight(sha, inserts, slot, i)
    ensures SlotRight(sha, inserts + more, slot, i)
  {
    if Answered(slot.session.server.pc) {
      FirstStays(inserts, more, slot.at, slot.session.visit.name, slot.session.server.row);
    }
  }

  lemma RowsRight(sha: Sha, w: World, who: nat)
    requires Sound(w) && Consistent(sha, w) && AsksNow(w, who)
    ensures var r := Asked(sha, w, who); forall k :: 0 <= k < |r.inserts| ==> RowRight(r, k)
  {
    var r, x := Asked(sha, w, who), w.slots[who].session;
    assert SlotRight(sha, w.inserts, w.slots[who], who);
    AskedIs(sha, w, who);
    AsksForTheVisitor(sha, x.visit, x.server);
    AnswerPlace(sha, x.visit, x.server, Stored(w.table, x.visit.name));
    forall k | 0 <= k < |r.inserts| ensures RowRight(r, k) {
      if k < |w.inserts| { assert RowRight(w, k); }
    }
  }

  lemma AskedConsistent(sha: Sha, w: World, who: nat)
    requires Sound(w) && Consistent(sha, w) && AsksNow(w, who)
    ensures Consistent(sha, Asked(sha, w, who))
  {
    var r := Asked(sha, w, who);
    assert SlotRight(sha, w.inserts, w.slots[who], who);
    AskedIs(sha, w, who);
    if w.slots[who].session.visit.signup { InsertRight(w.table, w.inserts, Asking(sha, w, who)[0]); }
    AskerRight(sha, w, who);
    forall i | 0 <= i < |r.slots| ensures SlotRight(sha, r.inserts, r.slots[i], i) {
      if i != who { OtherRight(sha, w.inserts, Asking(sha, w, who), w.slots[i], i); }
    }
    RowsRight(sha, w, who);
  }

  lemma {:induction false} RunConsistent(sha: Sha, events: seq<Event>)
    ensures Consistent(sha, Run(sha, events))
  {
    if events != [] {
      var w, e := Run(sha, events[..|events| - 1]), events[|events| - 1];
      RunConsistent(sha, events[..|events| - 1]);
      match e
      case Arrive(visit, port, random) =>
        if visit.Valid() { ArriveConsistent(sha, w, visit, port, random); }
      case ClientOf(who) => if who < |w.slots| { MovedConsistent(sha, w, who, ClientMoves); }
      case ServerOf(who) => if who < |w.slots| { MovedConsistent(sha, w, who, ServerMoves); }
      case SecureOf(who) => if who < |w.slots| { MovedConsistent(sha, w, who, Secure); }
      case AskOf(who) =>
        if AsksNow(w, who) { AskedConsistent(sha, w, who); }
    }
  }

  lemma ArriveConsistent(sha: Sha, w: World, visit: Visit, port: int, random: string)
    requires Sound(w) && Consistent(sha, w) && visit.Valid()
    ensures Consistent(sha, Apply(sha, w, Arrive(visit, port, random)))
  {
    var r := Apply(sha, w, Arrive(visit, port, random));
    OpenedInStep(sha, visit, port, random);
    forall i | 0 <= i < |r.slots| ensures SlotRight(sha, r.inserts, r.slots[i], i) {
      if i < |w.slots| { assert SlotRight(sha, w.inserts, w.slots[i], i); }
    }
    forall k | 0 <= k < |r.inserts| ensures RowRight(r, k) {
      assert RowRight(w, k);
    }
  }

  // In every run, whatever the other visits do: nobody is handed a message of another kind; a
  // visit can go on, or has ended in agreement, or is one whose client dialled before its server
  // listened; and such a visit has left no trace in the table.
  lemma VisitsSafe(sha: Sha, events: seq<Event>, i: nat, row: Option<string>)
    requires i < |Run(sha, events).slots|
    ensures var x := Run(sha, events).slots[i].session;
      Safe(sha, x, row) && (CutOff(x.client.pc) ==> !Answered(x.server.pc))
  {
    RunConsistent(sha, events);
    var w := Run(sha, events);
    var x := w.slots[i].session;
    assert SlotRight(sha, w.inserts, w.slots[i], i);
    SafeAt(sha, x, row);
    if CutOff(x.client.pc) { CutOffUnanswered(sha, x); }
  }

  lemma CutOffUnanswered(sha: Sha, x: Session)
    requires InStep(sha, x) && CutOff(x.client.pc)
    ensures !Answered(x.server.pc)
  {
    LanesOrdered(sha, x, ClientTally(x.client.pc), ServerTally(x.server.pc));
    CutOffServer(x.client.pc, x.server.pc);
  }

  // The event by which a ready move of one visit happens, and the move as the table answers it.
  function EventOf(move: Move, who: nat): Event {
    match move
    case ClientMoves => ClientOf(who)
    case ServerMoves => ServerOf(who)
    case Secure => SecureOf(who)
    case Answer(_) => AskOf(who)
  }

  function RowFor(w: World, who: nat): Option<string>
    requires who < |w.slots|
  {
    Stored(w.table, CString(w.slots[who].session.server.nameBuffer))
  }

  lemma EventHappens(sha: Sha, events: seq<Event>, i: nat, move: Move)
    requires i < |Run(sha, events).slots| && Ready(Run(sha, events).slots[i].session, move)
    requires move.Answer? ==> move.row == RowFor(Run(sha, events), i)
    ensures var next := Run(sha, events + [EventOf(move, i)]);
      i < |next.slots| && next.slots[i].session == Step(sha, Run(sha, events).slots[i].session, move)
  {
    assert (events + [EventOf(move, i)])[..|events|] == events;
  }

  // A session that is not over and was not refused has a move that does not get it refused.
  lemma GoodMove(sha: Sha, x: Session, row: Option<string>) returns (move: Move)
    requires InStep(sha, x) && !Finished(x) && !CutOff(x.client.pc)
    ensures Ready(x, move) && (move.Answer? ==> move.row == row)
    ensures !CutOff(Step(sha, x, move).client.pc)
    ensures Done(x) < Done(Step(sha, x, move)) <= DONE_AT_MOST
  {
    NeverStuck(sha, x, row);
    move := if Ready(x, ServerMoves) then ServerMoves else if Ready(x, ClientMoves) then ClientMoves
            else if Ready(x, Secure) then Secure else Answer(row);
    NotEarly(sha, x, move);
    StepKeeps(sha, x, move);
    DoneBound(Step(sha, x, move));
  }

  lemma InStepInRun(sha: Sha, events: seq<Event>, i: nat)
    requires i < |Run(sha, events).slots|
    ensures InStep(sha, Run(sha, events).slots[i].session)
  {
    RunConsistent(sha, events);
    assert SlotRight(sha, Run(sha, events).inserts, Run(sha, events).slots[i], i);
  }

  predicate Present(w: World, i: nat) {
    i < |w.slots| && !CutOff(w.slots[i].session.client.pc)
  }

  ghost predicate Ended(sha: Sha, w: World, i: nat) {
    i < |w.slots| && Agreed(sha, w.slots[i].session)
  }

  function DoneBy(w: World, i: nat): nat
    requires i < |w.slots|
  {
    Done(w.slots[i].session)
  }

  lemma GoodEvent(sha: Sha, events: seq<Event>, i: nat) returns (e: Event)
    requires Present(Run(sha, events), i) && !Finished(Run(sha, events).slots[i].session)
    ensures Present(Run(sha, events + [e]), i)
    ensures DoneBy(Run(sha, events), i) < DoneBy(Run(sha, events + [e]), i) <= DONE_AT_MOST
  {
    InStepInRun(sha, events, i);
    var move := GoodMove(sha, Run(sha, events).slots[i].session, RowFor(Run(sha, events), i));
    e := EventOf(move, i);
    EventHappens(sha, events, i, move);
  }

  lemma FinishedHasEnded(sha: Sha, events: seq<Event>, i: nat)
    requires i < |Run(sha, events).slots| && Finished(Run(sha, events).slots[i].session)
    ensures Ended(sha, Run(sha, events), i)
  {
    InStepInRun(sha, events, i);
    EndsAgree(sha, Run(sha, events).slots[i].session);
  }

  // Whatever the other visits have done, one whose client was not refused can be brought to
  // agreement by events of its own.
  lemma {:induction false} VisitCanFinish(sha: Sha, events: seq<Event>, i: nat, left: nat) returns (more: seq<Event>)
    requires Present(Run(sha, events), i) && DONE_AT_MOST <= left + DoneBy(Run(sha, events), i)
    ensures Ended(sha, Run(sha, events + more), i)
    decreases left
  {
    hide Run, Ended, Done, Finished;
    if Finished(Run(sha, events).slots[i].session) {
      FinishedHasEnded(sha, events, i);
      more := [];
      assert events + more == events;
    } else {
      var e := GoodEvent(sha, events, i);
      var rest := VisitCanFinish(sha, events + [e], i, left - 1);
      more := [e] + rest;
      assert events + more == (events + [e]) + rest;
    }
  }

  // The visits that arrive, in order, with what their servers will draw.
  datatype Arrival = Arrival(visit: Visit, port: int, random: string)

  function Arrivals(events: seq<Event>): seq<Arrival> {
    if events == [] then []
    else
      var most, last := events[..|events| - 1], events[|events| - 1];
      if last.Arrive? && last.visit.Valid() then Arrivals(most) + [Arrival(last.visit, last.port, last.random)]
      else Arrivals(most)
  }

  // A session is the visit that arrived, with what its own server drew.
  predicate IsArrival(a: Arrival, x: Session) {
    x.visit == a.visit && x.server.port == a.port && x.server.random == a.random
  }

  ghost predicate AreArrivals(arrivals: seq<Arrival>, slots: seq<Slot>) {
    |slots| == |arrivals| && forall i :: 0 <= i < |slots| ==> IsArrival(arrivals[i], slots[i].session)
  }

  lemma StillArrivals(arrivals: seq<Arrival>, slots: seq<Slot>, who: nat, slot: Slot)
    requires AreArrivals(arrivals, slots) && who < |slots| && IsArrival(arrivals[who], slot.session)
    ensures AreArrivals(arrivals, slots[who := slot])
  {
  }

  lemma StepIsArrival(sha: Sha, w: World, who: nat, move: Move, arrivals: seq<Arrival>)
    requires Sound(w) && Consistent(sha, w) && AreArrivals(arrivals, w.slots) && who < |w.slots|
    ensures IsArrival(arrivals[who], Step(sha, w.slots[who].session, move))
  {
    assert SlotRight(sha, w.inserts, w.slots[who], who) && IsArrival(arrivals[who], w.slots[who].session);
    StepKeepsDraw(sha, w.slots[who].session, move);
  }

  lemma MovedKeepsArrivals(sha: Sha, w: World, who: nat, move: Move, arrivals: seq<Arrival>)
    requires Sound(w) && Consistent(sha, w) && AreArrivals(arrivals, w.slots) && who < |w.slots|
    ensures AreArrivals(arrivals, Moved(sha, w, who, move).slots)
  {
    StepIsArrival(sha, w, who, move, arrivals);
    StillArrivals(arrivals, w.slots, who, w.slots[who].(session := Step(sha, w.slots[who].session, move)));
  }

  lemma AskedKeepsArrivals(sha: Sha, w: World, who: nat, arrivals: seq<Arrival>)
    requires Sound(w) && Consistent(sha, w) && AreArrivals(arrivals, w.slots) && AsksNow(w, who)
    ensures AreArrivals(arrivals, Asked(sha, w, who).slots)
  {
    var move := Answer(Stored(w.table, CString(w.slots[who].session.server.nameBuffer)));
    StepIsArrival(sha, w, who, move, arrivals);
    StillArrivals(arrivals, w.slots, who, Slot(Step(sha, w.slots[who].session, move), |w.inserts|));
  }

  lemma ApplyKeepsArrivals(sha: Sha, w: World, e: Event, arrivals: seq<Arrival>)
    requires Sound(w) && Consistent(sha, w) && AreArrivals(arrivals, w.slots) && !e.Arrive?
    ensures AreArrivals(arrivals, Apply(sha, w, e).slots)
  {
    match e
    case ClientOf(who) => if who < |w.slots| { MovedKeepsArrivals(sha, w, who, ClientMoves, arrivals); }
    case ServerOf(who) => if who < |w.slots| { MovedKeepsArrivals(sha, w, who, ServerMoves, arrivals); }
    case SecureOf(who) => if who < |w.slots| { MovedKeepsArrivals(sha, w, who, Secure, arrivals); }
    case AskOf(who) => if AsksNow(w, who) { AskedKeepsArrivals(sha, w, who, arrivals); }
  }

  // In every run the sessions are the visits that arrived, in order.
  lemma {:induction false} SessionsAreArrivals(sha: Sha, events: seq<Event>)
    ensures AreArrivals(Arrivals(events), Run(sha, events).slots)
  {
    if events != [] {
      var most, last := events[..|events| - 1], events[|events| - 1];
      SessionsAreArrivals(sha, most);
      RunConsistent(sha, most);
      if last.Arrive? {
        if last.visit.Valid() {
          var a := Arrival(last.visit, last.port, last.random);
          assert IsArrival(a, Opened(last.visit, last.port, last.random));
        }
      } else {
        ApplyKeepsArrivals(sha, Run(sha, most), last, Arrivals(most));
      }
    }
  }

  // ---------- Who gets a token ----------

  // Visit j is a sign-up for this name that the database has accepted.
  predicate Accepted(w: World, j: nat, name: string) {
    && j < |w.slots|
    && var x := w.slots[j].session;
      x.visit.signup && x.visit.name == name && Answered(x.server.pc) && x.server.row.None?
  }

  // Visit j is a sign-up for visit i's username, accepted before i put its question.
  predicate AcceptedBefore(w: World, i: nat, j: nat)
    requires i < |w.slots|
  {
    Accepted(w, j, w.slots[i].session.visit.name) && w.slots[j].at < w.slots[i].at
  }

  function HashOf(sha: Sha, w: World, i: nat): string
    requires i < |w.slots|
  {
    Hash(sha, w.slots[i].session.visit.password)
  }

  // The hash a visit found under its username is that of the sign-up accepted for it.
  lemma FoundIsAccepted(sha: Sha, w: World, i: nat) returns (j: nat)
    requires Consistent(sha, w) && i < |w.slots|
    requires Answered(w.slots[i].session.server.pc) && w.slots[i].session.server.row.Some?
    ensures AcceptedBefore(w, i, j) && w.slots[i].session.server.row == Some(HashOf(sha, w, j))
  {
    var slot := w.slots[i];
    var name, row := slot.session.visit.name, slot.session.server.row;
    assert SlotRight(sha, w.inserts, slot, i);
    var k :| 0 <= k < slot.at && w.inserts[k].name == name && w.inserts[k].hash == row.value
      && Unnamed(w.inserts, k, name);
    j := w.inserts[k].asker;
    assert RowRight(w, k);
    InsertOnRecord(sha, w, j);
  }

  lemma InsertOnRecord(sha: Sha, w: World, j: nat)
    requires Consistent(sha, w) && j < |w.slots|
    requires Answered(w.slots[j].session.server.pc) && w.slots[j].session.visit.signup
    ensures w.slots[j].at < |w.inserts|
    ensures w.inserts[w.slots[j].at] == Row(w.slots[j].session.visit.name, HashOf(sha, w, j), j)
    ensures w.slots[j].session.server.row.None? <==> Unnamed(w.inserts, w.slots[j].at, w.slots[j].session.visit.name)
  {
    assert SlotRight(sha, w.inserts, w.slots[j], j);
  }

  lemma AcceptedIsFound(sha: Sha, w: World, i: nat, j: nat)
    requires Consistent(sha, w) && i < |w.slots| && Answered(w.slots[i].session.server.pc)
    requires AcceptedBefore(w, i, j)
    ensures w.slots[i].session.server.row == Some(HashOf(sha, w, j))
  {
    assert SlotRight(sha, w.inserts, w.slots[i], i);
    InsertOnRecord(sha, w, j);
  }

  // No two sign-ups for one username are ever accepted.
  lemma OneAcceptedPerName(sha: Sha, events: seq<Event>, i: nat, j: nat, name: string)
    requires Accepted(Run(sha, events), i, name) && Accepted(Run(sha, events), j, name)
    ensures i == j
  {
    RunConsistent(sha, events);
    InsertOnRecord(sha, Run(sha, events), i);
    InsertOnRecord(sha, Run(sha, events), j);
  }

  // The client of visit i has finished, whether or not its server has.
  predicate Over(w: World, i: nat) {
    i < |w.slots| && ClientTurn(w.slots[i].session.client.pc).Stop?
  }

  // Two printed digests are equal exactly when the digests are.
  lemma HashesEqual(sha: Sha, a: string, b: string)
    ensures Hash(sha, a) == Hash(sha, b) <==> sha(a) == sha(b)
  {
    if Hash(sha, a) == Hash(sha, b) { Hex.PrintInjective(sha(a), sha(b)); }
  }

  function PasswordOf(w: World, i: nat): string
    requires i < |w.slots|
  {
    w.slots[i].session.visit.password
  }

  // A login client that has finished holds a token exactly when it got its connection and a
  // sign-up for its username had been accepted before its lookup, with a password of the same
  // digest.
  lemma TokenExactly(sha: Sha, events: seq<Event>, i: nat)
    requires Over(Run(sha, events), i) && !Run(sha, events).slots[i].session.visit.signup
    ensures var w := Run(sha, events);
      w.slots[i].session.client.pc.LoggedIn?
      <==> !CutOff(w.slots[i].session.client.pc)
           && exists j: nat :: AcceptedBefore(w, i, j) && sha(PasswordOf(w, j)) == sha(PasswordOf(w, i))
  {
    RunConsistent(sha, events);
    var w := Run(sha, events);
    assert SlotRight(sha, w.inserts, w.slots[i], i);
    if !CutOff(w.slots[i].session.client.pc) {
      ClientEndsByTheRow(sha, w.slots[i].session);
      if w.slots[i].session.client.pc.LoggedIn? {
        var j := FoundIsAccepted(sha, w, i);
        HashesEqual(sha, PasswordOf(w, j), PasswordOf(w, i));
      }
      if j: nat :| AcceptedBefore(w, i, j) && sha(PasswordOf(w, j)) == sha(PasswordOf(w, i)) {
        AcceptedIsFound(sha, w, i, j);
      }
    }
  }

  // And then the token is the printed digest of the string drawn for that very arrival.
  lemma TokenIsOwnDraw(sha: Sha, events: seq<Event>, i: nat)
    requires i < |Run(sha, events).slots| && Run(sha, events).slots[i].session.client.pc.LoggedIn?
    ensures i < |Arrivals(events)|
    ensures Run(sha, events).slots[i].session.client.buffer == Hex.Print(sha(CString(Arrivals(events)[i].random)))
  {
    RunConsistent(sha, events);
    SessionsAreArrivals(sha, events);
    var w := Run(sha, events);
    assert IsArrival(Arrivals(events)[i], w.slots[i].session);
    HeldToken(sha, w, i);
  }

  lemma HeldToken(sha: Sha, w: World, i: nat)
    requires Consistent(sha, w) && i < |w.slots| && w.slots[i].session.client.pc.LoggedIn?
    ensures var x := w.slots[i].session; x.client.buffer == Hex.Print(sha(CString(x.server.random)))
  {
    assert SlotRight(sha, w.inserts, w.slots[i], i);
    ClientEndsByTheRow(sha, w.slots[i].session);
  }

  // Two logins of one run hold equal tokens exactly when the strings drawn for them have equal
  // digests.
  lemma TokensEqualExactly(sha: Sha, events: seq<Event>, i: nat, j: nat)
    requires var slots := Run(sha, events).slots;
      && i < |slots| && slots[i].session.client.pc.LoggedIn?
      && j < |slots| && slots[j].session.client.pc.LoggedIn?
    ensures i < |Arrivals(events)| && j < |Arrivals(events)|
    ensures var slots, drawn := Run(sha, events).slots, Arrivals(events);
      slots[i].session.client.buffer == slots[j].session.client.buffer
      <==> sha(CString(drawn[i].random)) == sha(CString(drawn[j].random))
  {
    TokenIsOwnDraw(sha, events, i);
    TokenIsOwnDraw(sha, events, j);
    HashesEqual(sha, CString(Arrivals(events)[i].random), CString(Arrivals(events)[j].random));
  }

  // A sign-up client that has finished was accepted exactly when it got its connection and no
  // sign-up for its username had been accepted before.
  lemma SignupExactly(sha: Sha, events: seq<Event>, i: nat)
    requires Over(Run(sha, events), i) && Run(sha, events).slots[i].session.visit.signup
    ensures var w := Run(sha, events);
      w.slots[i].session.client.pc.SignedUp?
      <==> !CutOff(w.slots[i].session.client.pc) && !exists j: nat :: AcceptedBefore(w, i, j)
  {
    RunConsistent(sha, events);
    var w := Run(sha, events);
    assert SlotRight(sha, w.inserts, w.slots[i], i);
    if !CutOff(w.slots[i].session.client.pc) {
      ClientEndsByTheRow(sha, w.slots[i].session);
      if w.slots[i].session.server.row.Some? {
        var j := FoundIsAccepted(sha, w, i);
      }
      if j: nat :| AcceptedBefore(w, i, j) {
        AcceptedIsFound(sha, w, i, j);
      }
    }
  }
}
