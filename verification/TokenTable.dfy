/** The table of authorised users that the chat server and the match maker each keep:
    a map from usernames to tokens, and a queue of expiry records of which only the
    front is ever inspected. Both servers run the same code, so it is modelled once. */
module TokenTable {

  // How long a token lives, in microseconds.
  const LIFETIME: int := 300 * 1000000

  datatype Entry = Entry(user: string, expiry: int)

  datatype State = State(users: map<string, string>, queue: seq<Entry>)

  const EMPTY := State(map[], [])

  // One datagram, with the clock reading taken when it is processed.
  datatype Packet = Packet(user: string, token: string, now: int)

  datatype Event =
    | Receive(user: string, token: string, now: int)
    | Scrub(now: int)

  // ---------- What one step does to the table ----------

  // Inserting keeps a token that is already there; the expiry record is queued regardless.
  function Received(t: State, user: string, token: string, now: int): State {
    State(if user in t.users then t.users else t.users[user := token],
          t.queue + [Entry(user, now + LIFETIME)])
  }

  function ReceivedAll(t: State, packets: seq<Packet>): State {
    if packets == [] then t
    else
      var last := packets[|packets| - 1];
      Received(ReceivedAll(t, packets[..|packets| - 1]), last.user, last.token, last.now)
  }

  function Scrubbed(t: State, now: int): State
    decreases |t.queue|
  {
    if t.queue != [] && t.queue[0].expiry < now then
      Scrubbed(State(t.users - {t.queue[0].user}, t.queue[1..]), now)
    else
      t
  }

  function Apply(t: State, e: Event): State {
    match e
    case Receive(user, token, now) => Received(t, user, token, now)
    case Scrub(now) => Scrubbed(t, now)
  }

  // The table after a whole history of events, starting empty.
  function Run(events: seq<Event>): State {
    if events == [] then EMPTY
    else Apply(Run(events[..|events| - 1]), events[|events| - 1])
  }

  lemma RunLast(events: seq<Event>, last: Event)
    ensures Run(events + [last]) == Apply(Run(events), last)
  {
    assert (events + [last])[..|events|] == events;
  }

  // ---------- The table as the servers update it ----------

  class Table {
    var currentUsers: map<string, string>
    var expiry: seq<Entry>

    ghost function Value(): State
      reads this
    {
      State(currentUsers, expiry)
    }

    constructor ()
      ensures Value() == EMPTY
    {
      currentUsers := map[];
      expiry := [];
    }

    method ReceiveNew(packets: seq<Packet>)
      modifies this
      ensures Value() == ReceivedAll(old(Value()), packets)
    {
      for i := 0 to |packets|
        invariant Value() == ReceivedAll(old(Value()), packets[..i])
      {
        var p := packets[i];
        if p.user !in currentUsers {
          currentUsers := currentUsers[p.user := p.token];
        }
        expiry := expiry + [Entry(p.user, p.now + LIFETIME)];
        assert packets[..i + 1][..i] == packets[..i];
      }
      assert packets[..|packets|] == packets;
    }

    // The source reads the front of a possibly empty deque; the guard is made explicit here.
    method ScrubList(now: int)
      modifies this
      ensures Value() == Scrubbed(old(Value()), now)
    {
      while expiry != [] && expiry[0].expiry < now
        invariant Scrubbed(Value(), now) == Scrubbed(old(Value()), now)
        decreases |expiry|
      {
        var username := expiry[0].user;
        expiry := expiry[1..];
        currentUsers := currentUsers - {username};
      }
    }

    // The service loop, for a finite number of rounds: packets of a round, then the
    // clock reading of its scrub.
    method Update(rounds: seq<(seq<Packet>, int)>)
      requires Value() == EMPTY
      modifies this
      ensures Value() == Run(History(rounds))
      ensures ReadingsInOrder(rounds) ==> forall user :: AsRoundsSay(currentUsers, rounds, user)
    {
      for i := 0 to |rounds|
        invariant Value() == Run(History(rounds[..i]))
      {
        assert rounds[..i + 1][..i] == rounds[..i];
        RoundRun(History(rounds[..i]), rounds[i].0, rounds[i].1);
        ReceiveNew(rounds[i].0);
        ScrubList(rounds[i].1);
      }
      assert rounds[..|rounds|] == rounds;
      if ReadingsInOrder(rounds) {
        forall user ensures AsRoundsSay(currentUsers, rounds, user) { RoundsExactly(rounds, user); }
      }
    }
  }

  function ReceiveEvents(packets: seq<Packet>): seq<Event> {
    seq(|packets|, i requires 0 <= i < |packets| => Receive(packets[i].user, packets[i].token, packets[i].now))
  }

  function History(rounds: seq<(seq<Packet>, int)>): seq<Event> {
    if rounds == [] then []
    else
      var (packets, now) := rounds[|rounds| - 1];
      History(rounds[..|rounds| - 1]) + ReceiveEvents(packets) + [Scrub(now)]
  }

  lemma {:induction false} ReceiveRun(before: seq<Event>, packets: seq<Packet>)
    ensures Run(before + ReceiveEvents(packets)) == ReceivedAll(Run(before), packets)
  {
    if packets == [] {
      assert before + ReceiveEvents(packets) == before;
    } else {
      var n := |packets| - 1;
      var last := Receive(packets[n].user, packets[n].token, packets[n].now);
      ReceiveRun(before, packets[..n]);
      assert ReceiveEvents(packets) == ReceiveEvents(packets[..n]) + [last];
      assert before + ReceiveEvents(packets) == before + ReceiveEvents(packets[..n]) + [last];
      RunLast(before + ReceiveEvents(packets[..n]), last);
    }
  }

  lemma RoundRun(before: seq<Event>, packets: seq<Packet>, now: int)
    ensures Run(before + ReceiveEvents(packets) + [Scrub(now)])
         == Scrubbed(ReceivedAll(Run(before), packets), now)
  {
    var whole := before + ReceiveEvents(packets) + [Scrub(now)];
    assert whole[..|whole| - 1] == before + ReceiveEvents(packets);
    ReceiveRun(before, packets);
  }

  // ---------- Popping the front is a full filter ----------

  ghost predicate Sorted(q: seq<Entry>) {
    forall i, j :: 0 <= i < j < |q| ==> q[i].expiry <= q[j].expiry
  }

  // What a scrub that looked at every record would keep.
  function LiveOnly(q: seq<Entry>, now: int): seq<Entry> {
    if q == [] then []
    else if q[0].expiry < now then LiveOnly(q[1..], now)
    else [q[0]] + LiveOnly(q[1..], now)
  }

  ghost predicate HasExpired(q: seq<Entry>, user: string, now: int) {
    exists e :: e in q && e.user == user && e.expiry < now
  }

  ghost predicate HasLive(q: seq<Entry>, user: string, now: int) {
    exists e :: e in q && e.user == user && now <= e.expiry
  }

  lemma {:induction false} LiveOnlyAll(q: seq<Entry>, now: int)
    requires forall e :: e in q ==> now <= e.expiry
    ensures LiveOnly(q, now) == q
  {
    if q != [] {
      LiveOnlyAll(q[1..], now);
    }
  }

  lemma {:induction false} ScrubIsFilter(t: State, now: int)
    requires Sorted(t.queue)
    ensures Scrubbed(t, now).queue == LiveOnly(t.queue, now)
    ensures Sorted(Scrubbed(t, now).queue)
    ensures forall u :: u in Scrubbed(t, now).users
                   <==> u in t.users && !HasExpired(t.queue, u, now)
    ensures forall u :: u in Scrubbed(t, now).users ==> Scrubbed(t, now).users[u] == t.users[u]
    decreases |t.queue|
  {
    if t.queue != [] && t.queue[0].expiry < now {
      var next := State(t.users - {t.queue[0].user}, t.queue[1..]);
      ScrubIsFilter(next, now);
      forall u ensures HasExpired(t.queue, u, now)
                  <==> u == t.queue[0].user || HasExpired(next.queue, u, now)
      {
        assert t.queue == [t.queue[0]] + next.queue;
        assert t.queue[0] in t.queue;
      }
    } else {
      forall e | e in t.queue ensures now <= e.expiry {
        var i :| 0 <= i < |t.queue| && t.queue[i] == e;
      }
      LiveOnlyAll(t.queue, now);
    }
  }

  lemma {:induction false} LiveOnlyMembers(q: seq<Entry>, now: int, e: Entry)
    ensures e in LiveOnly(q, now) <==> e in q && now <= e.expiry
  {
    if q != [] {
      LiveOnlyMembers(q[1..], now, e);
      assert q == [q[0]] + q[1..];
    }
  }

  // ---------- Exactly when a scrub keeps everybody who still has a live record ----------

  // Every authorised user has a record.
  ghost predicate UsersRecorded(t: State) {
    forall u :: u in t.users ==> exists e :: e in t.queue && e.user == u
  }

  // And every record's user is authorised.
  ghost predicate Matched(t: State) {
    UsersRecorded(t) && forall e :: e in t.queue ==> e.user in t.users
  }

  // A user queued twice, once in the part that has expired and once in the part that has not.
  ghost predicate Straddles(t: State, now: int, user: string) {
    HasExpired(t.queue, user, now) && HasLive(t.queue, user, now)
  }

  lemma ScrubKeepsLive(t: State, now: int, e: Entry)
    requires Sorted(t.queue)
    ensures e in Scrubbed(t, now).queue <==> e in t.queue && now <= e.expiry
  {
    ScrubIsFilter(t, now);
    LiveOnlyMembers(t.queue, now, e);
  }

  // Whoever is authorised after a scrub has a live record.
  lemma ScrubLeavesLive(t: State, now: int)
    requires Sorted(t.queue) && UsersRecorded(t)
    ensures forall u :: u in Scrubbed(t, now).users ==> HasLive(Scrubbed(t, now).queue, u, now)
  {
    ScrubIsFilter(t, now);
    var s := Scrubbed(t, now);
    forall u | u in s.users ensures HasLive(s.queue, u, now) {
      var e :| e in t.queue && e.user == u;
      ScrubKeepsLive(t, now, e);
    }
  }

  // Every live record's user is authorised after a scrub if and only if each of them was
  // before and is not queued on both sides of the cut: the erasure is by username, so a stale
  // record takes the authorisation of a fresher one with it.
  lemma ScrubExact(t: State, now: int)
    requires Sorted(t.queue) && UsersRecorded(t)
    ensures Matched(Scrubbed(t, now))
       <==> forall u :: HasLive(t.queue, u, now) ==> u in t.users && !Straddles(t, now, u)
  {
    ScrubIsFilter(t, now);
    ScrubLeavesLive(t, now);
    var s := Scrubbed(t, now);
    if Matched(s) {
      forall u | HasLive(t.queue, u, now) ensures u in t.users && !Straddles(t, now, u) {
        var e :| e in t.queue && e.user == u && now <= e.expiry;
        ScrubKeepsLive(t, now, e);
      }
    }
    if forall u :: HasLive(t.queue, u, now) ==> u in t.users && !Straddles(t, now, u) {
      forall e | e in s.queue ensures e.user in s.users {
        ScrubKeepsLive(t, now, e);
        assert HasLive(t.queue, e.user, now);
      }
    }
  }

  // ---------- Whole histories ----------

  ghost predicate Monotone(events: seq<Event>) {
    forall i, j :: 0 <= i < j < |events| ==> events[i].now <= events[j].now
  }

  // The record queued by event i is still waiting after the scrubs before position `end`.
  ghost predicate Waiting(events: seq<Event>, i: int, end: int) {
    && 0 <= i < end <= |events| && events[i].Receive?
    && forall k :: i < k < end && events[k].Scrub? ==> events[k].now <= events[i].now + LIFETIME
  }

  // The scrub at position j pops a record of `user`.
  ghost predicate Evicts(events: seq<Event>, j: int, user: string) {
    && 0 <= j < |events| && events[j].Scrub?
    && exists i :: Waiting(events, i, j) && events[i].user == user
                && events[i].now + LIFETIME < events[j].now
  }

  // `user` was received at position i and no record of theirs was popped since.
  ghost predicate HoldsFrom(events: seq<Event>, user: string, i: int) {
    && 0 <= i < |events| && events[i].Receive? && events[i].user == user
    && forall j :: i < j < |events| ==> !Evicts(events, j, user)
  }

  ghost predicate Recorded(events: seq<Event>, e: Entry) {
    exists i :: Waiting(events, i, |events|) && events[i].user == e.user
             && events[i].now + LIFETIME == e.expiry
  }

  lemma {:induction false} RunSorted(events: seq<Event>)
    requires Monotone(events)
    ensures Sorted(Run(events).queue)
    ensures forall e :: e in Run(events).queue ==> events != [] && e.expiry <= events[|events| - 1].now + LIFETIME
  {
    if events != [] {
      var n := |events| - 1;
      var before := events[..n];
      RunSorted(before);
      match events[n]
      case Receive(u, tok, now) =>
        var q := Run(before).queue;
        forall i | 0 <= i < |q| ensures q[i].expiry <= now + LIFETIME { assert q[i] in q; }
      case Scrub(now) =>
        ScrubIsFilter(Run(before), now);
        forall e | e in Run(events).queue ensures e in Run(before).queue {
          LiveOnlyMembers(Run(before).queue, now, e);
        }
    }
  }

  // In every run every authorised user has a record, stale records or not.
  lemma {:induction false} RunUsersRecorded(events: seq<Event>)
    requires Monotone(events)
    ensures UsersRecorded(Run(events))
  {
    if events != [] {
      var n := |events| - 1;
      var before := Run(events[..n]);
      RunUsersRecorded(events[..n]);
      match events[n]
      case Receive(user, token, now) => ReceivedRecorded(before, user, token, now);
      case Scrub(now) =>
        RunSorted(events[..n]);
        ScrubLeavesLive(before, now);
    }
  }

  lemma ReceivedRecorded(t: State, user: string, token: string, now: int)
    requires UsersRecorded(t)
    ensures UsersRecorded(Received(t, user, token, now))
  {
    var r := Received(t, user, token, now);
    forall u | u in r.users ensures exists e :: e in r.queue && e.user == u {
      if u in t.users {
        var e :| e in t.queue && e.user == u;
        assert e in r.queue;
      } else {
        assert Entry(user, now + LIFETIME) in r.queue;
      }
    }
  }

  // So in every run whoever is authorised after a scrub has a live record.
  lemma AuthorisedAreLive(events: seq<Event>, user: string)
    requires Monotone(events) && events != [] && events[|events| - 1].Scrub?
    requires user in Run(events).users
    ensures HasLive(Run(events).queue, user, events[|events| - 1].now)
  {
    var n := |events| - 1;
    RunSorted(events[..n]);
    RunUsersRecorded(events[..n]);
    ScrubLeavesLive(Run(events[..n]), events[n].now);
  }

  // Which records are waiting after one more event, read off the history alone.
  lemma RecordedStep(events: seq<Event>, e: Entry)
    requires events != []
    ensures Recorded(events, e) <==>
              match events[|events| - 1]
              case Receive(u, _, now) => Recorded(events[..|events| - 1], e) || e == Entry(u, now + LIFETIME)
              case Scrub(now) => Recorded(events[..|events| - 1], e) && now <= e.expiry
  {
    var n := |events| - 1;
    var before := events[..n];
    if i :| Waiting(before, i, n) && before[i].user == e.user && before[i].now + LIFETIME == e.expiry {
      assert (events[n].Scrub? ==> events[n].now <= e.expiry) ==> Waiting(events, i, n + 1);
    }
    if events[n].Receive? && e == Entry(events[n].user, events[n].now + LIFETIME) {
      assert Waiting(events, n, n + 1);
    }
    if i :| Waiting(events, i, n + 1) && events[i].user == e.user && events[i].now + LIFETIME == e.expiry {
      assert i < n ==> Waiting(before, i, n);
    }
  }

  // The queue holds exactly the records that no scrub has found expired.
  lemma {:induction false} QueueContents(events: seq<Event>, e: Entry)
    requires Monotone(events)
    ensures e in Run(events).queue <==> Recorded(events, e)
  {
    if events != [] {
      var n := |events| - 1;
      var before := events[..n];
      QueueContents(before, e);
      RecordedStep(events, e);
      if events[n].Scrub? {
        RunSorted(before);
        ScrubIsFilter(Run(before), events[n].now);
        LiveOnlyMembers(Run(before).queue, events[n].now, e);
      }
    }
  }

  lemma EvictsIsExpiry(events: seq<Event>, user: string)
    requires Monotone(events) && events != [] && events[|events| - 1].Scrub?
    ensures Evicts(events, |events| - 1, user)
       <==> HasExpired(Run(events[..|events| - 1]).queue, user, events[|events| - 1].now)
  {
    var before := events[..|events| - 1];
    forall e ensures e in Run(before).queue <==> Recorded(before, e) {
      QueueContents(before, e);
    }
    EvictsRecorded(events, user);
  }

  lemma EvictsRecorded(events: seq<Event>, user: string)
    requires events != [] && events[|events| - 1].Scrub?
    ensures Evicts(events, |events| - 1, user)
       <==> exists e :: Recorded(events[..|events| - 1], e) && e.user == user && e.expiry < events[|events| - 1].now
  {
    var n := |events| - 1;
    var before := events[..n];
    if e :| Recorded(before, e) && e.user == user && e.expiry < events[n].now {
      var i :| Waiting(before, i, n) && before[i].user == e.user && before[i].now + LIFETIME == e.expiry;
      assert Waiting(events, i, n);
    }
    if i :| Waiting(events, i, n) && events[i].user == user && events[i].now + LIFETIME < events[n].now {
      assert Waiting(before, i, n);
      assert Recorded(before, Entry(user, events[i].now + LIFETIME));
    }
  }

  lemma EvictsPrefix(events: seq<Event>, n: nat, j: int, user: string)
    requires j < n <= |events|
    ensures Evicts(events, j, user) <==> Evicts(events[..n], j, user)
  {
    var before := events[..n];
    forall i ensures Waiting(events, i, j) <==> 0 <= j && Waiting(before, i, j) {}
  }

  lemma HoldsFromStep(events: seq<Event>, user: string, i: int)
    requires events != [] && i < |events| - 1
    ensures HoldsFrom(events, user, i)
       <==> HoldsFrom(events[..|events| - 1], user, i) && !Evicts(events, |events| - 1, user)
  {
    var n := |events| - 1;
    var before := events[..n];
    forall j | j < n ensures Evicts(events, j, user) <==> Evicts(before, j, user) {
      EvictsPrefix(events, n, j, user);
    }
    if HoldsFrom(before, user, i) && !Evicts(events, n, user) {
      forall j | i < j < |events| ensures !Evicts(events, j, user) {
        if j < n { assert !Evicts(before, j, user); }
      }
    }
    if HoldsFrom(events, user, i) {
      forall j | i < j < n ensures !Evicts(before, j, user) {
        assert !Evicts(events, j, user);
      }
    }
  }

  ghost predicate HoldsFirst(events: seq<Event>, user: string, i: int) {
    HoldsFrom(events, user, i) && forall k :: 0 <= k < i ==> !HoldsFrom(events, user, k)
  }

  // The table says of a user what the history does.
  ghost predicate AuthorisedByHistory(events: seq<Event>, user: string) {
    && (user in Run(events).users <==> Holds(events, user))
    && (user in Run(events).users ==>
         exists i :: HoldsFirst(events, user, i) && Run(events).users[user] == events[i].token)
  }

  lemma HoldsFromLast(events: seq<Event>, user: string)
    requires events != []
    ensures HoldsFrom(events, user, |events| - 1)
       <==> events[|events| - 1].Receive? && events[|events| - 1].user == user
  {
  }

  lemma HoldsFirstStep(events: seq<Event>, user: string, i: int)
    requires events != [] && i < |events| - 1
    requires HoldsFirst(events[..|events| - 1], user, i) && !Evicts(events, |events| - 1, user)
    ensures HoldsFirst(events, user, i)
  {
    HoldsFromStep(events, user, i);
    forall k | 0 <= k < i ensures !HoldsFrom(events, user, k) {
      HoldsFromStep(events, user, k);
      assert !HoldsFrom(events[..|events| - 1], user, k);
    }
  }

  ghost predicate Holds(events: seq<Event>, user: string) {
    exists i :: HoldsFrom(events, user, i)
  }

  // Who holds after one more event: those who held before it and are not evicted, and the
  // user who is received.
  lemma HoldsStep(events: seq<Event>, user: string)
    requires events != []
    ensures Holds(events, user)
       <==> HoldsFrom(events, user, |events| - 1)
            || (Holds(events[..|events| - 1], user) && !Evicts(events, |events| - 1, user))
  {
    var n := |events| - 1;
    if i :| HoldsFrom(events, user, i) {
      if i < n { HoldsFromStep(events, user, i); }
    }
    if i :| HoldsFrom(events[..n], user, i) {
      HoldsFromStep(events, user, i);
    }
  }

  lemma AuthorisedReceive(events: seq<Event>, user: string)
    requires events != [] && events[|events| - 1].Receive?
    requires AuthorisedByHistory(events[..|events| - 1], user)
    ensures AuthorisedByHistory(events, user)
  {
    var n := |events| - 1;
    var before := events[..n];
    HoldsFromLast(events, user);
    HoldsStep(events, user);
    if user in Run(before).users {
      var i :| HoldsFirst(before, user, i) && Run(before).users[user] == before[i].token;
      HoldsFirstStep(events, user, i);
      assert HoldsFirst(events, user, i) && Run(events).users[user] == events[i].token;
    } else if user in Run(events).users {
      forall k | 0 <= k < n ensures !HoldsFrom(events, user, k) {
        HoldsFromStep(events, user, k);
      }
      assert HoldsFirst(events, user, n);
    }
  }

  lemma AuthorisedScrub(events: seq<Event>, user: string)
    requires Monotone(events) && events != [] && events[|events| - 1].Scrub?
    requires AuthorisedByHistory(events[..|events| - 1], user)
    ensures AuthorisedByHistory(events, user)
  {
    var n := |events| - 1;
    var before := events[..n];
    RunSorted(before);
    ScrubIsFilter(Run(before), events[n].now);
    EvictsIsExpiry(events, user);
    HoldsFromLast(events, user);
    HoldsStep(events, user);
    if user in Run(events).users {
      var i :| HoldsFirst(before, user, i) && Run(before).users[user] == before[i].token;
      HoldsFirstStep(events, user, i);
      assert HoldsFirst(events, user, i) && Run(events).users[user] == events[i].token;
    }
  }

  // A user is authorised if and only if they were received since the last time one of their
  // records was popped, and the token kept is the one that came with the earliest such
  // receipt. No uniqueness of queued usernames is needed.
  lemma {:induction false} AuthorisedExactly(events: seq<Event>, user: string)
    requires Monotone(events)
    ensures user in Run(events).users <==> exists i :: HoldsFrom(events, user, i)
    ensures user in Run(events).users ==>
              exists i :: HoldsFirst(events, user, i) && Run(events).users[user] == events[i].token
  {
    if events != [] {
      AuthorisedExactly(events[..|events| - 1], user);
      if events[|events| - 1].Receive? {
        AuthorisedReceive(events, user);
      } else {
        AuthorisedScrub(events, user);
      }
    }
  }

  // ---------- The timed map the table is meant to be ----------

  // Received at most LIFETIME before `now`.
  ghost predicate Fresh(events: seq<Event>, user: string, now: int) {
    exists i :: 0 <= i < |events| && events[i].Receive? && events[i].user == user
             && now <= events[i].now + LIFETIME
  }

  // No scrub of the history meets a user who straddles its cut.
  ghost predicate NeverStraddles(events: seq<Event>) {
    forall n, u :: 0 <= n < |events| && events[n].Scrub? ==> !Straddles(Run(events[..n]), events[n].now, u)
  }

  lemma {:induction false} RunMatched(events: seq<Event>)
    requires Monotone(events) && NeverStraddles(events)
    ensures Matched(Run(events))
  {
    if events != [] {
      var n := |events| - 1;
      var before := events[..n];
      assert NeverStraddles(before) by {
        forall m, u | 0 <= m < |before| && before[m].Scrub? ensures !Straddles(Run(before[..m]), before[m].now, u) {
          assert before[..m] == events[..m];
          assert events[m].Scrub?;
        }
      }
      RunMatched(before);
      RunSorted(before);
      match events[n]
      case Receive(user, token, now) => ReceivedRecorded(Run(before), user, token, now);
      case Scrub(now) =>
        ScrubExact(Run(before), now);
        forall u | HasLive(Run(before).queue, u, now)
          ensures u in Run(before).users && !Straddles(Run(before), now, u)
        {
          assert events[n].Scrub? && before == events[..n];
        }
    }
  }

  lemma FreshIsRecorded(events: seq<Event>, user: string)
    requires Monotone(events) && events != [] && events[|events| - 1].Scrub?
    ensures Fresh(events, user, events[|events| - 1].now)
       <==> exists e :: e in Run(events).queue && e.user == user
  {
    forall e ensures e in Run(events).queue <==> Recorded(events, e) {
      QueueContents(events, e);
    }
    RecordedIsFresh(events, user);
  }

  lemma RecordedIsFresh(events: seq<Event>, user: string)
    requires Monotone(events) && events != [] && events[|events| - 1].Scrub?
    ensures Fresh(events, user, events[|events| - 1].now)
       <==> exists e :: Recorded(events, e) && e.user == user
  {
    var n := |events| - 1;
    if e :| Recorded(events, e) && e.user == user {
      var i :| Waiting(events, i, n + 1) && events[i].user == user && events[i].now + LIFETIME == e.expiry;
      assert events[n].now <= events[i].now + LIFETIME;
    }
    if i :| 0 <= i < |events| && events[i].Receive? && events[i].user == user
            && events[n].now <= events[i].now + LIFETIME
    {
      assert Waiting(events, i, n + 1);
      assert Recorded(events, Entry(user, events[i].now + LIFETIME));
    }
  }

  // A scrub runs out of records, and the source then looks at the front of an empty queue, if
  // and only if it finds no live record.
  lemma ScrubRunsOut(t: State, now: int)
    requires Sorted(t.queue)
    ensures Scrubbed(t, now).queue == [] <==> forall e :: e in t.queue ==> e.expiry < now
  {
    forall e ensures e in Scrubbed(t, now).queue <==> e in t.queue && now <= e.expiry {
      ScrubKeepsLive(t, now, e);
    }
    if Scrubbed(t, now).queue != [] { assert Scrubbed(t, now).queue[0] in Scrubbed(t, now).queue; }
  }

  // Over whole histories: if and only if nobody at all has been received within the lifetime.
  lemma ScrubRunsOutExactly(events: seq<Event>, now: int)
    requires Monotone(events) && events != [] && events[|events| - 1] == Scrub(now)
    ensures Run(events).queue == [] <==> forall user :: !Fresh(events, user, now)
  {
    forall user ensures Fresh(events, user, now) <==> exists e :: e in Run(events).queue && e.user == user {
      FreshIsRecorded(events, user);
    }
    if Run(events).queue != [] {
      var e := Run(events).queue[0];
      assert e in Run(events).queue && Fresh(events, e.user, now);
    }
  }

  // After a scrub, the authorised users are exactly those received within the lifetime,
  // whenever no scrub ever met a straddling user.
  lemma RefinesTimedMap(events: seq<Event>, user: string)
    requires Monotone(events) && NeverStraddles(events)
    requires events != [] && events[|events| - 1].Scrub?
    ensures user in Run(events).users <==> Fresh(events, user, events[|events| - 1].now)
  {
    RunMatched(events);
    FreshIsRecorded(events, user);
  }

  // After the scrub at position n, authorised means fresh.
  ghost predicate RefinesAt(events: seq<Event>, n: int, user: string) {
    0 <= n < |events| && events[n].Scrub? ==>
      (user in Run(events[..n + 1]).users <==> Fresh(events[..n + 1], user, events[n].now))
  }

  lemma StraddleBreaks(events: seq<Event>, n: nat, user: string)
    requires Monotone(events) && n < |events| && events[n].Scrub?
    requires Straddles(Run(events[..n]), events[n].now, user)
    ensures !RefinesAt(events, n, user)
  {
    var before, upto, now := events[..n], events[..n + 1], events[n].now;
    assert upto[..n] == before;
    RunSorted(before);
    ScrubIsFilter(Run(before), now);
    var e :| e in Run(before).queue && e.user == user && now <= e.expiry;
    LiveOnlyMembers(Run(before).queue, now, e);
    FreshIsRecorded(upto, user);
  }

  lemma NoStraddleRefines(events: seq<Event>, n: nat, user: string)
    requires Monotone(events) && NeverStraddles(events) && n < |events| && events[n].Scrub?
    ensures RefinesAt(events, n, user)
  {
    var upto := events[..n + 1];
    forall m, w | 0 <= m < |upto| && upto[m].Scrub? ensures !Straddles(Run(upto[..m]), upto[m].now, w) {
      assert upto[..m] == events[..m] && events[m].Scrub?;
    }
    RefinesTimedMap(upto, user);
  }

  // The condition is exact: the table is the timed map throughout a history if and only if
  // no scrub of that history meets a straddling user.
  lemma RefinesExactly(events: seq<Event>)
    requires Monotone(events)
    ensures (forall n, u :: RefinesAt(events, n, u)) <==> NeverStraddles(events)
  {
    if NeverStraddles(events) {
      forall n, u ensures RefinesAt(events, n, u) {
        if 0 <= n < |events| && events[n].Scrub? { NoStraddleRefines(events, n, u); }
      }
    }
    if forall n, u :: RefinesAt(events, n, u) {
      forall n, u | 0 <= n < |events| && events[n].Scrub? ensures !Straddles(Run(events[..n]), events[n].now, u) {
        assert RefinesAt(events, n, u);
        if Straddles(Run(events[..n]), events[n].now, u) {
          StraddleBreaks(events, n, u);
        }
      }
    }
  }

  // Without that condition the refinement fails: a user refreshed at 200 s is dropped by a
  // scrub just after 300 s because of the record queued at 0 s.
  lemma StaleRecordEvicts()
    ensures exists events: seq<Event>, user: string :: Monotone(events) && |events| == 3 && events[2].Scrub?
              && Fresh(events, user, events[2].now) && user !in Run(events).users
  {
    var a, b, s := Receive("u", "t", 0), Receive("u", "t", 200 * 1000000), Scrub(LIFETIME + 1);
    var events := [a, b, s];
    assert events[..2] == [a, b] && [a, b][..1] == [a] && [a][..0] == [];
    assert Run([a]) == Apply(EMPTY, a);
    var t := Run([a, b]);
    assert t.queue == [Entry("u", LIFETIME), Entry("u", 200 * 1000000 + LIFETIME)];
    RunSorted([a, b]);
    ScrubIsFilter(t, s.now);
    assert t.queue[0] in t.queue && HasExpired(t.queue, "u", s.now);
    assert Run(events) == Scrubbed(t, s.now);
    assert Fresh(events, "u", s.now) by { assert events[1].Receive?; }
    assert Monotone(events);
  }

  // ---------- What the service loop leaves, read off its rounds ----------

  // Readings in the order in which the loop takes them: each packet's, then the scrub's.
  ghost predicate ReadingsInOrder(rounds: seq<(seq<Packet>, int)>) {
    && (forall r, k, l :: 0 <= r < |rounds| && 0 <= k < l < |rounds[r].0| ==> rounds[r].0[k].now <= rounds[r].0[l].now)
    && (forall r, q, k :: 0 <= r <= q < |rounds| && 0 <= k < |rounds[r].0| ==> rounds[r].0[k].now <= rounds[q].1)
    && (forall r, q, k :: 0 <= r < q < |rounds| && 0 <= k < |rounds[q].0| ==> rounds[r].1 <= rounds[q].0[k].now)
    && (forall r, q :: 0 <= r < q < |rounds| ==> rounds[r].1 <= rounds[q].1)
  }

  // Packet k of round r is this user's.
  predicate CameIn(rounds: seq<(seq<Packet>, int)>, r: int, k: int, user: string) {
    0 <= r < |rounds| && 0 <= k < |rounds[r].0| && rounds[r].0[k].user == user
  }

  // Its 300 seconds are not over at the scrub of any round from r up to but not including q.
  ghost predicate NotOverBefore(rounds: seq<(seq<Packet>, int)>, r: int, k: int, q: int)
    requires 0 <= r < |rounds| && 0 <= k < |rounds[r].0|
  {
    forall m :: r <= m < q && m < |rounds| ==> rounds[m].1 <= rounds[r].0[k].now + 300_000_000
  }

  // The scrub of round q is the first to find the record of packet k of round r expired.
  ghost predicate PoppedBy(rounds: seq<(seq<Packet>, int)>, q: int, r: int, k: int, user: string) {
    && CameIn(rounds, r, k, user) && r <= q < |rounds|
    && rounds[r].0[k].now + 300_000_000 < rounds[q].1 && NotOverBefore(rounds, r, k, q)
  }

  ghost predicate PoppedAt(rounds: seq<(seq<Packet>, int)>, q: int, user: string) {
    exists r, k :: PoppedBy(rounds, q, r, k, user)
  }

  // This user's packet k of round r came in, and no record of theirs was popped from then on.
  ghost predicate HoldsSince(rounds: seq<(seq<Packet>, int)>, r: int, k: int, user: string) {
    CameIn(rounds, r, k, user) && forall q :: r <= q < |rounds| ==> !PoppedAt(rounds, q, user)
  }

  ghost predicate NothingEarlier(rounds: seq<(seq<Packet>, int)>, r: int, k: int, user: string) {
    forall s, l :: (s < r || (s == r && l < k)) ==> !HoldsSince(rounds, s, l, user)
  }

  ghost predicate HeldByRounds(rounds: seq<(seq<Packet>, int)>, user: string) {
    exists r, k :: HoldsSince(rounds, r, k, user)
  }

  // The user's token is the one of the earliest packet that holds.
  ghost predicate HeldWith(rounds: seq<(seq<Packet>, int)>, user: string, token: string) {
    exists r, k :: HoldsSince(rounds, r, k, user) && NothingEarlier(rounds, r, k, user) && rounds[r].0[k].token == token
  }

  // What the table says and what the rounds say.
  ghost predicate AsRoundsSay(users: map<string, string>, rounds: seq<(seq<Packet>, int)>, user: string) {
    && (user in users <==> HeldByRounds(rounds, user))
    && (user in users ==> HeldWith(rounds, user, users[user]))
  }

  // A record still waiting after all the rounds.
  ghost predicate StillWaiting(rounds: seq<(seq<Packet>, int)>, r: int, k: int, e: Entry) {
    && CameIn(rounds, r, k, e.user) && e.expiry == rounds[r].0[k].now + 300_000_000
    && NotOverBefore(rounds, r, k, |rounds|)
  }

  ghost predicate WaitsAfter(rounds: seq<(seq<Packet>, int)>, e: Entry) {
    exists r, k :: StillWaiting(rounds, r, k, e)
  }

  function Entries(packets: seq<Packet>): (q: seq<Entry>)
    ensures |q| == |packets|
  {
    seq(|packets|, k requires 0 <= k < |packets| => Entry(packets[k].user, packets[k].now + 300_000_000))
  }

  ghost predicate FirstOf(packets: seq<Packet>, user: string, k: int) {
    0 <= k < |packets| && packets[k].user == user && forall l :: 0 <= l < k ==> packets[l].user != user
  }

  // What a number of packets adds: their records, and the users who were not there before,
  // each with the token of their first packet.
  lemma {:induction false} ReceivedAllExactly(t: State, packets: seq<Packet>, user: string)
    ensures ReceivedAll(t, packets).queue == t.queue + Entries(packets)
    ensures user in t.users ==>
              user in ReceivedAll(t, packets).users && ReceivedAll(t, packets).users[user] == t.users[user]
    ensures user !in t.users ==>
              (user in ReceivedAll(t, packets).users <==> exists k :: FirstOf(packets, user, k))
    ensures user !in t.users ==>
              forall k :: FirstOf(packets, user, k) ==> ReceivedAll(t, packets).users[user] == packets[k].token
  {
    if packets == [] {
      assert t.queue + Entries(packets) == t.queue;
    } else {
      var n := |packets| - 1;
      var most, last := packets[..n], packets[n];
      ReceivedAllExactly(t, most, user);
      assert Entries(packets) == Entries(most) + [Entry(last.user, last.now + 300_000_000)];
      assert t.queue + Entries(packets) == (t.queue + Entries(most)) + [Entry(last.user, last.now + 300_000_000)];
      forall k ensures k < n ==> (FirstOf(packets, user, k) <==> FirstOf(most, user, k)) {}
      if k :| FirstOf(most, user, k) {
        assert !FirstOf(packets, user, n);
      } else {
        NobodyFirst(most, user);
        assert FirstOf(packets, user, n) <==> last.user == user;
      }
    }
  }

  lemma {:induction false} NobodyFirst(packets: seq<Packet>, user: string)
    requires forall k :: !FirstOf(packets, user, k)
    ensures forall l :: 0 <= l < |packets| ==> packets[l].user != user
  {
    if packets != [] {
      var n := |packets| - 1;
      forall k ensures !FirstOf(packets[..n], user, k) {
        assert !FirstOf(packets, user, k);
      }
      NobodyFirst(packets[..n], user);
      forall l | 0 <= l < n ensures packets[l].user != user { assert packets[..n][l] == packets[l]; }
      assert !FirstOf(packets, user, n);
    }
  }

  function Before(rounds: seq<(seq<Packet>, int)>): State
    requires rounds != []
  {
    ReceivedAll(Run(History(rounds[..|rounds| - 1])), rounds[|rounds| - 1].0)
  }

  lemma LastRound(rounds: seq<(seq<Packet>, int)>)
    requires rounds != []
    ensures Run(History(rounds)) == Scrubbed(Before(rounds), rounds[|rounds| - 1].1)
  {
    var (packets, now) := rounds[|rounds| - 1];
    RoundRun(History(rounds[..|rounds| - 1]), packets, now);
  }

  lemma CameInPrefix(rounds: seq<(seq<Packet>, int)>, r: int, k: int, q: int, user: string)
    requires rounds != [] && r < |rounds| - 1 && q <= |rounds| - 1
    ensures CameIn(rounds, r, k, user) <==> CameIn(rounds[..|rounds| - 1], r, k, user)
    ensures CameIn(rounds, r, k, user) ==>
              (NotOverBefore(rounds, r, k, q) <==> NotOverBefore(rounds[..|rounds| - 1], r, k, q))
  {
    var most := rounds[..|rounds| - 1];
    if CameIn(rounds, r, k, user) && NotOverBefore(most, r, k, q) {
      forall m | r <= m < q && m < |rounds| ensures rounds[m].1 <= rounds[r].0[k].now + 300_000_000 {
        assert rounds[m] == most[m];
      }
    }
  }

  lemma PoppedPrefix(rounds: seq<(seq<Packet>, int)>, q: int, user: string)
    requires rounds != [] && q < |rounds| - 1
    ensures PoppedAt(rounds, q, user) <==> PoppedAt(rounds[..|rounds| - 1], q, user)
  {
    var most := rounds[..|rounds| - 1];
    forall r, k ensures PoppedBy(rounds, q, r, k, user) <==> PoppedBy(most, q, r, k, user) {
      if r <= q { CameInPrefix(rounds, r, k, q, user); }
    }
  }

  lemma WaitsStep(rounds: seq<(seq<Packet>, int)>, e: Entry)
    requires rounds != []
    ensures WaitsAfter(rounds, e)
       <==> (WaitsAfter(rounds[..|rounds| - 1], e) || e in Entries(rounds[|rounds| - 1].0))
            && rounds[|rounds| - 1].1 <= e.expiry
  {
    var n := |rounds| - 1;
    var most, packets := rounds[..n], rounds[n].0;
    if r, k :| StillWaiting(rounds, r, k, e) {
      assert NotOverBefore(rounds, r, k, n + 1);
      if r < n {
        CameInPrefix(rounds, r, k, n, e.user);
        assert StillWaiting(most, r, k, e);
      } else {
        assert Entries(packets)[k] == e;
      }
    }
    if rounds[n].1 <= e.expiry {
      if r, k :| StillWaiting(most, r, k, e) {
        CameInPrefix(rounds, r, k, n, e.user);
        assert StillWaiting(rounds, r, k, e);
      }
      if k :| 0 <= k < |packets| && Entries(packets)[k] == e {
        assert StillWaiting(rounds, n, k, e);
      }
    }
  }

  lemma InOrderPrefix(rounds: seq<(seq<Packet>, int)>)
    requires rounds != [] && ReadingsInOrder(rounds)
    ensures ReadingsInOrder(rounds[..|rounds| - 1])
  {
  }

  // A record that waits from earlier rounds is not younger than those of the last.
  lemma WaitingIsOlder(rounds: seq<(seq<Packet>, int)>, e: Entry, l: int)
    requires rounds != [] && ReadingsInOrder(rounds) && WaitsAfter(rounds[..|rounds| - 1], e)
    requires 0 <= l < |rounds[|rounds| - 1].0|
    ensures e.expiry <= rounds[|rounds| - 1].0[l].now + 300_000_000
  {
    var n := |rounds| - 1;
    var r, k :| StillWaiting(rounds[..n], r, k, e);
    assert rounds[..n][r] == rounds[r];
    assert rounds[r].0[k].now <= rounds[r].1 <= rounds[n].0[l].now;
  }

  // The records that are still waiting, in order.
  ghost predicate HoldsWaiting(q: seq<Entry>, rounds: seq<(seq<Packet>, int)>) {
    Sorted(q) && forall e :: e in q <==> WaitsAfter(rounds, e)
  }

  lemma {:induction false} RoundsQueue(rounds: seq<(seq<Packet>, int)>)
    requires ReadingsInOrder(rounds)
    ensures HoldsWaiting(Run(History(rounds)).queue, rounds)
  {
    if rounds != [] {
      InOrderPrefix(rounds);
      RoundsQueue(rounds[..|rounds| - 1]);
      BeforeSorted(rounds);
      LastRound(rounds);
      ScrubIsFilter(Before(rounds), rounds[|rounds| - 1].1);
      forall e ensures e in Run(History(rounds)).queue <==> WaitsAfter(rounds, e) {
        ScrubKeepsLive(Before(rounds), rounds[|rounds| - 1].1, e);
        BeforeMembers(rounds, e);
        WaitsStep(rounds, e);
      }
    } else {
      forall e ensures !WaitsAfter(rounds, e) {}
    }
  }

  lemma BeforeSorted(rounds: seq<(seq<Packet>, int)>)
    requires rounds != [] && ReadingsInOrder(rounds)
    requires HoldsWaiting(Run(History(rounds[..|rounds| - 1])).queue, rounds[..|rounds| - 1])
    ensures Sorted(Before(rounds).queue)
  {
    var n := |rounds| - 1;
    var queued, packets := Run(History(rounds[..n])).queue, rounds[n].0;
    ReceivedAllExactly(Run(History(rounds[..n])), packets, "");
    forall i, j | 0 <= i < j < |Before(rounds).queue|
      ensures Before(rounds).queue[i].expiry <= Before(rounds).queue[j].expiry
    {
      if i < |queued| <= j {
        assert queued[i] in queued;
        WaitingIsOlder(rounds, queued[i], j - |queued|);
      } else if |queued| <= i {
        assert packets[i - |queued|].now <= packets[j - |queued|].now;
      }
    }
  }

  lemma BeforeMembers(rounds: seq<(seq<Packet>, int)>, e: Entry)
    requires rounds != []
    ensures e in Before(rounds).queue
       <==> e in Run(History(rounds[..|rounds| - 1])).queue || e in Entries(rounds[|rounds| - 1].0)
  {
    ReceivedAllExactly(Run(History(rounds[..|rounds| - 1])), rounds[|rounds| - 1].0, "");
  }

  lemma PoppedHasExpired(rounds: seq<(seq<Packet>, int)>, r: int, k: int, user: string)
    requires rounds != [] && PoppedBy(rounds, |rounds| - 1, r, k, user)
    requires HoldsWaiting(Run(History(rounds[..|rounds| - 1])).queue, rounds[..|rounds| - 1])
    ensures HasExpired(Before(rounds).queue, user, rounds[|rounds| - 1].1)
  {
    var n := |rounds| - 1;
    var e := Entry(user, rounds[r].0[k].now + 300_000_000);
    if r < n {
      CameInPrefix(rounds, r, k, n, user);
      assert StillWaiting(rounds[..n], r, k, e);
    } else {
      assert Entries(rounds[n].0)[k] == e;
    }
    BeforeMembers(rounds, e);
  }

  lemma ExpiredIsPopped(rounds: seq<(seq<Packet>, int)>, e: Entry)
    requires rounds != [] && e in Before(rounds).queue && e.expiry < rounds[|rounds| - 1].1
    requires HoldsWaiting(Run(History(rounds[..|rounds| - 1])).queue, rounds[..|rounds| - 1])
    ensures PoppedAt(rounds, |rounds| - 1, e.user)
  {
    var n := |rounds| - 1;
    BeforeMembers(rounds, e);
    if r, k :| StillWaiting(rounds[..n], r, k, e) {
      CameInPrefix(rounds, r, k, n, e.user);
      assert PoppedBy(rounds, n, r, k, e.user);
    } else {
      var k :| 0 <= k < |rounds[n].0| && Entries(rounds[n].0)[k] == e;
      assert PoppedBy(rounds, n, n, k, e.user);
    }
  }

  // The scrub of the last round pops a record of exactly the users who have an expired one.
  lemma PoppedLast(rounds: seq<(seq<Packet>, int)>, user: string)
    requires rounds != [] && ReadingsInOrder(rounds)
    ensures PoppedAt(rounds, |rounds| - 1, user) <==> HasExpired(Before(rounds).queue, user, rounds[|rounds| - 1].1)
  {
    var n := |rounds| - 1;
    InOrderPrefix(rounds);
    RoundsQueue(rounds[..n]);
    if r, k :| PoppedBy(rounds, n, r, k, user) {
      PoppedHasExpired(rounds, r, k, user);
    }
    if e :| e in Before(rounds).queue && e.user == user && e.expiry < rounds[n].1 {
      ExpiredIsPopped(rounds, e);
    }
  }

  lemma HoldsPrefix(rounds: seq<(seq<Packet>, int)>, r: int, k: int, user: string)
    requires rounds != [] && r < |rounds| - 1
    ensures HoldsSince(rounds, r, k, user)
       <==> HoldsSince(rounds[..|rounds| - 1], r, k, user) && !PoppedAt(rounds, |rounds| - 1, user)
  {
    var n := |rounds| - 1;
    CameInPrefix(rounds, r, k, 0, user);
    forall q | q < n ensures PoppedAt(rounds, q, user) <==> PoppedAt(rounds[..n], q, user) {
      PoppedPrefix(rounds, q, user);
    }
  }

  // In the last round a user who is popped holds nothing.
  lemma NobodyHoldsPopped(rounds: seq<(seq<Packet>, int)>, user: string)
    requires rounds != [] && PoppedAt(rounds, |rounds| - 1, user)
    ensures !HeldByRounds(rounds, user)
  {
    forall r, k ensures !HoldsSince(rounds, r, k, user) {}
  }

  lemma HeldFromBefore(rounds: seq<(seq<Packet>, int)>, user: string, token: string)
    requires rounds != [] && !PoppedAt(rounds, |rounds| - 1, user)
    requires HeldWith(rounds[..|rounds| - 1], user, token)
    ensures HeldWith(rounds, user, token)
  {
    var most := rounds[..|rounds| - 1];
    var r, k :| HoldsSince(most, r, k, user) && NothingEarlier(most, r, k, user) && most[r].0[k].token == token;
    HoldsPrefix(rounds, r, k, user);
    forall s, l | s < r || (s == r && l < k) ensures !HoldsSince(rounds, s, l, user) {
      HoldsPrefix(rounds, s, l, user);
      assert !HoldsSince(most, s, l, user);
    }
    assert NothingEarlier(rounds, r, k, user);
  }

  lemma HeldFromLast(rounds: seq<(seq<Packet>, int)>, user: string, k: int)
    requires rounds != [] && !PoppedAt(rounds, |rounds| - 1, user)
    requires !HeldByRounds(rounds[..|rounds| - 1], user) && FirstOf(rounds[|rounds| - 1].0, user, k)
    ensures HeldWith(rounds, user, rounds[|rounds| - 1].0[k].token)
  {
    var n := |rounds| - 1;
    assert HoldsSince(rounds, n, k, user);
    forall s, l | s < n || (s == n && l < k) ensures !HoldsSince(rounds, s, l, user) {
      if s < n {
        HoldsPrefix(rounds, s, l, user);
        assert !HoldsSince(rounds[..n], s, l, user);
      }
    }
    assert NothingEarlier(rounds, n, k, user);
  }

  lemma NotHeldAtAll(rounds: seq<(seq<Packet>, int)>, user: string)
    requires rounds != [] && !HeldByRounds(rounds[..|rounds| - 1], user)
    requires forall p :: p in rounds[|rounds| - 1].0 ==> p.user != user
    ensures !HeldByRounds(rounds, user)
  {
    var n := |rounds| - 1;
    forall r, k ensures !HoldsSince(rounds, r, k, user) {
      if r < n {
        HoldsPrefix(rounds, r, k, user);
        assert !HoldsSince(rounds[..n], r, k, user);
      }
    }
  }

  lemma HeldWithIsHeld(rounds: seq<(seq<Packet>, int)>, user: string, token: string)
    requires HeldWith(rounds, user, token)
    ensures HeldByRounds(rounds, user)
  {
  }

  // After any rounds of the service loop, with readings that do not go back: a user is authorised
  // if and only if a packet of theirs came in, in some round, and neither the scrub of that round
  // nor that of a later one popped a record of theirs; and the token is that of the earliest such
  // packet.
  lemma {:induction false} RoundsExactly(rounds: seq<(seq<Packet>, int)>, user: string)
    requires ReadingsInOrder(rounds)
    ensures AsRoundsSay(Run(History(rounds)).users, rounds, user)
  {
    if rounds == [] {
      forall r, k ensures !HoldsSince(rounds, r, k, user) {}
    } else {
      var n := |rounds| - 1;
      var most, b := Run(History(rounds[..n])), Before(rounds);
      InOrderPrefix(rounds);
      RoundsExactly(rounds[..n], user);
      RoundsQueue(rounds[..n]);
      BeforeSorted(rounds);
      LastRound(rounds);
      ScrubIsFilter(b, rounds[n].1);
      PoppedLast(rounds, user);
      ReceivedAllExactly(most, rounds[n].0, user);
      if PoppedAt(rounds, n, user) {
        NobodyHoldsPopped(rounds, user);
      } else if user in most.users {
        HeldFromBefore(rounds, user, most.users[user]);
        HeldWithIsHeld(rounds, user, most.users[user]);
      } else if k :| FirstOf(rounds[n].0, user, k) {
        HeldFromLast(rounds, user, k);
        HeldWithIsHeld(rounds, user, rounds[n].0[k].token);
      } else {
        NobodyFirst(rounds[n].0, user);
        NotHeldAtAll(rounds, user);
      }
    }
  }

  lemma {:induction false} FirstOver(rounds: seq<(seq<Packet>, int)>, r: int, k: int, q: int) returns (first: int)
    requires 0 <= r <= q < |rounds| && 0 <= k < |rounds[r].0|
    requires rounds[r].0[k].now + 300_000_000 < rounds[q].1
    ensures r <= first <= q && rounds[r].0[k].now + 300_000_000 < rounds[first].1 && NotOverBefore(rounds, r, k, first)
    decreases q - r
  {
    if m :| r <= m < q && rounds[r].0[k].now + 300_000_000 < rounds[m].1 {
      first := FirstOver(rounds, r, k, m);
    } else {
      first := q;
    }
  }

  lemma HolderNotOver(rounds: seq<(seq<Packet>, int)>, r: int, k: int, user: string)
    requires HoldsSince(rounds, r, k, user)
    ensures rounds[|rounds| - 1].1 <= rounds[r].0[k].now + 300_000_000
  {
    if rounds[r].0[k].now + 300_000_000 < rounds[|rounds| - 1].1 {
      var first := FirstOver(rounds, r, k, |rounds| - 1);
      assert PoppedBy(rounds, first, r, k, user);
      assert PoppedAt(rounds, first, user);
    }
  }

  // In particular whoever is authorised after the last scrub came in a packet whose 300 seconds
  // that scrub has found not over.
  lemma AuthorisedCameIn(rounds: seq<(seq<Packet>, int)>, user: string) returns (r: int, k: int)
    requires ReadingsInOrder(rounds) && user in Run(History(rounds)).users
    ensures CameIn(rounds, r, k, user) && rounds[|rounds| - 1].1 <= rounds[r].0[k].now + 300_000_000
  {
    RoundsExactly(rounds, user);
    r, k :| HoldsSince(rounds, r, k, user);
    HolderNotOver(rounds, r, k, user);
  }

  // ---------- Retransmission ----------

  // A history without the later copies of one datagram: the same token for the same user.
  function WithoutCopies(events: seq<Event>, user: string, token: string): seq<Event> {
    if events == [] then []
    else
      var most, last := events[..|events| - 1], events[|events| - 1];
      if last.Receive? && last.user == user && last.token == token then WithoutCopies(most, user, token)
      else WithoutCopies(most, user, token) + [last]
  }

  // The table with the copies and the one without: the same users, one of them this user, and
  // the same records but for further ones of this user, none of which expires before `expiry`.
  ghost predicate Alike(a: State, b: State, user: string, expiry: int) {
    && a.users == b.users && user in a.users && Sorted(b.queue)
    && (forall e :: e in b.queue ==> e in a.queue)
    && (forall e :: e in a.queue && e !in b.queue ==> e.user == user)
    && (forall e :: e in a.queue && e.user == user ==> expiry <= e.expiry)
  }

  lemma QueuedMembers(q: seq<Entry>, added: Entry, e: Entry)
    ensures e in q + [added] <==> e in q || e == added
  {
  }

  lemma AlikeReceive(a: State, b: State, user: string, expiry: int, u: string, token: string, now: int)
    requires Alike(a, b, user, expiry) && expiry <= now + LIFETIME
    requires forall e :: e in a.queue ==> e.expiry <= now + LIFETIME
    ensures Alike(Received(a, u, token, now), Received(b, u, token, now), user, expiry)
  {
    forall e ensures e in Received(a, u, token, now).queue <==> e in a.queue || e == Entry(u, now + LIFETIME) {
      QueuedMembers(a.queue, Entry(u, now + LIFETIME), e);
    }
    forall e ensures e in Received(b, u, token, now).queue <==> e in b.queue || e == Entry(u, now + LIFETIME) {
      QueuedMembers(b.queue, Entry(u, now + LIFETIME), e);
    }
    forall i | 0 <= i < |b.queue| ensures b.queue[i].expiry <= now + LIFETIME {
      assert b.queue[i] in b.queue;
    }
  }

  lemma AlikeCopy(a: State, b: State, user: string, expiry: int, token: string, now: int)
    requires Alike(a, b, user, expiry) && expiry <= now + LIFETIME
    ensures Alike(Received(a, user, token, now), b, user, expiry)
  {
    forall e ensures e in Received(a, user, token, now).queue <==> e in a.queue || e == Entry(user, now + LIFETIME) {
      QueuedMembers(a.queue, Entry(user, now + LIFETIME), e);
    }
  }

  lemma AlikeScrub(a: State, b: State, user: string, expiry: int, now: int)
    requires Alike(a, b, user, expiry) && Sorted(a.queue) && now <= expiry
    ensures Alike(Scrubbed(a, now), Scrubbed(b, now), user, expiry)
  {
    ScrubIsFilter(a, now);
    ScrubIsFilter(b, now);
    forall e ensures e in Scrubbed(a, now).queue <==> e in a.queue && now <= e.expiry { ScrubKeepsLive(a, now, e); }
    forall e ensures e in Scrubbed(b, now).queue <==> e in b.queue && now <= e.expiry { ScrubKeepsLive(b, now, e); }
    forall u ensures HasExpired(a.queue, u, now) <==> HasExpired(b.queue, u, now) {}
    assert Scrubbed(a, now).users == Scrubbed(b, now).users;
  }

  lemma MonotonePrefix(events: seq<Event>, n: nat)
    requires Monotone(events) && n <= |events|
    ensures Monotone(events[..n])
  {
  }

  // No scrub of these events comes after the expiry.
  ghost predicate ScrubsBy(events: seq<Event>, expiry: int) {
    forall i :: 0 <= i < |events| && events[i].Scrub? ==> events[i].now <= expiry
  }

  // Every record waiting was queued no later than the last event.
  lemma LastBounds(events: seq<Event>)
    requires Monotone(events) && events != []
    ensures forall e :: e in Run(events[..|events| - 1]).queue ==> e.expiry <= events[|events| - 1].now + LIFETIME
  {
    MonotonePrefix(events, |events| - 1);
    RunSorted(events[..|events| - 1]);
  }

  // None of this user's waiting records expires before `expiry`.
  ghost predicate NoneBefore(t: State, user: string, expiry: int) {
    forall e :: e in t.queue && e.user == user ==> expiry <= e.expiry
  }

  lemma FirstAlike(before: seq<Event>, user: string, token: string, at: int, expiry: int)
    requires Monotone(before + [Receive(user, token, at)])
    requires NoneBefore(Run(before + [Receive(user, token, at)]), user, expiry)
    ensures var t := Run(before + [Receive(user, token, at)]);
      Alike(t, t, user, expiry) && expiry <= at + LIFETIME
  {
    var start := before + [Receive(user, token, at)];
    RunLast(before, Receive(user, token, at));
    RunSorted(start);
    assert Entry(user, at + LIFETIME) in Run(start).queue;
  }

  // One more event, on both sides or, if it is a copy, on one.
  lemma StepAlike(events: seq<Event>, fewer: seq<Event>, last: Event, user: string, token: string, expiry: int)
    requires Monotone(events + [last]) && expiry <= last.now + LIFETIME && (last.Scrub? ==> last.now <= expiry)
    requires Alike(Run(events), Run(fewer), user, expiry)
    ensures if last.Receive? && last.user == user && last.token == token
            then Alike(Run(events + [last]), Run(fewer), user, expiry)
            else Alike(Run(events + [last]), Run(fewer + [last]), user, expiry)
  {
    var a, b := Run(events), Run(fewer);
    assert (events + [last])[..|events|] == events;
    MonotonePrefix(events + [last], |events|);
    LastBounds(events + [last]);
    RunSorted(events);
    RunLast(events, last);
    RunLast(fewer, last);
    match last
    case Receive(u, tok, now) =>
      if u == user && tok == token {
        AlikeCopy(a, b, user, expiry, tok, now);
      } else {
        AlikeReceive(a, b, user, expiry, u, tok, now);
      }
    case Scrub(now) => AlikeScrub(a, b, user, expiry, now);
  }

  lemma {:induction false} CopiesAlike(start: seq<Event>, rest: seq<Event>, user: string, token: string, expiry: int)
    requires Monotone(start + rest) && ScrubsBy(rest, expiry)
    requires start != [] && expiry <= start[|start| - 1].now + LIFETIME
    requires Alike(Run(start), Run(start), user, expiry)
    ensures Alike(Run(start + rest), Run(start + WithoutCopies(rest, user, token)), user, expiry)
  {
    if rest == [] {
      assert start + rest == start;
    } else {
      var n := |rest| - 1;
      var most, last := rest[..n], rest[n];
      var fewer := WithoutCopies(most, user, token);
      assert start + rest == (start + most) + [last];
      assert start + (fewer + [last]) == (start + fewer) + [last];
      MonotonePrefix(start + rest, |start| + n);
      assert (start + rest)[..|start| + n] == start + most;
      assert (start + rest)[|start| - 1] == start[|start| - 1] && (start + rest)[|start| + n] == last;
      CopiesAlike(start, most, user, token, expiry);
      StepAlike(start + most, start + fewer, last, user, token, expiry);
    }
  }

  // However many copies of a datagram arrive before the first expiry of a record of their
  // addressee, whatever packets of others and whatever scrubs come in between: the users, with
  // their tokens, are those of a single delivery, and the addressee is one of them.
  lemma CopiesAreIdempotent(before: seq<Event>, user: string, token: string, at: int, rest: seq<Event>, expiry: int)
    requires Monotone(before + [Receive(user, token, at)] + rest) && ScrubsBy(rest, expiry)
    requires NoneBefore(Run(before + [Receive(user, token, at)]), user, expiry)
    ensures var start := before + [Receive(user, token, at)];
      && Run(start + rest).users == Run(start + WithoutCopies(rest, user, token)).users
      && user in Run(start + rest).users
  {
    var start := before + [Receive(user, token, at)];
    MonotonePrefix(start + rest, |start|);
    assert (start + rest)[..|start|] == start;
    FirstAlike(before, user, token, at, expiry);
    CopiesAlike(start, rest, user, token, expiry);
  }

  lemma ScrubbedOut(t: State, user: string, now: int)
    requires |t.queue| == 1 && t.queue[0].user == user && t.queue[0].expiry < now
    ensures user !in Scrubbed(t, now).users
  {
    ScrubIsFilter(t, now);
    assert t.queue[0] in t.queue && HasExpired(t.queue, user, now);
  }

  lemma CopyDropped(scrub: Event, copy: Event)
    requires scrub.Scrub? && copy.Receive?
    ensures WithoutCopies([scrub, copy], copy.user, copy.token) == [scrub]
  {
    assert [scrub, copy][..1] == [scrub] && [scrub][..0] == [];
    assert WithoutCopies([scrub], copy.user, copy.token) == WithoutCopies([], copy.user, copy.token) + [scrub];
  }

  lemma EvictedByScrub(first: Event, scrub: Event)
    requires first.Receive? && scrub.Scrub? && first.now + LIFETIME < scrub.now
    ensures first.user !in Run([first] + [scrub]).users
  {
    RunLast([], first);
    assert [] + [first] == [first];
    RunLast([first], scrub);
    ScrubbedOut(Run([first]), first.user, scrub.now);
  }

  // The condition is needed: of these three events, the copy arrives after the first record has
  // expired, and authorises again whom a single delivery leaves out.
  lemma LateCopyCounts(user: string, token: string)
    ensures var first, scrub, copy := Receive(user, token, 0), Scrub(LIFETIME + 1), Receive(user, token, LIFETIME + 1);
      && user in Run([first] + [scrub] + [copy]).users
      && user !in Run([first] + WithoutCopies([scrub, copy], user, token)).users
  {
    var first, scrub, copy := Receive(user, token, 0), Scrub(LIFETIME + 1), Receive(user, token, LIFETIME + 1);
    RunLast([first] + [scrub], copy);
    CopyDropped(scrub, copy);
    EvictedByScrub(first, scrub);
  }
}
