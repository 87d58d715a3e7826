/** The chat session: one listening socket, a set of open descriptors, a select loop that
    accepts newcomers and relays each chunk it receives to the other clients. */
module ChatSession {

  // One send: the descriptor written to, whose chunk it was, and the chunk.
  datatype Sent = Sent(to: int, sender: int, chunk: string)

  datatype State = State(conn: int, clients: set<int>, maxFd: int, wire: seq<Sent>)

  // What happens at one descriptor: accept returns a descriptor or an error, or recv returns
  // a chunk, which is empty for a disconnection or an error.
  datatype Step = Accept(fd: int) | Recv(sender: int, chunk: string)

  // ---------- One step ----------

  predicate Eligible(s: State, sender: int, i: int) {
    i in s.clients && i != s.conn && i != sender
  }

  // The sends of one relay, for descriptors from 0 up to but not including n.
  function Relay(s: State, sender: int, chunk: string, n: nat): seq<Sent> {
    if n == 0 then []
    else if Eligible(s, sender, n - 1) then Relay(s, sender, chunk, n - 1) + [Sent(n - 1, sender, chunk)]
    else Relay(s, sender, chunk, n - 1)
  }

  function Apply(s: State, step: Step): State {
    match step
    case Accept(fd) =>
      if fd < 0 then s
      else s.(clients := s.clients + {fd}, maxFd := if fd > s.maxFd then fd else s.maxFd)
    case Recv(sender, chunk) =>
      if chunk == "" then s.(clients := s.clients - {sender})
      else s.(wire := s.wire + Relay(s, sender, chunk, if s.maxFd < 0 then 0 else s.maxFd))
  }

  function Run(s: State, steps: seq<Step>): State {
    if steps == [] then s else Apply(Run(s, steps[..|steps| - 1]), steps[|steps| - 1])
  }

  // ---------- One round of the loop ----------

  // What the environment has at each descriptor: accept results for the listener, chunks for
  // the rest.
  datatype Input = Input(fd: int, chunk: string)

  function StepAt(conn: int, env: int -> Input, i: int): Step {
    if i == conn then Accept(env(i).fd) else Recv(i, env(i).chunk)
  }

  // The steps of a scan of descriptors from 0 up to but not including n.
  function Scan(conn: int, visited: set<int>, env: int -> Input, n: nat): seq<Step> {
    if n == 0 then []
    else if n - 1 in visited then Scan(conn, visited, env, n - 1) + [StepAt(conn, env, n - 1)]
    else Scan(conn, visited, env, n - 1)
  }

  lemma RunScanStep(s: State, conn: int, visited: set<int>, env: int -> Input, n: nat)
    ensures Run(s, Scan(conn, visited, env, n + 1)) ==
              if n in visited then Apply(Run(s, Scan(conn, visited, env, n)), StepAt(conn, env, n))
              else Run(s, Scan(conn, visited, env, n))
  {
    var now, before := Scan(conn, visited, env, n + 1), Scan(conn, visited, env, n);
    if n in visited { assert now[..|now| - 1] == before; }
  }

  // select narrows either the set that is scanned, which is what the loop needs, or the
  // session's own set, which is what the call says.
  function Round(s: State, ready: set<int>, env: int -> Input, narrowsOwnSet: bool): State {
    var n := if s.maxFd < 0 then 0 else s.maxFd + 1;
    if narrowsOwnSet then
      Run(s.(clients := s.clients * ready), Scan(s.conn, s.clients, env, n))
    else
      Run(s, Scan(s.conn, s.clients * ready, env, n))
  }

  ghost predicate Valid(s: State) {
    s.conn >= 0 && s.conn <= s.maxFd && forall fd :: fd in s.clients ==> 0 <= fd <= s.maxFd
  }

  class Session {
    const connSocket: int
    var clientSet: set<int>
    var tempSet: set<int>
    var maxFd: int
    var wire: seq<Sent>

    ghost function Value(): State
      reads this
    {
      State(connSocket, clientSet, maxFd, wire)
    }

    constructor (conn: int)
      requires conn >= 0
      ensures Value() == State(conn, {conn}, conn, []) && Valid(Value())
    {
      connSocket, clientSet, tempSet, maxFd, wire := conn, {conn}, {}, conn, [];
    }

    method HandleAccept(fd: int)
      modifies this`clientSet, this`maxFd
      ensures Value() == Apply(old(Value()), Accept(fd))
    {
      if fd < 0 {
        return;
      }
      clientSet := clientSet + {fd};
      if fd > maxFd {
        maxFd := fd;
      }
    }

    method HandleRecv(sender: int, chunk: string)
      requires maxFd >= 0
      modifies this`clientSet, this`wire
      ensures Value() == Apply(old(Value()), Recv(sender, chunk))
    {
      if chunk == "" {
        clientSet := clientSet - {sender};
      } else {
        for i := 0 to maxFd
          invariant clientSet == old(clientSet)
          invariant wire == old(wire) + Relay(old(Value()), sender, chunk, i)
        {
          if i in clientSet {
            if i != connSocket && i != sender {
              wire := wire + [Sent(i, sender, chunk)];
            }
          }
        }
      }
    }

    // What the scan does at one descriptor.
    method HandleOne(i: nat, env: int -> Input)
      requires Valid(Value())
      modifies this`clientSet, this`maxFd, this`wire
      ensures Value() == if i in tempSet then Apply(old(Value()), StepAt(connSocket, env, i)) else old(Value())
      ensures Valid(Value()) && old(maxFd) <= maxFd && (i != connSocket ==> maxFd == old(maxFd))
    {
      if i in tempSet {
        if i == connSocket {
          HandleAccept(env(i).fd);
        } else {
          HandleRecv(i, env(i).chunk);
        }
      }
    }

    // The scan of one turn. Its bound is read again after every step, and an accepted
    // descriptor may raise it.
    method HandleAll(env: int -> Input)
      requires Valid(Value()) && forall fd :: fd in tempSet ==> fd <= maxFd
      modifies this`clientSet, this`maxFd, this`wire
      ensures Value() == Run(old(Value()), Scan(connSocket, tempSet, env, old(maxFd) + 1))
    {
      ghost var start := Value();
      var i := 0;
      while i <= maxFd
        invariant Valid(Value()) && 0 <= i <= maxFd + 1 && old(maxFd) <= maxFd
        invariant i <= connSocket ==> maxFd == old(maxFd)
        invariant Value() == Run(start, Scan(connSocket, tempSet, env, i))
        decreases if i <= connSocket then 1 else 0, maxFd + 1 - i
      {
        RunScanStep(start, connSocket, tempSet, env, i);
        HandleOne(i, env);
        i := i + 1;
      }
      NothingBeyond(connSocket, tempSet, env, old(maxFd) + 1, i);
    }

    // One turn of the main loop.
    method MainLoopRound(ready: set<int>, env: int -> Input, narrowsOwnSet: bool)
      requires Valid(Value())
      modifies this
      ensures Value() == Round(old(Value()), ready, env, narrowsOwnSet)
      ensures Valid(Value())
    {
      tempSet := clientSet;
      if narrowsOwnSet {
        clientSet := clientSet * ready;
      } else {
        tempSet := tempSet * ready;
      }
      RunValid(Value(), Scan(connSocket, tempSet, env, maxFd + 1));
      HandleAll(env);
    }
  }

  // The steps of a number of turns, each with its ready set and its environment, when select
  // narrows the scanned set.
  function LoopSteps(s: State, rounds: seq<(set<int>, int -> Input)>): seq<Step> {
    if rounds == [] then []
    else
      var before := LoopSteps(s, rounds[..|rounds| - 1]);
      var now := Run(s, before);
      var (ready, env) := rounds[|rounds| - 1];
      before + Scan(now.conn, now.clients * ready, env, if now.maxFd < 0 then 0 else now.maxFd + 1)
  }

  lemma {:induction false} RunAppend(s: State, first: seq<Step>, second: seq<Step>)
    ensures Run(s, first + second) == Run(Run(s, first), second)
  {
    if second == [] {
      assert first + second == first;
    } else {
      RunAppend(s, first, second[..|second| - 1]);
      assert (first + second)[..|first + second| - 1] == first + second[..|second| - 1];
    }
  }

  // The session after a number of turns.
  function Rounds(s: State, rounds: seq<(set<int>, int -> Input)>, narrowsOwnSet: bool): State {
    if rounds == [] then s
    else
      var (ready, env) := rounds[|rounds| - 1];
      Round(Rounds(s, rounds[..|rounds| - 1], narrowsOwnSet), ready, env, narrowsOwnSet)
  }

  // Any number of turns of the loop, with either set narrowed.
  method MainLoop(session: Session, rounds: seq<(set<int>, int -> Input)>, narrowsOwnSet: bool)
    requires Valid(session.Value())
    modifies session
    ensures session.Value() == Rounds(old(session.Value()), rounds, narrowsOwnSet) && Valid(session.Value())
  {
    ghost var start := session.Value();
    for k := 0 to |rounds|
      invariant Valid(session.Value())
      invariant session.Value() == Rounds(start, rounds[..k], narrowsOwnSet)
    {
      assert rounds[..k + 1][..k] == rounds[..k];
      session.MainLoopRound(rounds[k].0, rounds[k].1, narrowsOwnSet);
    }
    assert rounds[..|rounds|] == rounds;
  }

  // When the scanned set is narrowed, any number of turns is one run of steps, so what holds
  // of every run holds of the loop.
  lemma {:induction false} RoundsAreSteps(s: State, rounds: seq<(set<int>, int -> Input)>)
    ensures Rounds(s, rounds, false) == Run(s, LoopSteps(s, rounds))
  {
    if rounds != [] {
      var before := rounds[..|rounds| - 1];
      var (ready, env) := rounds[|rounds| - 1];
      RoundsAreSteps(s, before);
      var now := Run(s, LoopSteps(s, before));
      RunAppend(s, LoopSteps(s, before),
                Scan(now.conn, now.clients * ready, env, if now.maxFd < 0 then 0 else now.maxFd + 1));
    }
  }

  lemma {:induction false} NothingBeyond(conn: int, visited: set<int>, env: int -> Input, last: nat, n: nat)
    requires last <= n && forall fd :: fd in visited ==> fd < last
    ensures Scan(conn, visited, env, n) == Scan(conn, visited, env, last)
  {
    if last < n { NothingBeyond(conn, visited, env, last, n - 1); }
  }

  // ---------- What every run keeps ----------

  // Every open descriptor stays at or below the maximum, which never goes down.
  lemma {:induction false} RunValid(s: State, steps: seq<Step>)
    requires Valid(s)
    ensures Valid(Run(s, steps)) && Run(s, steps).maxFd >= s.maxFd && Run(s, steps).conn == s.conn
  {
    if steps != [] { RunValid(s, steps[..|steps| - 1]); }
  }

  // A relay sends once to every eligible descriptor below the bound, and to nothing else.
  lemma {:induction false} RelayExactly(s: State, sender: int, chunk: string, n: nat, e: Sent)
    ensures multiset(Relay(s, sender, chunk, n))[e]
         == if e.to in s.clients && e.to != s.conn && e.to != sender && 0 <= e.to < n
               && e.sender == sender && e.chunk == chunk then 1 else 0
  {
    if n > 0 { RelayExactly(s, sender, chunk, n - 1, e); }
  }

  ghost predicate ReachesAllOthers(s: State, sender: int, chunk: string)
    requires s.maxFd >= 0
  {
    forall fd :: Eligible(s, sender, fd) ==> Sent(fd, sender, chunk) in Relay(s, sender, chunk, s.maxFd)
  }

  // The relay stops before the maximum, so it reaches every other client if and only if the
  // descriptor at the maximum is not a client in its own right.
  lemma RelayMissesTheMaximum(s: State, sender: int, chunk: string)
    requires Valid(s)
    ensures ReachesAllOthers(s, sender, chunk) <==> !Eligible(s, sender, s.maxFd)
  {
    forall fd ensures Sent(fd, sender, chunk) in Relay(s, sender, chunk, s.maxFd)
                 <==> Eligible(s, sender, fd) && 0 <= fd < s.maxFd
    {
      RelayExactly(s, sender, chunk, s.maxFd, Sent(fd, sender, chunk));
    }
  }

  // ---------- Who is open ----------

  // This descriptor's disconnection is among the steps from position k on.
  ghost predicate LeftFrom(steps: seq<Step>, k: int, fd: int) {
    exists m :: 0 <= k <= m < |steps| && steps[m] == Recv(fd, "")
  }

  // It was accepted at position k and did not leave after that.
  ghost predicate AcceptedAndStayed(steps: seq<Step>, k: int, fd: int) {
    0 <= fd && 0 <= k < |steps| && steps[k] == Accept(fd) && !LeftFrom(steps, k + 1, fd)
  }

  ghost predicate CameAndStayed(steps: seq<Step>, fd: int) {
    exists k :: AcceptedAndStayed(steps, k, fd)
  }

  lemma LeftStep(steps: seq<Step>, k: int, fd: int)
    requires steps != [] && 0 <= k <= |steps| - 1
    ensures LeftFrom(steps, k, fd)
       <==> LeftFrom(steps[..|steps| - 1], k, fd) || steps[|steps| - 1] == Recv(fd, "")
  {
    var n := |steps| - 1;
    if m :| 0 <= k <= m < n && steps[..n][m] == Recv(fd, "") {
      assert steps[m] == Recv(fd, "");
    }
    if m :| 0 <= k <= m < |steps| && steps[m] == Recv(fd, "") {
      assert m < n ==> steps[..n][m] == Recv(fd, "");
    }
  }

  lemma StayedStep(steps: seq<Step>, fd: int)
    requires steps != []
    ensures CameAndStayed(steps, fd)
       <==> (0 <= fd && steps[|steps| - 1] == Accept(fd))
            || (CameAndStayed(steps[..|steps| - 1], fd) && steps[|steps| - 1] != Recv(fd, ""))
  {
    var n := |steps| - 1;
    forall k | 0 <= k < n
      ensures AcceptedAndStayed(steps, k, fd)
         <==> AcceptedAndStayed(steps[..n], k, fd) && steps[n] != Recv(fd, "")
    {
      LeftStep(steps, k + 1, fd);
    }
    assert AcceptedAndStayed(steps, n, fd) <==> 0 <= fd && steps[n] == Accept(fd);
    if k :| AcceptedAndStayed(steps[..n], k, fd) {
      assert AcceptedAndStayed(steps, k, fd) || steps[n] == Recv(fd, "");
    }
  }

  // Over every run a descriptor is open at the end if and only if it was open at the start and
  // has not disconnected, or has been accepted and has not disconnected since.
  lemma {:induction false} OpenExactly(s: State, steps: seq<Step>, fd: int)
    ensures fd in Run(s, steps).clients
       <==> (fd in s.clients && !LeftFrom(steps, 0, fd)) || CameAndStayed(steps, fd)
  {
    if steps != [] {
      var n := |steps| - 1;
      OpenExactly(s, steps[..n], fd);
      LeftStep(steps, 0, fd);
      StayedStep(steps, fd);
    }
  }

  // ---------- The order in which clients hear ----------

  // What was sent to a descriptor, in order.
  function Inbox(wire: seq<Sent>, fd: int): seq<Sent> {
    if wire == [] then []
    else if wire[|wire| - 1].to == fd then Inbox(wire[..|wire| - 1], fd) + [wire[|wire| - 1]]
    else Inbox(wire[..|wire| - 1], fd)
  }

  // What a client should hear of some steps: every chunk of somebody else, in order.
  function Heard(steps: seq<Step>, fd: int): seq<Sent> {
    if steps == [] then []
    else
      var last := steps[|steps| - 1];
      if last.Recv? && last.chunk != "" && last.sender != fd then
        Heard(steps[..|steps| - 1], fd) + [Sent(fd, last.sender, last.chunk)]
      else
        Heard(steps[..|steps| - 1], fd)
  }

  // A client that is connected before each of the steps, with a greater descriptor known.
  ghost predicate Stays(s: State, steps: seq<Step>, fd: int) {
    fd != s.conn && forall k :: 0 <= k < |steps| ==>
      fd in Run(s, steps[..k]).clients && fd < Run(s, steps[..k]).maxFd
  }

  lemma InboxAppend(wire: seq<Sent>, e: Sent, fd: int)
    ensures Inbox(wire + [e], fd) == if e.to == fd then Inbox(wire, fd) + [e] else Inbox(wire, fd)
  {
    assert (wire + [e])[..|wire|] == wire;
  }

  lemma InboxThrough(wire: seq<Sent>, more: seq<Sent>, e: Sent, fd: int)
    ensures Inbox(wire + (more + [e]), fd)
         == if e.to == fd then Inbox(wire + more, fd) + [e] else Inbox(wire + more, fd)
  {
    assert wire + (more + [e]) == (wire + more) + [e];
    InboxAppend(wire + more, e, fd);
  }

  lemma {:induction false} InboxOfRelay(wire: seq<Sent>, s: State, sender: int, chunk: string, n: nat, fd: int)
    ensures Inbox(wire + Relay(s, sender, chunk, n), fd) ==
              if Eligible(s, sender, fd) && 0 <= fd < n then Inbox(wire, fd) + [Sent(fd, sender, chunk)]
              else Inbox(wire, fd)
  {
    if n == 0 {
      assert wire + Relay(s, sender, chunk, 0) == wire;
    } else {
      var before, e := Relay(s, sender, chunk, n - 1), Sent(n - 1, sender, chunk);
      InboxOfRelay(wire, s, sender, chunk, n - 1, fd);
      if Eligible(s, sender, n - 1) {
        InboxThrough(wire, before, e, fd);
      }
    }
  }

  // Over any steps during which a client stays connected, its inbox grows by exactly the
  // chunks of the others, once each and in order, and by none of its own.
  lemma {:induction false} HearsEveryoneElse(s: State, steps: seq<Step>, fd: int)
    requires Valid(s) && Stays(s, steps, fd)
    ensures Inbox(Run(s, steps).wire, fd) == Inbox(s.wire, fd) + Heard(steps, fd)
  {
    if steps != [] {
      var n := |steps| - 1;
      var before, last := steps[..n], steps[n];
      assert Stays(s, before, fd) by {
        forall k | 0 <= k < n ensures fd in Run(s, before[..k]).clients && fd < Run(s, before[..k]).maxFd {
          assert before[..k] == steps[..k];
        }
      }
      HearsEveryoneElse(s, before, fd);
      RunValid(s, before);
      var now := Run(s, before);
      assert fd in now.clients && fd < now.maxFd;
      if last.Recv? && last.chunk != "" {
        InboxOfRelay(now.wire, now, last.sender, last.chunk, now.maxFd, fd);
      }
    }
  }

  // A sequence of sends without those of one sender, reduced to who said what.
  function Others(heard: seq<Sent>, sender: int): seq<(int, string)> {
    if heard == [] then []
    else
      var last := heard[|heard| - 1];
      if last.sender == sender then Others(heard[..|heard| - 1], sender)
      else Others(heard[..|heard| - 1], sender) + [(last.sender, last.chunk)]
  }

  lemma {:induction false} OthersAppend(heard: seq<Sent>, e: Sent, sender: int)
    ensures Others(heard + [e], sender)
         == if e.sender == sender then Others(heard, sender) else Others(heard, sender) + [(e.sender, e.chunk)]
  {
    assert (heard + [e])[..|heard|] == heard;
  }

  lemma {:induction false} HeardAlike(steps: seq<Step>, a: int, b: int)
    ensures Others(Heard(steps, a), b) == Others(Heard(steps, b), a)
  {
    if steps != [] {
      var before, last := steps[..|steps| - 1], steps[|steps| - 1];
      HeardAlike(before, a, b);
      if last.Recv? && last.chunk != "" {
        OthersAppend(Heard(before, a), Sent(a, last.sender, last.chunk), b);
        OthersAppend(Heard(before, b), Sent(b, last.sender, last.chunk), a);
      }
    }
  }

  // The part of an inbox that arrived since a state.
  function Since(s: State, t: State, fd: int): seq<Sent>
    requires |Inbox(s.wire, fd)| <= |Inbox(t.wire, fd)|
  {
    Inbox(t.wire, fd)[|Inbox(s.wire, fd)|..]
  }

  // Broadcast is totally ordered: two clients that both stay connected hear the chunks that
  // neither of them sent in the same order.
  lemma TotalOrder(s: State, steps: seq<Step>, a: int, b: int)
    requires Valid(s) && Stays(s, steps, a) && Stays(s, steps, b)
    ensures var t := Run(s, steps);
      && |Inbox(s.wire, a)| <= |Inbox(t.wire, a)| && |Inbox(s.wire, b)| <= |Inbox(t.wire, b)|
      && Others(Since(s, t, a), b) == Others(Since(s, t, b), a)
  {
    var t := Run(s, steps);
    HearsEveryoneElse(s, steps, a);
    HearsEveryoneElse(s, steps, b);
    assert Since(s, t, a) == Heard(steps, a);
    assert Since(s, t, b) == Heard(steps, b);
    HeardAlike(steps, a, b);
  }

  // After a disconnection nothing more is sent to the descriptor until it is accepted again.
  lemma {:induction false} NothingToTheGone(s: State, steps: seq<Step>, fd: int)
    requires steps != [] && steps[0] == Recv(fd, "") && Accept(fd) !in steps
    ensures fd !in Run(s, steps).clients && Inbox(Run(s, steps).wire, fd) == Inbox(s.wire, fd)
  {
    var n := |steps| - 1;
    var before, last := steps[..n], steps[n];
    if n == 0 {
      assert Run(s, before) == s;
    } else {
      NothingToTheGone(s, before, fd);
      if last.Recv? && last.chunk != "" {
        var now := Run(s, before);
        InboxOfRelay(now.wire, now, last.sender, last.chunk, if now.maxFd < 0 then 0 else now.maxFd, fd);
      } else {
        assert last != Accept(fd);
      }
    }
  }

  // ---------- What a turn of the loop consists of ----------

  // The scan takes one step at each descriptor visited, in ascending order, and no other.
  lemma {:induction false} ScanExactly(conn: int, visited: set<int>, env: int -> Input, n: nat,
                                       sender: int, chunk: string)
    ensures Recv(sender, chunk) in Scan(conn, visited, env, n)
       <==> sender in visited && 0 <= sender < n && sender != conn && chunk == env(sender).chunk
    ensures forall fd :: Accept(fd) in Scan(conn, visited, env, n)
                    <==> conn in visited && 0 <= conn < n && fd == env(conn).fd
  {
    if n > 0 { ScanExactly(conn, visited, env, n - 1, sender, chunk); }
  }

  ghost predicate Ascending(conn: int, steps: seq<Step>) {
    forall i, j :: 0 <= i < j < |steps| ==> At(conn, steps[i]) < At(conn, steps[j])
  }

  function At(conn: int, step: Step): int {
    if step.Accept? then conn else step.sender
  }

  lemma {:induction false} ScanAscends(conn: int, visited: set<int>, env: int -> Input, n: nat)
    ensures Ascending(conn, Scan(conn, visited, env, n))
    ensures forall i :: 0 <= i < |Scan(conn, visited, env, n)| ==> 0 <= At(conn, Scan(conn, visited, env, n)[i]) < n
  {
    if n > 0 { ScanAscends(conn, visited, env, n - 1); }
  }

  // A turn as it is needed: afterwards the open descriptors are those that were open and did
  // not disconnect, and the newcomer if the listener was ready and accept succeeded.
  lemma TurnAsMeant(s: State, ready: set<int>, env: int -> Input, fd: int)
    requires Valid(s) && env(s.conn).fd !in s.clients
    ensures fd in Round(s, ready, env, false).clients
       <==> (fd in s.clients && !(fd in ready && fd != s.conn && env(fd).chunk == ""))
            || (s.conn in s.clients && s.conn in ready && 0 <= fd && fd == env(s.conn).fd)
  {
    var visited := s.clients * ready;
    var steps := Scan(s.conn, visited, env, s.maxFd + 1);
    ScanExactly(s.conn, visited, env, s.maxFd + 1, fd, "");
    OpenExactly(s, steps, fd);
    LeftIsIn(steps, fd);
    StayedIsIn(steps, fd);
  }

  lemma LeftIsIn(steps: seq<Step>, fd: int)
    ensures LeftFrom(steps, 0, fd) <==> Recv(fd, "") in steps
  {
  }

  lemma StayedIsIn(steps: seq<Step>, fd: int)
    ensures CameAndStayed(steps, fd) ==> 0 <= fd && Accept(fd) in steps
    ensures Recv(fd, "") !in steps && 0 <= fd && Accept(fd) in steps ==> CameAndStayed(steps, fd)
  {
    if Recv(fd, "") !in steps && 0 <= fd && Accept(fd) in steps {
      var k :| 0 <= k < |steps| && steps[k] == Accept(fd);
      assert AcceptedAndStayed(steps, k, fd);
    }
  }

  // The client disconnects in turn m; or turn m accepts it.
  predicate LeavesIn(conn: int, rounds: seq<(set<int>, int -> Input)>, m: int, fd: int) {
    0 <= m < |rounds| && fd in rounds[m].0 && fd != conn && rounds[m].1(fd).chunk == ""
  }

  predicate JoinsIn(conn: int, rounds: seq<(set<int>, int -> Input)>, m: int, fd: int) {
    0 <= m < |rounds| && conn in rounds[m].0 && 0 <= fd == rounds[m].1(conn).fd
  }

  ghost predicate StaysFrom(conn: int, rounds: seq<(set<int>, int -> Input)>, k: int, fd: int) {
    forall m :: k <= m ==> !LeavesIn(conn, rounds, m, fd)
  }

  ghost predicate JoinedAndStays(conn: int, rounds: seq<(set<int>, int -> Input)>, fd: int) {
    exists m :: JoinsIn(conn, rounds, m, fd) && StaysFrom(conn, rounds, m + 1, fd)
  }

  // accept returns a descriptor that is not open.
  ghost predicate NewInTurn(s: State, rounds: seq<(set<int>, int -> Input)>, m: int) {
    0 <= m < |rounds| ==> rounds[m].1(s.conn).fd !in Rounds(s, rounds[..m], false).clients
  }

  lemma TurnsPrefix(conn: int, rounds: seq<(set<int>, int -> Input)>, m: int, fd: int)
    requires rounds != [] && m < |rounds| - 1
    ensures LeavesIn(conn, rounds, m, fd) <==> LeavesIn(conn, rounds[..|rounds| - 1], m, fd)
    ensures JoinsIn(conn, rounds, m, fd) <==> JoinsIn(conn, rounds[..|rounds| - 1], m, fd)
  {
  }

  lemma StaysFromStep(conn: int, rounds: seq<(set<int>, int -> Input)>, k: int, fd: int)
    requires rounds != [] && k <= |rounds| - 1
    ensures StaysFrom(conn, rounds, k, fd)
       <==> StaysFrom(conn, rounds[..|rounds| - 1], k, fd) && !LeavesIn(conn, rounds, |rounds| - 1, fd)
  {
    var n := |rounds| - 1;
    forall m | m < n ensures LeavesIn(conn, rounds, m, fd) <==> LeavesIn(conn, rounds[..n], m, fd) {
      TurnsPrefix(conn, rounds, m, fd);
    }
    forall m | n <= m ensures !LeavesIn(conn, rounds[..n], m, fd) {}
  }

  lemma JoinedStep(conn: int, rounds: seq<(set<int>, int -> Input)>, fd: int)
    requires rounds != []
    ensures JoinedAndStays(conn, rounds, fd)
       <==> JoinsIn(conn, rounds, |rounds| - 1, fd)
            || (JoinedAndStays(conn, rounds[..|rounds| - 1], fd) && !LeavesIn(conn, rounds, |rounds| - 1, fd))
  {
    var n := |rounds| - 1;
    if m :| JoinsIn(conn, rounds, m, fd) && StaysFrom(conn, rounds, m + 1, fd) {
      if m < n {
        TurnsPrefix(conn, rounds, m, fd);
        StaysFromStep(conn, rounds, m + 1, fd);
      }
    }
    if m :| JoinsIn(conn, rounds[..n], m, fd) && StaysFrom(conn, rounds[..n], m + 1, fd) {
      TurnsPrefix(conn, rounds, m, fd);
      StaysFromStep(conn, rounds, m + 1, fd);
    }
    assert StaysFrom(conn, rounds, n + 1, fd);
  }

  // Over any number of turns as they are needed: a descriptor is open afterwards if and only if
  // it was open at the start and has left in no turn, or has been accepted in some turn and has
  // left in no later one.
  lemma {:induction false} LoopOpenExactly(s: State, rounds: seq<(set<int>, int -> Input)>, fd: int)
    requires Valid(s) && s.conn in s.clients && forall m :: NewInTurn(s, rounds, m)
    ensures fd in Rounds(s, rounds, false).clients
       <==> (fd in s.clients && StaysFrom(s.conn, rounds, 0, fd)) || JoinedAndStays(s.conn, rounds, fd)
  {
    if rounds == [] {
      assert StaysFrom(s.conn, rounds, 0, fd);
    } else {
      var n := |rounds| - 1;
      var before, last := rounds[..n], rounds[n];
      forall m ensures NewInTurn(s, before, m) {
        assert NewInTurn(s, rounds, m);
        if 0 <= m < n { assert before[..m] == rounds[..m]; }
      }
      LoopOpenExactly(s, before, fd);
      LoopOpenExactly(s, before, s.conn);
      assert StaysFrom(s.conn, before, 0, s.conn);
      RoundsKeep(s, before, false);
      assert NewInTurn(s, rounds, n);
      TurnAsMeant(Rounds(s, before, false), last.0, last.1, fd);
      StaysFromStep(s.conn, rounds, 0, fd);
      JoinedStep(s.conn, rounds, fd);
    }
  }

  // ---------- Which set select narrows ----------

  // Open descriptors were open at the start or have been accepted since.
  lemma {:induction false} OpenOrAccepted(s: State, steps: seq<Step>, fd: int)
    requires fd in Run(s, steps).clients
    ensures fd in s.clients || Accept(fd) in steps
  {
    if steps != [] {
      var before := steps[..|steps| - 1];
      if fd in Run(s, before).clients {
        OpenOrAccepted(s, before, fd);
        assert Accept(fd) in before ==> Accept(fd) in steps;
      } else {
        assert steps[|steps| - 1] == Accept(fd);
      }
    }
  }

  lemma {:induction false} ScanAccepts(conn: int, visited: set<int>, env: int -> Input, n: nat, fd: int)
    requires Accept(fd) in Scan(conn, visited, env, n)
    ensures fd == env(conn).fd
  {
    if n > 0 && Accept(fd) in Scan(conn, visited, env, n - 1) {
      ScanAccepts(conn, visited, env, n - 1, fd);
    }
  }

  // As written, a descriptor that is not ready in a round is dropped from the session, unless
  // that very round accepts its number again.
  lemma IdleIsDropped(s: State, ready: set<int>, env: int -> Input, fd: int)
    requires Valid(s) && fd !in ready && env(s.conn).fd != fd
    ensures fd !in Round(s, ready, env, true).clients
  {
    var n := s.maxFd + 1;
    var narrowed := s.(clients := s.clients * ready);
    if fd in Round(s, ready, env, true).clients {
      OpenOrAccepted(narrowed, Scan(s.conn, s.clients, env, n), fd);
      ScanAccepts(s.conn, s.clients, env, n, fd);
    }
  }

  // A descriptor that the scan does not visit stays open.
  lemma {:induction false} UnvisitedStays(s: State, conn: int, visited: set<int>, env: int -> Input, n: nat, fd: int)
    requires fd in s.clients && fd !in visited
    ensures fd in Run(s, Scan(conn, visited, env, n)).clients
  {
    if n > 0 {
      UnvisitedStays(s, conn, visited, env, n - 1, fd);
      RunScanStep(s, conn, visited, env, n - 1);
    }
  }

  lemma Pick<T>(s: set<T>) returns (x: T)
    requires s != {}
    ensures x in s
  {
    x :| x in s;
  }

  // A turn of the loop as written does what the loop needs if and only if every open descriptor
  // is ready in it. What accept returns, it never returns for a descriptor that is open.
  lemma SelectExact(s: State, ready: set<int>, env: int -> Input)
    requires Valid(s) && ready <= s.clients && env(s.conn).fd !in s.clients
    ensures Round(s, ready, env, true) == Round(s, ready, env, false) <==> ready == s.clients
  {
    if ready == s.clients {
      assert s.(clients := s.clients * ready) == s && s.clients * ready == s.clients;
    } else {
      assert s.clients == ready + (s.clients - ready);
      var fd := Pick(s.clients - ready);
      IdleIsDropped(s, ready, env, fd);
      UnvisitedStays(s, s.conn, s.clients * ready, env, s.maxFd + 1, fd);
    }
  }

  // ---------- The loop as written, over many turns ----------

  lemma RoundKeeps(s: State, ready: set<int>, env: int -> Input, narrowsOwnSet: bool)
    requires Valid(s)
    ensures Valid(Round(s, ready, env, narrowsOwnSet)) && Round(s, ready, env, narrowsOwnSet).conn == s.conn
  {
    var n := s.maxFd + 1;
    if narrowsOwnSet {
      RunValid(s.(clients := s.clients * ready), Scan(s.conn, s.clients, env, n));
    } else {
      RunValid(s, Scan(s.conn, s.clients * ready, env, n));
    }
  }

  lemma {:induction false} RoundsKeep(s: State, rounds: seq<(set<int>, int -> Input)>, narrowsOwnSet: bool)
    requires Valid(s)
    ensures Valid(Rounds(s, rounds, narrowsOwnSet)) && Rounds(s, rounds, narrowsOwnSet).conn == s.conn
  {
    if rounds != [] {
      RoundsKeep(s, rounds[..|rounds| - 1], narrowsOwnSet);
      var last := rounds[|rounds| - 1];
      RoundKeeps(Rounds(s, rounds[..|rounds| - 1], narrowsOwnSet), last.0, last.1, narrowsOwnSet);
    }
  }

  // Turn m of the schedule accepts this descriptor.
  predicate AcceptsAt(conn: int, rounds: seq<(set<int>, int -> Input)>, m: int, fd: int) {
    0 <= m < |rounds| && rounds[m].1(conn).fd == fd
  }

  ghost predicate AcceptedSince(conn: int, rounds: seq<(set<int>, int -> Input)>, k: int, fd: int) {
    exists m :: k <= m && AcceptsAt(conn, rounds, m, fd)
  }

  // Whoever is open after any number of turns was ready in every one of them, or has been
  // accepted in or after each turn in which it was not.
  lemma {:induction false} IdleInAnyTurnIsGone(s: State, rounds: seq<(set<int>, int -> Input)>, k: nat, fd: int)
    requires Valid(s) && k < |rounds| && fd in Rounds(s, rounds, true).clients
    ensures fd in rounds[k].0 || AcceptedSince(s.conn, rounds, k, fd)
  {
    var n := |rounds| - 1;
    var before, last := rounds[..n], rounds[n];
    var now := Rounds(s, before, true);
    RoundsKeep(s, before, true);
    if AcceptsAt(s.conn, rounds, n, fd) {
    } else if k == n {
      if fd !in last.0 { IdleIsDropped(now, last.0, last.1, fd); }
    } else {
      StaysFromBefore(now, last.0, last.1, fd);
      IdleInAnyTurnIsGone(s, before, k, fd);
      if m :| k <= m && AcceptsAt(s.conn, before, m, fd) {
        assert AcceptsAt(s.conn, rounds, m, fd);
      }
    }
  }

  lemma StaysFromBefore(s: State, ready: set<int>, env: int -> Input, fd: int)
    requires Valid(s) && fd in Round(s, ready, env, true).clients && env(s.conn).fd != fd
    ensures fd in s.clients
  {
    var narrowed, steps := s.(clients := s.clients * ready), Scan(s.conn, s.clients, env, s.maxFd + 1);
    OpenOrAccepted(narrowed, steps, fd);
    if Accept(fd) in steps { ScanAccepts(s.conn, s.clients, env, s.maxFd + 1, fd); }
  }

  lemma {:induction false} NoListenerNoAccept(conn: int, visited: set<int>, env: int -> Input, n: nat, fd: int)
    requires conn !in visited
    ensures Accept(fd) !in Scan(conn, visited, env, n)
  {
    if n > 0 { NoListenerNoAccept(conn, visited, env, n - 1, fd); }
  }

  // Once the listener is out of the set, nobody is accepted any more and the set only shrinks.
  lemma {:induction false} NobodyComesBack(s: State, rounds: seq<(set<int>, int -> Input)>)
    requires Valid(s) && s.conn !in s.clients
    ensures Rounds(s, rounds, true).clients <= s.clients
  {
    if rounds != [] {
      var before, last := rounds[..|rounds| - 1], rounds[|rounds| - 1];
      var now := Rounds(s, before, true);
      NobodyComesBack(s, before);
      RoundsKeep(s, before, true);
      forall fd | fd in Rounds(s, rounds, true).clients ensures fd in s.clients {
        var steps := Scan(now.conn, now.clients, last.1, now.maxFd + 1);
        OpenOrAccepted(now.(clients := now.clients * last.0), steps, fd);
        NoListenerNoAccept(now.conn, now.clients, last.1, now.maxFd + 1, fd);
      }
    }
  }

  // And one turn in which the listener is idle is enough to put it out.
  lemma ListenerIdleOnce(s: State, ready: set<int>, env: int -> Input, rounds: seq<(set<int>, int -> Input)>)
    requires Valid(s) && s.conn !in ready && env(s.conn).fd != s.conn
    ensures Rounds(Round(s, ready, env, true), rounds, true).clients <= Round(s, ready, env, true).clients
  {
    IdleIsDropped(s, ready, env, s.conn);
    RoundKeeps(s, ready, env, true);
    NobodyComesBack(Round(s, ready, env, true), rounds);
  }

  // ---------- What is heard in the loop as written ----------

  // The steps of a number of turns as written.
  function WrittenSteps(s: State, rounds: seq<(set<int>, int -> Input)>): seq<Step> {
    if rounds == [] then []
    else
      var before := rounds[..|rounds| - 1];
      var now := Rounds(s, before, true);
      WrittenSteps(s, before)
        + Scan(now.conn, now.clients, rounds[|rounds| - 1].1, if now.maxFd < 0 then 0 else now.maxFd + 1)
  }

  // A descriptor that is ready in every turn, and never because of a disconnection.
  ghost predicate AlwaysReady(rounds: seq<(set<int>, int -> Input)>, fd: int) {
    forall k :: 0 <= k < |rounds| ==> fd in rounds[k].0 && rounds[k].1(fd).chunk != ""
  }

  lemma {:induction false} ScanPrefix(conn: int, visited: set<int>, env: int -> Input, n: nat, k: nat) returns (m: nat)
    requires k <= |Scan(conn, visited, env, n)|
    ensures m <= n && Scan(conn, visited, env, n)[..k] == Scan(conn, visited, env, m)
  {
    m := n;
    if n > 0 && k < |Scan(conn, visited, env, n)| {
      assert Scan(conn, visited, env, n)[..k] == Scan(conn, visited, env, n - 1)[..k];
      m := ScanPrefix(conn, visited, env, n - 1, k);
    } else {
      assert Scan(conn, visited, env, n)[..k] == Scan(conn, visited, env, n);
    }
  }

  // Who does not disconnect stays open through a scan.
  lemma {:induction false} TalkerStays(s: State, conn: int, visited: set<int>, env: int -> Input, n: nat, fd: int)
    requires fd in s.clients && fd != conn && env(fd).chunk != ""
    ensures fd in Run(s, Scan(conn, visited, env, n)).clients
  {
    if n > 0 {
      TalkerStays(s, conn, visited, env, n - 1, fd);
      RunScanStep(s, conn, visited, env, n - 1);
    }
  }

  lemma TalkerStaysThrough(s: State, visited: set<int>, env: int -> Input, n: nat, fd: int)
    requires Valid(s) && fd in s.clients && fd != s.conn && fd < s.maxFd && env(fd).chunk != ""
    ensures Stays(s, Scan(s.conn, visited, env, n), fd)
  {
    var steps := Scan(s.conn, visited, env, n);
    forall k | 0 <= k < |steps| ensures fd in Run(s, steps[..k]).clients && fd < Run(s, steps[..k]).maxFd {
      var m := ScanPrefix(s.conn, visited, env, n, k);
      TalkerStays(s, s.conn, visited, env, m, fd);
      RunValid(s, steps[..k]);
    }
  }

  lemma {:induction false} HeardAppend(first: seq<Step>, second: seq<Step>, fd: int)
    ensures Heard(first + second, fd) == Heard(first, fd) + Heard(second, fd)
  {
    if second == [] {
      assert first + second == first;
    } else {
      assert (first + second)[..|first + second| - 1] == first + second[..|second| - 1];
      HeardAppend(first, second[..|second| - 1], fd);
    }
  }

  // One turn: whoever is ready hears what the others say in it.
  lemma HearsInTurn(s: State, ready: set<int>, env: int -> Input, fd: int)
    requires Valid(s) && fd in s.clients && fd != s.conn && fd < s.maxFd && fd in ready && env(fd).chunk != ""
    ensures var t := Round(s, ready, env, true);
      && fd in t.clients && fd < t.maxFd
      && Inbox(t.wire, fd) == Inbox(s.wire, fd) + Heard(Scan(s.conn, s.clients, env, s.maxFd + 1), fd)
  {
    var narrowed, steps := s.(clients := s.clients * ready), Scan(s.conn, s.clients, env, s.maxFd + 1);
    TalkerStaysThrough(narrowed, s.clients, env, s.maxFd + 1, fd);
    HearsEveryoneElse(narrowed, steps, fd);
    TalkerStays(narrowed, s.conn, s.clients, env, s.maxFd + 1, fd);
    RunValid(narrowed, steps);
  }

  // Over any number of turns as written in all of which a client is ready, its inbox grows by
  // exactly the chunks of the others, once each and in order.
  lemma {:induction false} ReadyHearsEveryoneElse(s: State, rounds: seq<(set<int>, int -> Input)>, fd: int)
    requires Valid(s) && fd in s.clients && fd != s.conn && fd < s.maxFd && AlwaysReady(rounds, fd)
    ensures var t := Rounds(s, rounds, true);
      && fd in t.clients && fd < t.maxFd
      && Inbox(t.wire, fd) == Inbox(s.wire, fd) + Heard(WrittenSteps(s, rounds), fd)
  {
    if rounds != [] {
      var n := |rounds| - 1;
      var before, last := rounds[..n], rounds[n];
      assert AlwaysReady(before, fd);
      ReadyHearsEveryoneElse(s, before, fd);
      RoundsKeep(s, before, true);
      var now := Rounds(s, before, true);
      assert fd in rounds[n].0 && rounds[n].1(fd).chunk != "";
      HearsInTurn(now, last.0, last.1, fd);
      NextTurn(s, rounds);
      HeardAppend(WrittenSteps(s, before), Scan(now.conn, now.clients, last.1, now.maxFd + 1), fd);
      Joined(Inbox(s.wire, fd), Heard(WrittenSteps(s, before), fd),
             Heard(Scan(now.conn, now.clients, last.1, now.maxFd + 1), fd));
    }
  }

  lemma Joined(a: seq<Sent>, b: seq<Sent>, c: seq<Sent>)
    ensures a + b + c == a + (b + c)
  {
  }

  lemma NextTurn(s: State, rounds: seq<(set<int>, int -> Input)>)
    requires rounds != [] && Valid(Rounds(s, rounds[..|rounds| - 1], true))
    ensures var now, last := Rounds(s, rounds[..|rounds| - 1], true), rounds[|rounds| - 1];
      && Rounds(s, rounds, true) == Round(now, last.0, last.1, true)
      && WrittenSteps(s, rounds)
         == WrittenSteps(s, rounds[..|rounds| - 1]) + Scan(now.conn, now.clients, last.1, now.maxFd + 1)
  {
  }

  // So the loop as written, too, is totally ordered for two clients that are ready in every turn.
  lemma ReadyTotalOrder(s: State, rounds: seq<(set<int>, int -> Input)>, a: int, b: int)
    requires Valid(s) && {a, b} <= s.clients && s.conn !in {a, b} && a < s.maxFd && b < s.maxFd
    requires AlwaysReady(rounds, a) && AlwaysReady(rounds, b)
    ensures var t := Rounds(s, rounds, true);
      && |Inbox(s.wire, a)| <= |Inbox(t.wire, a)| && |Inbox(s.wire, b)| <= |Inbox(t.wire, b)|
      && Others(Since(s, t, a), b) == Others(Since(s, t, b), a)
  {
    var t, steps := Rounds(s, rounds, true), WrittenSteps(s, rounds);
    ReadyHearsEveryoneElse(s, rounds, a);
    ReadyHearsEveryoneElse(s, rounds, b);
    assert Since(s, t, a) == Heard(steps, a) && Since(s, t, b) == Heard(steps, b);
    HeardAlike(steps, a, b);
  }

  // ---------- Two sessions that can happen ----------

  // A listener at 3 and clients accepted as 4 and 5: what 4 says reaches nobody, because 5 is
  // at the maximum.
  lemma LastComerHearsNothing(chunk: string)
    requires chunk != ""
    ensures var s := Apply(Apply(State(3, {3}, 3, []), Accept(4)), Accept(5));
      && s.clients == {3, 4, 5} && Eligible(s, 4, 5)
      && Apply(s, Recv(4, chunk)) == s
  {
    var s := Apply(Apply(State(3, {3}, 3, []), Accept(4)), Accept(5));
    NobodyToRelayTo(s, 4, chunk, 5);
    assert s.wire + [] == s.wire;
  }

  lemma {:induction false} NobodyToRelayTo(s: State, sender: int, chunk: string, n: nat)
    requires forall fd :: 0 <= fd < n ==> !Eligible(s, sender, fd)
    ensures Relay(s, sender, chunk, n) == []
  {
    if n > 0 {
      NobodyToRelayTo(s, sender, chunk, n - 1);
      assert !Eligible(s, sender, n - 1);
    }
  }

  // A listener at 3 and one client at 4 that speaks while nobody knocks: as written, the
  // session has lost its listener.
  lemma ListenerLost(env: int -> Input)
    requires env(3).fd < 0 && env(4).chunk != ""
    ensures var s := Apply(State(3, {3}, 3, []), Accept(4));
      Round(s, {4}, env, true).clients == {4} && Round(s, {4}, env, false).clients == {3, 4}
  {
    ScanOfTwo({3, 4}, env);
    ScanOfTwo({4}, env);
    assert {3, 4} * {4} == {4};
  }

  lemma ScanOfTwo(visited: set<int>, env: int -> Input)
    requires visited == {3, 4} || visited == {4}
    requires env(3).fd < 0 && env(4).chunk != ""
    ensures forall s: State :: s.conn == 3 ==> Run(s, Scan(3, visited, env, 5)).clients == s.clients
  {
    NobodyToVisit(3, visited, env, 3);
    forall s: State | s.conn == 3 ensures Run(s, Scan(3, visited, env, 5)).clients == s.clients {
      RunScanStep(s, 3, visited, env, 3);
      RunScanStep(s, 3, visited, env, 4);
    }
  }

  lemma {:induction false} NobodyToVisit(conn: int, visited: set<int>, env: int -> Input, n: nat)
    requires forall fd :: 0 <= fd < n ==> fd !in visited
    ensures Scan(conn, visited, env, n) == []
  {
    if n > 0 { NobodyToVisit(conn, visited, env, n - 1); }
  }
}
