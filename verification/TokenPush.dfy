/** How the login server pushes one authentication datagram to the chat server or to the
    match server: send it, poll for an acknowledgement, and send it again each time a clock
    reading is more than half a second past the last transmission. */
module TokenPush {

  const RESEND_AFTER: int := 500000
  const MAX_TRIES: int := 10
  const INT_MAX: int := 0x7fff_ffff

  // The elapsed time is computed in a long and stored in a 32-bit int.
  function Int32(x: int): (r: int)
    ensures -0x8000_0000 <= r <= INT_MAX
    ensures -0x8000_0000 <= x <= INT_MAX ==> r == x
    ensures 0 <= x ==> r <= x
  {
    (x + 0x8000_0000) % 0x1_0000_0000 - 0x8000_0000
  }

  // What the environment answers in one turn of the loop: whether an acknowledgement is
  // there, the clock reading, and, when the turn sends again, whether the send works and
  // the clock reading after it.
  datatype Poll = Poll(acked: bool, reading: int, resent: bool, afterResend: int)

  // Waiting is the loop still going on, after the turns it is followed for.
  datatype Outcome = Acked | SendFailed | Exhausted | Waiting

  // ---------- The timeline: when a transmission is due ----------

  // The transmission time that turn k measures from.
  function Base(start: int, polls: nat -> Poll, k: nat): int
    decreases k, 0
  {
    if k == 0 then start
    else if Due(start, polls, k - 1) then polls(k - 1).afterResend
    else Base(start, polls, k - 1)
  }

  predicate Due(start: int, polls: nat -> Poll, k: nat)
    decreases k, 1
  {
    Int32(polls(k).reading - Base(start, polls, k)) > RESEND_AFTER
  }

  function Resends(start: int, polls: nat -> Poll, k: nat): nat {
    if k == 0 then 0
    else Resends(start, polls, k - 1) + if Due(start, polls, k - 1) then 1 else 0
  }

  // The clock as it stands before turn k.
  function Clock(start: int, polls: nat -> Poll, k: nat): int {
    if k == 0 then start else polls(k - 1).reading
  }

  // The clock does not go back in turn k.
  ghost predicate Steady(start: int, polls: nat -> Poll, k: nat) {
    && Clock(start, polls, k) <= polls(k).reading
    && Base(start, polls, k) <= polls(k).reading
    && (Due(start, polls, k) ==> polls(k).reading <= polls(k).afterResend)
  }

  ghost predicate NotGoingBack(start: int, polls: nat -> Poll) {
    forall k: nat :: Steady(start, polls, k)
  }

  // Turn k advances the clock, by at most `jump`, and so does the time a transmission takes.
  ghost predicate AdvancesBy(start: int, polls: nat -> Poll, k: nat, jump: int) {
    && Clock(start, polls, k) < polls(k).reading <= Clock(start, polls, k) + jump
    && (k > 0 && Due(start, polls, k - 1) ==> polls(k - 1).reading <= polls(k - 1).afterResend < polls(k).reading)
  }

  ghost predicate AdvancingBy(start: int, polls: nat -> Poll, jump: int) {
    forall k: nat :: AdvancesBy(start, polls, k, jump)
  }

  // The greatest advance that cannot wrap the 32-bit difference.
  const MAX_JUMP: int := INT_MAX - RESEND_AFTER

  ghost predicate Advances(start: int, polls: nat -> Poll, k: nat) {
    AdvancesBy(start, polls, k, MAX_JUMP)
  }

  ghost predicate Advancing(start: int, polls: nat -> Poll) {
    forall k: nat :: Advances(start, polls, k)
  }

  lemma {:induction false} BaseBounds(start: int, polls: nat -> Poll, k: nat)
    requires Advancing(start, polls)
    ensures Base(start, polls, k) < polls(k).reading
    ensures Clock(start, polls, k) - Base(start, polls, k) <= RESEND_AFTER
    ensures Due(start, polls, k) <==> polls(k).reading - Base(start, polls, k) > RESEND_AFTER
  {
    assert Advances(start, polls, k);
    if k > 0 {
      BaseBounds(start, polls, k - 1);
    }
  }

  // m repeats take more than m half-seconds, by any clock that does not go back.
  lemma {:induction false} ResendsTakeTime(start: int, polls: nat -> Poll, k: nat)
    requires NotGoingBack(start, polls)
    ensures Base(start, polls, k) - start >= (RESEND_AFTER + 1) * Resends(start, polls, k)
  {
    if k > 0 {
      ResendsTakeTime(start, polls, k - 1);
      assert Steady(start, polls, k - 1);
    }
  }

  // How far the clock is past the last transmission.
  function Past(start: int, polls: nat -> Poll, k: nat): nat {
    var d := Clock(start, polls, k) - Base(start, polls, k);
    if d < 0 then 0 else d
  }

  // Each turn takes at least a microsecond off one of the half-seconds.
  lemma {:induction false} TurnsTakeTime(start: int, polls: nat -> Poll, n: nat)
    requires Advancing(start, polls)
    ensures n <= (RESEND_AFTER + 1) * Resends(start, polls, n) + Past(start, polls, n)
    ensures Past(start, polls, n) <= RESEND_AFTER
  {
    BaseBounds(start, polls, n);
    if n > 0 {
      TurnsTakeTime(start, polls, n - 1);
      BaseBounds(start, polls, n - 1);
      assert Advances(start, polls, n - 1) && Advances(start, polls, n);
      if n > 1 { assert Advances(start, polls, n - 2); }
    }
  }

  // ---------- The loop ----------

  // Turn k neither acknowledged nor failed nor ran out of tries.
  ghost predicate Continued(start: int, polls: nat -> Poll, k: nat) {
    && !polls(k).acked
    && (Due(start, polls, k) ==> polls(k).resent)
    && Resends(start, polls, k + 1) <= MAX_TRIES
  }

  ghost predicate KeptGoing(start: int, polls: nat -> Poll, n: nat) {
    forall k: nat :: k < n ==> Continued(start, polls, k)
  }

  // So by this many turns of an advancing clock the loop has stopped.
  const TURNS: nat := (MAX_TRIES + 1) * (RESEND_AFTER + 1)

  lemma StopsInTime(start: int, polls: nat -> Poll, n: nat)
    requires Advancing(start, polls) && KeptGoing(start, polls, n)
    ensures n < TURNS
  {
    TurnsTakeTime(start, polls, n);
    if n > 0 { assert Continued(start, polls, n - 1); }
  }

  // ---------- Exactly how fast a clock the loop can do with ----------

  // Where the stalling clock stands within each round of four turns, in 32-bit terms never more
  // than half a second past the beginning of the round.
  function Phase(r: nat): (t: nat)
    requires r < 4
    ensures Int32(t) <= RESEND_AFTER
  {
    match r
    case 0 => 500000
    case 1 => 0x8000_0000
    case 2 => 0x1_0000_0000 - 500000
    case 3 => 0x1_0000_0000
  }

  // A clock that advances by 500000 and by 2^31 - 500000 microseconds, twice each.
  function StallingPolls(k: nat): Poll {
    var t := (k / 4) * 0x1_0000_0000 + Phase(k % 4);
    Poll(false, t, true, t)
  }

  lemma WholeWraps(m: nat, t: int)
    ensures Int32(m * 0x1_0000_0000 + t) == Int32(t)
  {
    assert (m * 0x1_0000_0000 + t + 0x8000_0000) % 0x1_0000_0000 == (t + 0x8000_0000) % 0x1_0000_0000;
  }

  lemma NextPhase(k: nat)
    ensures if k % 4 == 3 then (k + 1) / 4 == k / 4 + 1 && (k + 1) % 4 == 0
            else (k + 1) / 4 == k / 4 && (k + 1) % 4 == k % 4 + 1
  {
  }

  lemma StallingAdvances(k: nat)
    ensures Clock(0, StallingPolls, k) < StallingPolls(k).reading <= Clock(0, StallingPolls, k) + MAX_JUMP + 1
  {
    if k > 0 { NextPhase(k - 1); }
  }

  lemma StallingElapsed(k: nat)
    ensures Int32(StallingPolls(k).reading) <= RESEND_AFTER
  {
    WholeWraps(k / 4, Phase(k % 4));
  }

  // No reading of the clock looks like more than half a second after 0.
  ghost predicate LooksEarly(polls: nat -> Poll) {
    forall k: nat :: Int32(polls(k).reading) <= RESEND_AFTER
  }

  // By such a clock no turn is ever due, and no try is ever used up.
  lemma {:induction false} NeverDue(polls: nat -> Poll, k: nat)
    requires LooksEarly(polls)
    ensures !Due(0, polls, k) && Resends(0, polls, k) == 0 && Base(0, polls, k) == 0
  {
    if k > 0 { NeverDue(polls, k - 1); }
  }

  lemma StallingNeverDue(k: nat)
    ensures !Due(0, StallingPolls, k) && Resends(0, StallingPolls, k) == 0
  {
    forall i: nat ensures Int32(StallingPolls(i).reading) <= RESEND_AFTER { StallingElapsed(i); }
    NeverDue(StallingPolls, k);
  }

  lemma StallingKeepsGoing(n: nat)
    ensures KeptGoing(0, StallingPolls, n)
  {
    forall k: nat | k < n ensures Continued(0, StallingPolls, k) {
      StallingNeverDue(k);
      StallingNeverDue(k + 1);
    }
  }

  // By every clock that advances each turn by at most `jump` the loop stops in time.
  ghost predicate AlwaysStops(jump: int) {
    forall start, polls, n: nat :: AdvancingBy(start, polls, jump) && KeptGoing(start, polls, n) ==> n < 5_500_011
  }

  // It does so exactly for jumps that cannot wrap the 32-bit difference: one microsecond more,
  // and there is a clock by which it never stops.
  lemma StopsExactly(jump: int)
    ensures AlwaysStops(jump) <==> jump <= 0x7fff_ffff - 500_000
  {
    if jump <= MAX_JUMP {
      forall start, polls, n: nat | AdvancingBy(start, polls, jump) && KeptGoing(start, polls, n) ensures n < TURNS {
        forall k: nat ensures Advances(start, polls, k) { assert AdvancesBy(start, polls, k, jump); }
        StopsInTime(start, polls, n);
      }
    } else {
      forall k: nat ensures AdvancesBy(0, StallingPolls, k, jump) {
        StallingAdvances(k);
        if k > 0 { StallingNeverDue(k - 1); }
      }
      StallingKeepsGoing(TURNS);
    }
  }

  // ---------- The loop as it runs ----------

  ghost predicate StoppedBy(start: int, polls: nat -> Poll, n: nat, o: Outcome) {
    match o
    case Acked => n > 0 && polls(n - 1).acked
    case SendFailed => n > 0 && !polls(n - 1).acked && Due(start, polls, n - 1) && !polls(n - 1).resent
    case Exhausted => n > 0 && !polls(n - 1).acked && Resends(start, polls, n) == MAX_TRIES + 1
    case Waiting => KeptGoing(start, polls, n)
  }

  lemma ExhaustedTakesTime(start: int, polls: nat -> Poll, n: nat)
    requires NotGoingBack(start, polls) && n > 0 && KeptGoing(start, polls, n - 1)
    requires Resends(start, polls, n) == MAX_TRIES + 1
    ensures polls(n - 1).reading - start > (MAX_TRIES + 1) * RESEND_AFTER
  {
    ResendsTakeTime(start, polls, n - 1);
    assert Steady(start, polls, n - 1);
    if n > 1 { assert Continued(start, polls, n - 2); }
  }

  // Both chat_server_auth and match_server_auth, which differ only in the socket, followed for
  // at most `limit` turns of their loop, whatever the clock does.
  method Push(contents: string, firstSent: bool, start: int, polls: nat -> Poll, limit: nat)
    returns (ok: bool, wire: seq<string>, turns: nat, ghost outcome: Outcome)
    ensures forall i :: 0 <= i < |wire| ==> wire[i] == contents
    ensures |wire| <= 12
    ensures !firstSent ==> wire == [] && turns == 0 && outcome == SendFailed
    ensures firstSent ==> turns <= limit && StoppedBy(start, polls, turns, outcome)
    ensures firstSent ==> if outcome == Waiting then turns == limit else KeptGoing(start, polls, turns - 1)
    ensures firstSent ==>
              |wire| == 1 + Resends(start, polls, if outcome.Exhausted? || outcome.Waiting? then turns else turns - 1)
    ensures ok <==> outcome == Acked
    ensures outcome == Exhausted ==> |wire| == 12
    ensures outcome == Exhausted && NotGoingBack(start, polls) ==> polls(turns - 1).reading - start > 5_500_000
    ensures Advancing(start, polls) && limit >= 5_500_011 ==> outcome != Waiting
  {
    wire, turns, ok, outcome := [], 0, false, SendFailed;
    if !firstSent {
      return;
    }
    wire := [contents];
    var tries := 0;
    var t0 := start;
    while turns < limit
      invariant t0 == Base(start, polls, turns)
      invariant turns <= limit
      invariant tries == Resends(start, polls, turns) <= MAX_TRIES
      invariant KeptGoing(start, polls, turns)
      invariant |wire| == 1 + tries && forall i :: 0 <= i < |wire| ==> wire[i] == contents
    {
      var p := polls(turns);
      turns := turns + 1;
      if p.acked {
        ok, outcome := true, Acked;
        return;
      }
      var elapsed := Int32(p.reading - t0);
      if elapsed > RESEND_AFTER {
        tries := tries + 1;
        if !p.resent {
          return;
        }
        wire := wire + [contents];
        t0 := p.afterResend;
      }
      if tries > MAX_TRIES {
        outcome := Exhausted;
        if NotGoingBack(start, polls) { ExhaustedTakesTime(start, polls, turns); }
        return;
      }
      assert Continued(start, polls, turns - 1);
    }
    outcome := Waiting;
    if Advancing(start, polls) { StopsInTime(start, polls, turns); }
  }
}
