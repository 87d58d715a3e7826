/** A match server and its running rating: an integer nudged towards each newcomer's rating by
    their difference divided by the number of clients. */
module MatchServer {

  const CLIENTS_PER_SERVER: nat := 10
  const INT_MAX: int := 0x7fff_ffff
  const INT_MIN: int := -0x8000_0000

  // ---------- The division ----------

  // Division of ints as meant: towards zero.
  function Truncated(a: int, n: nat): int
    requires n > 0
  {
    if a >= 0 then a / n else -((-a) / n)
  }

  // Division as written: the divisor is an unsigned size of 32 or 64 bits, so the dividend is
  // converted to that type first.
  function Unsigned(a: int, n: nat, modulus: nat): nat
    requires n > 0 && modulus > 0
  {
    (a % modulus) / n
  }

  const MODULUS_32: nat := 0x1_0000_0000
  const MODULUS_64: nat := 0x1_0000_0000_0000_0000

  // The quotient goes through a double back to int. Out of range, that conversion yields
  // nothing in particular: whatever the platform makes of it.
  function Addition(a: int, n: nat, modulus: nat, outOfRange: int): int
    requires n > 0 && modulus > 0
  {
    if Unsigned(a, n, modulus) <= INT_MAX then Unsigned(a, n, modulus) else outOfRange
  }

  // For both sizes, what is written is what is meant, independently of the platform's whim,
  // if and only if the difference is not negative.
  lemma AdditionExact(a: int, n: nat, modulus: nat)
    requires INT_MIN <= a <= INT_MAX && 2 <= n <= CLIENTS_PER_SERVER
    requires modulus == MODULUS_32 || modulus == MODULUS_64
    ensures (forall w: int :: Addition(a, n, modulus, w) == Truncated(a, n)) <==> a >= 0
  {
    Wraps(a, modulus);
    if a >= 0 {
      QuotientFacts(a, n);
    } else {
      QuotientFacts(-a, n);
      QuotientPositive(modulus + a, n);
      assert Addition(a, n, modulus, 1) > 0;
    }
  }

  lemma Wraps(a: int, modulus: nat)
    requires INT_MIN <= a <= INT_MAX && (modulus == MODULUS_32 || modulus == MODULUS_64)
    ensures a % modulus == if a >= 0 then a else modulus + a
  {
    if modulus == MODULUS_32 {
      assert a % MODULUS_32 == if a >= 0 then a else MODULUS_32 + a;
    } else {
      assert a % MODULUS_64 == if a >= 0 then a else MODULUS_64 + a;
    }
  }

  lemma QuotientFacts(b: nat, n: nat)
    requires n > 0
    ensures 0 <= b - n * (b / n) <= n - 1
    ensures 0 <= b / n <= b
  {
    DivMod(b, n);
    FactorSmaller(n, b / n, b);
  }

  lemma DivMod(b: nat, n: nat)
    requires n > 0
    ensures b == n * (b / n) + b % n
    ensures b / n >= 0
  {
  }

  lemma FactorSmaller(n: nat, q: nat, b: nat)
    requires n > 0 && n * q <= b
    ensures q <= b
  {
    assert n * q == q + (n - 1) * q;
  }

  lemma QuotientPositive(b: nat, n: nat)
    requires 0 < n <= b
    ensures b / n > 0
  {
    QuotientFacts(b, n);
    assert b / n != 0;
  }

  // ---------- The server ----------

  datatype State = State(clients: seq<int>, elo: int)

  // The rating starts out unassigned.
  function Initial(elo: int): State {
    State([], elo)
  }

  function Added(s: State, rating: int, modulus: nat, outOfRange: int): State
    requires modulus > 0
  {
    if |s.clients| == CLIENTS_PER_SERVER then s
    else if s.clients == [] then State([rating], rating)
    else State(s.clients + [rating], s.elo + Addition(rating - s.elo, |s.clients| + 1, modulus, outOfRange))
  }

  // The same with the division as meant.
  function AddedAsMeant(s: State, rating: int): State {
    if |s.clients| == CLIENTS_PER_SERVER then s
    else if s.clients == [] then State([rating], rating)
    else State(s.clients + [rating], s.elo + Truncated(rating - s.elo, |s.clients| + 1))
  }

  class Server {
    var clients: seq<int>
    var serverELO: int

    ghost function Value(): State
      reads this
    {
      State(clients, serverELO)
    }

    constructor (unassigned: int)
      ensures Value() == Initial(unassigned)
    {
      clients, serverELO := [], unassigned;
    }

    method AddClient(rating: int, modulus: nat, outOfRange: int) returns (ok: bool)
      requires modulus > 0
      modifies this
      ensures ok <==> |old(clients)| != 10
      ensures Value() == Added(old(Value()), rating, modulus, outOfRange)
    {
      if |clients| == CLIENTS_PER_SERVER {
        return false;
      }
      clients := clients + [rating];
      RecalculateELO(rating, modulus, outOfRange);
      return true;
    }

    method RecalculateELO(newValue: int, modulus: nat, outOfRange: int)
      requires clients != [] && modulus > 0
      modifies this`serverELO
      ensures serverELO == if |clients| == 1 then newValue
                           else old(serverELO) + Addition(newValue - old(serverELO), |clients|, modulus, outOfRange)
    {
      if |clients| == 1 {
        serverELO := newValue;
      } else {
        var addition := Addition(newValue - serverELO, |clients|, modulus, outOfRange);
        serverELO := serverELO + addition;
      }
    }
  }

  // ---------- Runs of attempted additions ----------

  function RunWritten(ratings: seq<int>, start: int, modulus: nat, w: nat -> int): State
    requires modulus > 0
  {
    if ratings == [] then Initial(start)
    else
      var n := |ratings| - 1;
      Added(RunWritten(ratings[..n], start, modulus, w), ratings[n], modulus, w(n))
  }

  function RunMeant(ratings: seq<int>, start: int): State {
    if ratings == [] then Initial(start)
    else AddedAsMeant(RunMeant(ratings[..|ratings| - 1], start), ratings[|ratings| - 1])
  }

  // Newcomer number k does not lower a rating that is being divided for.
  ghost predicate NotBelow(ratings: seq<int>, start: int, k: int) {
    0 <= k < |ratings| ==>
      var s := RunMeant(ratings[..k], start);
      0 < |s.clients| < CLIENTS_PER_SERVER ==> ratings[k] >= s.elo
  }

  ghost predicate IntDifferences(ratings: seq<int>, start: int) {
    forall k :: 0 <= k < |ratings| ==> INT_MIN <= ratings[k] - RunMeant(ratings[..k], start).elo <= INT_MAX
  }

  ghost predicate SameSoFar(ratings: seq<int>, start: int, modulus: nat, k: int)
    requires modulus > 0
  {
    0 <= k <= |ratings| ==>
      forall w :: RunWritten(ratings[..k], start, modulus, w) == RunMeant(ratings[..k], start)
  }

  // The clients are the first ten who tried, in order, however the division comes out.
  function FirstTen(ratings: seq<int>): seq<int> {
    if |ratings| <= 10 then ratings else ratings[..10]
  }

  lemma {:induction false} RunClients(ratings: seq<int>, start: int)
    ensures RunMeant(ratings, start).clients == FirstTen(ratings)
  {
    if ratings != [] {
      RunClients(ratings[..|ratings| - 1], start);
      FirstTenStep(ratings);
    }
  }

  lemma {:induction false} WrittenClients(ratings: seq<int>, start: int, modulus: nat, w: nat -> int)
    requires modulus > 0
    ensures RunWritten(ratings, start, modulus, w).clients == FirstTen(ratings)
  {
    if ratings != [] {
      WrittenClients(ratings[..|ratings| - 1], start, modulus, w);
      FirstTenStep(ratings);
    }
  }

  lemma FirstTenStep(ratings: seq<int>)
    requires ratings != []
    ensures var before := FirstTen(ratings[..|ratings| - 1]);
      FirstTen(ratings) == if |before| == CLIENTS_PER_SERVER then before else before + [ratings[|ratings| - 1]]
  {
    var n := |ratings| - 1;
    if n < CLIENTS_PER_SERVER {
      assert ratings == ratings[..n] + [ratings[n]];
    } else {
      assert ratings[..n][..CLIENTS_PER_SERVER] == ratings[..CLIENTS_PER_SERVER];
    }
  }

  lemma AddedSame(s: State, rating: int, modulus: nat)
    requires modulus == MODULUS_32 || modulus == MODULUS_64
    requires |s.clients| <= CLIENTS_PER_SERVER && INT_MIN <= rating - s.elo <= INT_MAX
    ensures (forall v :: Added(s, rating, modulus, v) == AddedAsMeant(s, rating))
       <==> (0 < |s.clients| < CLIENTS_PER_SERVER ==> rating >= s.elo)
  {
    if 0 < |s.clients| < CLIENTS_PER_SERVER {
      var a, n := rating - s.elo, |s.clients| + 1;
      AdditionExact(a, n, modulus);
      if a < 0 {
        var v :| Addition(a, n, modulus, v) != Truncated(a, n);
        assert Added(s, rating, modulus, v) != AddedAsMeant(s, rating);
      }
    }
  }

  lemma RunWrittenStep(ratings: seq<int>, start: int, modulus: nat, k: nat, w: nat -> int)
    requires modulus > 0 && k < |ratings| && SameSoFar(ratings, start, modulus, k)
    ensures RunWritten(ratings[..k + 1], start, modulus, w)
         == Added(RunMeant(ratings[..k], start), ratings[k], modulus, w(k))
  {
    assert ratings[..k + 1][..k] == ratings[..k];
    assert RunWritten(ratings[..k], start, modulus, w) == RunMeant(ratings[..k], start);
  }

  lemma RunMeantStep(ratings: seq<int>, start: int, k: nat)
    requires k < |ratings|
    ensures RunMeant(ratings[..k + 1], start) == AddedAsMeant(RunMeant(ratings[..k], start), ratings[k])
    ensures |RunMeant(ratings[..k], start).clients| <= CLIENTS_PER_SERVER
  {
    assert ratings[..k + 1][..k] == ratings[..k];
    RunClients(ratings[..k], start);
  }

  // While the two agree, they go on agreeing over the next newcomer if and only if both
  // additions come out the same whatever an out-of-range conversion yields.
  lemma SameAfter(ratings: seq<int>, start: int, modulus: nat, k: nat)
    requires modulus > 0 && k < |ratings| && SameSoFar(ratings, start, modulus, k)
    requires var s := RunMeant(ratings[..k], start);
      forall v :: Added(s, ratings[k], modulus, v) == AddedAsMeant(s, ratings[k])
    ensures SameSoFar(ratings, start, modulus, k + 1)
  {
    RunMeantStep(ratings, start, k);
    var upto := ratings[..k + 1];
    forall w ensures RunWritten(upto, start, modulus, w) == RunMeant(upto, start) {
      RunWrittenStep(ratings, start, modulus, k, w);
    }
  }

  lemma DifferAfter(ratings: seq<int>, start: int, modulus: nat, k: nat, v: int)
    requires modulus > 0 && k < |ratings| && SameSoFar(ratings, start, modulus, k)
    requires var s := RunMeant(ratings[..k], start); Added(s, ratings[k], modulus, v) != AddedAsMeant(s, ratings[k])
    ensures !SameSoFar(ratings, start, modulus, k + 1)
  {
    RunMeantStep(ratings, start, k);
    var w := (i: nat) => v;
    RunWrittenStep(ratings, start, modulus, k, w);
    assert RunWritten(ratings[..k + 1], start, modulus, w) != RunMeant(ratings[..k + 1], start);
  }

  lemma StepSame(ratings: seq<int>, start: int, modulus: nat, k: nat)
    requires modulus == MODULUS_32 || modulus == MODULUS_64
    requires k < |ratings| && IntDifferences(ratings, start) && SameSoFar(ratings, start, modulus, k)
    ensures SameSoFar(ratings, start, modulus, k + 1) <==> NotBelow(ratings, start, k)
  {
    var s := RunMeant(ratings[..k], start);
    RunMeantStep(ratings, start, k);
    AddedSame(s, ratings[k], modulus);
    if NotBelow(ratings, start, k) {
      SameAfter(ratings, start, modulus, k);
    } else {
      var v :| Added(s, ratings[k], modulus, v) != AddedAsMeant(s, ratings[k]);
      DifferAfter(ratings, start, modulus, k, v);
    }
  }

  // A run of the code as written agrees at every point with the run as meant, whatever
  // out-of-range conversions yield, if and only if no newcomer is rated below the server.
  lemma WrittenIsMeantExactly(ratings: seq<int>, start: int, modulus: nat)
    requires modulus == MODULUS_32 || modulus == MODULUS_64
    requires IntDifferences(ratings, start)
    ensures (forall k :: SameSoFar(ratings, start, modulus, k)) <==> (forall k :: NotBelow(ratings, start, k))
  {
    if forall k :: SameSoFar(ratings, start, modulus, k) {
      forall k ensures NotBelow(ratings, start, k) {
        if 0 <= k < |ratings| {
          assert SameSoFar(ratings, start, modulus, k) && SameSoFar(ratings, start, modulus, k + 1);
          StepSame(ratings, start, modulus, k);
        }
      }
    }
    if forall k :: NotBelow(ratings, start, k) {
      forall k ensures SameSoFar(ratings, start, modulus, k) {
        if 0 <= k <= |ratings| { SameUpTo(ratings, start, modulus, k); }
      }
    }
  }

  lemma {:induction false} SameUpTo(ratings: seq<int>, start: int, modulus: nat, k: nat)
    requires modulus == MODULUS_32 || modulus == MODULUS_64
    requires IntDifferences(ratings, start) && k <= |ratings|
    requires forall j :: j < k ==> NotBelow(ratings, start, j)
    ensures SameSoFar(ratings, start, modulus, k)
  {
    if k > 0 {
      SameUpTo(ratings, start, modulus, k - 1);
      assert NotBelow(ratings, start, k - 1);
      StepSame(ratings, start, modulus, k - 1);
    }
  }

  // ---------- How far the running rating is from the mean ----------

  function Sum(xs: seq<int>): int {
    if xs == [] then 0 else Sum(xs[..|xs| - 1]) + xs[|xs| - 1]
  }

  lemma TruncationLoss(a: int, n: nat)
    requires n > 0
    ensures -(n - 1) <= a - n * Truncated(a, n) <= n - 1
    ensures a >= 0 ==> 0 <= Truncated(a, n) <= a
    ensures a <= 0 ==> a <= Truncated(a, n) <= 0
  {
    var b := if a >= 0 then a else -a;
    QuotientFacts(b, n);
    assert n * -(b / n) == -(n * (b / n));
  }

  // The rating lies between the ratings of two of the clients.
  ghost predicate Enclosed(s: State) {
    exists i, j :: 0 <= i < |s.clients| && 0 <= j < |s.clients| && s.clients[i] <= s.elo <= s.clients[j]
  }

  // n times the distance from the mean.
  function Error(s: State): int {
    |s.clients| * s.elo - Sum(s.clients)
  }

  // |n * elo - sum| <= n * (n - 1) / 2.
  ghost predicate NearMean(s: State) {
    -(|s.clients| * (|s.clients| - 1)) <= 2 * Error(s) <= |s.clients| * (|s.clients| - 1)
  }

  // With n clients the rating is within (n - 1) / 2 of their mean, and between the least and
  // the greatest of them; and there are never more than ten.
  lemma {:induction false} RatingNearMean(ratings: seq<int>, start: int)
    requires ratings != []
    ensures var s := RunMeant(ratings, start);
      && 0 < |s.clients| <= 10
      && NearMean(s) && Enclosed(s)
  {
    var before, v := RunMeant(ratings[..|ratings| - 1], start), ratings[|ratings| - 1];
    if |ratings| == 1 {
      assert Sum([v]) == Sum([v][..0]) + v;
      assert RunMeant(ratings, start).clients[0] == v;
    } else {
      RatingNearMean(ratings[..|ratings| - 1], start);
      if |before.clients| < CLIENTS_PER_SERVER {
        StepError(before, v);
        StepEnclosed(before, v);
      }
    }
  }

  lemma SumAppend(xs: seq<int>, v: int)
    ensures Sum(xs + [v]) == Sum(xs) + v
  {
    assert (xs + [v])[..|xs|] == xs;
  }

  // How an addition changes the error: by the newcomer's difference and n times what was added.
  lemma ErrorAfter(s: State, v: int, t: int)
    ensures Error(State(s.clients + [v], s.elo + t)) == Error(s) - (v - s.elo) + (|s.clients| + 1) * t
  {
    SumAppend(s.clients, v);
    Distribute(|s.clients|, s.elo, t);
  }

  lemma Distribute(n: nat, elo: int, t: int)
    ensures (n + 1) * (elo + t) == n * elo + elo + (n + 1) * t
  {
  }

  lemma NextTriangle(n: nat)
    ensures (n + 1) * n == n * (n - 1) + 2 * n
  {
  }

  lemma StepError(before: State, v: int)
    requires 0 < |before.clients| < CLIENTS_PER_SERVER
    requires NearMean(before)
    ensures NearMean(AddedAsMeant(before, v))
  {
    var n := |before.clients|;
    TruncationLoss(v - before.elo, n + 1);
    ErrorAfter(before, v, Truncated(v - before.elo, n + 1));
    NextTriangle(n);
  }

  lemma StepEnclosed(before: State, v: int)
    requires 0 < |before.clients| < CLIENTS_PER_SERVER && Enclosed(before)
    ensures Enclosed(AddedAsMeant(before, v))
  {
    var n, s := |before.clients|, AddedAsMeant(before, v);
    var i, j :| 0 <= i < n && 0 <= j < n && before.clients[i] <= before.elo <= before.clients[j];
    TruncationLoss(v - before.elo, n + 1);
    assert s.clients[i] == before.clients[i] && s.clients[j] == before.clients[j] && s.clients[n] == v;
    if v >= before.elo {
      assert s.clients[i] <= s.elo <= s.clients[n];
    } else {
      assert s.clients[n] <= s.elo <= s.clients[j];
    }
  }

  // So is the rating as written, of every run in which no newcomer is rated below the server.
  lemma WrittenNearMean(ratings: seq<int>, start: int, modulus: nat, w: nat -> int)
    requires modulus == MODULUS_32 || modulus == MODULUS_64
    requires ratings != [] && IntDifferences(ratings, start)
    requires forall k :: NotBelow(ratings, start, k)
    ensures var s := RunWritten(ratings, start, modulus, w);
      && 0 < |s.clients| <= 10
      && NearMean(s) && Enclosed(s)
  {
    SameUpTo(ratings, start, modulus, |ratings|);
    assert ratings[..|ratings|] == ratings;
    RatingNearMean(ratings, start);
  }

  // ---------- Exactly when the rating as written stays near the mean ----------

  // What the first k newcomers leave is near their mean, whatever out-of-range conversions yield.
  ghost predicate NearMeanAt(ratings: seq<int>, start: int, modulus: nat, k: int)
    requires modulus > 0
  {
    0 <= k <= |ratings| ==> forall w :: NearMean(RunWritten(ratings[..k], start, modulus, w))
  }

  // The quotient of a negative difference, or what an out-of-range conversion may yield for it.
  lemma LargeAddition(a: int, n: nat, modulus: nat)
    requires modulus == MODULUS_32 || modulus == MODULUS_64
    requires INT_MIN <= a < 0 && 2 <= n <= CLIENTS_PER_SERVER
    ensures Addition(a, n, modulus, INT_MAX) >= 1000
  {
    Wraps(a, modulus);
    LargeQuotient(modulus + a, n);
  }

  lemma LargeQuotient(b: nat, n: nat)
    requires 0x8000_0000 <= b && 2 <= n <= CLIENTS_PER_SERVER
    ensures b / n >= 1000
  {
    QuotientFacts(b, n);
    if b / n < 1000 { TimesAtMost(n, b / n); }
  }

  lemma TimesAtMost(n: nat, q: nat)
    requires n <= CLIENTS_PER_SERVER && q < 1000
    ensures n * q <= 10000
  {
    assert n * q <= 10 * q;
  }

  lemma TimesAtLeast(n: nat, q: nat)
    requires 2 <= n && 1000 <= q
    ensures n * q >= 2000
  {
    assert n * q >= 2 * q;
  }

  lemma SmallTriangle(n: nat)
    requires n <= CLIENTS_PER_SERVER
    ensures n * (n - 1) <= 90
  {
    assert n * (n - 1) <= 10 * 9;
  }

  // With 32-bit sizes such a quotient is never out of range.
  lemma InRange32(a: int, n: nat, o: int)
    requires INT_MIN <= a < 0 && 2 <= n <= CLIENTS_PER_SERVER
    ensures Addition(a, n, MODULUS_32, o) == Addition(a, n, MODULUS_32, INT_MAX)
  {
    Wraps(a, MODULUS_32);
    QuotientFacts(MODULUS_32 + a, n);
    HalfAtMost(n, (MODULUS_32 + a) / n, MODULUS_32 + a);
  }

  lemma HalfAtMost(n: nat, q: nat, b: nat)
    requires 2 <= n && n * q <= b
    ensures 2 * q <= b
  {
    assert n * q == 2 * q + (n - 2) * q;
  }

  lemma LargeBreaks(s: State, v: int, q: int)
    requires 0 < |s.clients| < CLIENTS_PER_SERVER && NearMean(s) && v < s.elo && q >= 1000
    ensures !NearMean(State(s.clients + [v], s.elo + q))
  {
    var n := |s.clients| + 1;
    ErrorAfter(s, v, q);
    TimesAtLeast(n, q);
    SmallTriangle(n);
    SmallTriangle(n - 1);
  }

  // One newcomer rated below the server is enough to take the rating away from the mean: with
  // 32-bit sizes always, and with 64-bit ones for some result of the conversion.
  lemma LowerBreaks(s: State, v: int, modulus: nat)
    requires modulus == MODULUS_32 || modulus == MODULUS_64
    requires 0 < |s.clients| < CLIENTS_PER_SERVER && NearMean(s) && INT_MIN <= v - s.elo < 0
    ensures !NearMean(Added(s, v, modulus, INT_MAX))
    ensures modulus == MODULUS_32 ==> forall o :: !NearMean(Added(s, v, modulus, o))
  {
    var n := |s.clients| + 1;
    LargeAddition(v - s.elo, n, modulus);
    LargeBreaks(s, v, Addition(v - s.elo, n, modulus, INT_MAX));
    if modulus == MODULUS_32 {
      forall o ensures Added(s, v, modulus, o) == Added(s, v, modulus, INT_MAX) {
        InRange32(v - s.elo, n, o);
      }
    }
  }

  lemma LowerBreaksRun(ratings: seq<int>, start: int, modulus: nat, k: nat)
    requires modulus == MODULUS_32 || modulus == MODULUS_64
    requires k < |ratings| && IntDifferences(ratings, start) && SameSoFar(ratings, start, modulus, k)
    requires NearMeanAt(ratings, start, modulus, k) && !NotBelow(ratings, start, k)
    ensures !NearMeanAt(ratings, start, modulus, k + 1)
  {
    var s := RunMeant(ratings[..k], start);
    var w := (i: nat) => INT_MAX;
    RunWrittenStep(ratings, start, modulus, k, w);
    assert RunWritten(ratings[..k], start, modulus, w) == s;
    LowerBreaks(s, ratings[k], modulus);
    assert !NearMean(RunWritten(ratings[..k + 1], start, modulus, w));
  }

  lemma {:induction false} NobodyBelowUpTo(ratings: seq<int>, start: int, modulus: nat, k: nat)
    requires modulus == MODULUS_32 || modulus == MODULUS_64
    requires k <= |ratings| && IntDifferences(ratings, start)
    requires forall i :: NearMeanAt(ratings, start, modulus, i)
    ensures forall j :: j < k ==> NotBelow(ratings, start, j)
  {
    if k > 0 {
      NobodyBelowUpTo(ratings, start, modulus, k - 1);
      SameUpTo(ratings, start, modulus, k - 1);
      assert NearMeanAt(ratings, start, modulus, k - 1) && NearMeanAt(ratings, start, modulus, k);
      if !NotBelow(ratings, start, k - 1) { LowerBreaksRun(ratings, start, modulus, k - 1); }
    }
  }

  lemma NearMeanUpTo(ratings: seq<int>, start: int, modulus: nat, k: nat)
    requires modulus == MODULUS_32 || modulus == MODULUS_64
    requires k <= |ratings| && IntDifferences(ratings, start)
    requires forall j :: NotBelow(ratings, start, j)
    ensures NearMeanAt(ratings, start, modulus, k)
  {
    SameUpTo(ratings, start, modulus, k);
    if k > 0 { RatingNearMean(ratings[..k], start); }
    var upto := ratings[..k];
    forall w ensures NearMean(RunWritten(upto, start, modulus, w)) {
      assert RunWritten(upto, start, modulus, w) == RunMeant(upto, start);
    }
  }

  // For both sizes, the rating as written stays within (n - 1) / 2 of the mean throughout a run,
  // whatever out-of-range conversions yield, if and only if no newcomer is rated below the server.
  lemma NearMeanExactly(ratings: seq<int>, start: int, modulus: nat)
    requires modulus == MODULUS_32 || modulus == MODULUS_64
    requires IntDifferences(ratings, start)
    ensures (forall k :: NearMeanAt(ratings, start, modulus, k)) <==> (forall k :: NotBelow(ratings, start, k))
  {
    if forall k :: NearMeanAt(ratings, start, modulus, k) {
      NobodyBelowUpTo(ratings, start, modulus, |ratings|);
      assert forall k :: k >= |ratings| ==> NotBelow(ratings, start, k);
    }
    if forall k :: NotBelow(ratings, start, k) {
      forall k ensures NearMeanAt(ratings, start, modulus, k) {
        if 0 <= k <= |ratings| { NearMeanUpTo(ratings, start, modulus, k); }
      }
    }
  }

  // A second client rated one below the first: the rating as meant stays, and the rating as
  // written jumps by INT_MAX where sizes have 32 bits, and to anywhere where they have 64.
  lemma LowerNewcomer(rating: int, outOfRange: int)
    ensures AddedAsMeant(State([rating], rating), rating - 1).elo == rating
    ensures Added(State([rating], rating), rating - 1, MODULUS_32, outOfRange).elo == rating + INT_MAX
    ensures Added(State([rating], rating), rating - 1, MODULUS_64, outOfRange).elo == rating + outOfRange
  {
    Wraps(-1, MODULUS_32);
    Wraps(-1, MODULUS_64);
  }
}
