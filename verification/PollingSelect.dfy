/**
 `SOCK_API::select` of src/lib/socket_api.cpp (lines 339-415), which waits on TCP and UDT sockets at
 once by asking the two underlying selects in turn, with a growing wait, until the timeout is used up;
 the descriptor sets it works on (lines 14-41); and the numbering that tells the two kinds of sockets
 apart (src/include/socket_api.h lines 28-36).
 */
module PollingSelect {
  import opened Basics

  // ---------------------------------------------------------------- descriptors

  datatype Proto = TCP | UDT

  const UDT_FD_BASE: int := 0xFFFFFF

  function GetSockType(sd: int): Proto {
    if sd < UDT_FD_BASE then TCP else UDT
  }

  function GetSockFd(sd: int): int {
    if sd < UDT_FD_BASE then sd else sd - UDT_FD_BASE
  }

  function EmbedSockFd(sd: int, proto: Proto): int {
    if proto == UDT then sd + UDT_FD_BASE else sd
  }

  /** Taking a descriptor apart gives back what it was made of, for every UDT handle from 0 and exactly
      for the TCP descriptors below the base; so two descriptors are the same only if both parts are. */
  lemma EmbeddingRoundTrip(sd: int, proto: Proto)
    requires sd >= 0
    ensures GetSockFd(EmbedSockFd(sd, proto)) == sd && GetSockType(EmbedSockFd(sd, proto)) == proto
            <==> proto == UDT || sd < UDT_FD_BASE
  {
  }

  /** The two halves of a descriptor set, as a value. */
  datatype Sets = Sets(fds: set<int>, uds: set<int>) {
    predicate Has(sd: int) {
      if sd < UDT_FD_BASE then sd in fds else sd - UDT_FD_BASE in uds
    }
  }

  const NO_SETS := Sets({}, {})

  /** Each half of a set is for the handles of its own kind. */
  lemma MembersByKind(s: Sets, handle: int)
    requires 0 <= handle < UDT_FD_BASE
    ensures s.Has(EmbedSockFd(handle, TCP)) <==> handle in s.fds
    ensures s.Has(EmbedSockFd(handle, UDT)) <==> handle in s.uds
  {
  }

  function Meet(a: Sets, b: Sets): Sets {
    Sets(a.fds * b.fds, a.uds * b.uds)
  }

  class FdSet {
    var fds: set<int>
    var uds: set<int>

    function Value(): Sets
      reads this
    {
      Sets(fds, uds)
    }

    constructor ()
      ensures Value() == NO_SETS
    {
      fds, uds := {}, {};
    }

    method Zero()
      modifies this
      ensures Value() == NO_SETS
    {
      fds, uds := {}, {};
    }

    method Set(sd: int)
      modifies this
      ensures forall x :: Value().Has(x) <==> x == sd || old(Value()).Has(x)
    {
      if sd < UDT_FD_BASE {
        fds := fds + {sd};
      } else {
        uds := uds + {sd - UDT_FD_BASE};
      }
    }

    method Clr(sd: int)
      modifies this
      ensures forall x :: Value().Has(x) <==> x != sd && old(Value()).Has(x)
    {
      if sd < UDT_FD_BASE {
        fds := fds - {sd};
      } else {
        uds := uds - {sd - UDT_FD_BASE};
      }
    }

    method IsSet(sd: int) returns (b: bool)
      ensures b <==> Value().Has(sd)
    {
      b := if sd < UDT_FD_BASE then sd in fds else sd - UDT_FD_BASE in uds;
    }

    /** Assignment of one FDSET to another. */
    method Assign(s: Sets)
      modifies this
      ensures Value() == s
    {
      fds, uds := s.fds, s.uds;
    }
  }

  // ---------------------------------------------------------------- the rounds

  /** C division. */
  function CDiv(a: int, b: int): int
    requires b > 0
  {
    if a >= 0 then a / b else -(-a / b)
  }

  /** The time budget u, 0 without a timeout (line 354). */
  function Budget(timeout: Option<int>): int {
    if timeout.Some? then timeout.value else 0
  }

  /** The start value m of the wait (lines 353-363). */
  function StartStep(timeout: Option<int>): int {
    if timeout.Some? && timeout.value < 600 then CDiv(CDiv(timeout.value, 2), 3) + 1 else 100
  }

  /** The scale factor goes 0, 1, 3, 3, ... (line 409). */
  function Scale(i: nat): nat {
    if i == 0 then 0 else if i == 1 then 1 else 3
  }

  /** `t_cur` in round i. */
  function Step(m: int, i: nat): int {
    if i == 0 then m else m * Scale(i)
  }

  /** What the first n rounds take off the budget. */
  function Spent(m: int, n: nat): int {
    if n == 0 then 0 else Spent(m, n - 1) + 2 * Step(m, n - 1) + 1
  }

  /** What the first select of round i is asked to wait; the scale factor is applied a second time. */
  function Wait(m: int, i: nat): int {
    Step(m, i) * Scale(i)
  }

  /** The waits of n rounds if both selects of each are given the same time. */
  function Asked(m: int, n: nat): int {
    if n == 0 then 0 else Asked(m, n - 1) + 2 * Wait(m, n - 1)
  }

  /** The answers of one round: the results of the two selects, what they leave in the three sets, and
      what the first leaves in `t`, which the second is then given. */
  datatype Poll = Poll(res1: int, res2: int, r: Sets, w: Sets, e: Sets, left: int)

  /** A select may leave `t` alone or put the time not slept there, but no more than it was given. */
  function SecondWait(wait: int, left: int): int {
    if left < 0 || wait < 0 then 0 else Min(left, wait)
  }

  /** What the two selects of the first n rounds are asked to wait. */
  function Waited(kernel: nat -> Poll, m: int, n: nat): int {
    if n == 0 then 0
    else Waited(kernel, m, n - 1) + Wait(m, n - 1) + SecondWait(Wait(m, n - 1), kernel(n - 1).left)
  }

  predicate Quiet(p: Poll) {
    p.res1 == 0 && p.res2 == 0
  }

  predicate Ready(p: Poll) {
    p.res1 > 0 || p.res2 > 0
  }

  function Positive(n: int): nat {
    if n > 0 then n else 0
  }

  /** What the caller's set holds afterwards. */
  function Left(was: Sets, p: Poll, mask: Sets): Sets {
    if Ready(p) then Meet(was, mask) else NO_SETS
  }

  /** The value returned. */
  function Result(p: Poll): int {
    if Ready(p) then Positive(p.res1) + Positive(p.res2) else if Quiet(p) then 0 else -1
  }

  /** Round n is the last one: it is the first that is not quiet, or the first to exceed the budget. */
  ghost predicate Ends(kernel: nat -> Poll, u: int, m: int, n: nat) {
    && n > 0
    && (forall j :: 0 <= j < n - 1 ==> Quiet(kernel(j)))
    && (forall j :: 0 < j < n ==> Spent(m, j) <= u)
    && (Quiet(kernel(n - 1)) ==> Spent(m, n) > u)
  }

  /** What a round adds, and what the next one starts with. */
  lemma RoundAdds(kernel: nat -> Poll, m: int, i: nat)
    ensures Spent(m, i + 1) == Spent(m, i) + (Step(m, i) * 2 + 1)
    ensures var wait := Step(m, i) * Scale(i);
            Waited(kernel, m, i + 1) == Waited(kernel, m, i) + wait + SecondWait(wait, kernel(i).left)
    ensures Scale(i + 1) == (Scale(i) * 2 + 1) % 4 && Step(m, i + 1) == m * Scale(i + 1)
  {
  }

  lemma RoundZero(kernel: nat -> Poll, m: int)
    ensures Spent(m, 0) == Waited(kernel, m, 0) == 0 && Scale(0) == 0 && Step(m, 0) == m
  {
  }

  lemma StepsTake(m: int, i: nat)
    requires m >= 1
    ensures Step(m, i) >= 1
  {
  }

  /** The loop.  Every round works on fresh copies of the sets, so a quiet round leaves no trace. */
  method PollRounds(timeout: Option<int>, kernel: nat -> Poll) returns (rounds: nat, waited: int)
    ensures Ends(kernel, Budget(timeout), StartStep(timeout), rounds)
    ensures waited == Waited(kernel, StartStep(timeout), rounds)
  {
    var scale, scaleMask := 0, 3;
    var tMin := 100;
    var u := if timeout.Some? then timeout.value else 0;
    var rest := u;
    if timeout.Some? && u < tMin * 2 * scaleMask {
      tMin := CDiv(CDiv(u, 2), scaleMask) + 1;
    }
    StepIsPositive(timeout);
    RoundZero(kernel, tMin);
    hide Spent, Waited, SecondWait, Step, Scale;
    var cur := tMin;
    rounds, waited := 0, 0;
    while true
      invariant scale == Scale(rounds) && cur == Step(tMin, rounds)
      invariant rest == u - Spent(tMin, rounds) && waited == Waited(kernel, tMin, rounds)
      invariant rounds > 0 ==> u >= 0 && rest >= 0
      invariant forall j :: 0 <= j < rounds ==> Quiet(kernel(j))
      invariant forall j :: 0 < j <= rounds ==> Spent(tMin, j) <= u
      decreases rest + 1
    {
      RoundAdds(kernel, tMin, rounds);
      var p := kernel(rounds);
      var t := cur * scale;
      waited := waited + t + SecondWait(t, p.left);
      rest := rest - (cur * 2 + 1);
      rounds := rounds + 1;
      if Ready(p) || p.res1 < 0 || p.res2 < 0 || rest < 0 {
        return;
      }
      StepsTake(tMin, rounds);
      scale := (scale * 2 + 1) % (scaleMask + 1);
      cur := tMin * scale;
    }
  }

  /** The three assignments at the end, in the order of the code. */
  method Deliver(rp: FdSet, wp: FdSet, ep: FdSet, r: Sets, w: Sets, e: Sets)
    modifies rp, wp, ep
    ensures ep.Value() == e
    ensures wp != ep ==> wp.Value() == w
    ensures rp != wp && rp != ep ==> rp.Value() == r
  {
    rp.Assign(r);
    wp.Assign(w);
    ep.Assign(e);
  }

  /** The sets of the caller are answered from what they were at the call, whatever the quiet rounds
      before left in the copies; of several parameters that are the same set the last assignment stays. */
  method Select(rfdsp: FdSet?, wfdsp: FdSet?, efdsp: FdSet?, timeout: Option<int>, kernel: nat -> Poll)
      returns (res: int, rounds: nat, waited: int)
    modifies rfdsp, wfdsp, efdsp
    ensures Ends(kernel, Budget(timeout), StartStep(timeout), rounds)
    ensures waited == Waited(kernel, StartStep(timeout), rounds)
    ensures res == Result(kernel(rounds - 1))
    ensures efdsp != null ==> efdsp.Value() == Left(old(efdsp.Value()), kernel(rounds - 1), kernel(rounds - 1).e)
    ensures wfdsp != null && wfdsp != efdsp ==>
              wfdsp.Value() == Left(old(wfdsp.Value()), kernel(rounds - 1), kernel(rounds - 1).w)
    ensures rfdsp != null && rfdsp != wfdsp && rfdsp != efdsp ==>
              rfdsp.Value() == Left(old(rfdsp.Value()), kernel(rounds - 1), kernel(rounds - 1).r)
  {
    hide Spent, Waited, Step, Scale;
    var zset := new FdSet();
    var rp := if rfdsp == null then zset else rfdsp;
    var wp := if wfdsp == null then zset else wfdsp;
    var ep := if efdsp == null then zset else efdsp;
    rounds, waited := PollRounds(timeout, kernel);
    var p := kernel(rounds - 1);
    if Ready(p) {
      Deliver(rp, wp, ep, Meet(rp.Value(), p.r), Meet(wp.Value(), p.w), Meet(ep.Value(), p.e));
      res := Positive(p.res1) + Positive(p.res2);
    } else {
      Deliver(rp, wp, ep, NO_SETS, NO_SETS, NO_SETS);
      res := if p.res1 == 0 && p.res2 == 0 then 0 else -1;
    }
  }

  /** When a descriptor is ready the sets that come back hold exactly those members that are ready, otherwise
      nothing; and the result is the number of ready ones of both kinds, with the error of one select ignored
      if the other found some, 0 for a timeout, and -1 only if no descriptor is ready and a select failed. */
  lemma ResultAndSets(was: Sets, p: Poll, mask: Sets)
    ensures var left := Left(was, p, mask);
            && left.fds <= was.fds && left.uds <= was.uds
            && (Result(p) > 0 <==> Ready(p))
            && (Result(p) <= 0 ==> left == NO_SETS)
            && (forall sd :: left.Has(sd) <==> was.Has(sd) && mask.Has(sd) && (p.res1 > 0 || p.res2 > 0))
    ensures p.res1 >= 0 && p.res2 >= 0 ==> Result(p) == p.res1 + p.res2
    ensures p.res1 > 0 > p.res2 ==> Result(p) == p.res1
    ensures p.res2 > 0 > p.res1 ==> Result(p) == p.res2
    ensures p.res1 <= 0 && p.res2 <= 0 && (p.res1 < 0 || p.res2 < 0) ==> Result(p) == -1
  {
  }

  // ---------------------------------------------------------------- bounds

  /** A round always takes something off the budget, and a negative budget ends in the first round. */
  lemma StepIsPositive(timeout: Option<int>)
    ensures var m, u := StartStep(timeout), Budget(timeout);
            && (u >= 0 ==> m >= 1 && (timeout.Some? ==> m <= u / 6 + 1))
            && (u < 0 ==> Spent(m, 1) > u)
  {
    var m := StartStep(timeout);
    assert Spent(m, 1) == Spent(m, 0) + 2 * Step(m, 0) + 1;
  }

  /** From the third round on every round takes d = 6m + 1. */
  lemma {:induction false} SpentClosed(m: int, d: int, n: nat)
    requires d == 6 * m + 1
    ensures n >= 2 ==> Spent(m, n) == 4 * m + 2 + (n - 2) * d
    ensures n == 1 ==> Spent(m, n) == 2 * m + 1
  {
    if n > 0 {
      SpentClosed(m, d, n - 1);
      assert Step(m, n - 1) == if n == 1 then m else if n == 2 then m else m * 3;
      if n > 2 {
        assert (n - 2) * d == (n - 3) * d + d;
      }
    }
  }

  function Quotient(a: nat, d: nat): nat
    requires d > 0
  {
    a / d
  }

  lemma QuotientIs(a: nat, d: nat, k: int)
    requires d > 0
    ensures k * d <= a ==> k <= Quotient(a, d)
    ensures a < k * d + d ==> Quotient(a, d) <= k
  {
    var q := Quotient(a, d);
    assert q * d <= a < q * d + d;
    MultipleIsFar(k - q, d);
    assert (k - q) * d == k * d - q * d;
  }

  /** How many rounds a run of quiet answers takes, exactly. */
  function QuietRounds(u: int, m: int): nat
    requires m >= 1
  {
    if u < 2 * m + 1 then 1
    else if u < 4 * m + 2 then 2
    else 3 + Quotient(u - (4 * m + 2), 6 * m + 1)
  }

  lemma RoundCount(u: int, m: int, d: nat, n: nat)
    requires m >= 1 && d == 6 * m + 1 && n >= 3 && 4 * m + 2 + (n - 3) * d <= u
    ensures n <= QuietRounds(u, m)
    ensures u < 4 * m + 2 + (n - 3) * d + d ==> n == QuietRounds(u, m)
  {
    MultipleIsFar(n - 3, d);
    QuotientIs(u - (4 * m + 2), d, n - 3);
    hide Quotient;
  }

  /** The time-out comes after exactly this many rounds. */
  lemma TimeoutRounds(kernel: nat -> Poll, u: int, m: int, n: nat)
    requires m >= 1 && Ends(kernel, u, m, n)
    ensures n <= QuietRounds(u, m)
    ensures Quiet(kernel(n - 1)) ==> n == QuietRounds(u, m)
  {
    var d := 6 * m + 1;
    SpentClosed(m, d, n);
    SpentClosed(m, d, n - 1);
    hide Spent, Quotient;
    if n > 1 {
      assert Spent(m, n - 1) <= u;
    }
    if n > 2 {
      RoundCount(u, m, d, n);
      assert (n - 2) * d == (n - 3) * d + d;
    }
  }

  lemma {:induction false} AskedBySpent(m: int, n: nat)
    requires m >= 1
    ensures n == 1 ==> Asked(m, n) == 0
    ensures n == 2 ==> Asked(m, n) == 2 * m
    ensures n >= 3 ==> Asked(m, n) == 3 * Spent(m, n - 1) + 8 * m - 6 - 3 * (n - 3)
  {
    if n > 0 {
      AskedBySpent(m, n - 1);
      SpentClosed(m, 6 * m + 1, 2);
      assert n > 2 ==> Step(m, n - 1) * Scale(n - 1) == 9 * m;
    }
  }

  /** A round waits once or twice for its time, as the first select leaves `t`. */
  lemma {:induction false} WaitedInRange(kernel: nat -> Poll, m: int, n: nat)
    requires m >= 1
    ensures 0 <= Asked(m, n) <= 2 * Waited(kernel, m, n) <= 2 * Asked(m, n)
  {
    if n > 0 {
      WaitedInRange(kernel, m, n - 1);
      assert Wait(m, n - 1) >= 0;
    }
  }

  /** A select that leaves its timeout argument alone. */
  ghost predicate KeepsTime(kernel: nat -> Poll, m: int, n: nat) {
    forall i :: 0 <= i < n ==> kernel(i).left >= Wait(m, i)
  }

  /** A select that puts the time not slept there, which is 0 after a quiet round. */
  ghost predicate ReportsRest(kernel: nat -> Poll, n: nat) {
    forall i :: 0 <= i < n ==> kernel(i).left == 0
  }

  lemma {:induction false} WaitedExactly(kernel: nat -> Poll, m: int, n: nat)
    requires m >= 1
    ensures KeepsTime(kernel, m, n) ==> Waited(kernel, m, n) == Asked(m, n)
    ensures ReportsRest(kernel, n) ==> 2 * Waited(kernel, m, n) == Asked(m, n)
  {
    if n > 0 {
      WaitedExactly(kernel, m, n - 1);
      assert Wait(m, n - 1) >= 0;
    }
  }

  /** Polling stops after at most u/(2m+1) + 1 rounds and asks for waits of at most 3u + 8m, which is
      at most 3u + 8(u/6) + 8 microseconds, although the scale factor is applied twice. */
  lemma WaitIsBounded(kernel: nat -> Poll, timeout: Option<int>, n: nat)
    requires timeout.Some? && timeout.value >= 0
    requires Ends(kernel, timeout.value, StartStep(timeout), n)
    ensures var u, m := timeout.value, StartStep(timeout);
            && m >= 1 && (n - 1) * (2 * m + 1) <= u
            && 0 <= Waited(kernel, m, n) <= 3 * u + 8 * m <= 3 * u + 8 * (u / 6) + 8
  {
    StepIsPositive(timeout);
    var u, m := timeout.value, StartStep(timeout);
    AskedBySpent(m, n);
    SpentAtLeast(m, n - 1);
    WaitedInRange(kernel, m, n);
    if n > 1 {
      assert Spent(m, n - 1) <= u;
    }
  }

  lemma {:induction false} SpentAtLeast(m: int, n: nat)
    requires m >= 1
    ensures Spent(m, n) >= n * (2 * m + 1)
  {
    if n > 0 {
      SpentAtLeast(m, n - 1);
      assert n * (2 * m + 1) == (n - 1) * (2 * m + 1) + (2 * m + 1);
    }
  }

  /** Without a timeout, or with a negative one, there is one round and it does not wait. */
  lemma NoTimeoutIsOnePoll(kernel: nat -> Poll, timeout: Option<int>, n: nat)
    requires timeout.None? || timeout.value < 0
    requires Ends(kernel, Budget(timeout), StartStep(timeout), n)
    ensures n == 1 && Waited(kernel, StartStep(timeout), n) == 0
  {
    StepIsPositive(timeout);
    var m := StartStep(timeout);
    assert Spent(m, 1) == Spent(m, 0) + 2 * Step(m, 0) + 1;
    assert Wait(m, 0) == 0;
  }

  // ---------------------------------------------------------------- the timeout is not kept

  /** From the third round on, with mk = m(n - 3). */
  lemma {:induction false} LongWaits(m: int, n: nat, mk: int)
    requires m >= 1 && n >= 3 && mk == m * (n - 3)
    ensures Asked(m, n) == 20 * m + 18 * mk
    ensures Spent(m, n - 1) == 4 * m + 2 + 6 * mk + (n - 3)
    ensures Spent(m, n) == 10 * m + 3 + 6 * mk + (n - 3)
  {
    if n == 3 {
      SpentClosed(m, 6 * m + 1, 2);
      AskedBySpent(m, 3);
    } else {
      assert mk - m == m * (n - 4);
      LongWaits(m, n - 1, mk - m);
    }
  }

  /** And that is at least n - 3, twice as much if m is not 1, and at least m if n is not 3. */
  lemma LongFactor(m: int, n: nat)
    requires m >= 1 && n >= 3
    ensures m * (n - 3) >= if m >= 2 then 2 * (n - 3) else n - 3
    ensures n > 3 ==> m * (n - 3) >= m
  {
    MultipleIsFar(n - 3, m);
    MultipleIsFar(m, n - 3);
    MultipleIsFar(m - 1, n - 3);
    assert (m - 1) * (n - 3) == m * (n - 3) - (n - 3);
  }

  /** Sums of one wait per round, or of two, against the timeout, after k + 3 rounds. */
  lemma WaitsCompared(u: int, m: int, k: nat, mk: int)
    requires m >= 1 && mk >= (if m >= 2 then 2 * k else k)
    requires if k == 0 then mk == 0 else mk >= m
    requires 4 * m + 2 + 6 * mk + k <= u < 10 * m + 3 + 6 * mk + k
    ensures u >= 4 * m + 2 && 20 * m + 18 * mk > u
    ensures m >= 2 ==> (10 * m + 9 * mk > u <==> !(10 * m <= u < 10 * m + 3))
  {
  }

  /** When a quiet run waits for more than its timeout u, in terms of u and of the start value m. */
  lemma OvershootBySteps(kernel: nat -> Poll, u: int, m: int, n: nat)
    requires u >= 0 && m >= 1 && Ends(kernel, u, m, n) && Quiet(kernel(n - 1))
    ensures Waited(kernel, m, n) > u ==> u >= 4 * m + 2
    ensures KeepsTime(kernel, m, n) ==> (Waited(kernel, m, n) > u <==> u >= 4 * m + 2)
    ensures m >= 2 && ReportsRest(kernel, n) ==>
              (Waited(kernel, m, n) > u <==> u >= 4 * m + 2 && !(10 * m <= u < 10 * m + 3))
  {
    WaitedInRange(kernel, m, n);
    WaitedExactly(kernel, m, n);
    LastRounds(kernel, u, m, n);
    hide Ends, Waited, Asked, Spent, KeepsTime, ReportsRest, Step, Wait, Scale;
    if n >= 3 {
      var mk := m * (n - 3);
      LongWaits(m, n, mk);
      LongFactor(m, n);
      WaitsCompared(u, m, n - 3, mk);
    } else {
      AskedBySpent(m, n);
      SpentClosed(m, 6 * m + 1, 1);
      SpentClosed(m, 6 * m + 1, 2);
    }
  }

  lemma LastRounds(kernel: nat -> Poll, u: int, m: int, n: nat)
    requires Ends(kernel, u, m, n) && Quiet(kernel(n - 1))
    ensures n > 0 && Spent(m, n) > u
    ensures n > 1 ==> Spent(m, n - 1) <= u
  {
    hide Spent;
  }

  /** The timeouts that the start value is too small for. */
  predicate WaitsTooLong(u: int) {
    u == 10 || u == 11 || u >= 14
  }

  lemma StartStepOf(u: int)
    requires u >= 0
    ensures var m := StartStep(Some(u));
            && m >= 1
            && (u >= 4 * m + 2 <==> WaitsTooLong(u))
            && (u >= 4 * m + 2 ==> m >= 2 && (10 * m <= u < 10 * m + 3 <==> 1000 <= u <= 1002))
  {
  }

  /** A quiet `select` waits for more than its timeout if and only if that is 10, 11 or at least 14
      microseconds, where the system's select leaves `t` alone; where it puts the rest there, with the
      exception of 1000, 1001 and 1002.  Nothing it may leave there makes a smaller timeout too long. */
  lemma OvershootIff(kernel: nat -> Poll, u: int, n: nat)
    requires u >= 0 && Ends(kernel, u, StartStep(Some(u)), n) && Quiet(kernel(n - 1))
    ensures var m := StartStep(Some(u));
            && (Waited(kernel, m, n) > u ==> WaitsTooLong(u))
            && (KeepsTime(kernel, m, n) ==> (Waited(kernel, m, n) > u <==> WaitsTooLong(u)))
            && (ReportsRest(kernel, n) ==>
                  (Waited(kernel, m, n) > u <==> WaitsTooLong(u) && !(1000 <= u <= 1002)))
  {
    StartStepOf(u);
    OvershootBySteps(kernel, u, StartStep(Some(u)), n);
  }

  /** So 600 microseconds become 2000, or 1000 where the rest is reported. */
  lemma OvershootHappens(kernel: nat -> Poll)
    requires forall i: nat :: Quiet(kernel(i))
    ensures var m := StartStep(Some(600));
            && Ends(kernel, 600, m, 3)
            && (KeepsTime(kernel, m, 3) ==> Waited(kernel, m, 3) == 2000)
            && (ReportsRest(kernel, 3) ==> Waited(kernel, m, 3) == 1000)
  {
    var m := StartStep(Some(600));
    SpentClosed(m, 6 * m + 1, 1);
    SpentClosed(m, 6 * m + 1, 2);
    SpentClosed(m, 6 * m + 1, 3);
    AskedBySpent(m, 3);
    WaitedExactly(kernel, m, 3);
  }
}
