/**
 `check_udp_buffer` of src/relay/udtrelay.cpp (lines 877-965): the probing of the largest UDP buffer
 the system allows, and what is remembered of it from call to call.

 The system is represented by `limit`: it accepts exactly the sizes up to it, and binding succeeds.
 */
module UdpProbe {

  const FLOOR: int := 8096
  const TWO_31: int := 0x8000_0000
  const TWO_32: int := 0x1_0000_0000

  type Size = n: int | 0 <= n < TWO_32

  /** `*_max_size` and `*_chk_size`. */
  datatype Cache = Cache(maxSize: nat, chkSize: nat)

  const NEW_CACHE := Cache(0, 0)

  /** Fits is a return of true, Reduced(n) of false with the option set to n, and Dies an exit. */
  datatype Answer = Fits | Reduced(size: nat) | Dies(size: nat)

  /** `int sz = size` of an unsigned size (line 936). */
  function ToInt(size: Size): int {
    if size < TWO_31 then size else size - TWO_32
  }

  /** The first accepted size among sz, sz/2, sz/4 and so on above the floor, or 0, with the value that
      `*max_size` has when the loop is left. */
  function Halve(limit: nat, sz: int, max: nat): (r: (nat, nat))
    ensures r.1 > 0 ==> FLOOR < r.1 <= limit && r.1 <= sz
    decreases if sz > 0 then sz else 0
  {
    if sz <= FLOOR then (max, 0)
    else if sz <= limit then (max, sz)
    else Halve(limit, sz / 2, sz / 2)
  }

  function Verdict(c: Cache, size: Size, custom: bool): Answer {
    if size > c.maxSize then (if custom then Dies(c.maxSize) else Reduced(c.maxSize)) else Fits
  }

  function Larger(a: nat, b: nat): nat {
    if a < b then b else a
  }

  function Check(limit: nat, c: Cache, size: Size, custom: bool): (Cache, Answer) {
    if c.chkSize > 0 && size <= c.chkSize then (c, Fits)
    else if c.maxSize == 0 then
      var (max, found) := Halve(limit, ToInt(size), 0);
      var d := Cache(max, if found > 0 then Larger(c.chkSize, found) else c.chkSize);
      if found > 0 && max == 0 then (d, Fits) else (d, Verdict(d, size, custom))
    else (c, Verdict(c, size, custom))
  }

  // ---------------------------------------------------------------- what the probe finds

  /** What the halving finds: nothing when the first size is at or below the floor, the first size itself
      when the system takes it, and otherwise a size that the system takes and that is more than half
      of the largest one. */
  lemma {:induction false} HalveFinds(limit: nat, sz: int, max: nat)
    requires limit >= FLOOR
    ensures var (m, found) := Halve(limit, sz, max);
            && (sz <= FLOOR ==> m == max && found == 0)
            && (FLOOR < sz <= limit ==> m == max && found == sz)
            && (sz > limit ==> 0 < m <= limit <= 2 * m && m < sz && (found == m || (found == 0 && m <= FLOOR)))
    decreases if sz > 0 then sz else 0
  {
    if sz > limit {
      HalveFinds(limit, sz / 2, sz / 2);
    }
  }

  /** `sz` divided by 2 k times. */
  function Half(sz: nat, k: nat): nat {
    if k == 0 then sz else Half(sz, k - 1) / 2
  }

  lemma {:induction false} HalfOfHalf(sz: nat, k: nat)
    ensures Half(sz / 2, k) == Half(sz, k + 1)
  {
    if k > 0 {
      HalfOfHalf(sz, k - 1);
    }
  }

  /** `m` is the first size in the row sz, sz/2, sz/4, ... that the system takes. */
  ghost predicate FirstAccepted(limit: nat, sz: nat, k: nat, m: nat) {
    k > 0 && m == Half(sz, k) <= limit < Half(sz, k - 1)
  }

  /** Which size it is: a first size that is too big is halved until the system takes it. */
  lemma {:induction false} HalveIs(limit: nat, sz: nat, max: nat) returns (k: nat)
    requires FLOOR <= limit < sz
    ensures var (m, found) := Halve(limit, sz, max);
            FirstAccepted(limit, sz, k, m) && found == if m > FLOOR then m else 0
  {
    assert Half(sz, 0) == sz && Half(sz, 1) == sz / 2;
    if sz / 2 <= limit {
      k := 1;
      assert sz / 2 <= FLOOR || Halve(limit, sz / 2, sz / 2) == (sz / 2, sz / 2);
    } else {
      k := HalveIs(limit, sz / 2, sz / 2);
      HalfOfHalf(sz, k);
      HalfOfHalf(sz, k - 1);
      k := k + 1;
    }
  }

  /** What one call answers and remembers as long as nothing is known to be too big: a size that is not
      positive as an int, or at or below the floor, is never tried; a size that the system takes is
      remembered; any other is cut down to the first half that the system takes. */
  lemma FreshAnswers(limit: nat, chk: nat, size: Size, custom: bool)
    requires FLOOR <= limit < TWO_31 && size > chk
    ensures var (d, answer) := Check(limit, Cache(0, chk), size, custom);
            && (size <= FLOOR || size >= TWO_31 ==>
                  d == Cache(0, chk) && answer == if custom then Dies(0) else Reduced(0))
            && (FLOOR < size <= limit ==> d == Cache(0, size) && answer == Fits)
            && (limit < size < TWO_31 ==>
                  exists k: nat, m: nat ::
                    && FirstAccepted(limit, size, k, m)
                    && d == Cache(m, if m > FLOOR && m > chk then m else chk)
                    && answer == if custom then Dies(m) else Reduced(m))
  {
    if limit < size < TWO_31 {
      var k := HalveIs(limit, size, 0);
      HalveFinds(limit, size, 0);
      var m := Halve(limit, size, 0).0;
      assert FirstAccepted(limit, size, k, m);
    }
  }

  /** The caches after any calls: what they hold is accepted by the system, and the maximum is 0 or at
      least half of the largest accepted size. */
  ghost predicate Ok(limit: nat, c: Cache) {
    && c.chkSize <= limit
    && (c.maxSize == 0 || c.maxSize <= limit <= 2 * c.maxSize)
  }

  datatype Request = Request(size: Size, custom: bool)

  function Calls(limit: nat, c: Cache, requests: seq<Request>): Cache
    decreases |requests|
  {
    if requests == [] then c
    else Calls(limit, Check(limit, c, requests[0].size, requests[0].custom).0, requests[1..])
  }

  lemma CheckKeepsOk(limit: nat, c: Cache, size: Size, custom: bool)
    requires FLOOR <= limit < TWO_31 && Ok(limit, c)
    ensures var (d, _) := Check(limit, c, size, custom); Ok(limit, d) && d.chkSize >= c.chkSize
  {
    HalveFinds(limit, ToInt(size), 0);
  }

  lemma {:induction false} CallsKeepOk(limit: nat, c: Cache, requests: seq<Request>)
    requires FLOOR <= limit < TWO_31 && Ok(limit, c)
    ensures Ok(limit, Calls(limit, c, requests))
    decreases |requests|
  {
    if requests != [] {
      CheckKeepsOk(limit, c, requests[0].size, requests[0].custom);
      CallsKeepOk(limit, Check(limit, c, requests[0].size, requests[0].custom).0, requests[1..]);
    }
  }

  /** After any calls a positive answer is true of the system, and a negative one is wrong only for a
      size in the upper half of what the system accepts or at or below the floor. */
  lemma AnswersAreSound(limit: nat, before: seq<Request>, size: Size, custom: bool)
    requires FLOOR <= limit < TWO_31
    ensures var c := Calls(limit, NEW_CACHE, before);
            var (d, answer) := Check(limit, c, size, custom);
            && d.chkSize <= limit
            && (d.maxSize == 0 || d.maxSize <= limit <= 2 * d.maxSize)
            && (answer.Fits? ==> size <= limit)
            && (!answer.Fits? ==> size > c.chkSize && (limit < 2 * size || 0 < size <= FLOOR))
            && (!answer.Fits? ==> answer.size == d.maxSize <= limit && (answer.Dies? <==> custom))
  {
    CallsKeepOk(limit, NEW_CACHE, before);
    var c := Calls(limit, NEW_CACHE, before);
    CheckKeepsOk(limit, c, size, custom);
    HalveFinds(limit, ToInt(size), 0);
  }

  /** Exactly which requests get a positive answer, in any state of the caches. */
  lemma FitsIff(limit: nat, c: Cache, size: Size, custom: bool)
    requires FLOOR <= limit < TWO_31 && Ok(limit, c)
    ensures Check(limit, c, size, custom).1.Fits? <==>
              size == 0 || size <= c.chkSize || size <= c.maxSize || (c.maxSize == 0 && FLOOR < size <= limit)
  {
    HalveFinds(limit, ToInt(size), 0);
  }

  /** Once a maximum has been found the caches never change again, and it is the answer to all that was
      not taken. */
  lemma {:induction false} MaximumIsFinal(limit: nat, c: Cache, requests: seq<Request>, size: Size, custom: bool)
    requires c.maxSize > 0
    ensures var d := Calls(limit, c, requests);
            && d == c
            && Check(limit, d, size, custom)
               == (c, if size <= c.maxSize || size <= c.chkSize then Fits
                      else if custom then Dies(c.maxSize) else Reduced(c.maxSize))
    decreases |requests|
  {
    if requests != [] {
      MaximumIsFinal(limit, c, requests[1..], size, custom);
    }
  }

  /** A size that is answered from the cache would get the same answer from a fresh probe if and only if
      it is 0 or above the floor: a first request of 8096 or less is always taken to be too big. */
  lemma CacheAgreesIff(limit: nat, before: seq<Request>, size: Size, custom: bool)
    requires FLOOR <= limit < TWO_31 && size <= Calls(limit, NEW_CACHE, before).chkSize
    ensures Check(limit, Calls(limit, NEW_CACHE, before), size, custom).1.Fits?
    ensures Check(limit, NEW_CACHE, size, custom).1.Fits? <==> size == 0 || size > FLOOR
    ensures 0 < size <= FLOOR ==>
              Check(limit, NEW_CACHE, size, custom) == (NEW_CACHE, if custom then Dies(0) else Reduced(0))
  {
    CallsKeepOk(limit, NEW_CACHE, before);
    FitsIff(limit, Calls(limit, NEW_CACHE, before), size, custom);
    FitsIff(limit, NEW_CACHE, size, custom);
  }

  /** The caches alone answer this size positively. */
  ghost predicate Remembered(c: Cache, size: Size) {
    size == 0 || size <= c.chkSize || size <= c.maxSize
  }

  lemma {:induction false} RememberedForever(limit: nat, c: Cache, size: Size, requests: seq<Request>)
    requires FLOOR <= limit < TWO_31 && Remembered(c, size)
    ensures Remembered(Calls(limit, c, requests), size)
    decreases |requests|
  {
    if requests != [] {
      HalveFinds(limit, ToInt(requests[0].size), 0);
      RememberedForever(limit, Check(limit, c, requests[0].size, requests[0].custom).0, size, requests[1..]);
    }
  }

  /** A size that has been found to fit is never refused again, nor is a smaller one, whatever is asked
      in between. */
  lemma FitsForever(limit: nat, before: seq<Request>, size: Size, custom: bool,
                    between: seq<Request>, smaller: Size, custom': bool)
    requires FLOOR <= limit < TWO_31 && smaller <= size
    requires Check(limit, Calls(limit, NEW_CACHE, before), size, custom).1.Fits?
    ensures var d := Check(limit, Calls(limit, NEW_CACHE, before), size, custom).0;
            Check(limit, Calls(limit, d, between), smaller, custom').1.Fits?
  {
    var c := Calls(limit, NEW_CACHE, before);
    CallsKeepOk(limit, NEW_CACHE, before);
    HalveFinds(limit, ToInt(size), 0);
    CheckKeepsOk(limit, c, size, custom);
    var d := Check(limit, c, size, custom).0;
    RememberedForever(limit, d, smaller, between);
    CallsKeepOk(limit, d, between);
    FitsIff(limit, Calls(limit, d, between), smaller, custom');
  }

  // ---------------------------------------------------------------- the code

  /** The static variables of the function, for the receive and for the send buffer. */
  class Probe {
    var rcv: Cache
    var snd: Cache

    constructor ()
      ensures rcv == snd == NEW_CACHE
    {
      rcv, snd := NEW_CACHE, NEW_CACHE;
    }

    method CheckUdpBuffer(limit: nat, receive: bool, size: Size, custom: bool) returns (answer: Answer)
      modifies this
      ensures receive ==> (rcv, answer) == Check(limit, old(rcv), size, custom) && snd == old(snd)
      ensures !receive ==> (snd, answer) == Check(limit, old(snd), size, custom) && rcv == old(rcv)
    {
      var c := if receive then rcv else snd;
      if c.chkSize > 0 && size <= c.chkSize {
        return Fits;
      }
      if c.maxSize == 0 {
        var max, chk, found := 0, c.chkSize, 0;
        var sz := ToInt(size);
        while sz > FLOOR
          invariant max >= 0 && found == 0 && chk == c.chkSize
          invariant Halve(limit, ToInt(size), 0) == Halve(limit, sz, max)
          decreases sz
        {
          if sz <= limit {
            found := sz;
            chk := Larger(chk, sz);
            break;
          }
          sz := sz / 2;
          max := sz;
        }
        c := Cache(max, chk);
        if receive { rcv := c; } else { snd := c; }
        if found > 0 && max == 0 {
          return Fits;
        }
      }
      if size > c.maxSize {
        return if custom then Dies(c.maxSize) else Reduced(c.maxSize);
      }
      return Fits;
    }
  }
}
