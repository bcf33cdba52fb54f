/**
 `readn` and `writen` of src/lib/socket_api.cpp (lines 112-161).

 The answers of the system are given one by one: what the call returned, clipped to the count it was
 offered, and whether `errno` then holds EINTR.  `errno` is not cleared by a call that succeeds, so a
 write of nothing may meet either value of it.  When the answers run out the loop is still waiting.
 */
module SocketIo {
  import opened Basics

  datatype Answer = Answer(ret: int, eintr: bool)

  datatype Outcome = Returned(value: int) | Waiting

  predicate IsRetry(a: Answer) {
    a.ret <= 0 && a.eintr
  }

  /** How many answers make the loop ask again for nothing. */
  function Retries(answers: seq<Answer>): nat {
    if answers == [] then 0
    else Retries(answers[..|answers| - 1]) + (if IsRetry(answers[|answers| - 1]) then 1 else 0)
  }

  lemma RetriesNext(answers: seq<Answer>, i: nat)
    requires i < |answers|
    ensures Retries(answers[..i + 1]) == Retries(answers[..i]) + (if IsRetry(answers[i]) then 1 else 0)
  {
    assert answers[..i + 1][..i] == answers[..i];
  }

  /** What the answers come to. */
  function Total(answers: seq<Answer>): nat {
    if answers == [] then 0
    else Total(answers[..|answers| - 1]) + (if answers[|answers| - 1].ret > 0 then answers[|answers| - 1].ret else 0)
  }

  lemma TotalNext(answers: seq<Answer>, i: nat)
    requires i < |answers|
    ensures Total(answers[..i + 1]) == Total(answers[..i]) + (if answers[i].ret > 0 then answers[i].ret else 0)
    ensures Total(answers[..0]) == 0
  {
    assert answers[..i + 1][..i] == answers[..i];
  }

  /** How a call of `writen` ends on the given answers. */
  datatype Ending = Complete | Failed | Unfinished

  /** The bytes that go out. */
  function WritenOut(p: seq<Byte>, answers: seq<Answer>): seq<Byte>
    decreases |answers|
  {
    if p == [] || answers == [] then []
    else
      var k := Min(answers[0].ret, |p|);
      if k > 0 then p[..k] + WritenOut(p[k..], answers[1..])
      else if answers[0].eintr then WritenOut(p, answers[1..])
      else []
  }

  function WritenEnding(p: seq<Byte>, answers: seq<Answer>): Ending
    decreases |answers|
  {
    if p == [] then Complete
    else if answers == [] then Unfinished
    else
      var k := Min(answers[0].ret, |p|);
      if k > 0 then WritenEnding(p[k..], answers[1..])
      else if answers[0].eintr then WritenEnding(p, answers[1..])
      else Failed
  }

  lemma {:induction false} TotalFirst(answers: seq<Answer>)
    requires answers != []
    ensures Total(answers) == (if answers[0].ret > 0 then answers[0].ret else 0) + Total(answers[1..])
  {
    var most, last := answers[..|answers| - 1], answers[|answers| - 1];
    if most != [] {
      TotalFirst(most);
      assert answers[1..][..|answers| - 2] == most[1..];
    }
  }

  predicate IsFailure(a: Answer) {
    a.ret <= 0 && !a.eintr
  }

  /** What a call of `writen` comes to.  Up to the first failure, or to the end of the answers, every one of
      them moves as many bytes as it says: if that is enough the call is complete, otherwise it has failed
      or is still waiting with exactly so many bytes put out. */
  lemma {:induction false} WritenMoves(p: seq<Byte>, answers: seq<Answer>, i: nat)
    requires i <= |answers| && forall j :: 0 <= j < i ==> !IsFailure(answers[j])
    requires i < |answers| ==> IsFailure(answers[i])
    ensures |WritenOut(p, answers)| == Min(|p|, Total(answers[..i]))
    ensures WritenEnding(p, answers)
         == if Total(answers[..i]) >= |p| then Complete else if i < |answers| then Failed else Unfinished
    decreases i
  {
    if i > 0 {
      assert answers[1..][..i - 1] == answers[..i][1..];
      TotalFirst(answers[..i]);
      var k := Min(answers[0].ret, |p|);
      WritenMoves(if k > 0 then p[k..] else p, answers[1..], i - 1);
    }
  }

  /** The loop has put out `done` and has `left` before it, with `used` answers behind it. */
  ghost predicate Midway(all: seq<Byte>, done: seq<Byte>, left: seq<Byte>, answers: seq<Answer>, used: nat)
    requires used <= |answers|
  {
    && WritenOut(all, answers) == done + WritenOut(left, answers[used..])
    && WritenEnding(all, answers) == WritenEnding(left, answers[used..])
  }

  lemma MidwayNext(all: seq<Byte>, done: seq<Byte>, left: seq<Byte>, answers: seq<Answer>, used: nat, k: nat)
    requires used < |answers| && left != [] && Midway(all, done, left, answers, used)
    requires k == (if answers[used].ret > 0 then Min(answers[used].ret, |left|) else 0)
    requires k == 0 ==> answers[used].eintr
    ensures Midway(all, done + left[..k], left[k..], answers, used + 1)
  {
    assert answers[used..][0] == answers[used] && answers[used..][1..] == answers[used + 1..];
    if k == 0 {
      assert done + left[..k] == done && left[k..] == left;
    } else {
      assert done + (left[..k] + WritenOut(left[k..], answers[used + 1..]))
          == (done + left[..k]) + WritenOut(left[k..], answers[used + 1..]);
    }
  }

  lemma MidwayStops(all: seq<Byte>, done: seq<Byte>, left: seq<Byte>, answers: seq<Answer>, used: nat)
    requires used <= |answers| && Midway(all, done, left, answers, used)
    requires left == [] || used == |answers| || (answers[used].ret <= 0 && !answers[used].eintr)
    ensures WritenOut(all, answers) == done
    ensures WritenEnding(all, answers)
         == if left == [] then Complete else if used == |answers| then Unfinished else Failed
  {
    assert used < |answers| ==> answers[used..][0] == answers[used];
  }

  /** All n bytes go out in order and n is returned, or an error is met, -1 is returned and a proper
      prefix has gone out.  Only retries keep it waiting: more than n answers beside them end it. */
  method Writen(buf: array<Byte>, n: nat, answers: seq<Answer>) returns (r: Outcome, out: seq<Byte>, used: nat)
    requires n <= buf.Length
    ensures used <= |answers| && out <= buf[..n]
    ensures r.Returned? ==> r.value == n || r.value == -1
    ensures r == Returned(n) <==> out == buf[..n]
    ensures out == WritenOut(buf[..n], answers)
    ensures var ending := WritenEnding(buf[..n], answers);
            r == if ending == Complete then Returned(n) else if ending == Failed then Returned(-1) else Waiting
    ensures r == Returned(-1) ==> used > 0 && answers[used - 1].ret <= 0 && !answers[used - 1].eintr
    ensures r.Waiting? ==> used == |answers| < n + Retries(answers)
  {
    var all := buf[..n];
    var ptr: nat := 0;
    var nleft: nat := n;
    out, used := [], 0;
    MidwayStarts(all, answers);
    hide WritenOut, WritenEnding, Midway, Retries;
    while nleft > 0
      invariant ptr + nleft == n && out == all[..ptr]
      invariant used <= |answers| && used <= ptr + Retries(answers[..used])
      invariant Midway(all, out, all[ptr..], answers, used)
      decreases |answers| - used
    {
      if used == |answers| {
        assert answers[..used] == answers;
        MidwayStops(all, out, all[ptr..], answers, used);
        return Waiting, out, used;
      }
      var nwritten := Min(answers[used].ret, nleft);
      RetriesNext(answers, used);
      if nwritten <= 0 {
        if answers[used].eintr {
          nwritten := 0;
        } else {
          MidwayStops(all, out, all[ptr..], answers, used);
          return Returned(-1), out, used + 1;
        }
      }
      MidwayNext(all, out, all[ptr..], answers, used, nwritten);
      Slices(all, ptr, nwritten);
      out := out + all[ptr..ptr + nwritten];
      nleft := nleft - nwritten;
      ptr := ptr + nwritten;
      used := used + 1;
    }
    MidwayStops(all, out, all[ptr..], answers, used);
    return Returned(n - nleft), out, used;
  }

  lemma StartsEmpty(answers: seq<Answer>)
    ensures Retries(answers[..0]) == 0 == Total(answers[..0])
  {
  }

  lemma MidwayStarts(all: seq<Byte>, answers: seq<Answer>)
    ensures Midway(all, [], all[0..], answers, 0)
    ensures Retries(answers[..0]) == 0
  {
    assert answers[0..] == answers && all[0..] == all;
  }

  lemma Slices(s: seq<Byte>, at: nat, k: nat)
    requires at + k <= |s|
    ensures s[..at] + s[at..at + k] == s[..at + k]
    ensures s[at..][..k] == s[at..at + k] && s[at..][k..] == s[at + k..]
  {
  }

  /** The bytes of the stream `src` come into the buffer in order.  Fewer than n are returned only at the
      end of the stream, and nothing behind what was read is touched. */
  method Readn(buf: array<Byte>, n: nat, src: seq<Byte>, answers: seq<Answer>) returns (r: Outcome, got: nat, used: nat)
    requires n <= buf.Length
    modifies buf
    ensures used <= |answers| && got <= n && got <= |src|
    ensures buf[..got] == src[..got] && buf[got..] == old(buf[got..])
    ensures r.Returned? ==> r.value == got || r.value == -1
    ensures r == Returned(got) && got < n ==> used > 0 && (answers[used - 1].ret == 0 || got == |src|)
    ensures r == Returned(-1) ==> used > 0 && answers[used - 1].ret < 0 && !answers[used - 1].eintr
    ensures r.Waiting? ==> used == |answers| < n + Retries(answers)
    ensures got == Min(Min(n, |src|), Total(answers[..used]))
    ensures used > 0 ==> Total(answers[..used - 1]) < n || got == |src|
    ensures forall i :: 0 <= i < used ==>
              (answers[i].ret < 0 && !answers[i].eintr <==> r == Returned(-1) && i == used - 1)
    ensures forall i :: 0 <= i < used - 1 ==> answers[i].ret != 0
  {
    hide Retries, Total;
    var nleft: nat := n;
    got, used := 0, 0;
    StartsEmpty(answers);
    while nleft > 0
      invariant got == n - nleft <= |src| && nleft <= n
      invariant buf[..got] == src[..got] && buf[got..] == old(buf[..])[got..]
      invariant used <= |answers| && used <= got + Retries(answers[..used])
      invariant got == Min(Min(n, |src|), Total(answers[..used]))
      invariant used > 0 ==> Total(answers[..used - 1]) < n || got == |src|
      invariant forall i :: 0 <= i < used ==> answers[i].ret > 0 || (answers[i].ret < 0 && answers[i].eintr)
      decreases |answers| - used
    {
      if used == |answers| {
        assert answers[..used] == answers;
        return Waiting, got, used;
      }
      var nread := Min(Min(answers[used].ret, nleft), |src| - got);
      RetriesNext(answers, used);
      TotalNext(answers, used);
      used := used + 1;
      if nread < 0 {
        if answers[used - 1].eintr {
          nread := 0;
        } else {
          return Returned(-1), got, used;
        }
      } else if nread == 0 {
        break;
      }
      ghost var before := buf[..];
      CopyIn(buf, got, src[got..got + nread]);
      ReadFurther(old(buf[..]), before, src, got, nread);
      nleft := nleft - nread;
      got := got + nread;
    }
    return Returned(n - nleft), got, used;
  }

  /** Bytes behind those that have been read leave the rest of the buffer as it was at the call. */
  lemma ReadFurther(start: seq<Byte>, before: seq<Byte>, src: seq<Byte>, got: nat, k: nat)
    requires |before| == |start| >= got + k && got + k <= |src|
    requires before[..got] == src[..got] && before[got..] == start[got..]
    ensures var after := before[..got] + src[got..got + k] + before[got + k..];
            |after| == |start| && after[..got + k] == src[..got + k] && after[got + k..] == start[got + k..]
  {
    Slices(src, got, k);
    assert before[got + k..] == before[got..][k..];
    assert start[got + k..] == start[got..][k..];
  }

  method CopyIn(buf: array<Byte>, at: nat, bytes: seq<Byte>)
    requires at + |bytes| <= buf.Length
    modifies buf
    ensures buf[..] == old(buf[..at]) + bytes + old(buf[at + |bytes|..])
  {
    for i := 0 to |bytes|
      invariant forall j :: 0 <= j < buf.Length ==>
                  buf[j] == if at <= j < at + i then bytes[j - at] else old(buf[j])
    {
      buf[at + i] := bytes[i];
    }
  }
}
