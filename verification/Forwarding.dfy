/**
 The live forwarding path of src/relay/udtrelay.cpp: the threads `sock2peer_worker` (lines 766-820)
 and `peer2sock_worker` (lines 822-869), which share the `shutdown` flag, and the part of
 `start_child` that starts them, joins them and closes the sockets (lines 746-759).

 Each event is one atomic step of one thread: a read or a write of the flag, one system call, or one
 call of `write` inside `writen`.  An event that is not the next step of its thread changes nothing,
 so a run is any sequence of events whatever and covers every interleaving.
 */
module Forwarding {
  import opened Basics
  import IO = SocketIo

  /** One thread's data: bytes received, bytes written on, the part of the last chunk still to be
      written, the part given up after a failed write, the last chunk, and the number of receives. */
  datatype Link = Link(got: seq<Byte>, put: seq<Byte>, pending: seq<Byte>, lost: seq<Byte>,
                       chunk: seq<Byte>, recvs: nat)

  const NEW_LINK := Link([], [], [], [], [], 0)

  /** sock2peer_worker: not started, before line 779, 783, 790, inside writen of 800, before 813, after it. */
  datatype SenderPc = SIdle | SHead | SPolling | SReceiving | SWriting | SLeaving | SDone

  /** peer2sock_worker: not started, before line 832, 836, the test of 837, inside writen of 851,
      before 848, before 862 without and with 848 behind it, after it. */
  datatype ReceiverPc = RIdle | RHead | RReceiving | RTesting | RWriting | RResetting | RLeaving | RLeavingReset | RDone

  datatype MainPc = AtSpawnRcv | AtSpawnSnd | AtJoinRcv | AtJoinSnd | AtCloseUdt | AtCloseTcp | AtEnd

  datatype Sender = Sender(pc: SenderPc, link: Link)
  datatype Receiver = Receiver(pc: ReceiverPc, link: Link)

  datatype Relay = Relay(shutdown: bool, snd: Sender, rcv: Receiver, main: MainPc)

  const NEW_RELAY := Relay(false, Sender(SIdle, NEW_LINK), Receiver(RIdle, NEW_LINK), AtSpawnRcv)

  /** A poll that reports an error is followed by the receive too, because line 787 compares the
      address of `poll`, and the EINTR test of line 783 cannot hold for a single descriptor. */
  datatype SenderEvent =
    | STest | SPollTimeout | SPollReturns | SRecv(bytes: seq<Byte>) | SRecvEnds
    | SWrite(count: nat) | SInterrupted | SWriteFails | SSetsFlag

  datatype ReceiverEvent =
    | RTest | RRecv(bytes: seq<Byte>) | RRecvZero | RRecvError | RTestsAgain
    | RWrite(count: nat) | RInterrupted | RWriteFails | RClearsFlag | RSetsFlag

  datatype Event =
    | SpawnRcv | SpawnSnd | JoinRcv | JoinSnd | CloseUdt | CloseTcp
    | OfSender(s: SenderEvent) | OfReceiver(r: ReceiverEvent)

  function Received(l: Link, bytes: seq<Byte>): Link {
    l.(got := l.got + bytes, pending := bytes, chunk := bytes, recvs := l.recvs + 1)
  }

  function ReceivedNothing(l: Link): Link {
    l.(recvs := l.recvs + 1)
  }

  function Wrote(l: Link, count: nat): Link
    requires count <= |l.pending|
  {
    l.(put := l.put + l.pending[..count], pending := l.pending[count..])
  }

  function GaveUp(l: Link): Link {
    l.(lost := l.pending, pending := [])
  }

  /** A step of sock2peer_worker; `cap` is `rcvbuffer` and `flag` the value of `shutdown`. */
  function SenderNext(cap: nat, flag: bool, t: Sender, e: SenderEvent): Sender {
    match (t.pc, e)
    case (SHead, STest) => t.(pc := if flag then SLeaving else SPolling)
    case (SPolling, SPollTimeout) => t.(pc := SHead)
    case (SPolling, SPollReturns) => t.(pc := SReceiving)
    case (SReceiving, SRecv(bytes)) => if 0 < |bytes| <= cap then Sender(SWriting, Received(t.link, bytes)) else t
    case (SReceiving, SRecvEnds) => Sender(SLeaving, ReceivedNothing(t.link))
    case (SWriting, SWrite(count)) =>
      if 0 < count <= |t.link.pending|
      then Sender(if count < |t.link.pending| then SWriting else SHead, Wrote(t.link, count)) else t
    case (SWriting, SWriteFails) => Sender(SLeaving, GaveUp(t.link))
    case (SLeaving, SSetsFlag) => t.(pc := SDone)
    case _ => t
  }

  /** A step of peer2sock_worker.  When the test of line 837 finds the flag set after a receive of
      nothing, line 851 writes nothing and the loop goes round. */
  function ReceiverNext(cap: nat, flag: bool, t: Receiver, e: ReceiverEvent): Receiver {
    match (t.pc, e)
    case (RHead, RTest) => t.(pc := if flag then RLeaving else RReceiving)
    case (RReceiving, RRecv(bytes)) => if 0 < |bytes| <= cap then Receiver(RWriting, Received(t.link, bytes)) else t
    case (RReceiving, RRecvZero) => Receiver(RTesting, ReceivedNothing(t.link))
    case (RReceiving, RRecvError) => Receiver(RResetting, ReceivedNothing(t.link))
    case (RTesting, RTestsAgain) => t.(pc := if flag then RHead else RReceiving)
    case (RWriting, RWrite(count)) =>
      if 0 < count <= |t.link.pending|
      then Receiver(if count < |t.link.pending| then RWriting else RHead, Wrote(t.link, count)) else t
    case (RWriting, RWriteFails) => Receiver(RLeaving, GaveUp(t.link))
    case (RResetting, RClearsFlag) => t.(pc := RLeavingReset)
    case (RLeaving, RSetsFlag) => t.(pc := RDone)
    case (RLeavingReset, RSetsFlag) => t.(pc := RDone)
    case _ => t
  }

  /** Lines 813, 848 and 862 are the writes of the flag. */
  function Next(cap: nat, r: Relay, e: Event): Relay {
    match e
    case SpawnRcv => if r.main.AtSpawnRcv? then r.(main := AtSpawnSnd, rcv := r.rcv.(pc := RHead)) else r
    case SpawnSnd => if r.main.AtSpawnSnd? then r.(main := AtJoinRcv, snd := r.snd.(pc := SHead)) else r
    case JoinRcv => if r.main.AtJoinRcv? && r.rcv.pc.RDone? then r.(main := AtJoinSnd) else r
    case JoinSnd => if r.main.AtJoinSnd? && r.snd.pc.SDone? then r.(main := AtCloseUdt) else r
    case CloseUdt => if r.main.AtCloseUdt? then r.(main := AtCloseTcp) else r
    case CloseTcp => if r.main.AtCloseTcp? then r.(main := AtEnd) else r
    case OfSender(s) =>
      r.(snd := SenderNext(cap, r.shutdown, r.snd, s),
         shutdown := r.shutdown || (r.snd.pc.SLeaving? && s.SSetsFlag?))
    case OfReceiver(s) =>
      r.(rcv := ReceiverNext(cap, r.shutdown, r.rcv, s),
         shutdown := if r.rcv.pc.RResetting? && s.RClearsFlag? then false
                     else r.shutdown || ((r.rcv.pc.RLeaving? || r.rcv.pc.RLeavingReset?) && s.RSetsFlag?))
  }

  function Run(cap: nat, r: Relay, events: seq<Event>): Relay
    decreases |events|
  {
    if events == [] then r else Run(cap, Next(cap, r, events[0]), events[1..])
  }

  // ---------------------------------------------------------------- the invariant

  /** `working` says that the thread is inside `writen`, `leaving` that it has left its loop. */
  ghost predicate LinkOk(cap: nat, l: Link, working: bool, leaving: bool) {
    && l.got == l.put + l.pending + l.lost
    && (l.pending != [] <==> working)
    && (l.lost != [] ==> leaving && !working)
    && |l.chunk| <= cap && EndsWith(l.got, l.chunk)
    && EndsWith(l.chunk, l.pending) && EndsWith(l.chunk, l.lost)
  }

  predicate EndsWith(s: seq<Byte>, suffix: seq<Byte>) {
    |suffix| <= |s| && s[|s| - |suffix|..] == suffix
  }

  ghost predicate SndOk(cap: nat, t: Sender) {
    LinkOk(cap, t.link, t.pc.SWriting?, t.pc.SLeaving? || t.pc.SDone?)
  }

  ghost predicate RcvOk(cap: nat, t: Receiver) {
    LinkOk(cap, t.link, t.pc.RWriting?, t.pc.RLeaving? || t.pc.RDone?)
  }

  ghost predicate FlagOk(r: Relay) {
    && (r.rcv.pc.RDone? ==> r.shutdown)
    && (r.snd.pc.SDone? ==> r.shutdown || r.rcv.pc.RLeavingReset?)
    && (r.shutdown ==> r.snd.pc.SDone? || r.rcv.pc.RDone?)
  }

  ghost predicate MainOk(r: Relay) {
    && (r.rcv.pc.RIdle? <==> r.main.AtSpawnRcv?)
    && (r.snd.pc.SIdle? <==> r.main.AtSpawnRcv? || r.main.AtSpawnSnd?)
    && (r.main.AtJoinSnd? ==> r.rcv.pc.RDone?)
    && (r.main.AtCloseUdt? || r.main.AtCloseTcp? || r.main.AtEnd? ==> r.rcv.pc.RDone? && r.snd.pc.SDone?)
  }

  ghost predicate Inv(cap: nat, r: Relay) {
    SndOk(cap, r.snd) && RcvOk(cap, r.rcv) && FlagOk(r) && MainOk(r)
  }

  lemma ReceivedOk(cap: nat, l: Link, bytes: seq<Byte>)
    requires LinkOk(cap, l, false, false) && 0 < |bytes| <= cap
    ensures LinkOk(cap, Received(l, bytes), true, false)
  {
    assert EndsWith(l.got + bytes, bytes);
    assert l.put + bytes + [] == l.put + bytes;
  }

  lemma WroteOk(cap: nat, l: Link, count: nat)
    requires LinkOk(cap, l, true, false) && 0 < count <= |l.pending|
    ensures LinkOk(cap, Wrote(l, count), count < |l.pending|, false)
  {
    var front, back := l.pending[..count], l.pending[count..];
    assert l.pending == front + back;
    assert l.put + (front + back) == (l.put + front) + back;
    assert EndsWith(l.chunk, back) by {
      SuffixOfSuffix(l.chunk, l.pending, count);
    }
  }

  lemma SuffixOfSuffix(s: seq<Byte>, t: seq<Byte>, k: nat)
    requires EndsWith(s, t) && k <= |t|
    ensures EndsWith(s, t[k..])
  {
    assert s[|s| - |t| + k..] == s[|s| - |t|..][k..];
  }

  lemma GaveUpOk(cap: nat, l: Link)
    requires LinkOk(cap, l, true, false)
    ensures LinkOk(cap, GaveUp(l), false, true)
  {
  }

  lemma IdleOk(cap: nat, l: Link)
    requires LinkOk(cap, l, false, false)
    ensures LinkOk(cap, ReceivedNothing(l), false, false) && LinkOk(cap, ReceivedNothing(l), false, true)
    ensures LinkOk(cap, l, false, true)
  {
  }

  lemma SenderNextOk(cap: nat, flag: bool, t: Sender, e: SenderEvent)
    requires SndOk(cap, t)
    ensures SndOk(cap, SenderNext(cap, flag, t, e))
  {
    hide LinkOk;
    match (t.pc, e)
    case (SReceiving, SRecv(bytes)) => if 0 < |bytes| <= cap { ReceivedOk(cap, t.link, bytes); }
    case (SWriting, SWrite(count)) => if 0 < count <= |t.link.pending| { WroteOk(cap, t.link, count); }
    case (SWriting, SWriteFails) => GaveUpOk(cap, t.link);
    case (SReceiving, SRecvEnds) => IdleOk(cap, t.link);
    case (SHead, STest) => IdleOk(cap, t.link);
    case _ =>
  }

  lemma ReceiverNextOk(cap: nat, flag: bool, t: Receiver, e: ReceiverEvent)
    requires RcvOk(cap, t)
    ensures RcvOk(cap, ReceiverNext(cap, flag, t, e))
  {
    hide LinkOk;
    match (t.pc, e)
    case (RReceiving, RRecv(bytes)) => if 0 < |bytes| <= cap { ReceivedOk(cap, t.link, bytes); }
    case (RWriting, RWrite(count)) => if 0 < count <= |t.link.pending| { WroteOk(cap, t.link, count); }
    case (RWriting, RWriteFails) => GaveUpOk(cap, t.link);
    case (RReceiving, _) => IdleOk(cap, t.link);
    case (RHead, RTest) => IdleOk(cap, t.link);
    case (RLeavingReset, RSetsFlag) => IdleOk(cap, t.link);
    case _ =>
  }

  lemma NextKeepsFlag(cap: nat, r: Relay, e: Event)
    requires FlagOk(r) && MainOk(r)
    ensures FlagOk(Next(cap, r, e)) && MainOk(Next(cap, r, e))
  {
  }

  lemma NextKeepsInv(cap: nat, r: Relay, e: Event)
    requires Inv(cap, r)
    ensures Inv(cap, Next(cap, r, e))
  {
    NextKeepsFlag(cap, r, e);
    hide LinkOk, SenderNext, ReceiverNext, FlagOk;
    match e
    case OfSender(s) => SenderNextOk(cap, r.shutdown, r.snd, s);
    case OfReceiver(s) => ReceiverNextOk(cap, r.shutdown, r.rcv, s);
    case _ =>
  }

  lemma {:induction false} RunKeepsInv(cap: nat, r: Relay, events: seq<Event>)
    requires Inv(cap, r)
    ensures Inv(cap, Run(cap, r, events))
    decreases |events|
  {
    hide Inv, Next;
    if events != [] {
      NextKeepsInv(cap, r, events[0]);
      RunKeepsInv(cap, Next(cap, r, events[0]), events[1..]);
    }
  }

  lemma NewRelayOk(cap: nat)
    ensures Inv(cap, NEW_RELAY)
  {
  }

  /** Every step out of a receive is counted as one, whether it brought something or not. */
  lemma ReceivesAreCounted(cap: nat, r: Relay, e: Event)
    requires MainOk(r)
    ensures var t := Next(cap, r, e);
            && t.snd.link.recvs == r.snd.link.recvs + (if r.snd.pc.SReceiving? && !t.snd.pc.SReceiving? then 1 else 0)
            && t.rcv.link.recvs == r.rcv.link.recvs + (if r.rcv.pc.RReceiving? && !t.rcv.pc.RReceiving? then 1 else 0)
  {
  }

  lemma MoreReceives(cap: nat, n: nat)
    ensures cap * (n + 1) == cap * n + cap
  {
  }

  /** The receives are counted: a thread has received at most one buffer for each. */
  lemma {:induction false} BytesPerReceive(cap: nat, r: Relay, events: seq<Event>)
    requires |r.snd.link.got| <= cap * r.snd.link.recvs && |r.rcv.link.got| <= cap * r.rcv.link.recvs
    ensures var t := Run(cap, r, events);
            |t.snd.link.got| <= cap * t.snd.link.recvs && |t.rcv.link.got| <= cap * t.rcv.link.recvs
    decreases |events|
  {
    if events != [] {
      MoreReceives(cap, r.snd.link.recvs);
      MoreReceives(cap, r.rcv.link.recvs);
      BytesPerReceive(cap, Next(cap, r, events[0]), events[1..]);
    }
  }

  // ---------------------------------------------------------------- the shutdown protocol

  /** The flag under every interleaving, although line 848 clears it. */
  lemma ShutdownProtocol(cap: nat, events: seq<Event>)
    ensures var r := Run(cap, NEW_RELAY, events);
            && (r.rcv.pc.RDone? ==> r.shutdown)
            && (r.snd.pc.SDone? ==> r.shutdown || r.rcv.pc.RLeavingReset?)
            && (r.shutdown ==> r.snd.pc.SDone? || r.rcv.pc.RDone?)
  {
    NewRelayOk(cap);
    RunKeepsInv(cap, NEW_RELAY, events);
  }

  lemma {:induction false} RunSplit(cap: nat, r: Relay, a: seq<Event>, b: seq<Event>)
    ensures Run(cap, r, a + b) == Run(cap, Run(cap, r, a), b)
    decreases |a|
  {
    hide Next;
    if a == [] {
      assert a + b == b;
    } else {
      assert (a + b)[0] == a[0] && (a + b)[1..] == a[1..] + b;
      RunSplit(cap, Next(cap, r, a[0]), a[1..], b);
    }
  }

  lemma RunOne(cap: nat, r: Relay, done: seq<Event>, e: Event)
    ensures Run(cap, r, done + [e]) == Next(cap, Run(cap, r, done), e)
  {
    hide Next;
    RunSplit(cap, r, done, [e]);
    var rest: seq<Event> := [e][1..];
    assert rest == [];
  }

  /** The sender ends while the receiver is in its receive. */
  lemma SenderEndsFirst(cap: nat) returns (events: seq<Event>, r: Relay)
    ensures r == Run(cap, NEW_RELAY, events)
    ensures r.snd.pc.SDone? && r.rcv.pc.RReceiving? && r.shutdown
  {
    events, r := [], NEW_RELAY;
    events, r := Extend(cap, events, r, SpawnRcv);
    events, r := Extend(cap, events, r, SpawnSnd);
    events, r := Extend(cap, events, r, OfReceiver(RTest));
    events, r := Extend(cap, events, r, OfSender(STest));
    events, r := Extend(cap, events, r, OfSender(SPollReturns));
    events, r := Extend(cap, events, r, OfSender(SRecvEnds));
    events, r := Extend(cap, events, r, OfSender(SSetsFlag));
  }

  /** The exception is real: the flag does go back to 0 after a thread has set it. */
  lemma FlagIsNotMonotone(cap: nat)
    ensures exists events :: var r := Run(cap, NEW_RELAY, events); r.snd.pc.SDone? && !r.shutdown
  {
    var events, r := SenderEndsFirst(cap);
    events, r := Extend(cap, events, r, OfReceiver(RRecvError));
    events, r := Extend(cap, events, r, OfReceiver(RClearsFlag));
    assert r.snd.pc.SDone? && !r.shutdown;
  }

  lemma {:induction false} FlagStays(cap: nat, r: Relay, events: seq<Event>)
    requires r.shutdown && !r.rcv.pc.RReceiving? && !r.rcv.pc.RResetting?
    ensures Run(cap, r, events).shutdown
    decreases |events|
  {
    if events != [] {
      FlagStays(cap, Next(cap, r, events[0]), events[1..]);
    }
  }

  /** A flag that is set can go back to 0 exactly while peer2sock_worker is in the receive of line 836 or
      on its way from there to line 848.  In every other state it stays set whatever happens. */
  lemma FlagFallsIff(cap: nat, r: Relay)
    requires r.shutdown
    ensures (exists events :: !Run(cap, r, events).shutdown) <==> r.rcv.pc.RReceiving? || r.rcv.pc.RResetting?
  {
    if r.rcv.pc.RReceiving? || r.rcv.pc.RResetting? {
      var events := [OfReceiver(RRecvError)];
      RunOne(cap, r, [], OfReceiver(RRecvError));
      assert Run(cap, r, events) == Next(cap, r, OfReceiver(RRecvError));
      RunOne(cap, r, events, OfReceiver(RClearsFlag));
      assert !Run(cap, r, events + [OfReceiver(RClearsFlag)]).shutdown;
    } else {
      forall events
        ensures Run(cap, r, events).shutdown
      {
        FlagStays(cap, r, events);
      }
    }
  }

  lemma Extend(cap: nat, events: seq<Event>, r: Relay, e: Event) returns (events': seq<Event>, r': Relay)
    requires r == Run(cap, NEW_RELAY, events)
    ensures events' == events + [e] && r' == Next(cap, r, e) == Run(cap, NEW_RELAY, events')
  {
    events', r' := events + [e], Next(cap, r, e);
    RunOne(cap, NEW_RELAY, events, e);
  }

  /** Both threads are at work, or not yet started. */
  predicate Open(r: Relay) {
    && !r.shutdown
    && (r.snd.pc.SIdle? || r.snd.pc.SHead? || r.snd.pc.SPolling? || r.snd.pc.SReceiving? || r.snd.pc.SWriting?)
    && (r.rcv.pc.RIdle? || r.rcv.pc.RHead? || r.rcv.pc.RReceiving? || r.rcv.pc.RTesting? || r.rcv.pc.RWriting?)
  }

  /** A thread meets the end of its stream, an error of its receive or a failing write. */
  predicate BreaksAt(r: Relay, e: Event) {
    || (e == OfSender(SRecvEnds) && r.snd.pc.SReceiving?) || (e == OfSender(SWriteFails) && r.snd.pc.SWriting?)
    || (e == OfReceiver(RRecvError) && r.rcv.pc.RReceiving?) || (e == OfReceiver(RWriteFails) && r.rcv.pc.RWriting?)
  }

  predicate Breaks(cap: nat, r: Relay, events: seq<Event>)
    decreases |events|
  {
    events != [] && (BreaksAt(r, events[0]) || Breaks(cap, Next(cap, r, events[0]), events[1..]))
  }

  lemma OpenByOne(cap: nat, r: Relay, e: Event)
    requires FlagOk(r) && MainOk(r)
    ensures Open(Next(cap, r, e)) <==> Open(r) && !BreaksAt(r, e)
  {
  }

  lemma {:induction false} OpenIffFrom(cap: nat, r: Relay, events: seq<Event>)
    requires FlagOk(r) && MainOk(r)
    ensures Open(Run(cap, r, events)) ==> Open(r)
    ensures Open(r) ==> (Open(Run(cap, r, events)) <==> !Breaks(cap, r, events))
    decreases |events|
  {
    hide Next, Open, BreaksAt, FlagOk, MainOk;
    if events != [] {
      OpenByOne(cap, r, events[0]);
      NextKeepsFlag(cap, r, events[0]);
      OpenIffFrom(cap, Next(cap, r, events[0]), events[1..]);
    }
  }

  /** A connection stays open until somebody ends it: no thread leaves its loop and the flag is not set,
      however long nothing comes, if and only if no thread has met the end of its stream, an error of its
      receive or a failing write. */
  lemma OpenIff(cap: nat, events: seq<Event>)
    ensures Open(Run(cap, NEW_RELAY, events)) <==> !Breaks(cap, NEW_RELAY, events)
  {
    OpenIffFrom(cap, NEW_RELAY, events);
  }

  const SENDER_STOPS := [OfSender(SPollTimeout), OfSender(STest), OfSender(SSetsFlag)]
  const RECEIVER_STOPS := [OfReceiver(RRecvZero), OfReceiver(RTestsAgain), OfReceiver(RTest), OfReceiver(RSetsFlag)]

  /** And it does not stay open for the other thread alone: once one is done the other, waiting for bytes
      that do not come, sees that at the next timeout of its poll or of its receive. */
  lemma IdleThreadsStop(cap: nat, r: Relay)
    requires FlagOk(r) && MainOk(r)
    ensures r.rcv.pc.RDone? && r.snd.pc.SPolling? ==> Run(cap, r, SENDER_STOPS).snd == Sender(SDone, r.snd.link)
    ensures r.snd.pc.SDone? && r.rcv.pc.RReceiving? ==>
              Run(cap, r, RECEIVER_STOPS).rcv == Receiver(RDone, ReceivedNothing(r.rcv.link))
  {
    if r.rcv.pc.RDone? && r.snd.pc.SPolling? {
      RunOne(cap, r, [], SENDER_STOPS[0]);
      RunOne(cap, r, SENDER_STOPS[..1], SENDER_STOPS[1]);
      RunOne(cap, r, SENDER_STOPS[..2], SENDER_STOPS[2]);
    }
    if r.snd.pc.SDone? && r.rcv.pc.RReceiving? {
      RunOne(cap, r, [], RECEIVER_STOPS[0]);
      RunOne(cap, r, RECEIVER_STOPS[..1], RECEIVER_STOPS[1]);
      RunOne(cap, r, RECEIVER_STOPS[..2], RECEIVER_STOPS[2]);
      RunOne(cap, r, RECEIVER_STOPS[..3], RECEIVER_STOPS[3]);
    }
  }

  /** Until then it goes back to waiting: nothing comes, the flag is clear, and it is where it was. */
  lemma IdleThreadsGoOn(cap: nat, r: Relay)
    requires !r.shutdown
    ensures r.snd.pc.SPolling? ==> Run(cap, r, SENDER_STOPS[..2]) == r
    ensures r.rcv.pc.RReceiving? ==>
              Run(cap, r, RECEIVER_STOPS[..2]) == r.(rcv := r.rcv.(link := ReceivedNothing(r.rcv.link)))
  {
    if r.snd.pc.SPolling? {
      RunOne(cap, r, [], SENDER_STOPS[0]);
      RunOne(cap, r, SENDER_STOPS[..1], SENDER_STOPS[1]);
      assert SENDER_STOPS[..2] == SENDER_STOPS[..1] + [SENDER_STOPS[1]];
    }
    if r.rcv.pc.RReceiving? {
      RunOne(cap, r, [], RECEIVER_STOPS[0]);
      RunOne(cap, r, RECEIVER_STOPS[..1], RECEIVER_STOPS[1]);
      assert RECEIVER_STOPS[..2] == RECEIVER_STOPS[..1] + [RECEIVER_STOPS[1]];
    }
  }

  function PollReturns(events: seq<Event>): nat {
    if events == [] then 0
    else PollReturns(events[..|events| - 1]) + (if events[|events| - 1] == OfSender(SPollReturns) then 1 else 0)
  }

  /** The receives the sender has made and is making. */
  function Begun(t: Sender): nat {
    t.link.recvs + if t.pc.SReceiving? then 1 else 0
  }

  lemma BegunByOne(cap: nat, r: Relay, e: Event)
    requires MainOk(r)
    ensures Begun(Next(cap, r, e).snd) <= Begun(r.snd) + (if e == OfSender(SPollReturns) then 1 else 0)
  {
  }

  /** sock2peer_worker makes no receive that a return of its poll has not announced. */
  lemma {:induction false} ReceivesAreAnnounced(cap: nat, events: seq<Event>)
    ensures Begun(Run(cap, NEW_RELAY, events).snd) <= PollReturns(events)
    decreases |events|
  {
    hide Next, MainOk, FlagOk, LinkOk;
    if events != [] {
      var past, e := events[..|events| - 1], events[|events| - 1];
      ReceivesAreAnnounced(cap, past);
      RunOne(cap, NEW_RELAY, past, e);
      assert events == past + [e];
      NewRelayOk(cap);
      RunKeepsInv(cap, NEW_RELAY, past);
      BegunByOne(cap, Run(cap, NEW_RELAY, past), e);
    }
  }

  /** Receives a thread may still make once the other is done. */
  function SenderReceives(pc: SenderPc): nat {
    if pc.SPolling? || pc.SReceiving? then 1 else 0
  }

  function ReceiverReceives(pc: ReceiverPc): nat {
    if pc.RReceiving? then 1 else 0
  }

  /** Once peer2sock_worker has finished, sock2peer_worker makes at most one more receive, and none
      unless it has already passed its test of the flag. */
  lemma {:induction false} SenderWindsDown(cap: nat, r: Relay, events: seq<Event>)
    requires FlagOk(r) && MainOk(r) && r.rcv.pc.RDone?
    ensures var t := Run(cap, r, events);
            && t.rcv == r.rcv
            && t.snd.link.recvs <= r.snd.link.recvs + SenderReceives(r.snd.pc)
            && |t.snd.link.got| <= |r.snd.link.got| + cap * SenderReceives(r.snd.pc)
    decreases |events|
  {
    if events != [] {
      NextKeepsFlag(cap, r, events[0]);
      SenderWindsDown(cap, Next(cap, r, events[0]), events[1..]);
    }
  }

  /** Once sock2peer_worker has finished, peer2sock_worker makes at most one more receive. */
  lemma {:induction false} ReceiverWindsDown(cap: nat, r: Relay, events: seq<Event>)
    requires FlagOk(r) && MainOk(r) && r.snd.pc.SDone?
    ensures var t := Run(cap, r, events);
            && t.snd == r.snd
            && t.rcv.link.recvs <= r.rcv.link.recvs + ReceiverReceives(r.rcv.pc)
            && |t.rcv.link.got| <= |r.rcv.link.got| + cap * ReceiverReceives(r.rcv.pc)
    decreases |events|
  {
    if events != [] {
      NextKeepsFlag(cap, r, events[0]);
      ReceiverWindsDown(cap, Next(cap, r, events[0]), events[1..]);
    }
  }

  /** How many bytes the receiver can have written at the most when it ends, once the sender has. */
  function ReceiverReach(cap: nat, t: Receiver): nat {
    |t.link.put| + |t.link.pending| + (if t.pc.RReceiving? then cap else 0)
  }

  lemma ReceiverReachFalls(cap: nat, r: Relay, e: Event)
    requires FlagOk(r) && MainOk(r) && r.snd.pc.SDone?
    ensures Next(cap, r, e).snd == r.snd
    ensures ReceiverReach(cap, Next(cap, r, e).rcv) <= ReceiverReach(cap, r.rcv)
  {
  }

  /** How many steps of its own a thread can still take once the other one is done. */
  function SenderSteps(cap: nat, t: Sender): nat {
    match t.pc
    case SDone => 0
    case SLeaving => 1
    case SHead => 2
    case SIdle => 3
    case SWriting => 2 + |t.link.pending|
    case SReceiving => 3 + cap
    case SPolling => 4 + cap
  }

  function ReceiverSteps(cap: nat, t: Receiver): nat {
    match t.pc
    case RDone => 0
    case RLeaving => 1
    case RLeavingReset => 1
    case RResetting => 2
    case RHead => 2
    case RTesting => 3
    case RIdle => 3
    case RWriting => 2 + |t.link.pending|
    case RReceiving => 4 + cap
  }

  /** How many events of a run move the sender, and how many the receiver. */
  function SenderTaken(cap: nat, r: Relay, events: seq<Event>): nat
    decreases |events|
  {
    if events == [] then 0
    else
      var t := Next(cap, r, events[0]);
      (if t.snd != r.snd then 1 else 0) + SenderTaken(cap, t, events[1..])
  }

  function ReceiverTaken(cap: nat, r: Relay, events: seq<Event>): nat
    decreases |events|
  {
    if events == [] then 0
    else
      var t := Next(cap, r, events[0]);
      (if t.rcv != r.rcv then 1 else 0) + ReceiverTaken(cap, t, events[1..])
  }

  /** A thread whose partner is done runs out of steps: interrupted writes apart, every step it
      takes uses up one of those it had left, whatever the interleaving. */
  lemma {:induction false} SenderTerminates(cap: nat, r: Relay, events: seq<Event>)
    requires FlagOk(r) && MainOk(r) && r.rcv.pc.RDone?
    ensures SenderTaken(cap, r, events) + SenderSteps(cap, Run(cap, r, events).snd) <= SenderSteps(cap, r.snd)
    decreases |events|
  {
    if events != [] {
      NextKeepsFlag(cap, r, events[0]);
      SenderTerminates(cap, Next(cap, r, events[0]), events[1..]);
    }
  }

  lemma {:induction false} ReceiverTerminates(cap: nat, r: Relay, events: seq<Event>)
    requires FlagOk(r) && MainOk(r) && r.snd.pc.SDone?
    ensures ReceiverTaken(cap, r, events) + ReceiverSteps(cap, Run(cap, r, events).rcv) <= ReceiverSteps(cap, r.rcv)
    decreases |events|
  {
    if events != [] {
      NextKeepsFlag(cap, r, events[0]);
      ReceiverTerminates(cap, Next(cap, r, events[0]), events[1..]);
    }
  }

  /** So in every reachable state whose partner thread is done, at most cap + 4 steps remain. */
  lemma StepsAreFew(cap: nat, before: seq<Event>, after: seq<Event>)
    ensures var r := Run(cap, NEW_RELAY, before);
            && (r.rcv.pc.RDone? ==> SenderTaken(cap, r, after) <= cap + 4)
            && (r.snd.pc.SDone? ==> ReceiverTaken(cap, r, after) <= cap + 4)
  {
    var r := Run(cap, NEW_RELAY, before);
    NewRelayOk(cap);
    RunKeepsInv(cap, NEW_RELAY, before);
    if r.rcv.pc.RDone? {
      SenderTerminates(cap, r, after);
    }
    if r.snd.pc.SDone? {
      ReceiverTerminates(cap, r, after);
    }
  }

  /** A step towards the end that fails no write: the application ends its stream, the receiver finds
      nothing more to receive. */
  function EndingEvent(r: Relay): Event {
    match r.main
    case AtSpawnRcv => SpawnRcv
    case AtSpawnSnd => SpawnSnd
    case AtCloseUdt => CloseUdt
    case AtCloseTcp => CloseTcp
    case _ =>
      if !r.snd.pc.SDone? then OfSender(SenderEnding(r.snd))
      else if !r.rcv.pc.RDone? then OfReceiver(ReceiverEnding(r.rcv))
      else if r.main.AtJoinRcv? then JoinRcv
      else JoinSnd
  }

  function SenderEnding(t: Sender): SenderEvent {
    match t.pc
    case SHead => STest
    case SPolling => SPollReturns
    case SReceiving => SRecvEnds
    case SWriting => SWrite(|t.link.pending|)
    case _ => SSetsFlag
  }

  function ReceiverEnding(t: Receiver): ReceiverEvent {
    match t.pc
    case RHead => RTest
    case RReceiving => RRecvZero
    case RTesting => RTestsAgain
    case RWriting => RWrite(|t.link.pending|)
    case RResetting => RClearsFlag
    case _ => RSetsFlag
  }

  function MainLeft(main: MainPc): nat {
    match main
    case AtSpawnRcv => 6
    case AtSpawnSnd => 5
    case AtJoinRcv => 4
    case AtJoinSnd => 3
    case AtCloseUdt => 2
    case AtCloseTcp => 1
    case AtEnd => 0
  }

  function SenderLeft(pc: SenderPc): nat {
    match pc
    case SDone => 0
    case SLeaving => 1
    case SReceiving => 2
    case SPolling => 3
    case SHead => 4
    case SWriting => 5
    case SIdle => 5
  }

  function ReceiverLeft(pc: ReceiverPc): nat {
    match pc
    case RDone => 0
    case RLeaving => 1
    case RLeavingReset => 1
    case RResetting => 2
    case RHead => 2
    case RTesting => 3
    case RWriting => 3
    case RReceiving => 4
    case RIdle => 4
  }

  lemma WritersHold(cap: nat, r: Relay)
    requires Inv(cap, r)
    ensures FlagOk(r) && MainOk(r)
    ensures (r.snd.pc.SWriting? ==> r.snd.link.pending != []) && (r.rcv.pc.RWriting? ==> r.rcv.link.pending != [])
  {
  }

  lemma EndingEventAdvances(cap: nat, r: Relay)
    requires FlagOk(r) && MainOk(r) && !r.main.AtEnd?
    requires (r.snd.pc.SWriting? ==> r.snd.link.pending != []) && (r.rcv.pc.RWriting? ==> r.rcv.link.pending != [])
    ensures var t := Next(cap, r, EndingEvent(r));
            && (MainLeft(t.main) < MainLeft(r.main)
                || (t.main == r.main && SenderLeft(t.snd.pc) < SenderLeft(r.snd.pc))
                || (t.main == r.main && t.snd == r.snd && ReceiverLeft(t.rcv.pc) < ReceiverLeft(r.rcv.pc)))
            && t.snd.link.lost == r.snd.link.lost && t.rcv.link.lost == r.rcv.link.lost
  {
  }

  lemma {:induction false} RunsToEnd(cap: nat, r: Relay) returns (events: seq<Event>)
    requires Inv(cap, r)
    ensures var t := Run(cap, r, events);
            t.main.AtEnd? && t.snd.link.lost == r.snd.link.lost && t.rcv.link.lost == r.rcv.link.lost
    decreases MainLeft(r.main), SenderLeft(r.snd.pc), ReceiverLeft(r.rcv.pc)
  {
    hide Inv, FlagOk, MainOk, Next, EndingEvent;
    events := [];
    if !r.main.AtEnd? {
      var e := EndingEvent(r);
      WritersHold(cap, r);
      EndingEventAdvances(cap, r);
      NextKeepsInv(cap, r, e);
      var rest := RunsToEnd(cap, Next(cap, r, e));
      events := [e] + rest;
      assert events[1..] == rest;
    }
  }

  /** From every state that any run can reach some run joins both threads and closes both sockets, and
      does so without losing a byte that was not lost before. */
  lemma NoDeadlock(cap: nat, before: seq<Event>)
    ensures var r := Run(cap, NEW_RELAY, before);
            exists after :: var t := Run(cap, r, after);
              t.main.AtEnd? && t.snd.link.lost == r.snd.link.lost && t.rcv.link.lost == r.rcv.link.lost
  {
    NewRelayOk(cap);
    RunKeepsInv(cap, NEW_RELAY, before);
    var after := RunsToEnd(cap, Run(cap, NEW_RELAY, before));
  }

  // ---------------------------------------------------------------- bytes

  /** A write of the sender fails while it is inside `writen`. */
  predicate SenderFailsAt(r: Relay, e: Event) {
    r.snd.pc.SWriting? && e == OfSender(SWriteFails)
  }

  predicate ReceiverFailsAt(r: Relay, e: Event) {
    r.rcv.pc.RWriting? && e == OfReceiver(RWriteFails)
  }

  /** Somewhere in the run from r. */
  predicate SenderFails(cap: nat, r: Relay, events: seq<Event>)
    decreases |events|
  {
    events != [] && (SenderFailsAt(r, events[0]) || SenderFails(cap, Next(cap, r, events[0]), events[1..]))
  }

  predicate ReceiverFails(cap: nat, r: Relay, events: seq<Event>)
    decreases |events|
  {
    events != [] && (ReceiverFailsAt(r, events[0]) || ReceiverFails(cap, Next(cap, r, events[0]), events[1..]))
  }

  lemma LostByOne(cap: nat, r: Relay, e: Event)
    requires Inv(cap, r)
    ensures var t := Next(cap, r, e);
            && (t.snd.link.lost != [] <==> r.snd.link.lost != [] || SenderFailsAt(r, e))
            && (t.rcv.link.lost != [] <==> r.rcv.link.lost != [] || ReceiverFailsAt(r, e))
  {
  }

  /** Bytes are given up exactly when a write has failed. */
  lemma {:induction false} LostIffFailed(cap: nat, r: Relay, events: seq<Event>)
    requires Inv(cap, r)
    ensures var t := Run(cap, r, events);
            && (t.snd.link.lost != [] <==> r.snd.link.lost != [] || SenderFails(cap, r, events))
            && (t.rcv.link.lost != [] <==> r.rcv.link.lost != [] || ReceiverFails(cap, r, events))
    decreases |events|
  {
    hide Inv, Next, SenderFailsAt, ReceiverFailsAt;
    if events != [] {
      LostByOne(cap, r, events[0]);
      NextKeepsInv(cap, r, events[0]);
      LostIffFailed(cap, Next(cap, r, events[0]), events[1..]);
    }
  }

  /** All that was received has been forwarded, but for a non-empty end of the last chunk if a write has
      failed. */
  ghost predicate AccountsForAll(cap: nat, l: Link, failed: bool) {
    && l.got == l.put + l.lost
    && (l.put != l.got <==> failed) && (l.lost != [] <==> failed)
    && EndsWith(l.got, l.chunk) && EndsWith(l.chunk, l.lost) && |l.chunk| <= cap
  }

  lemma LinkMeans(cap: nat, l: Link, working: bool, leaving: bool)
    requires LinkOk(cap, l, working, leaving)
    ensures l.put <= l.got
    ensures !working && !leaving ==> l.put == l.got
    ensures !working ==> AccountsForAll(cap, l, l.lost != [])
  {
    if !working {
      assert l.put + [] + l.lost == l.put + l.lost;
      assert l.put + [] == l.put;
    }
  }

  lemma RelayLogs(cap: nat, r: Relay)
    requires Inv(cap, r)
    ensures r.snd.link.put <= r.snd.link.got && r.rcv.link.put <= r.rcv.link.got
  {
    hide LinkOk;
    LinkMeans(cap, r.snd.link, r.snd.pc.SWriting?, r.snd.pc.SLeaving? || r.snd.pc.SDone?);
    LinkMeans(cap, r.rcv.link, r.rcv.pc.RWriting?, r.rcv.pc.RLeaving? || r.rcv.pc.RDone?);
  }

  /** At the head of its loop a thread has forwarded all it received.  At its end that differs from what
      was received if and only if a write failed inside `writen`, and then what is missing is a non-empty
      suffix of the last chunk. */
  lemma LinkConservation(cap: nat, events: seq<Event>)
    ensures var r := Run(cap, NEW_RELAY, events);
            && r.snd.link.put <= r.snd.link.got && r.rcv.link.put <= r.rcv.link.got
            && (r.snd.pc.SHead? ==> r.snd.link.put == r.snd.link.got)
            && (r.rcv.pc.RHead? ==> r.rcv.link.put == r.rcv.link.got)
            && (r.snd.pc.SDone? ==> AccountsForAll(cap, r.snd.link, SenderFails(cap, NEW_RELAY, events)))
            && (r.rcv.pc.RDone? ==> AccountsForAll(cap, r.rcv.link, ReceiverFails(cap, NEW_RELAY, events)))
  {
    hide LinkOk, AccountsForAll;
    var r := Run(cap, NEW_RELAY, events);
    NewRelayOk(cap);
    RunKeepsInv(cap, NEW_RELAY, events);
    LostIffFailed(cap, NEW_RELAY, events);
    LinkMeans(cap, r.snd.link, r.snd.pc.SWriting?, r.snd.pc.SLeaving? || r.snd.pc.SDone?);
    LinkMeans(cap, r.rcv.link, r.rcv.pc.RWriting?, r.rcv.pc.RLeaving? || r.rcv.pc.RDone?);
  }

  // ---------------------------------------------------------------- writen

  /** What one answer of the system makes of a thread inside `writen`. */
  datatype WriteStep = Puts(count: nat) | Retries | Fails

  function StepOn(pending: seq<Byte>, a: IO.Answer): WriteStep {
    var k := Min(a.ret, |pending|);
    if k > 0 then Puts(k) else if a.eintr then Retries else Fails
  }

  function SenderStep(w: WriteStep): SenderEvent {
    match w
    case Puts(k) => SWrite(k)
    case Retries => SInterrupted
    case Fails => SWriteFails
  }

  function ReceiverStep(w: WriteStep): ReceiverEvent {
    match w
    case Puts(k) => RWrite(k)
    case Retries => RInterrupted
    case Fails => RWriteFails
  }

  function SenderWrites(cap: nat, t: Sender, answers: seq<IO.Answer>): Sender
    decreases |answers|
  {
    if answers == [] || !t.pc.SWriting? then t
    else SenderWrites(cap, SenderNext(cap, false, t, SenderStep(StepOn(t.link.pending, answers[0]))), answers[1..])
  }

  function ReceiverWrites(cap: nat, t: Receiver, answers: seq<IO.Answer>): Receiver
    decreases |answers|
  {
    if answers == [] || !t.pc.RWriting? then t
    else
      ReceiverWrites(cap, ReceiverNext(cap, false, t, ReceiverStep(StepOn(t.link.pending, answers[0]))), answers[1..])
  }

  /** The data of a thread on the same answers. */
  function LinkWrites(l: Link, answers: seq<IO.Answer>): Link
    decreases |answers|
  {
    if answers == [] || l.pending == [] then l
    else
      match StepOn(l.pending, answers[0])
      case Puts(k) => LinkWrites(Wrote(l, k), answers[1..])
      case Retries => LinkWrites(l, answers[1..])
      case Fails => GaveUp(l)
  }

  /** `m` is `l` after a call of writen that has put out `out` and ended like that. */
  ghost predicate Written(l: Link, m: Link, out: seq<Byte>, ending: IO.Ending) {
    && m.put == l.put + out && m.got == l.got && m.chunk == l.chunk && m.recvs == l.recvs
    && (match ending
        case Complete => l.pending == out && m.pending == [] && m.lost == l.lost
        case Failed => l.pending == out + m.lost && m.pending == [] && m.lost != []
        case Unfinished => l.pending == out + m.pending && m.pending != [] && m.lost == l.lost)
  }

  lemma WrittenPrepend(l: Link, m: Link, k: nat, out: seq<Byte>, ending: IO.Ending)
    requires k <= |l.pending| && Written(Wrote(l, k), m, out, ending)
    ensures Written(l, m, l.pending[..k] + out, ending)
  {
    var p, front := l.pending, l.pending[..k];
    assert (l.put + front) + out == l.put + (front + out);
    var rest := match ending case Complete => [] case Failed => m.lost case Unfinished => m.pending;
    assert p[k..] == out + rest && p == front + p[k..];
    assert front + (out + rest) == (front + out) + rest;
  }

  lemma WrittenNothing(l: Link)
    ensures l.pending == [] ==> Written(l, l, [], IO.Complete)
    ensures l.pending != [] ==> Written(l, l, [], IO.Unfinished) && Written(l, GaveUp(l), [], IO.Failed)
  {
    assert l.put + [] == l.put && [] + l.pending == l.pending;
  }

  lemma {:induction false} LinkIsWriten(l: Link, answers: seq<IO.Answer>)
    ensures Written(l, LinkWrites(l, answers), IO.WritenOut(l.pending, answers), IO.WritenEnding(l.pending, answers))
    decreases |answers|
  {
    hide Written;
    WrittenNothing(l);
    if answers != [] && l.pending != [] {
      var k := Min(answers[0].ret, |l.pending|);
      if k > 0 {
        LinkIsWriten(Wrote(l, k), answers[1..]);
        WrittenPrepend(l, LinkWrites(l, answers), k, IO.WritenOut(l.pending[k..], answers[1..]),
                       IO.WritenEnding(l.pending[k..], answers[1..]));
      } else if answers[0].eintr {
        LinkIsWriten(l, answers[1..]);
      }
    }
  }

  /** The single writes of sock2peer_worker make up one call of `writen`: the same bytes go out, and the
      thread goes back to its loop, leaves it or is still writing as the call returns its count, -1 or
      not yet. */
  lemma StepsAreWriten(cap: nat, t: Sender, answers: seq<IO.Answer>)
    requires t.pc.SWriting? && t.link.pending != []
    ensures var u, ending := SenderWrites(cap, t, answers), IO.WritenEnding(t.link.pending, answers);
            && Written(t.link, u.link, IO.WritenOut(t.link.pending, answers), ending)
            && u.pc == match ending case Complete => SHead case Failed => SLeaving case Unfinished => SWriting
  {
    LinkIsWriten(t.link, answers);
    hide Written;
    SenderWritesLink(cap, t, answers);
  }

  lemma {:induction false} SenderWritesLink(cap: nat, t: Sender, answers: seq<IO.Answer>)
    requires t.pc.SWriting? && t.link.pending != []
    ensures var ending := IO.WritenEnding(t.link.pending, answers);
            SenderWrites(cap, t, answers)
            == Sender(match ending case Complete => SHead case Failed => SLeaving case Unfinished => SWriting,
                      LinkWrites(t.link, answers))
    decreases |answers|
  {
    if answers != [] {
      var u := SenderNext(cap, false, t, SenderStep(StepOn(t.link.pending, answers[0])));
      if u.pc.SWriting? {
        SenderWritesLink(cap, u, answers[1..]);
      }
    }
  }

  /** And so do those of peer2sock_worker, which goes back to its loop and leaves it in the same cases. */
  lemma ReceiverStepsAreWriten(cap: nat, t: Receiver, answers: seq<IO.Answer>)
    requires t.pc.RWriting? && t.link.pending != []
    ensures var u, ending := ReceiverWrites(cap, t, answers), IO.WritenEnding(t.link.pending, answers);
            && Written(t.link, u.link, IO.WritenOut(t.link.pending, answers), ending)
            && u.pc == match ending case Complete => RHead case Failed => RLeaving case Unfinished => RWriting
  {
    LinkIsWriten(t.link, answers);
    hide Written;
    ReceiverWritesLink(cap, t, answers);
  }

  lemma {:induction false} ReceiverWritesLink(cap: nat, t: Receiver, answers: seq<IO.Answer>)
    requires t.pc.RWriting? && t.link.pending != []
    ensures var ending := IO.WritenEnding(t.link.pending, answers);
            ReceiverWrites(cap, t, answers)
            == Receiver(match ending case Complete => RHead case Failed => RLeaving case Unfinished => RWriting,
                        LinkWrites(t.link, answers))
    decreases |answers|
  {
    if answers != [] {
      var u := ReceiverNext(cap, false, t, ReceiverStep(StepOn(t.link.pending, answers[0])));
      if u.pc.RWriting? {
        ReceiverWritesLink(cap, u, answers[1..]);
      }
    }
  }

  /** What one event does to the byte logs of the threads. */
  ghost predicate LogStep(r: Relay, t: Relay, e: Event) {
    && (t.snd.link.got == r.snd.link.got
        || (e.OfSender? && e.s.SRecv? && t.snd.link.got == r.snd.link.got + e.s.bytes))
    && (t.rcv.link.got == r.rcv.link.got
        || (e.OfReceiver? && e.r.RRecv? && t.rcv.link.got == r.rcv.link.got + e.r.bytes))
    && r.snd.link.put <= t.snd.link.put && r.rcv.link.put <= t.rcv.link.put
  }

  lemma NextLogs(cap: nat, r: Relay, e: Event)
    ensures LogStep(r, Next(cap, r, e), e)
  {
  }

  // ---------------------------------------------------------------- the sockets

  predicate SomeSocketClosed(r: Relay) {
    r.main.AtCloseTcp? || r.main.AtEnd?
  }

  /** A socket is closed only after both threads are done, and nothing is transferred from then on. */
  lemma ClosedAfterThreads(cap: nat, before: seq<Event>, after: seq<Event>)
    ensures var r := Run(cap, NEW_RELAY, before);
            SomeSocketClosed(r) ==>
              && r.snd.pc.SDone? && r.rcv.pc.RDone? && r.shutdown
              && Run(cap, r, after).snd == r.snd && Run(cap, r, after).rcv == r.rcv
  {
    var r := Run(cap, NEW_RELAY, before);
    NewRelayOk(cap);
    RunKeepsInv(cap, NEW_RELAY, before);
    if SomeSocketClosed(r) {
      SenderWindsDown(cap, r, after);
      ReceiverWindsDown(cap, r, after);
    }
  }

  /** What `start_child` and the threads have done by the time they are there. */
  ghost predicate HasDone(r: Relay, past: seq<Event>) {
    && (!r.main.AtSpawnRcv? ==> SpawnRcv in past)
    && (!r.main.AtSpawnRcv? && !r.main.AtSpawnSnd? ==> SpawnSnd in past)
    && (r.main.AtJoinSnd? || r.main.AtCloseUdt? || SomeSocketClosed(r) ==> JoinRcv in past)
    && (r.main.AtCloseUdt? || SomeSocketClosed(r) ==> JoinSnd in past)
    && (SomeSocketClosed(r) ==> CloseUdt in past)
    && (r.main.AtEnd? ==> CloseTcp in past)
    && (r.rcv.pc.RResetting? || r.rcv.pc.RLeavingReset? ==> OfReceiver(RRecvError) in past)
    && (r.snd.pc.SDone? ==> OfSender(SSetsFlag) in past) && (r.rcv.pc.RDone? ==> OfReceiver(RSetsFlag) in past)
  }

  lemma NextHasDone(cap: nat, r: Relay, past: seq<Event>, e: Event)
    requires HasDone(r, past)
    ensures HasDone(Next(cap, r, e), past + [e])
  {
  }

  /** The end is reached only through all of it, both threads started and joined and both sockets closed; a
      thread is done only once it has set the flag itself; and only an error of its receive makes
      peer2sock_worker clear it. */
  lemma {:induction false} EndMeansClosed(cap: nat, events: seq<Event>)
    ensures HasDone(Run(cap, NEW_RELAY, events), events)
    decreases |events|
  {
    hide Next;
    if events != [] {
      var past, e := events[..|events| - 1], events[|events| - 1];
      EndMeansClosed(cap, past);
      RunOne(cap, NEW_RELAY, past, e);
      assert events == past + [e];
      NextHasDone(cap, Run(cap, NEW_RELAY, past), past, e);
    }
  }
}
