/**
 The multiplexed relay of src/lib/worker.cpp: `utl::worker(fd_in, fd_out, sd, timeout)`.

 `Step` is one turn of its loop and `Run` any number of turns, over any answers of the kernel and
 the UDT library.  An answer is clipped to the count that was offered, which is the only thing
 assumed of it, and every answer within the offer can be named.  `Relay` is the loop itself on two
 `Loopbuffer` objects and the shut bits.
 */
module Worker {
  import opened Basics
  import opened Ring

  const BLOCK_SIZE: nat := 32 * 1024
  const BUFFER_SIZE: nat := 32 * BLOCK_SIZE

  /** Which lines are taken in the repaired form: `ring` those of the ring; `readsSd` and `writesOut` say
      that the reverse direction reads `sd` at line 163 and writes `fd_out` at line 183. */
  datatype Variant = Variant(ring: Fixes, readsSd: bool, writesOut: bool)

  /** `Got([])` is a return of 0; `Took(0)` likewise. */
  datatype ReadAnswer = Got(bytes: seq<Byte>) | ReadError
  datatype WriteAnswer = Took(count: nat) | WriteError

  /** What the environment does in one turn: the two selects and the four transfers. */
  datatype Round = Round(inReadable: bool, sdReadable: bool, sdWritable: bool, outWritable: bool,
                         fwdRead: ReadAnswer, fwdWrite: WriteAnswer,
                         revRead: ReadAnswer, revWrite: WriteAnswer)

  /** One direction.  `got` and `put` are the bytes it has read and written, `failed` says that
      a read or write of it has failed. */
  datatype Flow = Flow(ring: Ring, rShut: bool, wShut: bool, failed: bool, got: seq<Byte>, put: seq<Byte>)

  /** `fromIn`, `fromSd`, `toSd`, `toOut` are the bytes that have passed each descriptor. */
  datatype State = State(fwd: Flow, rev: Flow, rActive: bool, wActive: bool,
                         fromIn: seq<Byte>, fromSd: seq<Byte>, toSd: seq<Byte>, toOut: seq<Byte>)

  function Clip(bytes: seq<Byte>, n: nat): (r: seq<Byte>)
    ensures |r| <= n && r <= bytes
  {
    if |bytes| <= n then bytes else bytes[..n]
  }

  /** Bytes the read of this turn adds. */
  function ReadBytes(fx: Fixes, f: Flow, ready: bool, a: ReadAnswer): (r: seq<Byte>)
    requires f.ring.Valid()
    ensures |r| <= f.ring.WriteSpace(fx)
  {
    if ready && |f.ring.data| < f.ring.len && !f.rShut && a.Got?
    then Clip(a.bytes, f.ring.WriteSpace(fx)) else []
  }

  function ReadHalf(fx: Fixes, f: Flow, ready: bool, eofShuts: bool, a: ReadAnswer): Flow
    requires f.ring.Valid()
  {
    if ready && |f.ring.data| < f.ring.len && !f.rShut then
      match a
      case ReadError => f.(rShut := true, wShut := true, failed := true)
      case Got(_) =>
        var bytes := ReadBytes(fx, f, ready, a);
        if bytes != [] then f.(ring := f.ring.Put(bytes), got := f.got + bytes)
        else if eofShuts then f.(rShut := true)
        else f
    else f
  }

  /** Bytes the write of this turn removes. */
  function WriteBytes(f: Flow, ready: bool, a: WriteAnswer): (r: seq<Byte>)
    requires f.ring.Valid()
    ensures |r| <= f.ring.ReadSpace() && r <= f.ring.data
  {
    SpacesFit(AS_WRITTEN, f.ring);
    if ready && f.ring.data != [] && !f.wShut && a.Took?
    then f.ring.data[..Min(a.count, f.ring.ReadSpace())] else []
  }

  function WriteHalf(f: Flow, ready: bool, a: WriteAnswer): Flow
    requires f.ring.Valid()
  {
    if ready && f.ring.data != [] && !f.wShut then
      var bytes := WriteBytes(f, ready, a);
      if bytes != [] then f.(ring := f.ring.Drop(|bytes|), put := f.put + bytes)
      else f.(rShut := true, wShut := true, failed := true)
    else f
  }

  function CloseHalf(f: Flow): Flow {
    if f.ring.data == [] && f.rShut then f.(wShut := true) else f
  }

  /** A whole turn of one direction. */
  function FlowStep(fx: Fixes, f: Flow, readable: bool, writable: bool, eofShuts: bool,
                    ra: ReadAnswer, wa: WriteAnswer): Flow
    requires f.ring.Valid()
  {
    RingStaysValid(fx, f, readable, eofShuts, ra);
    CloseHalf(WriteHalf(ReadHalf(fx, f, readable, eofShuts, ra), writable, wa))
  }

  lemma RingStaysValid(fx: Fixes, f: Flow, ready: bool, eofShuts: bool, a: ReadAnswer)
    requires f.ring.Valid()
    ensures ReadHalf(fx, f, ready, eofShuts, a).ring.Valid()
  {
    SpacesFit(fx, f.ring);
  }

  /** The write set is filled from the read set (lines 92-97), so a direction may only write in
      a turn in which its source is readable. */
  function FwdStep(v: Variant, s: State, r: Round): Flow
    requires s.fwd.ring.Valid()
  {
    FlowStep(v.ring, s.fwd, r.inReadable, r.inReadable && r.sdWritable, false, r.fwdRead, r.fwdWrite)
  }

  function RevStep(v: Variant, s: State, r: Round): Flow
    requires s.rev.ring.Valid()
  {
    FlowStep(v.ring, s.rev, r.sdReadable, r.sdReadable && r.outWritable, true, r.revRead, r.revWrite)
  }

  predicate RingsValid(s: State) {
    s.fwd.ring.Valid() && s.rev.ring.Valid()
  }

  function FwdRead(v: Variant, s: State, r: Round): seq<Byte>
    requires RingsValid(s)
  {
    ReadBytes(v.ring, s.fwd, r.inReadable, r.fwdRead)
  }

  function FwdWritten(v: Variant, s: State, r: Round): seq<Byte>
    requires RingsValid(s)
  {
    RingStaysValid(v.ring, s.fwd, r.inReadable, false, r.fwdRead);
    WriteBytes(ReadHalf(v.ring, s.fwd, r.inReadable, false, r.fwdRead), r.inReadable && r.sdWritable, r.fwdWrite)
  }

  function RevRead(v: Variant, s: State, r: Round): seq<Byte>
    requires RingsValid(s)
  {
    ReadBytes(v.ring, s.rev, r.sdReadable, r.revRead)
  }

  function RevWritten(v: Variant, s: State, r: Round): seq<Byte>
    requires RingsValid(s)
  {
    RingStaysValid(v.ring, s.rev, r.sdReadable, true, r.revRead);
    WriteBytes(ReadHalf(v.ring, s.rev, r.sdReadable, true, r.revRead), r.sdReadable && r.outWritable, r.revWrite)
  }

  /** One turn of the loop.  Line 118 clears both ACTIVE bits in every turn. */
  function Step(v: Variant, s: State, r: Round): State
    requires RingsValid(s)
  {
    State(FwdStep(v, s, r), RevStep(v, s, r), false, false,
          s.fromIn + FwdRead(v, s, r) + (if v.readsSd then [] else RevRead(v, s, r)),
          s.fromSd + (if v.readsSd then RevRead(v, s, r) else []),
          s.toSd + FwdWritten(v, s, r) + (if v.writesOut then [] else RevWritten(v, s, r)),
          s.toOut + (if v.writesOut then RevWritten(v, s, r) else []))
  }

  predicate Finished(s: State) {
    s.fwd.wShut && s.rev.wShut
  }

  function NewFlow(fx: Fixes): Flow {
    Flow(NewRing(fx, BUFFER_SIZE, BLOCK_SIZE), false, false, false, [], [])
  }

  function Init(v: Variant): State {
    State(NewFlow(v.ring), NewFlow(v.ring), true, true, [], [], [], [])
  }

  // ---------------------------------------------------------------- one turn

  /** What every turn of a direction keeps: nothing is lost, duplicated or reordered, and a
      direction that shuts without a failure has delivered all it read. */
  ghost predicate FlowOk(f: Flow) {
    && f.ring.Valid()
    && f.got == f.put + f.ring.data
    && (f.wShut ==> f.rShut)
    && (f.failed ==> f.wShut)
    && (f.wShut && !f.failed ==> f.ring.data == [])
  }

  lemma ReadHalfKeeps(fx: Fixes, f: Flow, ready: bool, eofShuts: bool, a: ReadAnswer)
    requires FlowOk(f)
    ensures var g := ReadHalf(fx, f, ready, eofShuts, a);
            && FlowOk(g)
            && g.got == f.got + ReadBytes(fx, f, ready, a) && g.put == f.put
            && (f.rShut ==> g == f)
            && (!eofShuts && f.rShut == f.wShut == f.failed ==> g.rShut == g.wShut == g.failed)
            && (f.failed ==> g.failed) && (f.rShut ==> g.rShut)
  {
    SpacesFit(fx, f.ring);
  }

  lemma WriteHalfKeeps(f: Flow, ready: bool, a: WriteAnswer)
    requires FlowOk(f)
    ensures var g := WriteHalf(f, ready, a);
            && FlowOk(g)
            && g.got == f.got && g.put == f.put + WriteBytes(f, ready, a)
            && (f.wShut ==> g == f)
            && (f.rShut == f.wShut == f.failed ==> g.rShut == g.wShut == g.failed)
            && (f.failed ==> g.failed) && (f.rShut ==> g.rShut)
  {
    var bytes := WriteBytes(f, ready, a);
    SpacesFit(AS_WRITTEN, f.ring);
    if bytes != [] {
      assert f.put + f.ring.data == (f.put + bytes) + f.ring.data[|bytes|..];
    }
  }

  lemma FlowStepKeeps(fx: Fixes, f: Flow, readable: bool, writable: bool, eofShuts: bool,
                      ra: ReadAnswer, wa: WriteAnswer)
    requires FlowOk(f)
    ensures var h := ReadHalf(fx, f, readable, eofShuts, ra);
            var g := FlowStep(fx, f, readable, writable, eofShuts, ra, wa);
            && FlowOk(g) && h.ring.Valid()
            && g.got == f.got + ReadBytes(fx, f, readable, ra)
            && g.put == f.put + WriteBytes(h, writable, wa)
            && (f.wShut ==> g == f && ReadBytes(fx, f, readable, ra) == [] == WriteBytes(h, writable, wa))
            && (!eofShuts && f.rShut == f.wShut == f.failed ==> g.rShut == g.wShut == g.failed)
            && (f.failed ==> g.failed) && (f.rShut ==> g.rShut) && (f.wShut ==> g.wShut)
  {
    ReadHalfKeeps(fx, f, readable, eofShuts, ra);
    WriteHalfKeeps(ReadHalf(fx, f, readable, eofShuts, ra), writable, wa);
  }

  /** A read is made in this turn, and a write when `held` bytes are there after it. */
  predicate Reads(f: Flow, readable: bool) {
    readable && !f.rShut && |f.ring.data| < f.ring.len
  }

  predicate ReadFails(f: Flow, readable: bool, ra: ReadAnswer) {
    Reads(f, readable) && ra.ReadError?
  }

  function Offered(a: WriteAnswer): nat {
    if a.Took? then a.count else 0
  }

  /** The counts of one turn.  A read that is made takes as many bytes as come and fit.  A write is made if
      then a byte is held, its target is writable and nothing has failed, and moves as many as it takes of
      the bytes that lie before the end of the storage. */
  lemma TurnCounts(fx: Fixes, f: Flow, readable: bool, writable: bool, eofShuts: bool,
                   ra: ReadAnswer, wa: WriteAnswer)
    requires FlowOk(f)
    ensures var g := FlowStep(fx, f, readable, writable, eofShuts, ra, wa);
            && f.got <= g.got && f.put <= g.put && g.got == g.put + g.ring.data
            && (if Reads(f, readable) && ra.Got?
                then g.got == f.got + ra.bytes[..Min(|ra.bytes|, f.ring.WriteSpace(fx))] else g.got == f.got)
            && var held := f.ring.Put(g.got[|f.got|..]);
               && held.Valid()
               && |g.put| == |f.put| + (if writable && !f.wShut && !ReadFails(f, readable, ra)
                                        then Min(Offered(wa), held.ReadSpace()) else 0)
  {
    FlowStepKeeps(fx, f, readable, writable, eofShuts, ra, wa);
    ReadHalfKeeps(fx, f, readable, eofShuts, ra);
    SpacesFit(fx, f.ring);
    var h := ReadHalf(fx, f, readable, eofShuts, ra);
    SpacesFit(fx, h.ring);
    var bytes := ReadBytes(fx, f, readable, ra);
    assert (f.got + bytes)[|f.got|..] == bytes;
    assert f.ring.data + [] == f.ring.data;
    assert h.ring == f.ring.Put(bytes);
  }

  /** The bits of one turn, told from its calls.  A direction has failed when a read has, or a write that was
      made took nothing; it reads no more after a failure or, where that counts, an end of file; and it is
      over after a failure or when it reads no more and holds nothing. */
  lemma TurnBits(fx: Fixes, f: Flow, readable: bool, writable: bool, eofShuts: bool,
                 ra: ReadAnswer, wa: WriteAnswer)
    requires FlowOk(f)
    ensures var g := FlowStep(fx, f, readable, writable, eofShuts, ra, wa);
            && f.got <= g.got
            && (g.failed <==>
                  || f.failed || ReadFails(f, readable, ra)
                  || (writable && !f.wShut && f.ring.data + g.got[|f.got|..] != []
                      && (f.ring.atom == 0 || Offered(wa) == 0)))
            && (g.rShut <==>
                  || f.rShut || g.failed || (eofShuts && Reads(f, readable) && ra.Got? && g.got == f.got))
            && (g.wShut <==> f.wShut || g.failed || (g.rShut && g.ring.data == []))
  {
    FlowStepKeeps(fx, f, readable, writable, eofShuts, ra, wa);
    ReadHalfKeeps(fx, f, readable, eofShuts, ra);
    var h := ReadHalf(fx, f, readable, eofShuts, ra);
    WriteHalfKeeps(h, writable, wa);
    WriteProgress(fx, h.ring);
    var bytes := ReadBytes(fx, f, readable, ra);
    assert (f.got + bytes)[|f.got|..] == bytes;
    assert f.ring.data + [] == f.ring.data;
    assert h.ring.data == f.ring.data + bytes && h.ring.atom == f.ring.atom;
  }

  // What holds of both directions: `way` says which.
  datatype Way = ToSd | ToOut

  function FlowOf(s: State, way: Way): Flow {
    if way.ToSd? then s.fwd else s.rev
  }

  predicate SourceReady(r: Round, way: Way) {
    if way.ToSd? then r.inReadable else r.sdReadable
  }

  predicate TargetReady(r: Round, way: Way) {
    if way.ToSd? then r.sdWritable else r.outWritable
  }

  function ReadOf(r: Round, way: Way): ReadAnswer {
    if way.ToSd? then r.fwdRead else r.revRead
  }

  function WriteOf(r: Round, way: Way): WriteAnswer {
    if way.ToSd? then r.fwdWrite else r.revWrite
  }

  lemma StepOf(v: Variant, s: State, r: Round, way: Way)
    requires RingsValid(s)
    ensures var ready := SourceReady(r, way);
            FlowOf(Step(v, s, r), way)
            == FlowStep(v.ring, FlowOf(s, way), ready, ready && TargetReady(r, way), way.ToOut?,
                        ReadOf(r, way), WriteOf(r, way))
  {
  }

  /** The invariant of the whole relay.  The descriptor logs say who reads and writes what. */
  ghost predicate Inv(v: Variant, s: State) {
    && FlowOk(s.fwd) && FlowOk(s.rev)
    && s.fwd.rShut == s.fwd.wShut == s.fwd.failed
    && (if v.readsSd then s.fromIn == s.fwd.got && s.fromSd == s.rev.got else s.fromSd == [])
    && (if v.writesOut then s.toSd == s.fwd.put && s.toOut == s.rev.put else s.toOut == [])
  }

  lemma StepKeepsInv(v: Variant, s: State, r: Round)
    requires Inv(v, s)
    ensures Inv(v, Step(v, s, r))
  {
    FlowStepKeeps(v.ring, s.fwd, r.inReadable, r.inReadable && r.sdWritable, false, r.fwdRead, r.fwdWrite);
    FlowStepKeeps(v.ring, s.rev, r.sdReadable, r.sdReadable && r.outWritable, true, r.revRead, r.revWrite);
  }

  // ---------------------------------------------------------------- whole runs

  /** The loop: turns until both directions are shut or the given answers end. */
  function Run(v: Variant, s: State, rounds: seq<Round>): State
    requires RingsValid(s)
    decreases |rounds|
  {
    if rounds == [] || Finished(s) then s
    else
      RingStaysValid(v.ring, s.fwd, rounds[0].inReadable, false, rounds[0].fwdRead);
      StepKeepsRings(v, s, rounds[0]);
      Run(v, Step(v, s, rounds[0]), rounds[1..])
  }

  lemma FlowKeepsRing(fx: Fixes, f: Flow, readable: bool, writable: bool, eofShuts: bool,
                      ra: ReadAnswer, wa: WriteAnswer)
    requires f.ring.Valid()
    ensures FlowStep(fx, f, readable, writable, eofShuts, ra, wa).ring.Valid()
  {
    RingStaysValid(fx, f, readable, eofShuts, ra);
    SpacesFit(fx, ReadHalf(fx, f, readable, eofShuts, ra).ring);
  }

  lemma StepKeepsRings(v: Variant, s: State, r: Round)
    requires RingsValid(s)
    ensures RingsValid(Step(v, s, r))
  {
    FlowKeepsRing(v.ring, s.fwd, r.inReadable, r.inReadable && r.sdWritable, false, r.fwdRead, r.fwdWrite);
    FlowKeepsRing(v.ring, s.rev, r.sdReadable, r.sdReadable && r.outWritable, true, r.revRead, r.revWrite);
  }

  lemma {:induction false} RunKeepsInv(v: Variant, s: State, rounds: seq<Round>)
    requires Inv(v, s)
    ensures Inv(v, Run(v, s, rounds))
    decreases |rounds|
  {
    if rounds != [] && !Finished(s) {
      StepKeepsInv(v, s, rounds[0]);
      RunKeepsInv(v, Step(v, s, rounds[0]), rounds[1..]);
    }
  }

  /** Conservation over every run, in either form of the code: what a direction has read is what
      it has written followed by what its ring holds, in order. */
  lemma Conservation(v: Variant, rounds: seq<Round>)
    ensures var s := Run(v, Init(v), rounds);
            && s.fwd.got == s.fwd.put + s.fwd.ring.data
            && s.rev.got == s.rev.put + s.rev.ring.data
  {
    RunKeepsInv(v, Init(v), rounds);
  }

  /** Between turns a direction is over exactly when it has failed, or reads no more and holds nothing. */
  ghost predicate Settled(f: Flow) {
    f.wShut <==> f.failed || (f.rShut && f.ring.data == [])
  }

  /** A read of this turn fails, or a write that is made takes nothing. */
  ghost predicate CallFails(v: Variant, s: State, r: Round, way: Way)
    requires RingsValid(s)
  {
    var f, g := FlowOf(s, way), FlowOf(Step(v, s, r), way);
    || ReadFails(f, SourceReady(r, way), ReadOf(r, way))
    || (SourceReady(r, way) && TargetReady(r, way) && !f.wShut && |f.ring.data| + |g.got| > |f.got|
        && (f.ring.atom == 0 || Offered(WriteOf(r, way)) == 0))
  }

  ghost predicate SomeCallFails(v: Variant, s: State, rounds: seq<Round>, way: Way)
    requires RingsValid(s)
    decreases |rounds|
  {
    && rounds != [] && !Finished(s)
    && (StepKeepsRings(v, s, rounds[0]);
        CallFails(v, s, rounds[0], way) || SomeCallFails(v, Step(v, s, rounds[0]), rounds[1..], way))
  }

  lemma TurnSettles(v: Variant, s: State, r: Round, way: Way)
    requires Inv(v, s) && Settled(FlowOf(s, way))
    ensures Settled(FlowOf(Step(v, s, r), way))
    ensures FlowOf(Step(v, s, r), way).failed <==> FlowOf(s, way).failed || CallFails(v, s, r, way)
  {
    var f, ready := FlowOf(s, way), SourceReady(r, way);
    StepOf(v, s, r, way);
    hide Step;
    FlowStepKeeps(v.ring, f, ready, ready && TargetReady(r, way), way.ToOut?, ReadOf(r, way), WriteOf(r, way));
    TurnBits(v.ring, f, ready, ready && TargetReady(r, way), way.ToOut?, ReadOf(r, way), WriteOf(r, way));
    hide FlowStep;
    var g := FlowOf(Step(v, s, r), way);
    assert f.ring.data + g.got[|f.got|..] != [] <==> |f.ring.data| + |g.got| > |f.got|;
  }

  lemma {:induction false} RunSettles(v: Variant, s: State, rounds: seq<Round>, way: Way)
    requires Inv(v, s) && Settled(FlowOf(s, way))
    ensures Settled(FlowOf(Run(v, s, rounds), way))
    ensures FlowOf(Run(v, s, rounds), way).failed <==> FlowOf(s, way).failed || SomeCallFails(v, s, rounds, way)
    decreases |rounds|
  {
    hide Step, FlowOf, CallFails, Settled;
    if rounds != [] && !Finished(s) {
      TurnSettles(v, s, rounds[0], way);
      StepKeepsInv(v, s, rounds[0]);
      RunSettles(v, Step(v, s, rounds[0]), rounds[1..], way);
    }
  }

  /** In either direction a failure is recorded exactly when a read has failed or a write that was made has
      taken nothing. */
  lemma FailedIff(v: Variant, rounds: seq<Round>, way: Way)
    ensures FlowOf(Run(v, Init(v), rounds), way).failed <==> SomeCallFails(v, Init(v), rounds, way)
  {
    RunSettles(v, Init(v), rounds, way);
  }

  /** The status bits over every run: the forward bits agree and mean a failure; the reverse direction is
      shut exactly when it has failed, or has met its end of file and holds nothing, and without a failure
      it has then delivered everything.  The loop is over exactly when the forward direction has failed and
      the reverse one is shut; and the ACTIVE bits do not outlive a turn. */
  lemma StatusBits(v: Variant, rounds: seq<Round>)
    ensures var s := Run(v, Init(v), rounds);
            && (s.fwd.rShut <==> s.fwd.wShut)
            && (s.fwd.wShut <==> s.fwd.failed)
            && (s.rev.wShut ==> s.rev.rShut)
            && (s.rev.wShut <==> s.rev.failed || (s.rev.rShut && s.rev.ring.data == []))
            && (s.rev.wShut && !s.rev.failed ==> s.rev.put == s.rev.got)
            && (Finished(s) <==> s.fwd.failed && s.rev.wShut)
            && (rounds != [] ==> !s.rActive && !s.wActive)
  {
    RunKeepsInv(v, Init(v), rounds);
    RunSettles(v, Init(v), rounds, ToOut);
    if rounds != [] {
      StepKeepsRings(v, Init(v), rounds[0]);
      InactiveForever(v, Step(v, Init(v), rounds[0]), rounds[1..]);
    }
  }

  lemma {:induction false} InactiveForever(v: Variant, s: State, rounds: seq<Round>)
    requires RingsValid(s) && !s.rActive && !s.wActive
    ensures var t := Run(v, s, rounds);
            !t.rActive && !t.wActive
    decreases |rounds|
  {
    if rounds != [] && !Finished(s) {
      StepKeepsRings(v, s, rounds[0]);
      InactiveForever(v, Step(v, s, rounds[0]), rounds[1..]);
    }
  }

  /** Shut bits are never cleared, and a direction whose W bit is set is frozen for good. */
  lemma {:induction false} ShutIsForever(v: Variant, s: State, rounds: seq<Round>)
    requires Inv(v, s)
    ensures var t := Run(v, s, rounds);
            && (s.fwd.rShut ==> t.fwd.rShut) && (s.rev.rShut ==> t.rev.rShut)
            && (s.fwd.wShut ==> t.fwd == s.fwd)
            && (s.rev.wShut ==> t.rev == s.rev)
    decreases |rounds|
  {
    if rounds != [] && !Finished(s) {
      var r := rounds[0];
      FlowStepKeeps(v.ring, s.fwd, r.inReadable, r.inReadable && r.sdWritable, false, r.fwdRead, r.fwdWrite);
      FlowStepKeeps(v.ring, s.rev, r.sdReadable, r.sdReadable && r.outWritable, true, r.revRead, r.revWrite);
      StepKeepsInv(v, s, r);
      ShutIsForever(v, Step(v, s, r), rounds[1..]);
    }
  }

  // ---------------------------------------------------------------- which repairs are needed

  /** No byte has passed and none can: the rings are empty and offer no space. */
  ghost predicate Stuck(v: Variant, s: State) {
    && RingsValid(s)
    && s.fwd.ring.data == [] && s.rev.ring.data == []
    && s.fwd.ring.WriteSpace(v.ring) == 0 && s.rev.ring.WriteSpace(v.ring) == 0
    && s.fromIn == [] && s.fromSd == [] && s.toSd == [] && s.toOut == []
  }

  lemma {:induction false} StuckForever(v: Variant, s: State, rounds: seq<Round>)
    requires Stuck(v, s)
    ensures Stuck(v, Run(v, s, rounds))
    decreases |rounds|
  {
    if rounds != [] && !Finished(s) {
      StepKeepsRings(v, s, rounds[0]);
      StuckForever(v, Step(v, s, rounds[0]), rounds[1..]);
    }
  }

  /** A turn in which everything is ready and each source has one byte. */
  function BusyRound(a: Byte, b: Byte): Round {
    Round(true, true, true, true, Got([a]), Took(1), Got([b]), Took(1))
  }

  lemma ByteGoesThrough(fx: Fixes, eofShuts: bool, b: Byte)
    requires fx.atomTest && fx.writeGap
    ensures var f := NewFlow(fx);
            && ReadBytes(fx, f, true, Got([b])) == [b]
            && WriteBytes(ReadHalf(fx, f, true, eofShuts, Got([b])), true, Took(1)) == [b]
            && FlowStep(fx, f, true, true, eofShuts, Got([b]), Took(1)).ring.data == []
  {
    var f := NewFlow(fx);
    WriteProgress(fx, f.ring);
    assert ReadBytes(fx, f, true, Got([b])) == [b];
    var h := ReadHalf(fx, f, true, eofShuts, Got([b]));
    assert h.ring.data == [b];
    WriteProgress(fx, h.ring);
    assert WriteBytes(h, true, Took(1)) == [b];
  }

  lemma OneTurn(v: Variant, r: Round)
    ensures RingsValid(Init(v)) && Run(v, Init(v), [r]) == Step(v, Init(v), r)
  {
    StepKeepsRings(v, Init(v), r);
    hide Step;
    var rest: seq<Round> := [r][1..];
    assert rest == [];
  }

  lemma BusyRoundMoves(v: Variant, a: Byte, b: Byte)
    requires v.ring.atomTest && v.ring.writeGap
    ensures var s := Run(v, Init(v), [BusyRound(a, b)]);
            && s.fwd.ring.data == [] == s.rev.ring.data
            && s.fromIn == (if v.readsSd then [a] else [a, b])
            && s.fromSd == (if v.readsSd then [b] else [])
            && s.toSd == (if v.writesOut then [a] else [a, b])
            && s.toOut == (if v.writesOut then [b] else [])
  {
    ByteGoesThrough(v.ring, false, a);
    ByteGoesThrough(v.ring, true, b);
    OneTurn(v, BusyRound(a, b));
    hide Run, FlowStep, ReadHalf, ReadBytes, WriteBytes, NewFlow;
  }

  /** Some run moves a byte if and only if both line 18 and line 38 of the ring are repaired: the
      program as written never relays anything, and neither repair alone changes that. */
  lemma MovesBytesIff(v: Variant)
    ensures (exists rounds :: Run(v, Init(v), rounds).fromIn != []) <==> v.ring.atomTest && v.ring.writeGap
    ensures !(v.ring.atomTest && v.ring.writeGap) ==>
              forall rounds :: var s := Run(v, Init(v), rounds);
                s.fwd.ring.data == [] && s.rev.ring.data == []
                && s.fromIn == [] && s.fromSd == [] && s.toSd == [] && s.toOut == []
  {
    if v.ring.atomTest && v.ring.writeGap {
      BusyRoundMoves(v, 0, 0);
    } else {
      WriteProgress(v.ring, Init(v).fwd.ring);
      forall rounds
        ensures Stuck(v, Run(v, Init(v), rounds))
      {
        StuckForever(v, Init(v), rounds);
      }
    }
  }

  /** A relay between the descriptors: what arrives at one side leaves at the other. */
  ghost predicate Relays(s: State) {
    s.fromIn == s.toSd + s.fwd.ring.data && s.fromSd == s.toOut + s.rev.ring.data
  }

  /** One turn in which the reverse direction stores a byte of fd_in and writes nothing. */
  const ECHO := Round(false, true, false, false, ReadError, WriteError, Got([7]), WriteError)

  lemma EchoBreaksRelay(v: Variant)
    requires v.ring.atomTest && v.ring.writeGap && !v.readsSd
    ensures !Relays(Run(v, Init(v), [ECHO]))
  {
    var i := Init(v);
    WriteProgress(v.ring, i.rev.ring);
    assert ReadBytes(v.ring, i.rev, true, Got([7])) == [7];
    OneTurn(v, ECHO);
  }

  /** As written both directions share `fd_in` and `sd`: line 163 unrepaired, all that has been read has come
      from `fd_in`, and line 183 unrepaired, all that has been written has gone to `sd`. */
  ghost predicate Mixed(v: Variant, s: State) {
    && RingsValid(s)
    && (!v.readsSd ==> multiset(s.fromIn) == multiset(s.fwd.got) + multiset(s.rev.got))
    && (!v.writesOut ==> multiset(s.toSd) == multiset(s.fwd.put) + multiset(s.rev.put))
  }

  lemma MixGrows(all: seq<Byte>, a: seq<Byte>, b: seq<Byte>, x: seq<Byte>, y: seq<Byte>)
    requires multiset(all) == multiset(a) + multiset(b)
    ensures multiset(all + x + y) == multiset(a + x) + multiset(b + y)
  {
  }

  lemma TurnStreams(v: Variant, s: State, r: Round)
    requires Inv(v, s)
    ensures var t := Step(v, s, r);
            && RingsValid(t)
            && t.fwd.got == s.fwd.got + FwdRead(v, s, r) && t.rev.got == s.rev.got + RevRead(v, s, r)
            && t.fwd.put == s.fwd.put + FwdWritten(v, s, r) && t.rev.put == s.rev.put + RevWritten(v, s, r)
            && (!v.readsSd ==> t.fromIn == s.fromIn + FwdRead(v, s, r) + RevRead(v, s, r))
            && (!v.writesOut ==> t.toSd == s.toSd + FwdWritten(v, s, r) + RevWritten(v, s, r))
  {
    FlowStepKeeps(v.ring, s.fwd, r.inReadable, r.inReadable && r.sdWritable, false, r.fwdRead, r.fwdWrite);
    FlowStepKeeps(v.ring, s.rev, r.sdReadable, r.sdReadable && r.outWritable, true, r.revRead, r.revWrite);
    hide FlowStep, ReadHalf, ReadBytes, WriteBytes;
  }

  lemma TurnMixes(v: Variant, s: State, r: Round)
    requires Inv(v, s) && Mixed(v, s)
    ensures Mixed(v, Step(v, s, r))
  {
    TurnStreams(v, s, r);
    hide Inv, Step, FwdRead, RevRead, FwdWritten, RevWritten;
    if !v.readsSd {
      MixGrows(s.fromIn, s.fwd.got, s.rev.got, FwdRead(v, s, r), RevRead(v, s, r));
    }
    if !v.writesOut {
      MixGrows(s.toSd, s.fwd.put, s.rev.put, FwdWritten(v, s, r), RevWritten(v, s, r));
    }
  }

  lemma {:induction false} RunMixes(v: Variant, s: State, rounds: seq<Round>)
    requires Inv(v, s) && Mixed(v, s)
    ensures Mixed(v, Run(v, s, rounds))
    decreases |rounds|
  {
    hide Step;
    if rounds != [] && !Finished(s) {
      TurnMixes(v, s, rounds[0]);
      StepKeepsInv(v, s, rounds[0]);
      RunMixes(v, Step(v, s, rounds[0]), rounds[1..]);
    }
  }

  lemma BytesAreMixed(v: Variant, rounds: seq<Round>)
    ensures var s := Run(v, Init(v), rounds);
            && (!v.readsSd ==> multiset(s.fromIn) == multiset(s.fwd.got) + multiset(s.rev.got))
            && (!v.writesOut ==> multiset(s.toSd) == multiset(s.fwd.put) + multiset(s.rev.put))
  {
    RunMixes(v, Init(v), rounds);
  }

  /** Given a ring that moves bytes, the descriptors carry the right streams in every run if and only
      if line 163 and line 183 are both repaired; neither repair alone does it.  Without the first nothing
      is ever read from `sd`, without the second nothing is ever written to `fd_out`. */
  lemma RelaysIff(v: Variant)
    requires v.ring.atomTest && v.ring.writeGap
    ensures (forall rounds :: Relays(Run(v, Init(v), rounds))) <==> v.readsSd && v.writesOut
    ensures !v.readsSd ==> forall rounds :: Run(v, Init(v), rounds).fromSd == []
    ensures !v.writesOut ==> forall rounds :: Run(v, Init(v), rounds).toOut == []
  {
    forall rounds
      ensures Inv(v, Run(v, Init(v), rounds))
      ensures v.readsSd && v.writesOut ==> Relays(Run(v, Init(v), rounds))
    {
      RunKeepsInv(v, Init(v), rounds);
    }
    if !v.readsSd {
      EchoBreaksRelay(v);
    } else if !v.writesOut {
      BusyRoundMoves(v, 0, 1);
      assert !Relays(Run(v, Init(v), [BusyRound(0, 1)]));
    }
  }

  // ---------------------------------------------------------------- progress

  /** A turn in which the reverse direction may write and the write takes something. */
  predicate RevWrites(r: Round) {
    r.sdReadable && r.outWritable && r.revWrite.Took? && r.revWrite.count > 0
  }

  /** After end of file on `sd`, as many turns that write as the ring holds bytes are enough to
      deliver everything and to set the reverse W bit. */
  lemma {:induction false} EofDrains(v: Variant, s: State, rounds: seq<Round>)
    requires Inv(v, s) && s.rev.rShut && !s.rev.wShut && !s.rev.failed && s.rev.ring.atom > 0
    requires |rounds| >= |s.rev.ring.data| && |rounds| > 0
    requires forall i :: 0 <= i < |rounds| ==> RevWrites(rounds[i])
    ensures var t := Run(v, s, rounds);
            t.rev.wShut && !t.rev.failed && t.rev.put == t.rev.got == s.rev.got
    decreases |rounds|
  {
    var r := rounds[0];
    var t := Step(v, s, r);
    assert RevWrites(r);
    StepKeepsInv(v, s, r);
    assert ReadHalf(v.ring, s.rev, r.sdReadable, true, r.revRead) == s.rev;
    WriteProgress(v.ring, s.rev.ring);
    if s.rev.ring.data != [] {
      assert WriteBytes(s.rev, true, r.revWrite) != [];
      assert t.rev.ring.atom == s.rev.ring.atom;
      assert |t.rev.ring.data| < |s.rev.ring.data|;
    }
    assert t.rev.rShut && !t.rev.failed && t.rev.got == s.rev.got;
    if t.rev.wShut {
      ShutIsForever(v, t, rounds[1..]);
    } else {
      EofDrains(v, t, rounds[1..]);
    }
  }

  /** From any working state with room in the ring: if `sd` is at its end of file, then as many turns that
      write as the ring holds bytes, and at least one, deliver everything and end the direction. */
  lemma EofDelivers(v: Variant, s: State, rounds: seq<Round>)
    requires Inv(v, s) && !s.rev.rShut && s.rev.ring.atom > 0 && |s.rev.ring.data| < s.rev.ring.len
    requires |rounds| >= |s.rev.ring.data| && |rounds| > 0 && rounds[0].revRead == Got([])
    requires forall i :: 0 <= i < |rounds| ==> RevWrites(rounds[i])
    ensures var t := Run(v, s, rounds);
            t.rev.wShut && !t.rev.failed && t.rev.put == t.rev.got == s.rev.got
  {
    var s' := s.(rev := s.rev.(rShut := true));
    assert RevWrites(rounds[0]);
    assert ReadHalf(v.ring, s.rev, true, true, Got([])) == s'.rev == ReadHalf(v.ring, s'.rev, true, true, Got([]));
    assert Step(v, s, rounds[0]) == Step(v, s', rounds[0]);
    EofDrains(v, s', rounds);
  }

  /** The target is writable, a write takes something if it is made, and the read does not fail. */
  predicate CanWrite(r: Round, way: Way) {
    TargetReady(r, way) && Offered(WriteOf(r, way)) > 0 && ReadOf(r, way).Got?
  }

  predicate BringsNothing(r: Round, way: Way) {
    ReadOf(r, way) == Got([])
  }

  /** Bytes have neither come nor gone. */
  predicate Untouched(f: Flow, g: Flow) {
    g.ring == f.ring && g.got == f.got && g.put == f.put
  }

  lemma QuietTurn(v: Variant, s: State, r: Round, way: Way)
    requires RingsValid(s) && !SourceReady(r, way)
    ensures RingsValid(Step(v, s, r))
    ensures Untouched(FlowOf(s, way), FlowOf(Step(v, s, r), way))
  {
    StepKeepsRings(v, s, r);
  }

  /** In either direction every byte stays where it is through any turns in which the source is not
      readable, however writable the target is. */
  lemma {:induction false} QuietSourceStrands(v: Variant, s: State, rounds: seq<Round>, way: Way)
    requires RingsValid(s)
    requires forall i :: 0 <= i < |rounds| ==> !SourceReady(rounds[i], way)
    ensures Untouched(FlowOf(s, way), FlowOf(Run(v, s, rounds), way))
    decreases |rounds|
  {
    hide Step, RingsValid, FlowOf;
    if rounds != [] && !Finished(s) {
      QuietTurn(v, s, rounds[0], way);
      QuietSourceStrands(v, Step(v, s, rounds[0]), rounds[1..], way);
    }
  }

  /** And nothing leaves a direction while its target is not writable. */
  lemma {:induction false} BlockedTargetHolds(v: Variant, s: State, rounds: seq<Round>, way: Way)
    requires Inv(v, s)
    requires forall i :: 0 <= i < |rounds| ==> !TargetReady(rounds[i], way)
    ensures FlowOf(Run(v, s, rounds), way).put == FlowOf(s, way).put
    decreases |rounds|
  {
    hide FlowStep, FlowOf, Step;
    if rounds != [] && !Finished(s) {
      BlockedTurn(v, s, rounds[0], way);
      BlockedTargetHolds(v, Step(v, s, rounds[0]), rounds[1..], way);
    }
  }

  lemma BlockedTurn(v: Variant, s: State, r: Round, way: Way)
    requires Inv(v, s) && !TargetReady(r, way)
    ensures Inv(v, Step(v, s, r)) && FlowOf(Step(v, s, r), way).put == FlowOf(s, way).put
  {
    StepOf(v, s, r, way);
    StepKeepsInv(v, s, r);
    hide Step, FlowStep;
    TurnCounts(v.ring, FlowOf(s, way), SourceReady(r, way), false, way.ToOut?, ReadOf(r, way), WriteOf(r, way));
  }

  /** From f to g n turns have written at least a byte each as long as bytes of f were held, nothing has
      been read without a byte being written, and without any such turn nothing has been done. */
  ghost predicate MovedIn(f: Flow, g: Flow, n: nat) {
    && f.got <= g.got && f.put <= g.put && g.ring.atom == f.ring.atom
    && |g.put| >= |f.put| + Min(n, |f.ring.data|)
    && (g.got != f.got ==> g.put != f.put)
    && (n == 0 ==> g.put == f.put)
  }

  lemma WritingTurn(fx: Fixes, f: Flow, eofShuts: bool, ra: ReadAnswer, wa: WriteAnswer)
    requires FlowOk(f) && !f.wShut && f.ring.atom > 0 && ra.Got? && wa.Took? && wa.count > 0
    ensures var g := FlowStep(fx, f, true, true, eofShuts, ra, wa);
            MovedIn(f, g, 1) && FlowOk(g) && (g.wShut ==> g.ring.data == []) && (ra == Got([]) ==> g.got == f.got)
  {
    FlowStepKeeps(fx, f, true, true, eofShuts, ra, wa);
    ReadHalfKeeps(fx, f, true, eofShuts, ra);
    var h := ReadHalf(fx, f, true, eofShuts, ra);
    assert !h.wShut && h.ring.atom == f.ring.atom;
    WriteProgress(fx, h.ring);
    assert h.ring.data != [] ==> WriteBytes(h, true, wa) != [];
  }

  lemma TurnMoves(v: Variant, s: State, r: Round, way: Way)
    requires Inv(v, s) && !FlowOf(s, way).wShut && FlowOf(s, way).ring.atom > 0
    requires SourceReady(r, way) ==> CanWrite(r, way)
    ensures var f, g := FlowOf(s, way), FlowOf(Step(v, s, r), way);
            && MovedIn(f, g, if SourceReady(r, way) then 1 else 0)
            && FlowOk(g) && (g.wShut ==> g.ring.data == [])
            && (BringsNothing(r, way) ==> g.got == f.got)
  {
    if SourceReady(r, way) {
      WritingTurn(v.ring, FlowOf(s, way), way.ToOut?, ReadOf(r, way), WriteOf(r, way));
    } else {
      QuietTurn(v, s, r, way);
      StepKeepsInv(v, s, r);
    }
  }

  lemma MovedInMore(f: Flow, g: Flow, h: Flow, k: nat, n: nat)
    requires FlowOk(f) && FlowOk(g) && FlowOk(h) && MovedIn(f, g, k) && MovedIn(g, h, n)
    ensures MovedIn(f, h, k + n)
  {
    assert |f.got| == |f.put| + |f.ring.data| && |g.got| == |g.put| + |g.ring.data|;
    assert g.put == f.put && h.put == g.put ==> h.got == f.got;
  }

  lemma MovedInNothing(f: Flow, n: nat)
    requires FlowOk(f) && (f.ring.data == [] || n == 0)
    ensures MovedIn(f, f, n)
  {
  }

  function ReadyTurns(rounds: seq<Round>, way: Way): nat {
    if rounds == [] then 0 else (if SourceReady(rounds[0], way) then 1 else 0) + ReadyTurns(rounds[1..], way)
  }

  lemma {:induction false} RunMoves(v: Variant, s: State, rounds: seq<Round>, way: Way)
    requires Inv(v, s) && FlowOf(s, way).ring.atom > 0
    requires FlowOf(s, way).wShut ==> FlowOf(s, way).ring.data == []
    requires forall i :: 0 <= i < |rounds| && SourceReady(rounds[i], way) ==> CanWrite(rounds[i], way)
    ensures var f, g := FlowOf(s, way), FlowOf(Run(v, s, rounds), way);
            && MovedIn(f, g, ReadyTurns(rounds, way)) && FlowOk(g)
            && ((forall i :: 0 <= i < |rounds| ==> BringsNothing(rounds[i], way)) ==> g.got == f.got)
    decreases |rounds|
  {
    hide Step, FlowStep, MovedIn;
    if FlowOf(s, way).wShut || rounds == [] {
      ShutIsForever(v, s, rounds);
      MovedInNothing(FlowOf(s, way), ReadyTurns(rounds, way));
    } else {
      var t := Step(v, s, rounds[0]);
      TurnMoves(v, s, rounds[0], way);
      StepKeepsInv(v, s, rounds[0]);
      StillWorks(FlowOf(s, way), FlowOf(t, way), if SourceReady(rounds[0], way) then 1 else 0);
      RunMoves(v, t, rounds[1..], way);
      MovedInMore(FlowOf(s, way), FlowOf(t, way), FlowOf(Run(v, t, rounds[1..]), way),
                  if SourceReady(rounds[0], way) then 1 else 0, ReadyTurns(rounds[1..], way));
    }
  }

  lemma StillWorks(f: Flow, g: Flow, n: nat)
    requires MovedIn(f, g, n)
    ensures g.ring.atom == f.ring.atom
  {
  }

  ghost predicate SomeReady(rounds: seq<Round>, way: Way) {
    exists i :: 0 <= i < |rounds| && SourceReady(rounds[i], way)
  }

  lemma {:induction false} SomeReadyTurn(rounds: seq<Round>, way: Way)
    ensures ReadyTurns(rounds, way) > 0 <==> SomeReady(rounds, way)
  {
    if rounds != [] {
      SomeReadyTurn(rounds[1..], way);
      assert forall i :: 0 < i < |rounds| ==> rounds[i] == rounds[1..][i - 1];
      assert forall i :: 0 <= i < |rounds| - 1 ==> rounds[1..][i] == rounds[i + 1];
    }
  }

  /** In each turn which finds the source readable the target is writable, the write takes something and
      the read does not fail. */
  ghost predicate TurnsWork(rounds: seq<Round>, way: Way) {
    forall i :: 0 <= i < |rounds| && SourceReady(rounds[i], way) ==> CanWrite(rounds[i], way)
  }

  /** Then a held byte moves if and only if there is such a turn. */
  lemma HeldBytesMoveIff(v: Variant, s: State, rounds: seq<Round>, way: Way)
    requires Inv(v, s) && !FlowOf(s, way).wShut && FlowOf(s, way).ring.atom > 0
    requires TurnsWork(rounds, way)
    ensures var f, g := FlowOf(s, way), FlowOf(Run(v, s, rounds), way);
            f.ring.data != [] ==> (g.put != f.put <==> SomeReady(rounds, way))
  {
    RunMoves(v, s, rounds, way);
    SomeReadyTurn(rounds, way);
  }

  /** As many such turns as bytes are held deliver all of them, whatever is read meanwhile. */
  lemma HeldBytesAreDelivered(v: Variant, s: State, rounds: seq<Round>, way: Way)
    requires Inv(v, s) && !FlowOf(s, way).wShut && FlowOf(s, way).ring.atom > 0
    requires TurnsWork(rounds, way)
    ensures var f, g := FlowOf(s, way), FlowOf(Run(v, s, rounds), way);
            ReadyTurns(rounds, way) >= |f.ring.data| ==> f.got <= g.put
  {
    RunMoves(v, s, rounds, way);
    var f, g := FlowOf(s, way), FlowOf(Run(v, s, rounds), way);
    assert g.put <= g.got && |f.got| == |f.put| + |f.ring.data|;
  }

  /** Whatever is held, something is passed on if and only if something is read or a byte is held in such a
      turn; so an empty ring passes something on exactly when something is read. */
  lemma PassesOnIff(v: Variant, s: State, rounds: seq<Round>, way: Way)
    requires Inv(v, s) && !FlowOf(s, way).wShut && FlowOf(s, way).ring.atom > 0
    requires TurnsWork(rounds, way)
    ensures var f, g := FlowOf(s, way), FlowOf(Run(v, s, rounds), way);
            g.put != f.put <==> g.got != f.got || (f.ring.data != [] && SomeReady(rounds, way))
  {
    RunMoves(v, s, rounds, way);
    SomeReadyTurn(rounds, way);
    var f, g := FlowOf(s, way), FlowOf(Run(v, s, rounds), way);
    assert g.put <= g.got;
  }

  // ---------------------------------------------------------------- the loop itself

  lemma RunNext(v: Variant, s: State, rounds: seq<Round>, i: nat)
    requires RingsValid(s) && i < |rounds| && !Finished(s)
    ensures RingsValid(Step(v, s, rounds[i]))
    ensures Run(v, s, rounds[i..]) == Run(v, Step(v, s, rounds[i]), rounds[i + 1..])
  {
    hide Step;
    assert rounds[i..][0] == rounds[i] && rounds[i..][1..] == rounds[i + 1..];
    StepKeepsRings(v, s, rounds[i]);
  }

  lemma RunStops(v: Variant, s: State, rounds: seq<Round>, i: nat)
    requires RingsValid(s) && i <= |rounds| && (i == |rounds| || Finished(s))
    ensures Run(v, s, rounds[i..]) == s
  {
  }

  /** A ring with the two shut bits of its direction; lines 120-158 and 160-199 of the loop body are
      the same code twice but for what an end of file does. */
  class Direction {
    const ring: Loopbuffer
    var rShut: bool
    var wShut: bool
    ghost var failed: bool
    ghost var got: seq<Byte>
    ghost var put: seq<Byte>

    ghost predicate Valid()
      reads this, ring
    {
      ring.Valid()
    }

    ghost function View(): (f: Flow)
      requires Valid()
      reads this, ring, ring.buf
      ensures f.ring.Valid()
    {
      Flow(ring.View(), rShut, wShut, failed, got, put)
    }

    constructor (fx: Fixes)
      ensures Valid() && ring.fixes == fx && View() == NewFlow(fx)
      ensures fresh(ring) && fresh(ring.buf)
    {
      ring := new Loopbuffer(fx, BUFFER_SIZE, BLOCK_SIZE);
      rShut, wShut, failed, got, put := false, false, false, [], [];
    }

    method Read(readable: bool, eofShuts: bool, a: ReadAnswer) returns (bytes: seq<Byte>)
      requires Valid()
      modifies this, ring, ring.buf
      ensures Valid()
      ensures View() == ReadHalf(ring.fixes, old(View()), readable, eofShuts, a)
      ensures bytes == ReadBytes(ring.fixes, old(View()), readable, a)
    {
      hide Loopbuffer.View, Window, Wrap;
      bytes := [];
      var full := ring.IsFull();
      if readable && !full && !rShut {
        var n := ring.GetWriteSpace();
        match a
        case Got(_) =>
          bytes := Clip(a.bytes, n);
          if |bytes| > 0 {
            ring.Absorb(bytes);
            got := got + bytes;
          } else if eofShuts {
            rShut := true;
          }
        case ReadError =>
          rShut, wShut, failed := true, true, true;
      }
    }

    method Write(writable: bool, a: WriteAnswer) returns (bytes: seq<Byte>)
      requires Valid()
      modifies this, ring
      ensures Valid()
      ensures View() == CloseHalf(WriteHalf(old(View()), writable, a))
      ensures bytes == WriteBytes(old(View()), writable, a)
    {
      hide Loopbuffer.View, Window, Wrap;
      bytes := [];
      var empty := ring.IsEmpty();
      if writable && !empty && !wShut {
        var n := ring.GetReadSpace();
        var sz := if a.Took? then Min(a.count, n) else 0;
        if sz > 0 {
          bytes := ring.Emit(sz);
          put := put + bytes;
        } else {
          wShut, rShut, failed := true, true, true;
        }
      }
      empty := ring.IsEmpty();
      if empty && rShut {
        wShut := true;
      }
    }
  }

  class Relay {
    const variant: Variant
    const fwd: Direction
    const rev: Direction
    var rActive: bool
    var wActive: bool
    var fromIn: seq<Byte>
    var fromSd: seq<Byte>
    var toSd: seq<Byte>
    var toOut: seq<Byte>

    ghost predicate Valid()
      reads this, fwd, rev, fwd.ring, rev.ring
    {
      && fwd != rev && fwd.ring != rev.ring && fwd.ring.buf != rev.ring.buf
      && fwd.Valid() && rev.Valid()
      && fwd.ring.fixes == variant.ring && rev.ring.fixes == variant.ring
    }

    ghost function View(): (s: State)
      requires Valid()
      reads this, fwd, rev, fwd.ring, rev.ring, fwd.ring.buf, rev.ring.buf
      ensures RingsValid(s)
    {
      State(fwd.View(), rev.View(), rActive, wActive, fromIn, fromSd, toSd, toOut)
    }

    constructor (v: Variant)
      ensures Valid() && variant == v && View() == Init(v)
      ensures fresh(fwd) && fresh(rev) && fresh(fwd.ring) && fresh(rev.ring)
      ensures fresh(fwd.ring.buf) && fresh(rev.ring.buf)
    {
      variant := v;
      fwd := new Direction(v.ring);
      rev := new Direction(v.ring);
      rActive, wActive := true, true;
      fromIn, fromSd, toSd, toOut := [], [], [], [];
    }

    /** Lines 120-158: fd_in to sd. */
    method TurnForward(r: Round)
      requires Valid()
      modifies this`fromIn, this`toSd, fwd, fwd.ring, fwd.ring.buf
      ensures Valid()
      ensures fwd.View() == FwdStep(variant, old(View()), r)
      ensures fromIn == old(fromIn) + FwdRead(variant, old(View()), r)
      ensures toSd == old(toSd) + FwdWritten(variant, old(View()), r)
    {
      hide Loopbuffer.View, ReadHalf, WriteHalf, CloseHalf, ReadBytes, WriteBytes;
      var bytes := fwd.Read(r.inReadable, false, r.fwdRead);
      fromIn := fromIn + bytes;
      bytes := fwd.Write(r.inReadable && r.sdWritable, r.fwdWrite);
      toSd := toSd + bytes;
    }

    /** Lines 160-199: sd to fd_out, or as written fd_in to sd. */
    method TurnReverse(r: Round)
      requires Valid()
      modifies this`fromIn, this`fromSd, this`toSd, this`toOut, rev, rev.ring, rev.ring.buf
      ensures Valid()
      ensures rev.View() == RevStep(variant, old(View()), r)
      ensures var got := RevRead(variant, old(View()), r);
              && fromIn == old(fromIn) + (if variant.readsSd then [] else got)
              && fromSd == old(fromSd) + (if variant.readsSd then got else [])
      ensures var put := RevWritten(variant, old(View()), r);
              && toSd == old(toSd) + (if variant.writesOut then [] else put)
              && toOut == old(toOut) + (if variant.writesOut then put else [])
    {
      hide Loopbuffer.View, ReadHalf, WriteHalf, CloseHalf, ReadBytes, WriteBytes;
      var bytes := rev.Read(r.sdReadable, true, r.revRead);
      if variant.readsSd {
        fromSd := fromSd + bytes;
      } else {
        fromIn := fromIn + bytes;
      }
      bytes := rev.Write(r.sdReadable && r.outWritable, r.revWrite);
      if variant.writesOut {
        toOut := toOut + bytes;
      } else {
        toSd := toSd + bytes;
      }
    }

    /** One turn of the loop. */
    method Turn(r: Round)
      requires Valid()
      modifies this, fwd, rev, fwd.ring, rev.ring, fwd.ring.buf, rev.ring.buf
      ensures Valid()
      ensures View() == Step(variant, old(View()), r)
    {
      rActive, wActive := false, false;
      TurnForward(r);
      assert rev.View() == old(rev.View());
      TurnReverse(r);
    }

    /** The loop of lines 60-200 over the given answers; the timeout is never passed on (line 214). */
    method Loop(rounds: seq<Round>)
      requires Valid()
      modifies this, fwd, rev, fwd.ring, rev.ring, fwd.ring.buf, rev.ring.buf
      ensures Valid()
      ensures View() == Run(variant, old(View()), rounds)
    {
      hide Run, Step;
      var i := 0;
      assert rounds[0..] == rounds;
      while i < |rounds| && (!fwd.wShut || !rev.wShut)
        invariant 0 <= i <= |rounds|
        invariant Valid()
        invariant Run(variant, View(), rounds[i..]) == Run(variant, old(View()), rounds)
      {
        RunNext(variant, View(), rounds, i);
        Turn(rounds[i]);
        i := i + 1;
      }
      RunStops(variant, View(), rounds, i);
    }
  }
}
