/**
 The ring buffer of src/include/loopbuffer.h.

 `Ring` is the abstract view: a bounded FIFO queue that still knows where its first byte sits
 in the storage, because the offered spaces depend on that.  `Loopbuffer` is the class itself,
 a byte array with two pointers, and every method of it is proved against `Ring`.

 Two tests of the class differ from what they are for.  The constructor assigns `atom = 0`
 instead of comparing (line 18), and the write space compares the pointers with `>` where an
 empty ring needs `>=` (line 38).  `Fixes` says which of the tests are taken in the repaired form.
 */
module Ring {
  import opened Basics

  /** atomTest: line 18 compares; writeGap: line 38 uses >=. */
  datatype Fixes = Fixes(atomTest: bool, writeGap: bool)

  const AS_WRITTEN := Fixes(false, false)

  /** `x % n` for the arguments that occur; WrapIsMod says so. */
  function Wrap(x: nat, n: nat): nat
    requires x < 2 * n
  {
    if x < n then x else x - n
  }

  lemma WrapIsMod(x: nat, n: nat)
    requires x < 2 * n
    ensures Wrap(x, n) == x % n
  {
    if x < n {
      ModUnique(x, n, 0, x);
    } else {
      ModUnique(x, n, 1, x - n);
    }
  }

  lemma ModUnique(x: nat, n: nat, q: nat, r: nat)
    requires r < n && x == q * n + r
    ensures x % n == r
  {
    var k := q - x / n;
    MultipleIsFar(k, n);
    assert k * n == q * n - (x / n) * n;
  }

  datatype Ring = Ring(len: nat, atom: nat, readP: nat, data: seq<Byte>) {

    predicate Valid() {
      readP < len && |data| <= len
    }

    function WritP(): nat
      requires Valid()
    {
      Wrap(readP + |data|, len)
    }

    /** How many bytes the reader may take in one go. */
    function ReadSpace(): nat
      requires Valid()
    {
      Min(atom, if readP + |data| <= len then |data| else len - readP)
    }

    /** How many bytes the writer may store in one go. */
    function WriteSpace(fx: Fixes): nat
      requires Valid()
    {
      if |data| == len then 0
      else
        var above := if fx.writeGap then WritP() >= readP else WritP() > readP;
        Min(atom, if above then len - WritP() else readP - WritP())
    }

    function Put(bytes: seq<Byte>): Ring {
      this.(data := data + bytes)
    }

    function Drop(n: nat): Ring
      requires Valid() && n <= |data|
    {
      this.(readP := Wrap(readP + n, len), data := data[n..])
    }
  }

  function NewAtom(fx: Fixes, len: nat, at: nat): nat {
    if !fx.atomTest then 0 else if at == 0 then len else at
  }

  function NewRing(fx: Fixes, len: nat, at: nat): Ring {
    Ring(len, NewAtom(fx, len, at), 0, [])
  }

  /** The write pointer lies `size` bytes after the read pointer, round the end of the storage. */
  lemma WritePointer(r: Ring)
    requires r.Valid()
    ensures r.WritP() == (r.readP + |r.data|) % r.len
  {
    WrapIsMod(r.readP + |r.data|, r.len);
  }

  /** The asserts of `writen` and `readn` follow from taking no more than was offered, repaired or not. */
  lemma SpacesFit(fx: Fixes, r: Ring)
    requires r.Valid()
    ensures r.WriteSpace(fx) <= r.len - |r.data| && r.WritP() + r.WriteSpace(fx) <= r.len
    ensures r.ReadSpace() <= |r.data| && r.readP + r.ReadSpace() <= r.len
  {
  }

  /** Exactly when a ring accepts bytes.  With `>` at line 38 an empty ring never does. */
  lemma WriteProgress(fx: Fixes, r: Ring)
    requires r.Valid()
    ensures r.WriteSpace(fx) > 0 <==> |r.data| < r.len && r.atom > 0 && (fx.writeGap || |r.data| > 0)
    ensures r.ReadSpace() > 0 <==> |r.data| > 0 && r.atom > 0
  {
  }

  /** The spaces offered are the largest there are: of the counts within the unit, those that keep to the
      data, or to the free bytes, and do not run over the end of the storage; but with `>` at line 38 an
      empty ring offers nothing to the writer. */
  lemma SpacesAreLargest(fx: Fixes, r: Ring, n: nat)
    requires r.Valid()
    ensures n <= r.ReadSpace() <==> n <= r.atom && n <= |r.data| && r.readP + n <= r.len
    ensures n <= r.WriteSpace(fx) <==>
              n == 0
              || (n <= r.atom && n <= r.len - |r.data| && r.WritP() + n <= r.len && (fx.writeGap || r.data != []))
  {
  }

  /** The unit asked for at construction: with line 18 repaired it is kept, and 0 means no other limit than
      the storage; as written nothing is ever offered. */
  lemma OffersAsMade(fx: Fixes, r: Ring, at: nat, n: nat)
    requires r.Valid() && r.atom == NewRing(fx, r.len, at).atom
    ensures fx.atomTest ==>
              (n <= r.ReadSpace() <==> (at == 0 || n <= at) && n <= |r.data| && r.readP + n <= r.len)
    ensures !fx.atomTest ==> r.ReadSpace() == 0 == r.WriteSpace(fx)
  {
  }

  // ---------------------------------------------------------------- draining

  function CeilDiv(a: nat, b: nat): nat
    requires 0 < b
  {
    if a == 0 then 0 else if a <= b then 1 else 1 + CeilDiv(a - b, b)
  }

  /** How many `readn(getReadSpace())` calls empty the ring. */
  function DrainCalls(r: Ring): nat
    requires r.Valid() && r.atom > 0
    decreases |r.data|
  {
    if r.data == [] then 0
    else
      SpacesFit(AS_WRITTEN, r);
      1 + DrainCalls(r.Drop(r.ReadSpace()))
  }

  /** The calls needed are those for the part before the wrap plus those for the part after it. */
  lemma {:induction false} DrainCallsExact(r: Ring)
    requires r.Valid() && r.atom > 0
    ensures var before := Min(|r.data|, r.len - r.readP);
            DrainCalls(r) == CeilDiv(before, r.atom) + CeilDiv(|r.data| - before, r.atom)
    decreases |r.data|
  {
    if r.data != [] {
      SpacesFit(AS_WRITTEN, r);
      DrainCallsExact(r.Drop(r.ReadSpace()));
    }
  }

  /** With the whole ring as the unit of transfer, two calls drain anything. */
  lemma TwoCallsDrain(r: Ring)
    requires r.Valid() && r.atom == r.len
    ensures DrainCalls(r) <= 2
    ensures DrainCalls(r) == 2 <==> r.readP + |r.data| > r.len
  {
    DrainCallsExact(r);
  }

  // ---------------------------------------------------------------- storage

  /** `n` bytes of a circular store, from position `p`. */
  function Window(s: seq<Byte>, p: nat, n: nat): (w: seq<Byte>)
    requires p < |s| && n <= |s|
    ensures |w| == n && forall i :: 0 <= i < n ==> w[i] == s[Wrap(p + i, |s|)]
  {
    seq(n, i requires 0 <= i < n => s[Wrap(p + i, |s|)])
  }

  function Overwrite(s: seq<Byte>, p: nat, bytes: seq<Byte>): (t: seq<Byte>)
    requires p + |bytes| <= |s|
    ensures |t| == |s|
    ensures forall i :: 0 <= i < |s| ==> t[i] == if p <= i < p + |bytes| then bytes[i - p] else s[i]
  {
    s[..p] + bytes + s[p + |bytes|..]
  }

  /** Two windows agree if they agree byte by byte. */
  lemma SameBytes(a: seq<Byte>, b: seq<Byte>)
    requires |a| == |b| && forall i :: 0 <= i < |a| ==> a[i] == b[i]
    ensures a == b
  {
  }

  /** Storing behind the data disturbs nothing in the window, wrapped or not. */
  lemma WindowKept(s: seq<Byte>, p: nat, n: nat, bytes: seq<Byte>)
    requires p < |s| && n + |bytes| <= |s|
    requires Wrap(p + n, |s|) + |bytes| <= |s|
    ensures Window(Overwrite(s, Wrap(p + n, |s|), bytes), p, n) == Window(s, p, n)
  {
    var a, b := Window(Overwrite(s, Wrap(p + n, |s|), bytes), p, n), Window(s, p, n);
    forall i | 0 <= i < n
      ensures a[i] == b[i]
    {
    }
    SameBytes(a, b);
  }

  /** And extends it by the bytes stored. */
  lemma WindowGrows(s: seq<Byte>, p: nat, n: nat, bytes: seq<Byte>)
    requires p < |s| && n + |bytes| <= |s|
    requires Wrap(p + n, |s|) + |bytes| <= |s|
    ensures Window(Overwrite(s, Wrap(p + n, |s|), bytes), p, n + |bytes|) == Window(s, p, n) + bytes
  {
    var a, b := Window(Overwrite(s, Wrap(p + n, |s|), bytes), p, n + |bytes|), Window(s, p, n) + bytes;
    forall i | 0 <= i < n + |bytes|
      ensures a[i] == b[i]
    {
    }
    SameBytes(a, b);
  }

  lemma WindowShrinks(s: seq<Byte>, p: nat, n: nat, k: nat)
    requires p < |s| && k <= n <= |s| && p + k <= |s|
    ensures Window(s, p, n)[..k] == s[p..p + k]
    ensures Window(s, Wrap(p + k, |s|), n - k) == Window(s, p, n)[k..]
  {
    SameBytes(Window(s, p, n)[..k], s[p..p + k]);
    var a, b := Window(s, Wrap(p + k, |s|), n - k), Window(s, p, n)[k..];
    forall i | 0 <= i < n - k
      ensures a[i] == b[i]
    {
    }
    SameBytes(a, b);
  }

  class Loopbuffer {
    const fixes: Fixes
    const len: nat
    const atom: nat
    const buf: array<Byte>
    var size: nat
    var readP: nat
    var writP: nat

    ghost predicate Valid()
      reads this
    {
      && 0 < len == buf.Length
      && readP < len && size <= len
      && writP == Wrap(readP + size, len)
    }

    /** The FIFO queue this object stands for. */
    ghost function View(): (r: Ring)
      reads this, buf
      requires Valid()
      ensures r.Valid() && |r.data| == size && r.WritP() == writP
    {
      Ring(len, atom, readP, Window(buf[..], readP, size))
    }

    constructor (fx: Fixes, sz: nat, at: nat)
      requires 0 < sz
      ensures Valid() && fresh(buf) && fixes == fx
      ensures View() == NewRing(fx, sz, at)
    {
      fixes, len := fx, sz;
      size, readP, writP := 0, 0, 0;
      buf := new Byte[sz];
      atom := if !fx.atomTest then 0 else if at == 0 then sz else at;
    }

    method IsFull() returns (b: bool)
      requires Valid()
      ensures b <==> |View().data| == View().len
    {
      b := size == len;
    }

    method IsEmpty() returns (b: bool)
      requires Valid()
      ensures b <==> View().data == []
    {
      b := size == 0;
    }

    method GetReadSpace() returns (n: nat)
      requires Valid()
      ensures n == View().ReadSpace()
    {
      n := Min(atom, if readP + size <= len then size else len - readP);
    }

    method GetWriteSpace() returns (n: nat)
      requires Valid()
      ensures n == View().WriteSpace(fixes)
    {
      if size == len {
        return 0;
      }
      var above := if fixes.writeGap then writP >= readP else writP > readP;
      n := Min(atom, if above then len - writP else readP - writP);
    }

    /** What the system call stores at the write pointer before `writen` is told about it. */
    method Store(bytes: seq<Byte>)
      requires Valid() && writP + |bytes| <= len && |bytes| <= len - size
      modifies buf
      ensures buf[..] == Overwrite(old(buf[..]), writP, bytes)
      ensures View() == old(View())
    {
      for i := 0 to |bytes|
        invariant buf[..] == Overwrite(old(buf[..]), writP, bytes[..i])
      {
        buf[writP + i] := bytes[i];
        assert bytes[..i + 1] == bytes[..i] + [bytes[i]];
      }
      assert bytes[..|bytes|] == bytes;
      WindowKept(old(buf[..]), readP, size, bytes);
    }

    method Writen(n: nat)
      requires Valid() && writP + n <= len && n <= len - size
      modifies this
      ensures Valid()
      ensures View() == old(View()).Put(old(buf[writP..writP + n]))
    {
      ghost var s, w := buf[..], writP;
      WindowGrows(s, readP, size, s[w..w + n]);
      assert Overwrite(s, w, s[w..w + n]) == s;
      WrapIsMod(writP + n, len);
      writP := (writP + n) % len;
      size := size + n;
    }

    method Readn(n: nat)
      requires Valid() && readP + n <= len && n <= size
      modifies this
      ensures Valid()
      ensures View() == old(View()).Drop(n)
      ensures old(buf[readP..readP + n]) == old(View()).data[..n]
    {
      WindowShrinks(buf[..], readP, size, n);
      WrapIsMod(readP + n, len);
      readP := (readP + n) % len;
      size := size - n;
    }

    /** A read of the kernel into the write pointer followed by `writen` of its count. */
    method Absorb(bytes: seq<Byte>)
      requires Valid() && |bytes| <= View().WriteSpace(fixes)
      modifies this, buf
      ensures Valid()
      ensures View() == old(View()).Put(bytes)
    {
      SpacesFit(fixes, View());
      Store(bytes);
      assert buf[writP..writP + |bytes|] == bytes;
      Writen(|bytes|);
    }

    /** A write of the kernel from the read pointer followed by `readn` of its count. */
    method Emit(n: nat) returns (bytes: seq<Byte>)
      requires Valid() && n <= View().ReadSpace()
      modifies this
      ensures Valid()
      ensures n <= |old(View()).data| && bytes == old(View()).data[..n]
      ensures View() == old(View()).Drop(n)
    {
      SpacesFit(fixes, View());
      bytes := buf[readP..readP + n];
      Readn(n);
    }
  }
}
