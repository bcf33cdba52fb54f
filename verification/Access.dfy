/**
 Admission of addresses: `check_source`, `sockaddr_match`, `sockaddr_mask` and `memand` of
 src/lib/utils.cpp for IPv4, and the `net_access` test around them in src/relay/udtrelay.cpp
 (lines 537-544 for applications, 631-641 for destinations).
 */
module Access {
  import opened Basics

  const AF_INET: int := 2
  const IN_ADDR_SIZE: nat := 4

  /** One entry of the list that getifaddrs returns; the address and the netmask may be missing. */
  datatype Iface = Iface(family: int, addr: Option<seq<Byte>>, mask: Option<seq<Byte>>)

  function And(a: seq<Byte>, b: seq<Byte>): (c: seq<Byte>)
    requires |a| <= |b|
    ensures |c| == |a|
  {
    seq(|a|, i requires 0 <= i < |a| => a[i] & b[i])
  }

  predicate Usable(f: Iface) {
    f.addr.Some? && f.mask.Some? && f.family == AF_INET
  }

  /** An IPv4 entry carries 4-byte addresses, as its `sockaddr_in` type says. */
  predicate WellFormed(fs: seq<Iface>) {
    forall i :: 0 <= i < |fs| && Usable(fs[i]) ==> |fs[i].addr.value| == IN_ADDR_SIZE == |fs[i].mask.value|
  }

  /** The interface has this address or, in subnet mode, is on the same subnet. */
  predicate Matches(addr: seq<Byte>, subnet: bool, f: Iface)
    requires |addr| == IN_ADDR_SIZE
    requires Usable(f) ==> |f.addr.value| == IN_ADDR_SIZE == |f.mask.value|
  {
    Usable(f) &&
    if subnet then And(addr, f.mask.value) == And(f.addr.value, f.mask.value) else addr == f.addr.value
  }

  predicate KnownSource(addr: seq<Byte>, subnet: bool, fs: seq<Iface>)
    requires |addr| == IN_ADDR_SIZE && WellFormed(fs)
  {
    exists i :: 0 <= i < |fs| && Matches(addr, subnet, fs[i])
  }

  /** `-N` given `netAccess` times. */
  predicate Admits(netAccess: int, fs: seq<Iface>, addr: seq<Byte>)
    requires |addr| == IN_ADDR_SIZE && WellFormed(fs)
  {
    netAccess >= 2 || KnownSource(addr, netAccess > 0, fs)
  }

  /** The bits of a and b that m selects are the same. */
  predicate Agree(a: Byte, b: Byte, m: Byte) {
    (a ^ b) & m == 0
  }

  predicate SameSubnet(a: seq<Byte>, b: seq<Byte>, mask: seq<Byte>)
    requires |a| == |b| == |mask|
  {
    forall i :: 0 <= i < |a| ==> Agree(a[i], b[i], mask[i])
  }

  lemma MaskedAgreeAt(a: seq<Byte>, b: seq<Byte>, mask: seq<Byte>, i: nat)
    requires |a| == |b| == |mask| && i < |a|
    ensures And(a, mask)[i] == And(b, mask)[i] <==> Agree(a[i], b[i], mask[i])
  {
    hide Agree;
    var x, y, m := a[i], b[i], mask[i];
    assert And(a, mask)[i] == x & m && And(b, mask)[i] == y & m;
    hide And;
    ByteAgrees(x, y, m);
  }

  lemma ByteAgrees(a: Byte, b: Byte, m: Byte)
    ensures a & m == b & m <==> Agree(a, b, m)
  {
  }

  lemma MaskedAgree(a: seq<Byte>, b: seq<Byte>, mask: seq<Byte>)
    requires |a| == |b| == |mask|
    ensures And(a, mask) == And(b, mask) <==> SameSubnet(a, b, mask)
  {
    hide And, Agree;
    forall i | 0 <= i < |a|
      ensures And(a, mask)[i] == And(b, mask)[i] <==> Agree(a[i], b[i], mask[i])
    {
      MaskedAgreeAt(a, b, mask, i);
    }
  }

  /** What an entry of the list lets in: in subnet mode the addresses that agree with its own in every bit
      of its mask, otherwise its own address alone; and no entry without both or of another family. */
  lemma MatchesIff(addr: seq<Byte>, subnet: bool, f: Iface)
    requires |addr| == IN_ADDR_SIZE
    requires Usable(f) ==> |f.addr.value| == IN_ADDR_SIZE == |f.mask.value|
    ensures Matches(addr, subnet, f) <==>
              && f.family == AF_INET && f.addr.Some? && f.mask.Some?
              && if subnet then SameSubnet(addr, f.addr.value, f.mask.value) else addr == f.addr.value
  {
    hide And, Agree, SameSubnet;
    if Usable(f) {
      MaskedAgree(addr, f.addr.value, f.mask.value);
    }
  }

  /** So without -N only the addresses of this host are admitted, with one -N those on its subnets, and
      with two everything. */
  lemma AdmitsIff(netAccess: int, fs: seq<Iface>, addr: seq<Byte>)
    requires |addr| == IN_ADDR_SIZE && WellFormed(fs)
    ensures netAccess <= 0 ==>
              (Admits(netAccess, fs, addr) <==> exists i :: 0 <= i < |fs| && Usable(fs[i]) && addr == fs[i].addr.value)
    ensures netAccess == 1 ==>
              (Admits(netAccess, fs, addr) <==>
                 exists i :: 0 <= i < |fs| && Usable(fs[i]) && SameSubnet(addr, fs[i].addr.value, fs[i].mask.value))
    ensures netAccess >= 2 ==> Admits(netAccess, fs, addr)
  {
    forall i | 0 <= i < |fs|
      ensures Matches(addr, netAccess > 0, fs[i]) <==>
                && Usable(fs[i])
                && if netAccess > 0 then SameSubnet(addr, fs[i].addr.value, fs[i].mask.value)
                   else addr == fs[i].addr.value
    {
      MatchesIff(addr, netAccess > 0, fs[i]);
    }
    hide Matches, SameSubnet, Agree;
  }

  /** Each further -N admits at least what was admitted before. */
  lemma AdmissionIsMonotone(m: int, n: int, fs: seq<Iface>, addr: seq<Byte>)
    requires |addr| == IN_ADDR_SIZE && WellFormed(fs)
    requires m <= n && Admits(m, fs, addr)
    ensures Admits(n, fs, addr)
  {
    if n < 2 {
      var i :| 0 <= i < |fs| && Matches(addr, m > 0, fs[i]);
      assert Matches(addr, n > 0, fs[i]);
    }
  }

  function Masked(f: Iface): Iface
    requires Usable(f) ==> |f.addr.value| <= |f.mask.value|
  {
    if Usable(f) then f.(addr := Some(And(f.addr.value, f.mask.value))) else f
  }

  method MemAnd(dst: array<Byte>, src: seq<Byte>)
    requires dst.Length <= |src|
    modifies dst
    ensures forall i :: 0 <= i < dst.Length ==> dst[i] == old(dst[i]) & src[i]
    ensures dst[..] == And(old(dst[..]), src)
  {
    for i := 0 to dst.Length
      invariant forall j :: 0 <= j < i ==> dst[j] == old(dst[j]) & src[j]
      invariant forall j :: i <= j < dst.Length ==> dst[j] == old(dst[j])
    {
      dst[i] := dst[i] & src[i];
    }
  }

  method MaskedCopy(a: seq<Byte>, mask: seq<Byte>) returns (m: seq<Byte>)
    requires |a| <= |mask|
    ensures m == And(a, mask)
  {
    var buf := new Byte[|a|](i requires 0 <= i < |a| => a[i]);
    assert buf[..] == a;
    MemAnd(buf, mask);
    m := buf[..];
  }

  /** The scan masks the list in place as it goes and still answers for the list it was given.  It looks
      at the entries up to the first that matches and leaves the others alone. */
  method CheckSource(addr: seq<Byte>, subnet: bool, list: array<Iface>) returns (ok: bool, ghost looked: nat)
    requires |addr| == IN_ADDR_SIZE && WellFormed(list[..])
    modifies list
    ensures ok <==> KnownSource(addr, subnet, old(list[..]))
    ensures looked <= list.Length && (!ok ==> looked == list.Length)
    ensures forall i :: 0 <= i < looked ==> (Matches(addr, subnet, old(list[..])[i]) <==> ok && i == looked - 1)
    ensures forall i :: 0 <= i < list.Length ==>
              list[i] == if subnet && i < looked then Masked(old(list[..])[i]) else old(list[..])[i]
  {
    ghost var was := list[..];
    looked := 0;
    for i := 0 to list.Length
      invariant looked == i
      invariant forall j :: 0 <= j < i ==> !Matches(addr, subnet, was[j])
      invariant forall j :: 0 <= j < i ==> list[j] == if subnet then Masked(was[j]) else was[j]
      invariant forall j :: i <= j < list.Length ==> list[j] == was[j]
    {
      assert list[i] == was[i];
      looked := i + 1;
      if list[i].addr.None? || list[i].mask.None? || list[i].family != AF_INET {
        continue;
      }
      var addr1 := addr;
      if subnet {
        addr1 := MaskedCopy(addr1, list[i].mask.value);
        var masked := MaskedCopy(list[i].addr.value, list[i].mask.value);
        list[i] := list[i].(addr := Some(masked));
      }
      if addr1 == list[i].addr.value {
        assert Matches(addr, subnet, was[i]);
        return true, looked;
      }
    }
    return false, looked;
  }
}
