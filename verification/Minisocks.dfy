/**
 The `connect` that src/minisocks/minisocks.c puts in place of the library's, and what its success
 means behind a CLIENT and a SERVER relay.
 */
module Minisocks {
  import opened Basics
  import opened Access
  import E = EndToEnd

  datatype ServStatus = PENDING | DONE | ERROR | ABSENT

  /** What MINISOCKS_SERVER says: not set, not of the form host[:port], a name that does not resolve,
      or an address. */
  datatype ServerEnv = Unset | Malformed | Unresolved | Resolved(addr: seq<Byte>)

  datatype Errno = FromSystem | Cleared | EAFNOSUPPORT | EFAULT | ECONNREFUSED

  /** The answers of the calls inside one `connect`: the library's connect, send and recv, and the bytes
      recv stored. */
  datatype Calls = Calls(connectRc: int, sendRc: int, recvRc: int, reply: seq<Byte>)

  function StatusAfter(s: ServStatus, env: ServerEnv): ServStatus {
    if s != PENDING then s
    else match env
      case Unset => ABSENT
      case Malformed => PENDING
      case Unresolved => ERROR
      case Resolved(_) => DONE
  }

  /** What is known of the relay after calls that found the variable like that, one after the other. */
  function StatusAfterAll(s: ServStatus, envs: seq<ServerEnv>): ServStatus
    decreases |envs|
  {
    if envs == [] then s else StatusAfterAll(StatusAfter(s, envs[0]), envs[1..])
  }

  lemma {:induction false} KnownIsKept(s: ServStatus, envs: seq<ServerEnv>)
    requires s != PENDING
    ensures StatusAfterAll(s, envs) == s
    decreases |envs|
  {
    if envs != [] {
      KnownIsKept(s, envs[1..]);
    }
  }

  /** The first value that is not malformed decides for good: the relay is known if and only if that one
      names a host that resolves. */
  lemma {:induction false} FirstValueDecides(envs: seq<ServerEnv>, i: nat)
    requires i < |envs| && !envs[i].Malformed? && forall j :: 0 <= j < i ==> envs[j].Malformed?
    ensures StatusAfterAll(PENDING, envs) == DONE <==> envs[i].Resolved?
    ensures StatusAfterAll(PENDING, envs) == ERROR <==> envs[i].Unresolved?
    ensures StatusAfterAll(PENDING, envs) == ABSENT <==> envs[i].Unset?
    decreases i
  {
    if i == 0 {
      KnownIsKept(StatusAfter(PENDING, envs[0]), envs[1..]);
    } else {
      FirstValueDecides(envs[1..], i - 1);
    }
  }

  /** A malformed value is looked at again in the next call. */
  lemma {:induction false} PendingIff(envs: seq<ServerEnv>)
    ensures StatusAfterAll(PENDING, envs) == PENDING <==> forall i :: 0 <= i < |envs| ==> envs[i].Malformed?
    decreases |envs|
  {
    if envs != [] {
      if envs[0].Malformed? {
        PendingIff(envs[1..]);
        assert forall i :: 0 < i < |envs| ==> envs[i] == envs[1..][i - 1];
      } else {
        KnownIsKept(StatusAfter(PENDING, envs[0]), envs[1..]);
      }
    }
  }

  /** The connection to the relay stands and the request is sent. */
  predicate Asked(family: int, status: ServStatus, c: Calls) {
    family == AF_INET && status == DONE && c.connectRc == 0
  }

  /** The request leaves, and the reply is all there and grants it. */
  predicate Succeeds(family: int, status: ServStatus, c: Calls) {
    && Asked(family, status, c) && c.sendRc == E.HEADER + 1
    && c.recvRc == E.HEADER && |c.reply| == E.HEADER && c.reply[1] == E.GRANTED
  }

  class Library {
    var servStatus: ServStatus

    constructor ()
      ensures servStatus == PENDING
    {
      servStatus := PENDING;
    }

    /** `init` and `getserver`, lines 54-119. */
    method GetServer(env: ServerEnv) returns (found: bool)
      modifies this
      ensures servStatus == StatusAfter(old(servStatus), env)
      ensures found <==> if old(servStatus) == PENDING then env.Resolved? else old(servStatus) == DONE
      ensures servStatus == PENDING <==> old(servStatus) == PENDING && env.Malformed?
      ensures old(servStatus) != PENDING ==> servStatus == old(servStatus)
    {
      if servStatus == PENDING {
        match env
        case Unset => servStatus := ABSENT;
        case Malformed =>
        case Unresolved => servStatus := ERROR;
        case Resolved(_) => servStatus := DONE;
      }
      found := servStatus == DONE;
    }

    /** Lines 122-186.  A `recv` of n bytes overwrites the first n of the packet. */
    method Connect(family: int, port: seq<Byte>, ip: seq<Byte>, env: ServerEnv, c: Calls)
        returns (rc: int, sent: seq<Byte>, errno: Errno)
      requires |port| == 2 && |ip| == IN_ADDR_SIZE
      requires c.sendRc <= E.HEADER + 1 && c.recvRc <= E.HEADER
      requires |c.reply| == if c.recvRc < 0 then 0 else c.recvRc
      modifies this
      ensures servStatus == if family == AF_INET then StatusAfter(old(servStatus), env) else old(servStatus)
      ensures rc == 0 <==> Succeeds(family, servStatus, c)
      ensures rc == 0 <==>
                && family == AF_INET && (if old(servStatus) == PENDING then env.Resolved? else old(servStatus) == DONE)
                && c.connectRc == 0 && c.sendRc == 9 && c.recvRc == 8 && c.reply[1] == 90
      ensures rc != 0 ==> rc == if family == AF_INET && servStatus == DONE && c.connectRc != 0 then c.connectRc else -1
      ensures var request := E.ConnectRequest(port, ip);
              sent == if family == AF_INET && servStatus == DONE && c.connectRc == 0
                      then request[..if c.sendRc < 0 then 0 else c.sendRc] else []
      ensures errno == EAFNOSUPPORT <==> family != AF_INET
      ensures errno == EFAULT <==> family == AF_INET && servStatus != DONE
      ensures family == AF_INET && old(servStatus) == PENDING ==> (errno == EFAULT <==> !env.Resolved?)
      ensures family == AF_INET && old(servStatus) != PENDING ==> (errno == EFAULT <==> old(servStatus) != DONE)
      ensures errno == ECONNREFUSED <==>
                Asked(family, servStatus, c)
                && c.sendRc == E.HEADER + 1 && c.recvRc == E.HEADER && c.reply[1] != E.GRANTED
      ensures errno == Cleared <==>
                Asked(family, servStatus, c)
                && (0 <= c.sendRc <= E.HEADER || (c.sendRc == E.HEADER + 1 && 0 <= c.recvRc < E.HEADER))
    {
      sent, errno := [], FromSystem;
      var pkt0 := [4, 1] + port + ip + [0];
      if family != AF_INET {
        return -1, sent, EAFNOSUPPORT;
      }
      var found := GetServer(env);
      if !found {
        return -1, sent, EFAULT;
      }
      if c.connectRc != 0 {
        return c.connectRc, sent, errno;
      }
      sent := pkt0[..if c.sendRc < 0 then 0 else c.sendRc];
      if c.sendRc != |pkt0| {
        return -1, sent, if c.sendRc >= 0 then Cleared else FromSystem;
      }
      if c.recvRc != E.HEADER {
        return -1, sent, if c.recvRc >= 0 then Cleared else FromSystem;
      }
      pkt0 := c.reply + pkt0[c.recvRc..];
      if pkt0[1] != E.GRANTED {
        return -1, sent, ECONNREFUSED;
      }
      return 0, sent, errno;
    }
  }

  /** If `connect` succeeds through a CLIENT and a SERVER, then the SERVER has a TCP connection to exactly
      the port and the address the application named, they passed its admission test and its own connect
      succeeded; whether the CLIENT's receive of the reply was whole, short or failed. */
  lemma SuccessMeansConnected(cfg: E.Config, events: seq<E.Event>, port: seq<Byte>, ip: seq<Byte>,
                              family: int, status: ServStatus, c: Calls)
    requires WellFormed(cfg.ifaces) && |port| == 2 && |ip| == IN_ADDR_SIZE
    requires Succeeds(family, status, c)
    requires var w := E.Run(cfg, E.NEW_WORLD, events);
             E.ConnectRequest(port, ip) <= w.app && c.reply <= w.client.TcpOut()
    ensures var w := E.Run(cfg, E.NEW_WORLD, events);
            w.connected == Some(port + ip) && Admits(cfg.netAccess, cfg.ifaces, ip) && E.ServerConnects(true) in events
  {
    E.ConnectIsHonest(cfg, events, port, ip);
    hide E.Run, Admits;
    var w := E.Run(cfg, E.NEW_WORLD, events);
    assert w.client.TcpOut()[1] == c.reply[1];
  }
}
