/**
 A connection through both relays: an application that speaks SOCKS4 to a CLIENT relay, the UDT
 tunnel, a SERVER relay and the destination.  The handshake is `start_child` of
 src/relay/udtrelay.cpp (lines 584-744), for both roles; after it each relay runs the two threads
 of module Forwarding.

 TCP and UDT are reliable ordered byte streams: what a node reads is always a prefix of what the
 other end has written.  The receives of the header and of the user id are taken to succeed and the
 sends of the handshake to be complete, because the code does not look at their results.  The one
 receive of the reply (line 732) may be short or fail.  As in module Forwarding an event that is not
 possible changes nothing, so a run is any sequence of events.
 */
module EndToEnd {
  import opened Basics
  import opened Access
  import F = Forwarding

  const HEADER: nat := 8
  const GRANTED: Byte := 90
  const BAD_REQUEST: Byte := 91
  const UNREACHABLE: Byte := 92

  datatype Config = Config(cap: nat, netAccess: int, ifaces: seq<Iface>)

  /** Header: reading the 8 byte packet; User: skipping to the NUL; Connect: opening the far side;
      Reply: a CLIENT waiting at line 732; Relaying: the threads; Refused: after a break, on the way
      to the closes; Dropped: after the SERVER's return at lines 605 and 611. */
  datatype Phase = Header | User | Connect | Reply | Relaying | Refused | Dropped

  /** `tcpRead` and so on are the bytes of the handshake; the threads keep their own logs. */
  datatype Node = Node(phase: Phase, pkt: seq<Byte>, tcpRead: seq<Byte>, tcpWritten: seq<Byte>,
                       udtRead: seq<Byte>, udtWritten: seq<Byte>, relay: F.Relay) {
    function TcpIn(): seq<Byte> { tcpRead + relay.snd.link.got }
    function TcpOut(): seq<Byte> { tcpWritten + relay.rcv.link.put }
    function UdtIn(): seq<Byte> { udtRead + relay.rcv.link.got }
    function UdtOut(): seq<Byte> { udtWritten + relay.snd.link.put }
  }

  const NEW_NODE := Node(Header, [], [], [], [], [], F.NEW_RELAY)

  /** `app` and `dest` are the bytes the application and the destination have written; `connected`
      is the port and address to which the SERVER has opened a TCP connection. */
  datatype World = World(app: seq<Byte>, dest: seq<Byte>, client: Node, server: Node, connected: Option<seq<Byte>>)

  const NEW_WORLD := World([], [], NEW_NODE, NEW_NODE, None)

  datatype Event =
    | AppWrites(bytes: seq<Byte>) | DestWrites(bytes: seq<Byte>)
    | ClientHeader | ClientUser | ClientPeer(up: bool) | ClientReply(count: nat)
    | ServerHeader(count: nat) | ServerUser | ServerConnects(ok: bool)
    | ClientThreads(e: F.Event) | ServerThreads(e: F.Event)

  function WithCode(pkt: seq<Byte>, code: Byte): (r: seq<Byte>)
    requires |pkt| == HEADER
    ensures |r| == HEADER
  {
    pkt[1 := code]
  }

  // ---------------------------------------------------------------- the CLIENT

  /** Lines 671-686.  An unsupported command is answered with 90 (line 683). */
  function ClientTakesHeader(n: Node, pkt: seq<Byte>): Node
    requires |pkt| == HEADER
  {
    var m := n.(tcpRead := pkt);
    if pkt[0] != 4 then
      var r := WithCode(pkt, BAD_REQUEST);
      m.(phase := Refused, pkt := r, tcpWritten := r)
    else if pkt[1] != 1 then
      var r := WithCode(pkt, GRANTED);
      m.(phase := Refused, pkt := r, tcpWritten := r)
    else
      m.(phase := User, pkt := pkt)
  }

  /** Lines 717-728. */
  function ClientOpensPeer(n: Node, up: bool): Node
    requires |n.pkt| == HEADER
  {
    if up then n.(phase := Reply, udtWritten := n.pkt + [0])
    else
      var r := WithCode(n.pkt, UNREACHABLE);
      n.(phase := Refused, pkt := r, tcpWritten := r)
  }

  /** Lines 732-743: the bytes received overwrite the front of the packet, whatever their number. */
  function ClientTakesReply(n: Node, got: seq<Byte>): Node
    requires |n.pkt| == HEADER && |got| <= HEADER
  {
    var r := got + n.pkt[|got|..];
    n.(phase := if r[1] == GRANTED then Relaying else Refused, pkt := r, udtRead := got, tcpWritten := r)
  }

  // ---------------------------------------------------------------- the SERVER

  /** Lines 594-612: the header comes in pieces. */
  function ServerTakesHeader(n: Node, got: seq<Byte>): Node {
    var pkt := n.pkt + got;
    var m := n.(udtRead := n.udtRead + got, pkt := pkt);
    if |pkt| != HEADER then m
    else if pkt[0] != 4 || pkt[1] != 1 then
      var r := WithCode(pkt, BAD_REQUEST);
      m.(phase := Dropped, pkt := r, udtWritten := r)
    else m.(phase := User)
  }

  /** Lines 622-661. */
  function ServerOpens(cfg: Config, n: Node, ok: bool): Node
    requires |n.pkt| == HEADER && WellFormed(cfg.ifaces)
  {
    var reached := ok && Admits(cfg.netAccess, cfg.ifaces, n.pkt[4..]);
    var r := WithCode(n.pkt, if reached then GRANTED else UNREACHABLE);
    n.(phase := if reached then Relaying else Refused, pkt := r, udtWritten := r)
  }

  // ---------------------------------------------------------------- the system

  /** The byte at position |read| of a stream, when it is there. */
  function TakesUser(n: Node, read: seq<Byte>, stream: seq<Byte>): Option<(seq<Byte>, Phase)> {
    if n.phase.User? && |read| < |stream| then
      var c := stream[|read|];
      Some((read + [c], if c == 0 then Connect else User))
    else None
  }

  /** A receive of a thread returns bytes that are next in its stream. */
  predicate CanHappen(n: Node, tcpStream: seq<Byte>, udtStream: seq<Byte>, e: F.Event) {
    && n.phase.Relaying?
    && (e.OfSender? && e.s.SRecv? ==> n.TcpIn() + e.s.bytes <= tcpStream)
    && (e.OfReceiver? && e.r.RRecv? ==> n.UdtIn() + e.r.bytes <= udtStream)
  }

  function ClientHeaderStep(w: World): World {
    if w.client.phase.Header? && |w.app| >= HEADER
    then w.(client := ClientTakesHeader(w.client, w.app[..HEADER])) else w
  }

  function ClientUserStep(w: World): World {
    match TakesUser(w.client, w.client.tcpRead, w.app)
    case Some((read, phase)) => w.(client := w.client.(tcpRead := read, phase := phase))
    case None => w
  }

  function ClientPeerStep(w: World, up: bool): World {
    if w.client.phase.Connect? && |w.client.pkt| == HEADER then w.(client := ClientOpensPeer(w.client, up)) else w
  }

  /** A receive of `count` bytes of the reply; 0 stands for a receive that fails. */
  function ClientReplyStep(w: World, count: nat): World {
    if w.client.phase.Reply? && |w.client.pkt| == HEADER && count <= HEADER && count <= |w.server.UdtOut()|
    then w.(client := ClientTakesReply(w.client, w.server.UdtOut()[..count])) else w
  }

  function ServerHeaderStep(w: World, count: nat): World {
    var have := |w.server.udtRead|;
    if w.server.phase.Header? && have + count <= HEADER && have + count <= |w.client.UdtOut()|
    then w.(server := ServerTakesHeader(w.server, w.client.UdtOut()[have..have + count])) else w
  }

  function ServerUserStep(w: World): World {
    match TakesUser(w.server, w.server.udtRead, w.client.UdtOut())
    case Some((read, phase)) => w.(server := w.server.(udtRead := read, phase := phase))
    case None => w
  }

  /** The connection is there when the address has passed and the system's `connect` has succeeded, whatever
      is answered. */
  function ServerConnectStep(cfg: Config, w: World, ok: bool): World
    requires WellFormed(cfg.ifaces)
  {
    if w.server.phase.Connect? && |w.server.pkt| == HEADER then
      var open := ok && Admits(cfg.netAccess, cfg.ifaces, w.server.pkt[4..]);
      w.(server := ServerOpens(cfg, w.server, ok), connected := if open then Some(w.server.pkt[2..]) else None)
    else w
  }

  function ClientThreadStep(cfg: Config, w: World, f: F.Event): World {
    if CanHappen(w.client, w.app, w.server.UdtOut(), f)
    then w.(client := w.client.(relay := F.Next(cfg.cap, w.client.relay, f))) else w
  }

  function ServerThreadStep(cfg: Config, w: World, f: F.Event): World {
    if CanHappen(w.server, w.dest, w.client.UdtOut(), f)
    then w.(server := w.server.(relay := F.Next(cfg.cap, w.server.relay, f))) else w
  }

  function Next(cfg: Config, w: World, e: Event): World
    requires WellFormed(cfg.ifaces)
  {
    match e
    case AppWrites(bytes) => w.(app := w.app + bytes)
    case DestWrites(bytes) => if w.connected.Some? then w.(dest := w.dest + bytes) else w
    case ClientHeader => ClientHeaderStep(w)
    case ClientUser => ClientUserStep(w)
    case ClientPeer(up) => ClientPeerStep(w, up)
    case ClientReply(count) => ClientReplyStep(w, count)
    case ServerHeader(count) => ServerHeaderStep(w, count)
    case ServerUser => ServerUserStep(w)
    case ServerConnects(ok) => ServerConnectStep(cfg, w, ok)
    case ClientThreads(f) => ClientThreadStep(cfg, w, f)
    case ServerThreads(f) => ServerThreadStep(cfg, w, f)
  }

  function Run(cfg: Config, w: World, events: seq<Event>): World
    requires WellFormed(cfg.ifaces)
    decreases |events|
  {
    if events == [] then w else Run(cfg, Next(cfg, w, events[0]), events[1..])
  }

  // ---------------------------------------------------------------- the invariant

  predicate NoNul(s: seq<Byte>) {
    forall i :: 0 <= i < |s| ==> s[i] != 0
  }

  /** A CONNECT header and part of a user id. */
  predicate OpenRequest(s: seq<Byte>) {
    |s| >= HEADER && s[0] == 4 && s[1] == 1 && NoNul(s[HEADER..])
  }

  /** A CONNECT request up to and including the NUL that ends the user id. */
  predicate IsRequest(s: seq<Byte>) {
    |s| > HEADER && OpenRequest(s[..|s| - 1]) && s[|s| - 1] == 0
  }

  ghost predicate ClientOk(n: Node) {
    match n.phase
    case Header => n == NEW_NODE
    case User =>
      && OpenRequest(n.tcpRead) && n.pkt == n.tcpRead[..HEADER]
      && n.tcpWritten == n.udtRead == n.udtWritten == [] && n.relay == F.NEW_RELAY
    case Connect =>
      && IsRequest(n.tcpRead) && n.pkt == n.tcpRead[..HEADER]
      && n.tcpWritten == n.udtRead == n.udtWritten == [] && n.relay == F.NEW_RELAY
    case Reply =>
      && IsRequest(n.tcpRead) && n.pkt == n.tcpRead[..HEADER]
      && n.tcpWritten == n.udtRead == [] && n.udtWritten == n.pkt + [0] && n.relay == F.NEW_RELAY
    case Relaying =>
      && IsRequest(n.tcpRead) && n.udtWritten == n.tcpRead[..HEADER] + [0]
      && 2 <= |n.udtRead| <= HEADER && n.udtRead[1] == GRANTED
      && n.tcpWritten == n.udtRead + n.tcpRead[|n.udtRead|..HEADER]
    case Refused =>
      && n.relay == F.NEW_RELAY && |n.tcpRead| >= HEADER && |n.tcpWritten| == HEADER
      && (n.tcpWritten[1] == GRANTED ==> n.tcpRead[0] == 4 && n.tcpRead[1] != 1)
      && (n.udtWritten == [] ==>
            && n.udtRead == []
            && n.tcpWritten == WithCode(n.tcpRead[..HEADER], if n.tcpRead[0] != 4 then BAD_REQUEST
                                                             else if n.tcpRead[1] != 1 then GRANTED else UNREACHABLE))
      && (n.udtWritten != [] ==>
            && IsRequest(n.tcpRead) && n.udtWritten == n.tcpRead[..HEADER] + [0]
            && |n.udtRead| <= HEADER && n.tcpWritten == n.udtRead + n.tcpRead[|n.udtRead|..HEADER])
    case Dropped => false
  }

  ghost predicate ServerOk(cfg: Config, n: Node, connected: Option<seq<Byte>>)
    requires WellFormed(cfg.ifaces)
  {
    && n.tcpRead == n.tcpWritten == []
    && (connected.Some? <==> n.phase.Relaying?)
    && (n.relay == F.NEW_RELAY || n.phase.Relaying?)
    && match n.phase
       case Header => n.pkt == n.udtRead && |n.pkt| < HEADER && n.udtWritten == []
       case User => OpenRequest(n.udtRead) && n.pkt == n.udtRead[..HEADER] && n.udtWritten == []
       case Connect => IsRequest(n.udtRead) && n.pkt == n.udtRead[..HEADER] && n.udtWritten == []
       case Relaying =>
         && IsRequest(n.udtRead) && n.udtWritten == WithCode(n.udtRead[..HEADER], GRANTED)
         && connected == Some(n.udtRead[2..HEADER])
         && Admits(cfg.netAccess, cfg.ifaces, n.udtRead[4..HEADER])
       case Refused => IsRequest(n.udtRead) && n.udtWritten == WithCode(n.udtRead[..HEADER], UNREACHABLE)
       case Dropped =>
         |n.udtRead| == HEADER && (n.udtRead[0] != 4 || n.udtRead[1] != 1)
         && n.udtWritten == WithCode(n.udtRead, BAD_REQUEST)
       case Reply => false
  }

  /** What is read is a prefix of what the other end has written. */
  ghost predicate Channels(w: World) {
    && w.client.TcpIn() <= w.app
    && w.server.UdtIn() <= w.client.UdtOut()
    && w.client.UdtIn() <= w.server.UdtOut()
    && w.server.TcpIn() <= w.dest
  }

  ghost predicate Inv(cfg: Config, w: World)
    requires WellFormed(cfg.ifaces)
  {
    && ClientOk(w.client) && ServerOk(cfg, w.server, w.connected) && Channels(w)
    && F.Inv(cfg.cap, w.client.relay) && F.Inv(cfg.cap, w.server.relay)
  }

  lemma UserByteKeeps(read: seq<Byte>, c: Byte)
    requires OpenRequest(read)
    ensures if c == 0 then IsRequest(read + [c]) else OpenRequest(read + [c])
    ensures (read + [c])[..HEADER] == read[..HEADER]
  {
    assert (read + [c])[..|read + [c]| - 1] == read;
    assert (read + [c])[HEADER..] == read[HEADER..] + [c];
  }

  // Each step of the handshake, for its own node.

  lemma ClientHeaderOk(n: Node, pkt: seq<Byte>)
    requires ClientOk(n) && n.phase.Header? && |pkt| == HEADER
    ensures n == NEW_NODE
    ensures var m := ClientTakesHeader(n, pkt);
            ClientOk(m) && m.relay == n.relay && m.TcpIn() == pkt && m.UdtIn() == n.UdtIn() && m.UdtOut() == n.UdtOut()
  {
    assert pkt[..HEADER] == pkt;
  }

  lemma ClientUserOk(n: Node, c: Byte)
    requires ClientOk(n) && n.phase.User?
    ensures n.TcpIn() == n.tcpRead
    ensures var m := n.(tcpRead := n.tcpRead + [c], phase := if c == 0 then Connect else User);
            ClientOk(m) && m.TcpIn() == n.tcpRead + [c] && m.UdtIn() == n.UdtIn() && m.UdtOut() == n.UdtOut()
  {
    UserByteKeeps(n.tcpRead, c);
  }

  lemma ClientPeerOk(n: Node, up: bool)
    requires ClientOk(n) && n.phase.Connect?
    ensures |n.pkt| == HEADER
    ensures var m := ClientOpensPeer(n, up);
            && ClientOk(m) && m.relay == n.relay
            && m.TcpIn() == n.TcpIn() && m.UdtIn() == n.UdtIn() && n.UdtOut() == [] <= m.UdtOut()
  {
  }

  lemma ClientReplyOk(n: Node, got: seq<Byte>)
    requires ClientOk(n) && n.phase.Reply? && |got| <= HEADER
    ensures |n.pkt| == HEADER
    ensures var m := ClientTakesReply(n, got);
            && ClientOk(m) && m.relay == n.relay
            && m.TcpIn() == n.TcpIn() && m.UdtIn() == got && m.UdtOut() == n.UdtOut()
  {
    var m := ClientTakesReply(n, got);
    if |got| < 2 {
      assert m.pkt[1] == n.pkt[1] == 1;
    }
    assert m.tcpWritten == got + n.tcpRead[|got|..HEADER];
  }

  lemma ServerHeaderOk(cfg: Config, n: Node, connected: Option<seq<Byte>>, got: seq<Byte>)
    requires WellFormed(cfg.ifaces) && ServerOk(cfg, n, connected) && n.phase.Header?
    requires |n.udtRead| + |got| <= HEADER
    ensures n.UdtIn() == n.udtRead
    ensures var m := ServerTakesHeader(n, got);
            && ServerOk(cfg, m, connected) && m.relay == n.relay
            && m.TcpIn() == n.TcpIn() && m.UdtIn() == n.udtRead + got && n.UdtOut() == [] <= m.UdtOut()
  {
    var m := ServerTakesHeader(n, got);
    assert m.udtRead[..|m.udtRead|] == m.udtRead;
  }

  lemma ServerUserOk(cfg: Config, n: Node, connected: Option<seq<Byte>>, c: Byte)
    requires WellFormed(cfg.ifaces) && ServerOk(cfg, n, connected) && n.phase.User?
    ensures n.UdtIn() == n.udtRead
    ensures var m := n.(udtRead := n.udtRead + [c], phase := if c == 0 then Connect else User);
            && ServerOk(cfg, m, connected)
            && m.TcpIn() == n.TcpIn() && m.UdtIn() == n.udtRead + [c] && m.UdtOut() == n.UdtOut()
  {
    UserByteKeeps(n.udtRead, c);
  }

  lemma ServerConnectsOk(cfg: Config, n: Node, connected: Option<seq<Byte>>, ok: bool)
    requires WellFormed(cfg.ifaces) && ServerOk(cfg, n, connected) && n.phase.Connect?
    ensures |n.pkt| == HEADER
    ensures var m := ServerOpens(cfg, n, ok);
            && (m.phase.Relaying? <==> ok && Admits(cfg.netAccess, cfg.ifaces, n.pkt[4..]))
            && ServerOk(cfg, m, if m.phase.Relaying? then Some(n.pkt[2..]) else None)
            && m.relay == n.relay
            && m.TcpIn() == n.TcpIn() && m.UdtIn() == n.UdtIn() && n.UdtOut() == [] <= m.UdtOut()
  {
    assert n.pkt[4..] == n.udtRead[4..HEADER] && n.pkt[2..] == n.udtRead[2..HEADER];
  }

  // A changed node back in the system.

  lemma PrefixExtends(a: seq<Byte>, b: seq<Byte>, c: seq<Byte>)
    requires a <= b <= c
    ensures a <= c
  {
  }

  lemma ClientReplaced(cfg: Config, w: World, m: Node)
    requires WellFormed(cfg.ifaces) && Inv(cfg, w)
    requires ClientOk(m) && F.Inv(cfg.cap, m.relay)
    requires m.TcpIn() <= w.app && m.UdtIn() <= w.server.UdtOut() && w.client.UdtOut() <= m.UdtOut()
    ensures Inv(cfg, w.(client := m))
  {
    hide ClientOk, ServerOk, F.Inv, Node.TcpIn, Node.UdtIn, Node.UdtOut;
    PrefixExtends(w.server.UdtIn(), w.client.UdtOut(), m.UdtOut());
  }

  lemma ServerReplaced(cfg: Config, w: World, m: Node, connected: Option<seq<Byte>>)
    requires WellFormed(cfg.ifaces) && Inv(cfg, w)
    requires ServerOk(cfg, m, connected) && F.Inv(cfg.cap, m.relay)
    requires m.TcpIn() <= w.dest && m.UdtIn() <= w.client.UdtOut() && w.server.UdtOut() <= m.UdtOut()
    ensures Inv(cfg, w.(server := m, connected := connected))
  {
    hide ClientOk, ServerOk, F.Inv, Node.TcpIn, Node.UdtIn, Node.UdtOut;
    PrefixExtends(w.client.UdtIn(), w.server.UdtOut(), m.UdtOut());
  }

  lemma ClientHeaderKeeps(cfg: Config, w: World)
    requires WellFormed(cfg.ifaces) && Inv(cfg, w)
    ensures Inv(cfg, ClientHeaderStep(w))
  {
    hide ClientOk, ServerOk, F.Inv, Node.TcpIn, Node.UdtIn, Node.UdtOut, ClientTakesHeader;
    if w.client.phase.Header? && |w.app| >= HEADER {
      ClientHeaderOk(w.client, w.app[..HEADER]);
      ClientReplaced(cfg, w, ClientTakesHeader(w.client, w.app[..HEADER]));
    }
  }

  lemma ClientUserKeeps(cfg: Config, w: World)
    requires WellFormed(cfg.ifaces) && Inv(cfg, w)
    ensures Inv(cfg, ClientUserStep(w))
  {
    hide ClientOk, ServerOk, F.Inv, Node.TcpIn, Node.UdtIn, Node.UdtOut;
    var n := w.client;
    if n.phase.User? && |n.tcpRead| < |w.app| {
      var c := w.app[|n.tcpRead|];
      ClientUserOk(n, c);
      assert n.tcpRead + [c] <= w.app;
      ClientReplaced(cfg, w, n.(tcpRead := n.tcpRead + [c], phase := if c == 0 then Connect else User));
    }
  }

  lemma ClientPeerKeeps(cfg: Config, w: World, up: bool)
    requires WellFormed(cfg.ifaces) && Inv(cfg, w)
    ensures Inv(cfg, ClientPeerStep(w, up))
  {
    hide ClientOk, ServerOk, F.Inv, Node.TcpIn, Node.UdtIn, Node.UdtOut, ClientOpensPeer;
    if w.client.phase.Connect? {
      ClientPeerOk(w.client, up);
      ClientReplaced(cfg, w, ClientOpensPeer(w.client, up));
    }
  }

  lemma ClientReplyKeeps(cfg: Config, w: World, count: nat)
    requires WellFormed(cfg.ifaces) && Inv(cfg, w)
    ensures Inv(cfg, ClientReplyStep(w, count))
  {
    hide ClientOk, ServerOk, F.Inv, Node.TcpIn, Node.UdtIn, Node.UdtOut, ClientTakesReply;
    if w.client.phase.Reply? && count <= HEADER && count <= |w.server.UdtOut()| {
      var got := w.server.UdtOut()[..count];
      ClientReplyOk(w.client, got);
      ClientReplaced(cfg, w, ClientTakesReply(w.client, got));
    }
  }

  lemma ServerHeaderKeeps(cfg: Config, w: World, count: nat)
    requires WellFormed(cfg.ifaces) && Inv(cfg, w)
    ensures Inv(cfg, ServerHeaderStep(w, count))
  {
    hide ClientOk, ServerOk, F.Inv, Node.TcpIn, Node.UdtIn, Node.UdtOut, ServerTakesHeader;
    var n, have := w.server, |w.server.udtRead|;
    if n.phase.Header? && have + count <= HEADER && have + count <= |w.client.UdtOut()| {
      var got := w.client.UdtOut()[have..have + count];
      ServerHeaderOk(cfg, n, w.connected, got);
      assert n.udtRead + got == w.client.UdtOut()[..have + count];
      ServerReplaced(cfg, w, ServerTakesHeader(n, got), w.connected);
    }
  }

  lemma ServerUserKeeps(cfg: Config, w: World)
    requires WellFormed(cfg.ifaces) && Inv(cfg, w)
    ensures Inv(cfg, ServerUserStep(w))
  {
    hide ClientOk, ServerOk, F.Inv, Node.TcpIn, Node.UdtIn, Node.UdtOut;
    var n := w.server;
    if n.phase.User? && |n.udtRead| < |w.client.UdtOut()| {
      var c := w.client.UdtOut()[|n.udtRead|];
      ServerUserOk(cfg, n, w.connected, c);
      assert n.udtRead + [c] <= w.client.UdtOut();
      ServerReplaced(cfg, w, n.(udtRead := n.udtRead + [c], phase := if c == 0 then Connect else User), w.connected);
    }
  }

  lemma ServerConnectKeeps(cfg: Config, w: World, ok: bool)
    requires WellFormed(cfg.ifaces) && Inv(cfg, w)
    ensures Inv(cfg, ServerConnectStep(cfg, w, ok))
  {
    hide ClientOk, ServerOk, F.Inv, Node.TcpIn, Node.UdtIn, Node.UdtOut, ServerOpens, Admits;
    var n := w.server;
    if n.phase.Connect? {
      ServerConnectsOk(cfg, n, w.connected, ok);
      var m := ServerOpens(cfg, n, ok);
      ServerReplaced(cfg, w, m, if m.phase.Relaying? then Some(n.pkt[2..]) else None);
    }
  }

  lemma ThreadsKeepStreams(n: Node, t: F.Relay, tcpStream: seq<Byte>, udtStream: seq<Byte>, f: F.Event)
    requires n.TcpIn() <= tcpStream && n.UdtIn() <= udtStream
    requires CanHappen(n, tcpStream, udtStream, f) && F.LogStep(n.relay, t, f)
    ensures var m := n.(relay := t);
            m.TcpIn() <= tcpStream && m.UdtIn() <= udtStream && n.UdtOut() <= m.UdtOut()
  {
    var m := n.(relay := t);
    if t.snd.link.got != n.relay.snd.link.got {
      assert m.TcpIn() == n.TcpIn() + f.s.bytes;
    }
    if t.rcv.link.got != n.relay.rcv.link.got {
      assert m.UdtIn() == n.UdtIn() + f.r.bytes;
    }
    assert m.UdtOut() == n.UdtOut() + t.snd.link.put[|n.relay.snd.link.put|..];
  }

  lemma RelayingNodesOk(cfg: Config, n: Node, t: F.Relay, connected: Option<seq<Byte>>)
    requires WellFormed(cfg.ifaces) && n.phase.Relaying?
    ensures ClientOk(n) ==> ClientOk(n.(relay := t))
    ensures ServerOk(cfg, n, connected) ==> ServerOk(cfg, n.(relay := t), connected)
  {
    hide Admits;
  }

  lemma ClientThreadsKeep(cfg: Config, w: World, f: F.Event)
    requires WellFormed(cfg.ifaces) && Inv(cfg, w)
    ensures Inv(cfg, ClientThreadStep(cfg, w, f))
  {
    hide ClientOk, ServerOk, F.Inv, F.Next, F.LogStep, Node.TcpIn, Node.UdtIn, Node.UdtOut;
    if CanHappen(w.client, w.app, w.server.UdtOut(), f) {
      var t := F.Next(cfg.cap, w.client.relay, f);
      F.NextKeepsInv(cfg.cap, w.client.relay, f);
      F.NextLogs(cfg.cap, w.client.relay, f);
      ThreadsKeepStreams(w.client, t, w.app, w.server.UdtOut(), f);
      RelayingNodesOk(cfg, w.client, t, None);
      ClientReplaced(cfg, w, w.client.(relay := t));
    }
  }

  lemma ServerThreadsKeep(cfg: Config, w: World, f: F.Event)
    requires WellFormed(cfg.ifaces) && Inv(cfg, w)
    ensures Inv(cfg, ServerThreadStep(cfg, w, f))
  {
    hide ClientOk, ServerOk, F.Inv, F.Next, F.LogStep, Node.TcpIn, Node.UdtIn, Node.UdtOut;
    if CanHappen(w.server, w.dest, w.client.UdtOut(), f) {
      var t := F.Next(cfg.cap, w.server.relay, f);
      F.NextKeepsInv(cfg.cap, w.server.relay, f);
      F.NextLogs(cfg.cap, w.server.relay, f);
      ThreadsKeepStreams(w.server, t, w.dest, w.client.UdtOut(), f);
      RelayingNodesOk(cfg, w.server, t, w.connected);
      ServerReplaced(cfg, w, w.server.(relay := t), w.connected);
    }
  }

  lemma NextKeepsInv(cfg: Config, w: World, e: Event)
    requires WellFormed(cfg.ifaces) && Inv(cfg, w)
    ensures Inv(cfg, Next(cfg, w, e))
  {
    hide ClientOk, ServerOk, F.Inv, Node.TcpIn, Node.UdtIn, Node.UdtOut, ClientHeaderStep, ClientUserStep,
      ClientPeerStep, ClientReplyStep, ServerHeaderStep, ServerUserStep, ServerConnectStep,
      ClientThreadStep, ServerThreadStep;
    match e
    case AppWrites(bytes) =>
    case DestWrites(bytes) =>
    case ClientHeader => ClientHeaderKeeps(cfg, w);
    case ClientUser => ClientUserKeeps(cfg, w);
    case ClientPeer(up) => ClientPeerKeeps(cfg, w, up);
    case ClientReply(count) => ClientReplyKeeps(cfg, w, count);
    case ServerHeader(count) => ServerHeaderKeeps(cfg, w, count);
    case ServerUser => ServerUserKeeps(cfg, w);
    case ServerConnects(ok) => ServerConnectKeeps(cfg, w, ok);
    case ClientThreads(f) => ClientThreadsKeep(cfg, w, f);
    case ServerThreads(f) => ServerThreadsKeep(cfg, w, f);
  }

  lemma {:induction false} RunKeepsInv(cfg: Config, w: World, events: seq<Event>)
    requires WellFormed(cfg.ifaces) && Inv(cfg, w)
    ensures Inv(cfg, Run(cfg, w, events))
    decreases |events|
  {
    hide Inv, Next;
    if events != [] {
      NextKeepsInv(cfg, w, events[0]);
      RunKeepsInv(cfg, Next(cfg, w, events[0]), events[1..]);
    }
  }

  lemma NewWorldOk(cfg: Config)
    requires WellFormed(cfg.ifaces)
    ensures Inv(cfg, NEW_WORLD)
  {
    F.NewRelayOk(cfg.cap);
    hide F.Inv;
  }

  lemma ReachableOk(cfg: Config, events: seq<Event>) returns (w: World)
    requires WellFormed(cfg.ifaces)
    ensures w == Run(cfg, NEW_WORLD, events) && Inv(cfg, w)
  {
    hide Inv, Next;
    NewWorldOk(cfg);
    RunKeepsInv(cfg, NEW_WORLD, events);
    w := Run(cfg, NEW_WORLD, events);
  }

  // ---------------------------------------------------------------- what has caused it

  /** One `connect` of the SERVER: the destination is connected, relaying starts and 90 is answered exactly
      when the address passes and the system's connect succeeds; otherwise 92 is answered. */
  lemma ConnectDecides(cfg: Config, w: World, ok: bool)
    requires WellFormed(cfg.ifaces) && w.server.phase.Connect? && |w.server.pkt| == HEADER
    ensures var t := Next(cfg, w, ServerConnects(ok));
            var open := ok && Admits(cfg.netAccess, cfg.ifaces, w.server.pkt[4..]);
            && t.connected == (if open then Some(w.server.pkt[2..]) else None)
            && (t.server.phase.Relaying? <==> open) && (t.server.phase.Refused? <==> !open)
            && t.server.udtWritten == w.server.pkt[..1] + [if open then 90 else 92] + w.server.pkt[2..]
  {
    hide Admits;
  }

  /** One `connect` of the CLIENT over UDT: the request goes on and nothing is answered yet, or nothing goes
      on and 92 is answered. */
  lemma PeerDecides(cfg: Config, w: World, up: bool)
    requires WellFormed(cfg.ifaces) && w.client.phase.Connect? && |w.client.pkt| == HEADER
    ensures var n, m := w.client, Next(cfg, w, ClientPeer(up)).client;
            && (up ==> m.phase.Reply? && m.udtWritten == n.pkt + [0] && m.tcpWritten == n.tcpWritten)
            && (!up ==> m.phase.Refused? && m.udtWritten == n.udtWritten
                        && m.tcpWritten == n.pkt[..1] + [92] + n.pkt[2..])
  {
  }

  /** The SERVER's own tests: a whole header goes on only with version 4 and command 1, any other is echoed
      with code 91. */
  lemma ServerScreens(n: Node, got: seq<Byte>)
    ensures var pkt, m := n.pkt + got, ServerTakesHeader(n, got);
            && m.udtRead == n.udtRead + got
            && (|pkt| != HEADER ==> m.phase == n.phase && m.udtWritten == n.udtWritten && m.pkt == pkt)
            && (|pkt| == HEADER ==>
                  && (pkt[0] == 4 && pkt[1] == 1 ==>
                        m.phase.User? && m.pkt == pkt && m.udtWritten == n.udtWritten)
                  && (pkt[0] != 4 || pkt[1] != 1 ==>
                        m.phase.Dropped? && m.udtWritten == pkt[..1] + [91] + pkt[2..]))
  {
  }

  /** The header may come in any pieces: a receive can bring whatever is there, up to what is missing. */
  lemma HeaderInPieces(cfg: Config, w: World, count: nat)
    requires WellFormed(cfg.ifaces) && w.server.phase.Header? && w.server.udtRead <= w.client.UdtOut()
    requires |w.server.udtRead| + count <= HEADER && |w.server.udtRead| + count <= |w.client.UdtOut()|
    ensures Next(cfg, w, ServerHeader(count)).server.udtRead == w.client.UdtOut()[..|w.server.udtRead| + count]
  {
    hide Node.UdtOut;
  }

  /** What can only be there because of an earlier event. */
  ghost predicate Caused(cfg: Config, w: World, past: seq<Event>)
    requires WellFormed(cfg.ifaces)
  {
    && (w.connected.Some? ==> ServerConnects(true) in past)
    && (w.dest != [] ==> w.connected.Some?)
    && (w.server.phase.Refused? && |w.server.udtRead| >= HEADER ==>
          ServerConnects(false) in past || !Admits(cfg.netAccess, cfg.ifaces, w.server.udtRead[4..HEADER]))
    && (w.client.udtWritten != [] ==> ClientPeer(true) in past)
    && (w.client.phase.Refused? && w.client.udtWritten == [] && |w.client.tcpRead| >= HEADER ==>
          ClientPeer(false) in past || w.client.tcpRead[0] != 4 || w.client.tcpRead[1] != 1)
  }

  lemma ConnectingMeans(cfg: Config, n: Node, connected: Option<seq<Byte>>)
    requires WellFormed(cfg.ifaces) && ServerOk(cfg, n, connected) && n.phase.Connect?
    ensures |n.pkt| == HEADER && |n.udtRead| >= HEADER && n.pkt[4..] == n.udtRead[4..HEADER] && connected.None?
  {
    hide Admits, NoNul, WithCode;
  }

  lemma ConnectKeepsCaused(cfg: Config, w: World, past: seq<Event>, ok: bool)
    requires WellFormed(cfg.ifaces) && ServerOk(cfg, w.server, w.connected) && Caused(cfg, w, past)
    ensures Caused(cfg, ServerConnectStep(cfg, w, ok), past + [ServerConnects(ok)])
  {
    hide Admits, ServerOk, WithCode;
    if w.server.phase.Connect? {
      ConnectingMeans(cfg, w.server, w.connected);
    }
  }

  lemma ServerReadsKeepCaused(cfg: Config, w: World, past: seq<Event>, e: Event)
    requires WellFormed(cfg.ifaces) && ServerOk(cfg, w.server, w.connected) && Caused(cfg, w, past)
    requires e.ServerHeader? || e.ServerUser?
    ensures Caused(cfg, Next(cfg, w, e), past + [e])
  {
    hide Admits, IsRequest, OpenRequest, WithCode;
  }

  lemma ClientKeepsCaused(cfg: Config, w: World, past: seq<Event>, e: Event)
    requires WellFormed(cfg.ifaces) && ClientOk(w.client) && Caused(cfg, w, past)
    requires e.ClientHeader? || e.ClientUser? || e.ClientPeer? || e.ClientReply?
    ensures Caused(cfg, Next(cfg, w, e), past + [e])
  {
    hide Admits, IsRequest, OpenRequest, WithCode;
  }

  lemma RestKeepsCaused(cfg: Config, w: World, past: seq<Event>, e: Event)
    requires WellFormed(cfg.ifaces) && Caused(cfg, w, past)
    requires e.AppWrites? || e.DestWrites? || e.ClientThreads? || e.ServerThreads?
    ensures Caused(cfg, Next(cfg, w, e), past + [e])
  {
    hide Admits, F.Next;
  }

  lemma NextIsCaused(cfg: Config, w: World, past: seq<Event>, e: Event)
    requires WellFormed(cfg.ifaces) && Inv(cfg, w) && Caused(cfg, w, past)
    ensures Caused(cfg, Next(cfg, w, e), past + [e])
  {
    hide Caused, Inv, ClientOk, ServerOk, Channels, ServerConnectStep;
    InvMeans(cfg, w);
    match e
    case ServerConnects(ok) => ConnectKeepsCaused(cfg, w, past, ok);
    case ServerHeader(_) => ServerReadsKeepCaused(cfg, w, past, e);
    case ServerUser => ServerReadsKeepCaused(cfg, w, past, e);
    case AppWrites(_) => RestKeepsCaused(cfg, w, past, e);
    case DestWrites(_) => RestKeepsCaused(cfg, w, past, e);
    case ClientThreads(_) => RestKeepsCaused(cfg, w, past, e);
    case ServerThreads(_) => RestKeepsCaused(cfg, w, past, e);
    case _ => ClientKeepsCaused(cfg, w, past, e);
  }

  lemma NothingIsCaused(cfg: Config)
    requires WellFormed(cfg.ifaces)
    ensures Caused(cfg, Run(cfg, NEW_WORLD, []), [])
  {
    hide Admits;
  }

  lemma {:induction false} RunIsCaused(cfg: Config, events: seq<Event>)
    requires WellFormed(cfg.ifaces)
    ensures Caused(cfg, Run(cfg, NEW_WORLD, events), events)
    decreases |events|
  {
    hide *;
    if events == [] {
      NothingIsCaused(cfg);
    } else {
      var past, e := events[..|events| - 1], events[|events| - 1];
      RunIsCaused(cfg, past);
      var w := ReachableOk(cfg, past);
      assert events == past + [e];
      RunOne(cfg, past, w, e);
      NextIsCaused(cfg, w, past, e);
    }
  }

  lemma RunOne(cfg: Config, events: seq<Event>, w: World, e: Event)
    requires WellFormed(cfg.ifaces) && w == Run(cfg, NEW_WORLD, events)
    ensures Run(cfg, NEW_WORLD, events + [e]) == Next(cfg, w, e)
  {
    hide Next;
    RunSplit(cfg, NEW_WORLD, events, [e]);
    var rest: seq<Event> := [e][1..];
    assert rest == [];
  }

  /** Nothing is connected unless the SERVER's call of `connect` has succeeded, the destination sends nothing
      before that, and nothing enters the tunnel unless the CLIENT's has. */
  lemma ConnectionHasCause(cfg: Config, events: seq<Event>)
    requires WellFormed(cfg.ifaces)
    ensures var w := Run(cfg, NEW_WORLD, events);
            && (w.connected.Some? ==> ServerConnects(true) in events)
            && (w.dest != [] ==> w.connected.Some?)
            && (w.client.udtWritten != [] ==> ClientPeer(true) in events)
  {
    RunIsCaused(cfg, events);
    hide Run, Admits;
  }

  // ---------------------------------------------------------------- what the two nodes know of each other

  lemma OnlyNulIsLast(r: seq<Byte>)
    requires IsRequest(r)
    ensures forall i :: HEADER <= i < |r| ==> (r[i] == 0 <==> i == |r| - 1)
  {
    forall i | HEADER <= i < |r| - 1
      ensures r[i] != 0
    {
      assert r[..|r| - 1][HEADER..][i - HEADER] == r[i];
    }
  }

  /** What the SERVER has read of its handshake is what the CLIENT sent: the header and one NUL, the
      user id having been left behind. */
  lemma ServerReadsHeader(cfg: Config, w: World)
    requires WellFormed(cfg.ifaces) && Inv(cfg, w)
    requires w.server.udtRead != []
    ensures IsRequest(w.client.tcpRead) && w.client.udtWritten == w.client.tcpRead[..HEADER] + [0]
    ensures w.server.udtRead <= w.client.udtWritten + w.client.relay.snd.link.put
    ensures !w.server.phase.Header? ==> w.server.udtRead[..HEADER] == w.client.tcpRead[..HEADER]
    ensures IsRequest(w.server.udtRead) ==> w.server.udtRead == w.client.udtWritten
  {
    hide F.Inv, Admits;
    var c, r := w.client, w.server.udtRead;
    assert r <= w.server.UdtIn() <= c.UdtOut();
    assert F.NEW_RELAY.snd.link.put == [];
    assert c.udtWritten != [];
    if IsRequest(r) {
      OnlyNulIsLast(r);
      assert r[HEADER] == c.UdtOut()[HEADER] == 0;
    }
  }

  lemma InvMeans(cfg: Config, w: World)
    requires WellFormed(cfg.ifaces) && Inv(cfg, w)
    ensures ClientOk(w.client) && ServerOk(cfg, w.server, w.connected) && Channels(w)
    ensures F.Inv(cfg.cap, w.client.relay) && F.Inv(cfg.cap, w.server.relay)
  {
    hide ClientOk, ServerOk, Channels, F.Inv;
  }

  lemma DroppedMeans(cfg: Config, n: Node, connected: Option<seq<Byte>>)
    requires WellFormed(cfg.ifaces) && ServerOk(cfg, n, connected) && n.phase.Dropped?
    ensures |n.udtRead| == HEADER && (n.udtRead[0] != 4 || n.udtRead[1] != 1)
  {
    hide Admits;
  }

  lemma NoDrop(cfg: Config, w: World)
    requires WellFormed(cfg.ifaces) && Inv(cfg, w)
    ensures !w.server.phase.Dropped?
  {
    hide Inv, ClientOk, ServerOk, OpenRequest;
    InvMeans(cfg, w);
    var n := w.server;
    if n.phase.Dropped? {
      DroppedMeans(cfg, n, w.connected);
      ServerReadsHeader(cfg, w);
      HeaderPasses(w.client.tcpRead);
    }
  }

  lemma HeaderPasses(r: seq<Byte>)
    requires IsRequest(r)
    ensures r[..HEADER][0] == 4 && r[..HEADER][1] == 1
  {
    assert r[..|r| - 1][0] == r[0] && r[..|r| - 1][1] == r[1];
  }

  /** A CLIENT only sends headers that pass the SERVER's tests, so those never fire behind it. */
  lemma ServerNeverDrops(cfg: Config, events: seq<Event>)
    requires WellFormed(cfg.ifaces)
    ensures !Run(cfg, NEW_WORLD, events).server.phase.Dropped?
  {
    var w := ReachableOk(cfg, events);
    NoDrop(cfg, w);
  }

  /** What the CLIENT has read of the reply is the front of what the SERVER answered. */
  lemma ClientReadsReply(cfg: Config, w: World)
    requires WellFormed(cfg.ifaces) && Inv(cfg, w)
    requires w.client.udtRead != []
    ensures |w.server.udtWritten| == HEADER && |w.client.udtRead| <= HEADER
    ensures w.client.udtRead == w.server.udtWritten[..|w.client.udtRead|]
    ensures w.server.udtWritten == WithCode(w.client.tcpRead[..HEADER], w.server.udtWritten[1])
    ensures |w.client.tcpRead| > HEADER
    ensures w.server.udtWritten[1] == GRANTED <==> w.server.phase.Relaying?
  {
    hide F.Inv, Admits;
    var c, n := w.client, w.server;
    assert c.udtRead <= c.UdtIn() <= n.UdtOut();
    assert F.NEW_RELAY.snd.link.put == [];
    assert n.udtWritten != [];
    NoDrop(cfg, w);
    assert n.udtRead != [];
    ServerReadsHeader(cfg, w);
    assert n.UdtOut()[..|c.udtRead|] == n.udtWritten[..|c.udtRead|];
  }

  // ---------------------------------------------------------------- bytes end to end

  lemma RequestEnds(r: seq<Byte>, header: seq<Byte>, user: seq<Byte>, rest: seq<Byte>)
    requires IsRequest(r) && |header| == HEADER && NoNul(user)
    requires r <= header + user + [0] + rest
    ensures r == header + user + [0]
  {
    var s := header + user + [0] + rest;
    var z := HEADER + |user|;
    OnlyNulIsLast(r);
    assert forall i :: HEADER <= i < z ==> s[i] == user[i - HEADER];
    assert s[z] == 0;
    assert |r| - 1 == z;
    assert s[..z + 1] == header + user + [0];
  }

  lemma UpBytes(head: seq<Byte>, got: seq<Byte>, put: seq<Byte>, sent: seq<Byte>, taken: seq<Byte>,
                request: seq<Byte>, app: seq<Byte>)
    requires head + got <= head + sent && put <= got && sent <= taken && request + taken <= app
    ensures request + put <= app
  {
    PrefixAfterHead(head, got, sent);
    PrefixExtends(put, got, sent);
    PrefixExtends(put, sent, taken);
    assert request + put <= request + taken;
    PrefixExtends(request + put, request + taken, app);
  }

  lemma UpStream(cfg: Config, w: World)
    requires WellFormed(cfg.ifaces) && Inv(cfg, w) && w.server.phase.Relaying?
    ensures IsRequest(w.client.tcpRead)
    ensures w.client.tcpRead + w.server.TcpOut() <= w.app
  {
    hide Inv, ClientOk, ServerOk, F.Inv, WithCode, IsRequest;
    InvMeans(cfg, w);
    RelayingMeans(cfg, w);
    ServerHasRead(cfg, w);
    ServerReadsHeader(cfg, w);
    var c, n := w.client, w.server;
    F.RelayLogs(cfg.cap, c.relay);
    F.RelayLogs(cfg.cap, n.relay);
    UpBytes(c.udtWritten, n.relay.rcv.link.got, n.relay.rcv.link.put,
            c.relay.snd.link.put, c.relay.snd.link.got, c.tcpRead, w.app);
    assert n.TcpOut() == n.relay.rcv.link.put;
  }

  /** For every request with a NUL-free user id, every payload, every cutting into chunks and every
      interleaving of the five parties: what reaches the destination is a prefix of what the
      application wrote after its NUL. */
  lemma DestinationGetsPayload(cfg: Config, events: seq<Event>, header: seq<Byte>, user: seq<Byte>, payload: seq<Byte>)
    requires WellFormed(cfg.ifaces) && |header| == HEADER && NoNul(user)
    requires Run(cfg, NEW_WORLD, events).app == header + user + [0] + payload
    ensures Run(cfg, NEW_WORLD, events).server.TcpOut() <= payload
  {
    var w := ReachableOk(cfg, events);
    hide Run, Next;
    InvKeepsPayload(cfg, w, header, user, payload);
  }

  lemma InvKeepsPayload(cfg: Config, w: World, header: seq<Byte>, user: seq<Byte>, payload: seq<Byte>)
    requires WellFormed(cfg.ifaces) && Inv(cfg, w) && |header| == HEADER && NoNul(user)
    requires w.app == header + user + [0] + payload
    ensures w.server.TcpOut() <= payload
  {
    hide Inv, ClientOk, ServerOk, F.Inv, IsRequest, WithCode;
    InvMeans(cfg, w);
    RelayingMeans(cfg, w);
    if w.server.phase.Relaying? {
      UpStream(cfg, w);
      hide Node.TcpOut, NoNul;
      PrefixExtends(w.client.tcpRead, w.client.tcpRead + w.server.TcpOut(), w.app);
      RequestEnds(w.client.tcpRead, header, user, payload);
      PrefixAfterHead(w.client.tcpRead, w.server.TcpOut(), payload);
    } else {
      IdleServerIsSilent(cfg, w.server, w.connected);
    }
  }

  lemma IdleServerIsSilent(cfg: Config, n: Node, connected: Option<seq<Byte>>)
    requires WellFormed(cfg.ifaces) && ServerOk(cfg, n, connected) && !n.phase.Relaying?
    ensures n.TcpOut() == []
  {
    hide IsRequest, OpenRequest, Admits, WithCode;
  }

  /** What the application has got so far: nothing, or the reply and then data. */
  function AfterReply(w: World): seq<Byte> {
    if |w.client.TcpOut()| < HEADER then [] else w.client.TcpOut()[HEADER..]
  }

  lemma DownBytes(head: seq<Byte>, back: seq<Byte>, got: seq<Byte>, put: seq<Byte>, sent: seq<Byte>, dest: seq<Byte>)
    requires head + got <= head + back + sent && put <= got && sent <= dest
    ensures put <= back + dest
  {
    assert head + back + sent == head + (back + sent);
    PrefixAfterHead(head, got, back + sent);
    PrefixExtends(put, got, back + sent);
    PrefixExtends(put, back + sent, back + dest);
  }

  lemma RelayingMeans(cfg: Config, w: World)
    requires WellFormed(cfg.ifaces) && ClientOk(w.client) && ServerOk(cfg, w.server, w.connected)
    ensures w.client.phase.Relaying? ==> 2 <= |w.client.udtRead| <= HEADER && w.client.udtRead[1] == GRANTED
    ensures w.server.tcpRead == w.server.tcpWritten == []
  {
    hide Admits, IsRequest;
  }

  lemma DownStream(cfg: Config, w: World)
    requires WellFormed(cfg.ifaces) && Inv(cfg, w) && w.client.phase.Relaying?
    ensures w.server.phase.Relaying? && |w.client.udtRead| <= |w.server.udtWritten| == HEADER
    ensures w.client.relay.rcv.link.put <= w.server.udtWritten[|w.client.udtRead|..] + w.dest
  {
    hide Inv, ClientOk, ServerOk, F.Inv, WithCode;
    InvMeans(cfg, w);
    RelayingMeans(cfg, w);
    ClientReadsReply(cfg, w);
    var c, n := w.client, w.server;
    F.RelayLogs(cfg.cap, c.relay);
    F.RelayLogs(cfg.cap, n.relay);
    var back := n.udtWritten[|c.udtRead|..];
    assert n.udtWritten == c.udtRead + back;
    assert n.TcpIn() == n.relay.snd.link.got;
    PrefixExtends(n.relay.snd.link.put, n.relay.snd.link.got, w.dest);
    DownBytes(c.udtRead, back, c.relay.rcv.link.got, c.relay.rcv.link.put, n.relay.snd.link.put, w.dest);
  }

  lemma AfterReplyIs(w: World)
    requires ClientOk(w.client)
    ensures AfterReply(w) == if w.client.phase.Relaying? then w.client.relay.rcv.link.put else []
    ensures w.client.phase.Relaying? ==> |w.client.udtRead| >= 2
  {
    assert F.NEW_RELAY.rcv.link.put == [];
    if w.client.phase.Relaying? {
      assert w.client.TcpOut()[HEADER..] == w.client.relay.rcv.link.put;
    }
  }

  /** Nothing, or a prefix of the unread part of the reply followed by what the destination sent. */
  predicate DataIsClean(w: World) {
    && (AfterReply(w) == []
        || (|w.client.udtRead| <= |w.server.udtWritten|
            && AfterReply(w) <= w.server.udtWritten[|w.client.udtRead|..] + w.dest))
    && (|w.client.udtRead| == HEADER ==> AfterReply(w) <= w.dest)
    && (|w.client.udtRead| < 2 ==> AfterReply(w) == [])
  }

  lemma WholeReplyLeavesNothing(got: seq<Byte>, reply: seq<Byte>, k: nat, dest: seq<Byte>)
    requires |reply| == HEADER && k <= HEADER && got <= reply[k..] + dest
    ensures k == HEADER ==> got <= dest
  {
    if k == HEADER {
      assert reply[k..] + dest == dest;
    }
  }

  lemma InvKeepsDataClean(cfg: Config, w: World)
    requires WellFormed(cfg.ifaces) && Inv(cfg, w)
    ensures DataIsClean(w)
  {
    hide Inv, ClientOk, ServerOk, AfterReply, WithCode, F.Inv;
    InvMeans(cfg, w);
    AfterReplyIs(w);
    if w.client.phase.Relaying? {
      DownStream(cfg, w);
      WholeReplyLeavesNothing(AfterReply(w), w.server.udtWritten, |w.client.udtRead|, w.dest);
    }
  }

  /** What the application gets after its 8 byte reply is a prefix of the part of the reply that line
      732 left behind followed by what the destination sent; so when one receive takes the whole reply
      it is a prefix of what the destination sent. */
  lemma ApplicationGetsData(cfg: Config, events: seq<Event>)
    requires WellFormed(cfg.ifaces)
    ensures DataIsClean(Run(cfg, NEW_WORLD, events))
  {
    var w := ReachableOk(cfg, events);
    hide *;
    InvKeepsDataClean(cfg, w);
  }

  // When delivery is complete.

  lemma HeadedEqual(h: seq<Byte>, a: seq<Byte>, b: seq<Byte>)
    ensures h + a == h + b <==> a == b
    ensures h + a <= h + b <==> a <= b
  {
    assert (h + a)[|h|..] == a && (h + b)[|h|..] == b;
  }

  /** Every place at which bytes can be held up, from the last to the first. */
  lemma ChainIsWhole(a: seq<Byte>, b: seq<Byte>, c: seq<Byte>, d: seq<Byte>, e: seq<Byte>)
    requires a <= b <= c <= d <= e
    ensures a == e <==> a == b && b == c && c == d && d == e
  {
  }

  /** Nothing the application has written is still in the CLIENT's socket, the CLIENT, the tunnel or the SERVER. */
  predicate NothingHeldUp(w: World) {
    && w.client.TcpIn() == w.app && w.client.relay.snd.link.put == w.client.relay.snd.link.got
    && w.server.UdtIn() == w.client.UdtOut() && w.server.relay.rcv.link.put == w.server.relay.rcv.link.got
  }

  predicate NothingHeldDown(w: World) {
    && w.server.TcpIn() == w.dest && w.server.relay.snd.link.put == w.server.relay.snd.link.got
    && w.client.UdtIn() == w.server.UdtOut() && w.client.relay.rcv.link.put == w.client.relay.rcv.link.got
  }

  lemma UpChain(cfg: Config, w: World, header: seq<Byte>, user: seq<Byte>, payload: seq<Byte>)
    requires WellFormed(cfg.ifaces) && Inv(cfg, w) && |header| == HEADER && NoNul(user)
    requires w.app == header + user + [0] + payload && w.server.phase.Relaying?
    ensures var up, out := w.client.relay.snd.link, w.server.relay.rcv.link;
            && out.put <= out.got <= up.put <= up.got <= payload && w.server.TcpOut() == out.put
            && (w.client.TcpIn() == w.app <==> up.got == payload)
            && (w.server.UdtIn() == w.client.UdtOut() <==> out.got == up.put)
  {
    hide Inv, ClientOk, ServerOk, F.Inv, IsRequest, WithCode, NoNul;
    InvMeans(cfg, w);
    RelayingMeans(cfg, w);
    ServerHasRead(cfg, w);
    ServerReadsHeader(cfg, w);
    UpStream(cfg, w);
    var c, n := w.client, w.server;
    F.RelayLogs(cfg.cap, c.relay);
    F.RelayLogs(cfg.cap, n.relay);
    PrefixExtends(c.tcpRead, c.tcpRead + n.TcpOut(), w.app);
    RequestEnds(c.tcpRead, header, user, payload);
    HeadedEqual(c.tcpRead, c.relay.snd.link.got, payload);
    HeadedEqual(c.udtWritten, n.relay.rcv.link.got, c.relay.snd.link.put);
    assert n.TcpOut() == n.relay.rcv.link.put;
  }

  lemma DownChain(cfg: Config, w: World)
    requires WellFormed(cfg.ifaces) && Inv(cfg, w) && w.client.phase.Relaying? && |w.client.udtRead| == HEADER
    ensures var down, out := w.server.relay.snd.link, w.client.relay.rcv.link;
            && out.put <= out.got <= down.put <= down.got <= w.dest && AfterReply(w) == out.put
            && (w.server.TcpIn() == w.dest <==> down.got == w.dest)
            && (w.client.UdtIn() == w.server.UdtOut() <==> out.got == down.put)
  {
    hide Inv, ClientOk, ServerOk, F.Inv, WithCode;
    InvMeans(cfg, w);
    RelayingMeans(cfg, w);
    ClientReadsReply(cfg, w);
    var c, n := w.client, w.server;
    F.RelayLogs(cfg.cap, c.relay);
    F.RelayLogs(cfg.cap, n.relay);
    AfterReplyIs(w);
    hide AfterReply;
    assert c.udtRead == n.udtWritten;
    HeadedEqual(c.udtRead, c.relay.rcv.link.got, n.relay.snd.link.put);
    HeadedEqual(n.tcpRead, n.relay.snd.link.got, w.dest);
    assert n.TcpIn() == n.relay.snd.link.got;
  }

  /** The payload has arrived whole exactly when none of it is held up on the way. */
  lemma PayloadArrivedIff(cfg: Config, events: seq<Event>, header: seq<Byte>, user: seq<Byte>, payload: seq<Byte>)
    requires WellFormed(cfg.ifaces) && |header| == HEADER && NoNul(user)
    requires Run(cfg, NEW_WORLD, events).app == header + user + [0] + payload
    ensures var w := Run(cfg, NEW_WORLD, events);
            w.server.phase.Relaying? ==> (w.server.TcpOut() == payload <==> NothingHeldUp(w))
  {
    var w := ReachableOk(cfg, events);
    hide Run, Next, Inv, Node.TcpIn, Node.TcpOut, Node.UdtIn, Node.UdtOut;
    if w.server.phase.Relaying? {
      UpChain(cfg, w, header, user, payload);
      var up, out := w.client.relay.snd.link, w.server.relay.rcv.link;
      ChainIsWhole(out.put, out.got, up.put, up.got, payload);
    }
  }

  /** And so has the destination's answer, when one receive took the reply. */
  lemma AnswerArrivedIff(cfg: Config, events: seq<Event>)
    requires WellFormed(cfg.ifaces)
    ensures var w := Run(cfg, NEW_WORLD, events);
            w.client.phase.Relaying? && |w.client.udtRead| == HEADER ==>
              (AfterReply(w) == w.dest <==> NothingHeldDown(w))
  {
    var w := ReachableOk(cfg, events);
    hide Run, Next, Inv, Node.TcpIn, Node.TcpOut, Node.UdtIn, Node.UdtOut;
    if w.client.phase.Relaying? && |w.client.udtRead| == HEADER {
      DownChain(cfg, w);
      var down, out := w.server.relay.snd.link, w.client.relay.rcv.link;
      ChainIsWhole(out.put, out.got, down.put, down.got, w.dest);
    }
  }

  // ---------------------------------------------------------------- what a reply means

  lemma ReplyOfRefused(n: Node)
    requires ClientOk(n) && n.phase.Refused?
    ensures |n.tcpRead| >= HEADER && n.TcpOut() == n.tcpWritten && |n.tcpWritten| == HEADER
    ensures n.tcpWritten[1] == GRANTED ==> n.tcpRead[0] == 4 && n.tcpRead[1] != 1
    ensures n.udtRead == [] ==> n.tcpWritten == WithCode(n.tcpRead[..HEADER], n.tcpWritten[1])
    ensures n.udtWritten == [] ==>
              n.tcpWritten[1] == if n.tcpRead[0] != 4 then BAD_REQUEST
                                 else if n.tcpRead[1] != 1 then GRANTED else UNREACHABLE
    ensures n.udtWritten != [] ==> n.tcpRead[0] == 4 && n.tcpRead[1] == 1
    ensures n.udtRead != [] ==> |n.udtRead| <= HEADER && n.tcpWritten == n.udtRead + n.tcpRead[|n.udtRead|..HEADER]
  {
    hide IsRequest;
    assert F.NEW_RELAY.rcv.link.put == [];
    if n.udtWritten != [] {
      HeaderPasses(n.tcpRead);
      assert n.tcpRead[0] == n.tcpRead[..HEADER][0] && n.tcpRead[1] == n.tcpRead[..HEADER][1];
      assert n.udtRead == [] ==> n.tcpWritten == n.tcpRead[..HEADER];
    }
  }

  lemma ReplyOfRelaying(n: Node)
    requires ClientOk(n) && n.phase.Relaying?
    ensures |n.tcpRead| >= HEADER && n.udtRead != [] && |n.udtRead| <= HEADER
    ensures |n.tcpWritten| == HEADER && n.TcpOut()[..HEADER] == n.tcpWritten
    ensures n.tcpWritten == n.udtRead + n.tcpRead[|n.udtRead|..HEADER]
  {
  }

  lemma SilentOtherwise(n: Node)
    requires ClientOk(n) && !n.phase.Relaying? && !n.phase.Refused?
    ensures n.TcpOut() == []
  {
    hide IsRequest, OpenRequest;
    assert F.NEW_RELAY.rcv.link.put == [];
  }

  lemma PartialOverwrite(header: seq<Byte>, code: Byte, k: nat)
    requires |header| == HEADER && k <= HEADER
    ensures WithCode(header, code)[..k] + header[k..] == WithCode(header, if k < 2 then header[1] else code)
  {
  }

  lemma PartialReplyEchoes(cfg: Config, w: World)
    requires WellFormed(cfg.ifaces) && Inv(cfg, w)
    requires w.client.udtRead != [] && |w.client.udtRead| <= HEADER <= |w.client.tcpRead|
    ensures var n := w.client;
            var out := n.udtRead + n.tcpRead[|n.udtRead|..HEADER];
            out == WithCode(n.tcpRead[..HEADER], out[1])
  {
    hide Inv, WithCode;
    var n := w.client;
    ClientReadsReply(cfg, w);
    var header := n.tcpRead[..HEADER];
    assert n.tcpRead[|n.udtRead|..HEADER] == header[|n.udtRead|..];
    PartialOverwrite(header, w.server.udtWritten[1], |n.udtRead|);
    CodeOf(header, if |n.udtRead| < 2 then header[1] else w.server.udtWritten[1]);
  }

  lemma HeaderIsApps(w: World)
    requires Channels(w) && |w.client.tcpRead| >= HEADER
    ensures |w.app| >= HEADER && w.client.tcpRead[..HEADER] == w.app[..HEADER]
    ensures w.client.tcpRead[0] == w.app[0] && w.client.tcpRead[1] == w.app[1]
  {
    assert w.client.tcpRead <= w.client.TcpIn();
  }

  /** The reply is the application's own header with another code, even when line 732 takes only part
      of the SERVER's answer.  (The memo on SOCKS 4 asks for a version of 0 here.) */
  lemma ReplyEchoesHeader(cfg: Config, events: seq<Event>)
    requires WellFormed(cfg.ifaces)
    ensures var w := Run(cfg, NEW_WORLD, events);
            var out := w.client.TcpOut();
            out == [] || (|out| >= HEADER && |w.app| >= HEADER && out[..HEADER] == WithCode(w.app[..HEADER], out[1]))
  {
    var w := ReachableOk(cfg, events);
    hide Inv, ClientOk, ServerOk, F.Inv, Next, Run, WithCode, Channels, Node.TcpOut;
    InvMeans(cfg, w);
    var n := w.client;
    if n.phase.Relaying? {
      ReplyOfRelaying(n);
      HeaderIsApps(w);
      PartialReplyEchoes(cfg, w);
    } else if n.phase.Refused? {
      ReplyOfRefused(n);
      HeaderIsApps(w);
      assert n.tcpWritten[..HEADER] == n.tcpWritten;
      if n.udtRead != [] {
        PartialReplyEchoes(cfg, w);
      }
    } else {
      SilentOtherwise(n);
    }
  }

  lemma CodeOf(header: seq<Byte>, code: Byte)
    requires |header| == HEADER
    ensures WithCode(header, code)[1] == code
  {
  }

  lemma OpenedMeans(cfg: Config, n: Node, connected: Option<seq<Byte>>, header: seq<Byte>)
    requires WellFormed(cfg.ifaces) && ServerOk(cfg, n, connected) && n.phase.Relaying?
    requires |header| == HEADER && |n.udtRead| >= HEADER && n.udtRead[..HEADER] == header
    ensures connected == Some(header[2..]) && Admits(cfg.netAccess, cfg.ifaces, header[4..])
  {
    assert n.udtRead[2..HEADER] == header[2..] && n.udtRead[4..HEADER] == header[4..];
  }

  ghost predicate GrantIsTrue(cfg: Config, w: World, past: seq<Event>)
    requires WellFormed(cfg.ifaces)
  {
    var out := w.client.TcpOut();
    |out| >= HEADER && out[1] == GRANTED ==>
      && |w.app| >= HEADER && w.app[0] == 4
      && (w.app[1] == 1 ==>
            && w.connected == Some(w.app[2..HEADER])
            && Admits(cfg.netAccess, cfg.ifaces, w.app[4..HEADER])
            && ServerConnects(true) in past)
  }

  lemma InvKeepsGrantTrue(cfg: Config, w: World, past: seq<Event>)
    requires WellFormed(cfg.ifaces) && Inv(cfg, w) && (w.connected.Some? ==> ServerConnects(true) in past)
    ensures GrantIsTrue(cfg, w, past)
  {
    hide Inv, ClientOk, ServerOk, F.Inv, WithCode, Admits, Channels, Node.TcpOut;
    InvMeans(cfg, w);
    var n := w.client;
    if n.phase.Relaying? {
      RelayedIsOpened(cfg, w);
    } else if n.phase.Refused? {
      ReplyOfRefused(n);
      HeaderIsApps(w);
    } else {
      SilentOtherwise(n);
    }
  }

  /** A reply of 90 to a CONNECT means that the SERVER has a connection to exactly the port and the
      address asked for, after they passed its admission test and its call of `connect` succeeded. */
  lemma GrantedMeansConnected(cfg: Config, events: seq<Event>)
    requires WellFormed(cfg.ifaces)
    ensures GrantIsTrue(cfg, Run(cfg, NEW_WORLD, events), events)
  {
    var w := ReachableOk(cfg, events);
    hide *;
    ConnectionHasCause(cfg, events);
    InvKeepsGrantTrue(cfg, w, events);
  }

  lemma RelayedIsOpened(cfg: Config, w: World)
    requires WellFormed(cfg.ifaces) && Inv(cfg, w) && w.client.phase.Relaying?
    ensures |w.app| >= HEADER && w.app[0] == 4
    ensures w.connected == Some(w.app[2..HEADER]) && Admits(cfg.netAccess, cfg.ifaces, w.app[4..HEADER])
  {
    hide Inv, ClientOk, ServerOk, WithCode, Admits, Channels;
    InvMeans(cfg, w);
    var n := w.client;
    ReplyOfRelaying(n);
    RelayingMeans(cfg, w);
    HeaderIsApps(w);
    DownStream(cfg, w);
    ServerHasRead(cfg, w);
    ServerReadsHeader(cfg, w);
    HeaderPasses(n.tcpRead);
    OpenedMeans(cfg, w.server, w.connected, w.app[..HEADER]);
    assert w.app[..HEADER][2..] == w.app[2..HEADER] && w.app[..HEADER][4..] == w.app[4..HEADER];
  }

  lemma ServerHasRead(cfg: Config, w: World)
    requires WellFormed(cfg.ifaces) && ServerOk(cfg, w.server, w.connected) && w.server.phase.Relaying?
    ensures |w.server.udtRead| > HEADER && IsRequest(w.server.udtRead)
  {
    hide Admits;
  }

  /** The codes: 91 for another version, 90 for another command, and for a CONNECT 90 exactly when the
      CLIENT goes on to relay, 92 only when nothing is connected, and 1, the command itself, exactly when
      line 732 took less than two bytes of the SERVER's answer. */
  lemma ReplyCodes(cfg: Config, events: seq<Event>)
    requires WellFormed(cfg.ifaces)
    ensures var w := Run(cfg, NEW_WORLD, events);
            var out := w.client.TcpOut();
            out != [] ==>
              && |out| >= HEADER && |w.app| >= HEADER
              && (w.app[0] != 4 ==> out[1] == BAD_REQUEST && w.connected.None?)
              && (w.app[0] == 4 && w.app[1] != 1 ==> out[1] == GRANTED && w.connected.None?)
              && (w.app[0] == 4 && w.app[1] == 1 ==>
                    && out[1] in {GRANTED, UNREACHABLE, 1}
                    && (out[1] == GRANTED <==> w.client.phase.Relaying?)
                    && (out[1] == UNREACHABLE ==> w.connected.None?)
                    && (out[1] == 1 <==> w.client.udtWritten != [] && |w.client.udtRead| < 2))
  {
    var w := ReachableOk(cfg, events);
    hide Inv, ClientOk, ServerOk, F.Inv, Next, Run, WithCode, Channels, Node.TcpOut;
    InvMeans(cfg, w);
    var n := w.client;
    if n.phase.Relaying? {
      CodeOfRelayed(cfg, w);
    } else if n.phase.Refused? {
      CodeOfRefused(cfg, w);
    } else {
      SilentOtherwise(n);
    }
  }

  lemma CodeOfRelayed(cfg: Config, w: World)
    requires WellFormed(cfg.ifaces) && Inv(cfg, w) && w.client.phase.Relaying?
    ensures |w.client.TcpOut()| >= HEADER && |w.app| >= HEADER
    ensures w.client.TcpOut()[1] == GRANTED && w.app[0] == 4 && w.app[1] == 1
    ensures w.client.udtWritten != [] && |w.client.udtRead| >= 2
  {
    hide Inv, ClientOk, ServerOk, F.Inv, WithCode, Channels;
    InvMeans(cfg, w);
    RelayingMeans(cfg, w);
    ReplyOfRelaying(w.client);
    HeaderIsApps(w);
    RelayingHasRequest(w.client);
    HeaderPasses(w.client.tcpRead);
  }

  lemma RelayingHasRequest(n: Node)
    requires ClientOk(n) && n.phase.Relaying?
    ensures IsRequest(n.tcpRead) && n.udtWritten != []
  {
  }

  lemma CodeOfRefused(cfg: Config, w: World)
    requires WellFormed(cfg.ifaces) && Inv(cfg, w) && w.client.phase.Refused?
    ensures |w.client.TcpOut()| >= HEADER && |w.app| >= HEADER
    ensures var code := w.client.TcpOut()[1];
            && (w.app[0] != 4 ==> code == BAD_REQUEST && w.connected.None?)
            && (w.app[0] == 4 && w.app[1] != 1 ==> code == GRANTED && w.connected.None?)
            && (w.app[0] == 4 && w.app[1] == 1 ==>
                  && code in {UNREACHABLE, 1}
                  && (code == UNREACHABLE ==> w.connected.None?)
                  && (code == 1 <==> w.client.udtWritten != [] && |w.client.udtRead| < 2))
  {
    hide Inv, ClientOk, ServerOk, F.Inv, WithCode, Channels, Node.TcpOut;
    InvMeans(cfg, w);
    var n := w.client;
    ReplyOfRefused(n);
    HeaderIsApps(w);
    if n.udtWritten == [] {
      NotOpened(cfg, w);
    } else if n.udtRead == [] {
      CodeOf(n.tcpRead[..HEADER], n.tcpWritten[1]);
      RefusedUnread(n);
    } else {
      ClientReadsReply(cfg, w);
      ServerAnswers(cfg, w);
      RefusedCode(n);
    }
  }

  lemma RefusedByServer(cfg: Config, n: Node, connected: Option<seq<Byte>>)
    requires WellFormed(cfg.ifaces) && ServerOk(cfg, n, connected)
    requires |n.udtWritten| == HEADER && n.udtWritten[1] == UNREACHABLE && !n.phase.Dropped?
    ensures n.phase.Refused? && |n.udtRead| > HEADER
  {
    hide Admits, OpenRequest;
  }

  lemma RefusedOverTunnel(cfg: Config, w: World, past: seq<Event>)
    requires WellFormed(cfg.ifaces) && Inv(cfg, w) && Caused(cfg, w, past)
    requires w.client.phase.Refused? && |w.client.udtRead| >= 2 && w.client.udtRead[1] == UNREACHABLE
    ensures |w.app| >= HEADER
    ensures ServerConnects(false) in past || !Admits(cfg.netAccess, cfg.ifaces, w.app[4..HEADER])
  {
    hide Inv, ClientOk, ServerOk, F.Inv, Channels, WithCode, Admits;
    InvMeans(cfg, w);
    ClientReadsReply(cfg, w);
    NoDrop(cfg, w);
    RefusedByServer(cfg, w.server, w.connected);
    ServerReadsHeader(cfg, w);
    HeaderIsApps(w);
    assert w.server.udtRead[..HEADER][4..] == w.server.udtRead[4..HEADER];
    assert w.app[..HEADER][4..] == w.app[4..HEADER];
  }

  lemma RefusedHasCause(cfg: Config, w: World, past: seq<Event>)
    requires WellFormed(cfg.ifaces) && Inv(cfg, w) && Caused(cfg, w, past) && w.client.phase.Refused?
    requires |w.app| >= HEADER && w.app[0] == 4 && w.app[1] == 1
    requires |w.client.TcpOut()| >= HEADER && w.client.TcpOut()[1] == UNREACHABLE
    ensures ClientPeer(false) in past || ServerConnects(false) in past
            || !Admits(cfg.netAccess, cfg.ifaces, w.app[4..HEADER])
  {
    hide Inv, ClientOk, ServerOk, F.Inv, Channels, WithCode, Admits, Node.TcpOut;
    InvMeans(cfg, w);
    var n := w.client;
    ReplyOfRefused(n);
    HeaderIsApps(w);
    if n.udtWritten != [] {
      if n.udtRead == [] {
        RefusedUnread(n);
      } else {
        RefusedCode(n);
        RefusedOverTunnel(cfg, w, past);
      }
    }
  }

  /** A CONNECT that is answered with 92 has met a failing connect of the CLIENT or of the SERVER, or an
      address that is not admitted: nothing else is called unreachable. */
  lemma UnreachableHasCause(cfg: Config, events: seq<Event>)
    requires WellFormed(cfg.ifaces)
    ensures var w := Run(cfg, NEW_WORLD, events);
            var out := w.client.TcpOut();
            |out| >= HEADER && |w.app| >= HEADER && w.app[0] == 4 && w.app[1] == 1 && out[1] == UNREACHABLE ==>
              ClientPeer(false) in events || ServerConnects(false) in events
              || !Admits(cfg.netAccess, cfg.ifaces, w.app[4..HEADER])
  {
    var w := ReachableOk(cfg, events);
    RunIsCaused(cfg, events);
    ReplyCodes(cfg, events);
    hide Inv, ClientOk, ServerOk, F.Inv, Next, Run, WithCode, Admits, Channels, Caused, Node.TcpOut;
    InvMeans(cfg, w);
    if w.client.phase.Refused? && |w.client.TcpOut()| >= HEADER && w.client.TcpOut()[1] == UNREACHABLE
       && |w.app| >= HEADER && w.app[0] == 4 && w.app[1] == 1 {
      RefusedHasCause(cfg, w, events);
    } else if !w.client.phase.Relaying? && !w.client.phase.Refused? {
      SilentOtherwise(w.client);
    }
  }

  /** Nothing sent over the tunnel, nothing opened behind it. */
  lemma NotOpened(cfg: Config, w: World)
    requires WellFormed(cfg.ifaces) && Inv(cfg, w) && w.client.phase.Refused? && w.client.udtWritten == []
    ensures w.connected.None?
  {
    hide Inv, ClientOk, ServerOk, WithCode;
    InvMeans(cfg, w);
    if w.server.phase.Relaying? {
      ServerHasRead(cfg, w);
      ServerReadsHeader(cfg, w);
    }
    ConnectedIffRelaying(cfg, w.server, w.connected);
  }

  lemma ConnectedIffRelaying(cfg: Config, n: Node, connected: Option<seq<Byte>>)
    requires WellFormed(cfg.ifaces) && ServerOk(cfg, n, connected)
    ensures connected.Some? <==> n.phase.Relaying?
  {
    hide Admits, WithCode;
  }

  lemma RefusedUnread(n: Node)
    requires ClientOk(n) && n.phase.Refused? && n.udtWritten != [] && n.udtRead == []
    ensures n.tcpWritten[1] == 1
  {
  }

  lemma RefusedCode(n: Node)
    requires ClientOk(n) && n.phase.Refused? && n.udtRead != []
    ensures n.udtWritten != [] && |n.tcpWritten| == HEADER
    ensures n.tcpWritten[1] == if |n.udtRead| < 2 then 1 else n.udtRead[1]
    ensures n.tcpWritten[1] != GRANTED
  {
  }

  lemma ServerAnswers(cfg: Config, w: World)
    requires WellFormed(cfg.ifaces) && Inv(cfg, w) && w.client.udtRead != []
    ensures |w.server.udtWritten| == HEADER && w.server.udtWritten[1] in {GRANTED, UNREACHABLE}
    ensures w.server.udtWritten[1] == UNREACHABLE ==> w.connected.None?
  {
    hide Inv, ClientOk, ServerOk, F.Inv, Channels, WithCode;
    InvMeans(cfg, w);
    ClientReadsReply(cfg, w);
    NoDrop(cfg, w);
    AnswerOf(cfg, w.server, w.connected);
  }

  lemma AnswerOf(cfg: Config, n: Node, connected: Option<seq<Byte>>)
    requires WellFormed(cfg.ifaces) && ServerOk(cfg, n, connected)
    requires n.udtWritten != [] && !n.phase.Dropped?
    ensures |n.udtWritten| == HEADER && n.udtWritten[1] in {GRANTED, UNREACHABLE}
    ensures n.udtWritten[1] == UNREACHABLE ==> connected.None?
  {
    hide Admits, OpenRequest;
  }

  /** The request of minisocks' connect(): lines 131-139. */
  function ConnectRequest(port: seq<Byte>, ip: seq<Byte>): (r: seq<Byte>)
    requires |port| == 2 && |ip| == 4
    ensures |r| == HEADER + 1
  {
    [4, 1] + port + ip + [0]
  }

  /** So connect() of minisocks, which succeeds only on an 8 byte reply with code 90, succeeds only if
      the SERVER's own connect to that port and address has succeeded. */
  lemma ConnectIsHonest(cfg: Config, events: seq<Event>, port: seq<Byte>, ip: seq<Byte>)
    requires WellFormed(cfg.ifaces) && |port| == 2 && |ip| == IN_ADDR_SIZE
    ensures var w := Run(cfg, NEW_WORLD, events);
            ConnectRequest(port, ip) <= w.app && |w.client.TcpOut()| >= HEADER && w.client.TcpOut()[1] == GRANTED ==>
              w.connected == Some(port + ip) && Admits(cfg.netAccess, cfg.ifaces, ip) && ServerConnects(true) in events
  {
    GrantedMeansConnected(cfg, events);
    hide Run, Admits;
    var w := Run(cfg, NEW_WORLD, events);
    if ConnectRequest(port, ip) <= w.app {
      var q := ConnectRequest(port, ip);
      assert w.app[2..HEADER] == q[2..HEADER] == port + ip;
      assert w.app[4..HEADER] == q[4..HEADER] == ip;
    }
  }

  // ---------------------------------------------------------------- runs that do happen

  lemma {:induction false} RunSplit(cfg: Config, w: World, a: seq<Event>, b: seq<Event>)
    requires WellFormed(cfg.ifaces)
    ensures Run(cfg, w, a + b) == Run(cfg, Run(cfg, w, a), b)
    decreases |a|
  {
    hide Next;
    if a == [] {
      assert a + b == b;
    } else {
      assert (a + b)[0] == a[0] && (a + b)[1..] == a[1..] + b;
      RunSplit(cfg, Next(cfg, w, a[0]), a[1..], b);
    }
  }

  lemma Extend(cfg: Config, events: seq<Event>, w: World, e: Event) returns (events': seq<Event>, w': World)
    requires WellFormed(cfg.ifaces) && w == Run(cfg, NEW_WORLD, events)
    ensures events' == events + [e] && w' == Next(cfg, w, e) == Run(cfg, NEW_WORLD, events')
  {
    events', w' := events + [e], Next(cfg, w, e);
    hide Run, Next;
    RunOne(cfg, events, w, e);
  }

  predicate HonestReply(w: World, header: seq<Byte>) {
    header <= w.app && |w.client.TcpOut()| >= HEADER && w.client.TcpOut()[1] == GRANTED ==> w.connected.Some?
  }

  lemma RefusalOf(header: seq<Byte>)
    requires |header| == HEADER && header[0] == 4 && header[1] != 1
    ensures var w := ClientHeaderStep(NEW_WORLD.(app := header));
            w.app == header && |w.client.TcpOut()| == HEADER && w.client.TcpOut()[1] == GRANTED && w.connected.None?
  {
    assert header[..HEADER] == header;
  }

  lemma UnsupportedIsGranted(cfg: Config, header: seq<Byte>) returns (events: seq<Event>)
    requires WellFormed(cfg.ifaces) && |header| == HEADER && header[0] == 4 && header[1] != 1
    ensures !HonestReply(Run(cfg, NEW_WORLD, events), header)
  {
    hide Run, ClientHeaderStep, ClientUserStep, ClientPeerStep, ClientReplyStep, ServerHeaderStep,
      ServerUserStep, ServerConnectStep, ClientThreadStep, ServerThreadStep, Node.TcpOut;
    var w := NEW_WORLD;
    events := [];
    EmptyRun(cfg);
    events, w := Extend(cfg, events, w, AppWrites(header));
    assert [] + header == header;
    assert w == NEW_WORLD.(app := header);
    events, w := Extend(cfg, events, w, ClientHeader);
    RefusalOf(header);
  }

  lemma EmptyRun(cfg: Config)
    requires WellFormed(cfg.ifaces)
    ensures Run(cfg, NEW_WORLD, []) == NEW_WORLD
  {
  }

  /** Line 683: a code of 90 is a promise exactly for CONNECT requests.  For a header with any other
      command there is a run in which the application reads 90 and nothing is connected. */
  lemma GrantHonestIff(cfg: Config, header: seq<Byte>)
    requires WellFormed(cfg.ifaces) && |header| == HEADER
    ensures (forall events :: HonestReply(Run(cfg, NEW_WORLD, events), header)) <==> header[0] != 4 || header[1] == 1
  {
    hide Run, Admits;
    if header[0] == 4 && header[1] != 1 {
      var events := UnsupportedIsGranted(cfg, header);
    } else {
      forall events
        ensures HonestReply(Run(cfg, NEW_WORLD, events), header)
      {
        GrantedMeansConnected(cfg, events);
      }
    }
  }

  /** A CONNECT header that the SERVER lets through. */
  ghost predicate Admissible(cfg: Config, header: seq<Byte>)
    requires WellFormed(cfg.ifaces)
  {
    |header| == HEADER && header[0] == 4 && header[1] == 1 && Admits(cfg.netAccess, cfg.ifaces, header[4..])
  }

  /** The state in which the SERVER has answered 90 and the CLIENT has not read it. */
  function Opened(header: seq<Byte>, user: seq<Byte>): World
    requires |header| == HEADER
  {
    var reply := WithCode(header, GRANTED);
    World(header + user + [0], [],
          Node(Reply, header, header + user + [0], [], [], header + [0], F.NEW_RELAY),
          Node(Relaying, reply, [], [], header + [0], reply, F.NEW_RELAY),
          Some(header[2..]))
  }

  lemma ReadUser(cfg: Config, events: seq<Event>, w: World, header: seq<Byte>, user: seq<Byte>, k: nat)
      returns (events': seq<Event>, w': World)
    requires WellFormed(cfg.ifaces) && |header| == HEADER && NoNul(user) && k <= |user|
    requires w == Run(cfg, NEW_WORLD, events)
    requires w == World(header + user + [0], [], Node(User, header, header + user[..k], [], [], [], F.NEW_RELAY),
                        NEW_NODE, None)
    ensures w' == Run(cfg, NEW_WORLD, events')
    ensures w' == World(header + user + [0], [], Node(Connect, header, header + user + [0], [], [], [], F.NEW_RELAY),
                        NEW_NODE, None)
    decreases |user| - k
  {
    hide Run, Admits, ClientHeaderStep, ClientPeerStep, ClientReplyStep, ServerHeaderStep,
      ServerUserStep, ServerConnectStep, ClientThreadStep, ServerThreadStep;
    events', w' := Extend(cfg, events, w, ClientUser);
    if k < |user| {
      assert header + user[..k] + [user[k]] == header + user[..k + 1];
      events', w' := ReadUser(cfg, events', w', header, user, k + 1);
    } else {
      assert user[..k] == user;
    }
  }

  lemma HandshakeRun(cfg: Config, header: seq<Byte>, user: seq<Byte>) returns (events: seq<Event>, w: World)
    requires WellFormed(cfg.ifaces) && Admissible(cfg, header) && NoNul(user)
    ensures w == Run(cfg, NEW_WORLD, events) == Opened(header, user)
  {
    hide Run, Admits, ClientUserStep, ClientReplyStep, ServerHeaderStep, ServerUserStep,
      ServerConnectStep, ClientThreadStep, ServerThreadStep;
    events, w := [], NEW_WORLD;
    EmptyRun(cfg);
    events, w := Extend(cfg, events, w, AppWrites(header + user + [0]));
    assert w.app[..HEADER] == header;
    events, w := Extend(cfg, events, w, ClientHeader);
    assert header + user[..0] == header;
    events, w := ReadUser(cfg, events, w, header, user, 0);
    events, w := Extend(cfg, events, w, ClientPeer(true));
    events, w := ServerSide(cfg, events, w, header);
  }

  lemma ServerSide(cfg: Config, events: seq<Event>, w: World, header: seq<Byte>)
      returns (events': seq<Event>, w': World)
    requires WellFormed(cfg.ifaces) && Admissible(cfg, header)
    requires w == Run(cfg, NEW_WORLD, events)
    requires w.client.UdtOut() == header + [0] && w.server == NEW_NODE
    ensures w' == Run(cfg, NEW_WORLD, events')
    ensures var reply := WithCode(header, GRANTED);
            w' == w.(server := Node(Relaying, reply, [], [], header + [0], reply, F.NEW_RELAY),
                     connected := Some(header[2..]))
  {
    hide Run, Admits, ClientHeaderStep, ClientUserStep, ClientPeerStep, ClientReplyStep,
      ClientThreadStep, ServerThreadStep;
    assert w.client.UdtOut()[0..HEADER] == header;
    assert [] + header == header;
    events', w' := Extend(cfg, events, w, ServerHeader(HEADER));
    assert w'.server == Node(User, header, [], [], header, [], F.NEW_RELAY);
    events', w' := Extend(cfg, events', w', ServerUser);
    assert w'.server == Node(Connect, header, [], [], header + [0], [], F.NEW_RELAY);
    events', w' := Extend(cfg, events', w', ServerConnects(true));
  }

  /** The application has got only what the destination has sent. */
  predicate OnlyDestData(w: World) {
    AfterReply(w) <= w.dest
  }

  /** After a reply receive of k bytes, with the receiver of the CLIENT at its next receive. */
  lemma ShortReply(cfg: Config, header: seq<Byte>, k: nat) returns (events: seq<Event>, w: World)
    requires WellFormed(cfg.ifaces) && Admissible(cfg, header) && 2 <= k < HEADER
    ensures w == Run(cfg, NEW_WORLD, events) && w.dest == []
    ensures w.server.UdtOut() == WithCode(header, GRANTED)
    ensures w.client.phase.Relaying? && w.client.udtRead == WithCode(header, GRANTED)[..k]
    ensures |w.client.tcpWritten| == HEADER && w.client.relay.rcv == F.Receiver(F.RReceiving, F.NEW_LINK)
  {
    hide Run, Admits, ClientHeaderStep, ClientUserStep, ClientPeerStep, ServerHeaderStep, ServerUserStep,
      ServerConnectStep, ServerThreadStep;
    events, w := HandshakeRun(cfg, header, []);
    var reply := WithCode(header, GRANTED);
    assert w.server.UdtOut() == reply;
    events, w := Extend(cfg, events, w, ClientReply(k));
    hide ClientReplyStep;
    events, w := Extend(cfg, events, w, ClientThreads(F.SpawnRcv));
    events, w := Extend(cfg, events, w, ClientThreads(F.OfReceiver(F.RTest)));
  }

  lemma ShortReplyLeaks(cfg: Config, header: seq<Byte>, k: nat) returns (events: seq<Event>)
    requires WellFormed(cfg.ifaces) && Admissible(cfg, header) && cfg.cap > 0 && 2 <= k < HEADER
    ensures var w := Run(cfg, NEW_WORLD, events); |w.client.udtRead| == k && !OnlyDestData(w)
  {
    hide Run, Admits, ClientHeaderStep, ClientUserStep, ClientPeerStep, ClientReplyStep, ServerHeaderStep,
      ServerUserStep, ServerConnectStep, ServerThreadStep;
    var w;
    events, w := ShortReply(cfg, header, k);
    var reply := WithCode(header, GRANTED);
    assert w.client.UdtIn() + [reply[k]] == reply[..k + 1];
    events, w := Extend(cfg, events, w, ClientThreads(F.OfReceiver(F.RRecv([reply[k]]))));
    events, w := Extend(cfg, events, w, ClientThreads(F.OfReceiver(F.RWrite(1))));
    assert w.client.relay.rcv.link.put == [reply[k]];
    assert AfterReply(w) == [reply[k]];
  }

  predicate CleanAfter(w: World, k: nat) {
    |w.client.udtRead| == k ==> OnlyDestData(w)
  }

  /** Line 732 takes whatever one receive returns as the whole reply.  Runs in which it returned k
      bytes keep the reply out of the data, all of them, if and only if k is 8 or less than 2; for any
      other k the rest of the reply reaches the application as if the destination had sent it. */
  lemma ReplySplitIff(cfg: Config, header: seq<Byte>, k: nat)
    requires WellFormed(cfg.ifaces) && Admissible(cfg, header) && cfg.cap > 0 && k <= HEADER
    ensures (forall events :: CleanAfter(Run(cfg, NEW_WORLD, events), k)) <==> k == HEADER || k < 2
  {
    hide Run, Admits;
    if 2 <= k < HEADER {
      var events := ShortReplyLeaks(cfg, header, k);
      assert !CleanAfter(Run(cfg, NEW_WORLD, events), k);
    } else {
      forall events
        ensures CleanAfter(Run(cfg, NEW_WORLD, events), k)
      {
        ApplicationGetsData(cfg, events);
      }
    }
  }

  /** A reply other than 90, given after a reply receive of k bytes or without one, leaves nothing connected. */
  predicate RefusalIsHonest(w: World, k: nat) {
    |w.client.udtRead| == k && |w.client.TcpOut()| >= HEADER && w.client.TcpOut()[1] != GRANTED ==> w.connected.None?
  }

  lemma RefusedThoughConnected(cfg: Config, header: seq<Byte>, k: nat) returns (events: seq<Event>)
    requires WellFormed(cfg.ifaces) && Admissible(cfg, header) && k < 2
    ensures !RefusalIsHonest(Run(cfg, NEW_WORLD, events), k)
  {
    hide Run, Admits, ClientHeaderStep, ClientUserStep, ClientPeerStep, ServerHeaderStep, ServerUserStep,
      ServerConnectStep, ClientThreadStep, ServerThreadStep;
    var w;
    events, w := HandshakeRun(cfg, header, []);
    assert w.server.UdtOut() == WithCode(header, GRANTED);
    events, w := Extend(cfg, events, w, ClientReply(k));
    assert w.client.tcpWritten == w.client.TcpOut();
  }

  /** A reply receive that fails or brings one byte makes the CLIENT refuse what the SERVER has connected.
      The refusals after k received bytes are honest in all runs if and only if k is at least 2. */
  lemma RefusalsHonestIff(cfg: Config, header: seq<Byte>, k: nat)
    requires WellFormed(cfg.ifaces) && Admissible(cfg, header)
    ensures (forall events :: RefusalIsHonest(Run(cfg, NEW_WORLD, events), k)) <==> k >= 2
  {
    hide Run, Admits;
    if k < 2 {
      var events := RefusedThoughConnected(cfg, header, k);
    } else {
      forall events
        ensures RefusalIsHonest(Run(cfg, NEW_WORLD, events), k)
      {
        ReplyCodes(cfg, events);
      }
    }
  }

  // ---------------------------------------------------------------- everything can be delivered

  ghost predicate SenderHasPassed(r: F.Relay, x: seq<Byte>) {
    !r.shutdown && r.snd.pc.SHead? && r.snd.link.got == r.snd.link.put == x
  }

  ghost predicate ReceiverHasPassed(r: F.Relay, x: seq<Byte>) {
    !r.shutdown && r.rcv.pc.RHead? && r.rcv.link.got == r.rcv.link.put == x
  }

  /** Between chunks, with `x` carried from the application to the destination and `y` back. */
  ghost predicate Flowing(w: World, request: seq<Byte>, x: seq<Byte>, y: seq<Byte>) {
    && w.app == request + x && w.dest == y && w.connected.Some?
    && w.client.phase.Relaying? && w.client.tcpRead == request && |w.client.udtRead| == HEADER == |w.client.tcpWritten|
    && w.server.phase.Relaying? && w.server.tcpRead == w.server.tcpWritten == []
    && w.server.udtRead == w.client.udtWritten && w.client.udtRead == w.server.udtWritten
    && SenderHasPassed(w.client.relay, x) && ReceiverHasPassed(w.server.relay, x)
    && SenderHasPassed(w.server.relay, y) && ReceiverHasPassed(w.client.relay, y)
  }

  lemma ClientSends(cfg: Config, events: seq<Event>, w: World, x: seq<Byte>, c: seq<Byte>)
      returns (events': seq<Event>, w': World)
    requires WellFormed(cfg.ifaces) && w == Run(cfg, NEW_WORLD, events) && 0 < |c| <= cfg.cap
    requires w.client.phase.Relaying? && SenderHasPassed(w.client.relay, x) && w.app == w.client.tcpRead + x
    ensures w' == Run(cfg, NEW_WORLD, events')
    ensures w' == w.(app := w.app + c, client := w.client.(relay := w.client.relay.(snd := w'.client.relay.snd)))
    ensures SenderHasPassed(w'.client.relay, x + c)
  {
    hide Run, Admits, ClientHeaderStep, ClientUserStep, ClientPeerStep, ClientReplyStep,
      ServerHeaderStep, ServerUserStep, ServerConnectStep, ServerThreadStep;
    events', w' := Extend(cfg, events, w, AppWrites(c));
    events', w' := Extend(cfg, events', w', ClientThreads(F.OfSender(F.STest)));
    events', w' := Extend(cfg, events', w', ClientThreads(F.OfSender(F.SPollReturns)));
    assert w'.client.TcpIn() + c == w'.app;
    events', w' := Extend(cfg, events', w', ClientThreads(F.OfSender(F.SRecv(c))));
    events', w' := Extend(cfg, events', w', ClientThreads(F.OfSender(F.SWrite(|c|))));
  }

  lemma ServerSends(cfg: Config, events: seq<Event>, w: World, y: seq<Byte>, c: seq<Byte>)
      returns (events': seq<Event>, w': World)
    requires WellFormed(cfg.ifaces) && w == Run(cfg, NEW_WORLD, events) && 0 < |c| <= cfg.cap && w.connected.Some?
    requires w.server.phase.Relaying? && SenderHasPassed(w.server.relay, y) && w.dest == w.server.tcpRead + y
    ensures w' == Run(cfg, NEW_WORLD, events')
    ensures w' == w.(dest := w.dest + c, server := w.server.(relay := w.server.relay.(snd := w'.server.relay.snd)))
    ensures SenderHasPassed(w'.server.relay, y + c) && events <= events'
  {
    hide Run, Admits, ClientHeaderStep, ClientUserStep, ClientPeerStep, ClientReplyStep,
      ServerHeaderStep, ServerUserStep, ServerConnectStep, ClientThreadStep;
    events', w' := Extend(cfg, events, w, DestWrites(c));
    events', w' := Extend(cfg, events', w', ServerThreads(F.OfSender(F.STest)));
    events', w' := Extend(cfg, events', w', ServerThreads(F.OfSender(F.SPollReturns)));
    assert w'.server.TcpIn() + c == w'.dest;
    events', w' := Extend(cfg, events', w', ServerThreads(F.OfSender(F.SRecv(c))));
    events', w' := Extend(cfg, events', w', ServerThreads(F.OfSender(F.SWrite(|c|))));
  }

  lemma ServerDelivers(cfg: Config, events: seq<Event>, w: World, x: seq<Byte>, c: seq<Byte>)
      returns (events': seq<Event>, w': World)
    requires WellFormed(cfg.ifaces) && w == Run(cfg, NEW_WORLD, events) && 0 < |c| <= cfg.cap
    requires w.server.phase.Relaying? && ReceiverHasPassed(w.server.relay, x)
    requires w.server.udtRead + (x + c) == w.client.UdtOut()
    ensures w' == Run(cfg, NEW_WORLD, events')
    ensures w' == w.(server := w.server.(relay := w.server.relay.(rcv := w'.server.relay.rcv)))
    ensures ReceiverHasPassed(w'.server.relay, x + c)
  {
    hide Run, Admits, ClientHeaderStep, ClientUserStep, ClientPeerStep, ClientReplyStep,
      ServerHeaderStep, ServerUserStep, ServerConnectStep, ClientThreadStep;
    events', w' := Extend(cfg, events, w, ServerThreads(F.OfReceiver(F.RTest)));
    assert w'.server.UdtIn() + c == w'.server.udtRead + (x + c);
    events', w' := Extend(cfg, events', w', ServerThreads(F.OfReceiver(F.RRecv(c))));
    events', w' := Extend(cfg, events', w', ServerThreads(F.OfReceiver(F.RWrite(|c|))));
  }

  lemma ClientPasses(cfg: Config, events: seq<Event>, w: World, y: seq<Byte>, c: seq<Byte>)
      returns (events': seq<Event>, w': World)
    requires WellFormed(cfg.ifaces) && w == Run(cfg, NEW_WORLD, events) && 0 < |c| <= cfg.cap
    requires w.client.phase.Relaying? && w.client.relay.rcv.pc.RReceiving?
    requires w.client.relay.rcv.link.got == w.client.relay.rcv.link.put == y
    requires w.client.udtRead + (y + c) == w.server.UdtOut()
    ensures w' == Run(cfg, NEW_WORLD, events') && events <= events'
    ensures w' == w.(client := w.client.(relay := w.client.relay.(rcv := w'.client.relay.rcv)))
    ensures w'.client.relay.rcv.pc.RHead?
    ensures w'.client.relay.rcv.link.got == w'.client.relay.rcv.link.put == y + c
  {
    hide Run, Admits, ClientHeaderStep, ClientUserStep, ClientPeerStep, ClientReplyStep,
      ServerHeaderStep, ServerUserStep, ServerConnectStep, ServerThreadStep;
    assert w.client.UdtIn() + c == w.client.udtRead + (y + c);
    events', w' := Extend(cfg, events, w, ClientThreads(F.OfReceiver(F.RRecv(c))));
    events', w' := Extend(cfg, events', w', ClientThreads(F.OfReceiver(F.RWrite(|c|))));
  }

  lemma ClientDelivers(cfg: Config, events: seq<Event>, w: World, y: seq<Byte>, c: seq<Byte>)
      returns (events': seq<Event>, w': World)
    requires WellFormed(cfg.ifaces) && w == Run(cfg, NEW_WORLD, events) && 0 < |c| <= cfg.cap
    requires w.client.phase.Relaying? && ReceiverHasPassed(w.client.relay, y)
    requires w.client.udtRead + (y + c) == w.server.UdtOut()
    ensures w' == Run(cfg, NEW_WORLD, events')
    ensures w' == w.(client := w.client.(relay := w.client.relay.(rcv := w'.client.relay.rcv)))
    ensures ReceiverHasPassed(w'.client.relay, y + c)
  {
    hide Run, Admits, ClientHeaderStep, ClientUserStep, ClientPeerStep, ClientReplyStep,
      ServerHeaderStep, ServerUserStep, ServerConnectStep, ServerThreadStep;
    events', w' := Extend(cfg, events, w, ClientThreads(F.OfReceiver(F.RTest)));
    events', w' := ClientPasses(cfg, events', w', y, c);
  }

  /** A payload goes up chunk by chunk, and data comes down. */
  lemma {:induction false} CarryUp(cfg: Config, events: seq<Event>, w: World, request: seq<Byte>,
                                   x: seq<Byte>, y: seq<Byte>, rest: seq<Byte>)
      returns (events': seq<Event>, w': World)
    requires WellFormed(cfg.ifaces) && cfg.cap > 0 && w == Run(cfg, NEW_WORLD, events) && Flowing(w, request, x, y)
    ensures w' == Run(cfg, NEW_WORLD, events') && Flowing(w', request, x + rest, y)
    decreases |rest|
  {
    hide Run, Next;
    if rest == [] {
      assert x + rest == x;
      events', w' := events, w;
    } else {
      var c := rest[..Min(cfg.cap, |rest|)];
      events', w' := ClientSends(cfg, events, w, x, c);
      assert request + x + c == request + (x + c);
      events', w' := ServerDelivers(cfg, events', w', x, c);
      assert x + rest == (x + c) + rest[|c|..];
      events', w' := CarryUp(cfg, events', w', request, x + c, y, rest[|c|..]);
    }
  }

  lemma {:induction false} CarryDown(cfg: Config, events: seq<Event>, w: World, request: seq<Byte>,
                                     x: seq<Byte>, y: seq<Byte>, rest: seq<Byte>)
      returns (events': seq<Event>, w': World)
    requires WellFormed(cfg.ifaces) && cfg.cap > 0 && w == Run(cfg, NEW_WORLD, events) && Flowing(w, request, x, y)
    ensures w' == Run(cfg, NEW_WORLD, events') && Flowing(w', request, x, y + rest)
    decreases |rest|
  {
    hide Run, Next;
    if rest == [] {
      assert y + rest == y;
      events', w' := events, w;
    } else {
      var c := rest[..Min(cfg.cap, |rest|)];
      events', w' := ServerSends(cfg, events, w, y, c);
      events', w' := ClientDelivers(cfg, events', w', y, c);
      assert y + rest == (y + c) + rest[|c|..];
      events', w' := CarryDown(cfg, events', w', request, x, y + c, rest[|c|..]);
    }
  }

  lemma StartThreads(cfg: Config, header: seq<Byte>, user: seq<Byte>) returns (events: seq<Event>, w: World)
    requires WellFormed(cfg.ifaces) && Admissible(cfg, header) && NoNul(user)
    ensures w == Run(cfg, NEW_WORLD, events) && Flowing(w, header + user + [0], [], [])
  {
    hide Run, Admits, ClientHeaderStep, ClientUserStep, ClientPeerStep, ServerHeaderStep,
      ServerUserStep, ServerConnectStep;
    events, w := HandshakeRun(cfg, header, user);
    var reply := WithCode(header, GRANTED);
    assert w.server.UdtOut()[..HEADER] == reply;
    events, w := Extend(cfg, events, w, ClientReply(HEADER));
    events, w := Extend(cfg, events, w, ClientThreads(F.SpawnRcv));
    events, w := Extend(cfg, events, w, ClientThreads(F.SpawnSnd));
    events, w := Extend(cfg, events, w, ServerThreads(F.SpawnRcv));
    events, w := Extend(cfg, events, w, ServerThreads(F.SpawnSnd));
    assert w.app == header + user + [0] + [];
  }

  /** For every request that the SERVER lets through, every payload and every answer of the destination
      there is a run that delivers both of them whole: the prefix guarantees above are not kept by
      delivering nothing. */
  lemma EverythingCanArrive(cfg: Config, header: seq<Byte>, user: seq<Byte>, payload: seq<Byte>, data: seq<Byte>)
    requires WellFormed(cfg.ifaces) && Admissible(cfg, header) && NoNul(user) && cfg.cap > 0
    ensures exists events :: var w := Run(cfg, NEW_WORLD, events);
              && w.app == header + user + [0] + payload && w.server.TcpOut() == payload
              && w.dest == data && |w.client.TcpOut()| >= HEADER && AfterReply(w) == data
  {
    hide Run, Admits, Admissible;
    var events, w := StartThreads(cfg, header, user);
    events, w := CarryUp(cfg, events, w, header + user + [0], [], [], payload);
    assert [] + payload == payload && [] + data == data;
    events, w := CarryDown(cfg, events, w, header + user + [0], payload, [], data);
    assert w.app == header + user + [0] + payload && w.server.TcpOut() == payload;
    assert AfterReply(w) == data;
  }

  // ---------------------------------------------------------------- an application that ends its stream first

  /** What the CLIENT's receiver can still write once its sender has ended. */
  function ReceiverReach(cfg: Config, w: World): nat {
    F.ReceiverReach(cfg.cap, w.client.relay.rcv)
  }

  ghost predicate Ending(n: Node) {
    n.phase.Relaying? && n.relay.snd.pc.SDone? && F.FlagOk(n.relay) && F.MainOk(n.relay)
  }

  lemma NextWindsDown(cfg: Config, w: World, e: Event)
    requires WellFormed(cfg.ifaces) && Ending(w.client)
    ensures var t := Next(cfg, w, e);
            Ending(t.client) && ReceiverReach(cfg, t) <= ReceiverReach(cfg, w)
  {
    hide F.Next, F.FlagOk, F.MainOk, F.ReceiverReach, Admits;
    if e.ClientThreads? {
      F.NextKeepsFlag(cfg.cap, w.client.relay, e.e);
      F.ReceiverReachFalls(cfg.cap, w.client.relay, e.e);
    }
  }

  lemma {:induction false} RunWindsDown(cfg: Config, w: World, events: seq<Event>)
    requires WellFormed(cfg.ifaces) && Ending(w.client)
    ensures var t := Run(cfg, w, events);
            Ending(t.client) && ReceiverReach(cfg, t) <= ReceiverReach(cfg, w)
    decreases |events|
  {
    hide Next, Ending, ReceiverReach;
    if events != [] {
      NextWindsDown(cfg, w, events[0]);
      RunWindsDown(cfg, Next(cfg, w, events[0]), events[1..]);
    }
  }

  lemma DoneIsEnding(cfg: Config, w: World)
    requires WellFormed(cfg.ifaces) && Inv(cfg, w) && w.client.relay.snd.pc.SDone?
    ensures Ending(w.client)
  {
    hide IsRequest, OpenRequest, WithCode, ServerOk, Channels, F.SndOk, F.RcvOk;
  }

  lemma AnswerWithin(cfg: Config, w: World)
    requires ClientOk(w.client) && Ending(w.client)
    ensures AfterReply(w) == w.client.relay.rcv.link.put && |AfterReply(w)| <= ReceiverReach(cfg, w)
  {
    hide ClientOk, AfterReply, F.FlagOk, F.MainOk;
    AfterReplyIs(w);
  }

  lemma CutFrom(cfg: Config, w: World, after: seq<Event>)
    requires WellFormed(cfg.ifaces) && Inv(cfg, w) && w.client.relay.snd.pc.SDone?
    ensures |AfterReply(Run(cfg, w, after))| <= ReceiverReach(cfg, w)
    ensures AfterReply(w) == w.client.relay.rcv.link.put
  {
    hide *;
    var t := Run(cfg, w, after);
    DoneIsEnding(cfg, w);
    RunWindsDown(cfg, w, after);
    RunKeepsInv(cfg, w, after);
    InvMeans(cfg, w);
    InvMeans(cfg, t);
    AnswerWithin(cfg, w);
    AnswerWithin(cfg, t);
  }

  /** Once the application's end of stream, or an error, has ended sock2peer_worker of the CLIENT, the
      application gets no more of the answer than peer2sock_worker holds and brings by one more receive. */
  lemma AnswerIsCut(cfg: Config, before: seq<Event>, after: seq<Event>)
    requires WellFormed(cfg.ifaces)
    ensures var w := Run(cfg, NEW_WORLD, before);
            var rcv := w.client.relay.rcv;
            w.client.relay.snd.pc.SDone? ==>
              |AfterReply(Run(cfg, w, after))|
              <= |AfterReply(w)| + |rcv.link.pending| + (if rcv.pc.RReceiving? then cfg.cap else 0)
  {
    var w := ReachableOk(cfg, before);
    hide Run, Inv, AfterReply, Admissible;
    if w.client.relay.snd.pc.SDone? {
      CutFrom(cfg, w, after);
    }
  }

  /** The application's side has ended before the destination has written anything, and the destination then
      writes `data`, all of which gets to the application. */
  ghost predicate GetsAnswer(cfg: Config, before: seq<Event>, after: seq<Event>, request: seq<Byte>, data: seq<Byte>)
    requires WellFormed(cfg.ifaces)
  {
    var w := Run(cfg, NEW_WORLD, before);
    var t := Run(cfg, w, after);
    && w.app == request && w.dest == [] && |w.client.udtRead| == HEADER && w.client.relay.snd.pc.SDone?
    && t.dest == data && AfterReply(t) == data
  }

  lemma AnswerFits(cfg: Config, before: seq<Event>, after: seq<Event>, request: seq<Byte>, data: seq<Byte>)
    requires WellFormed(cfg.ifaces) && GetsAnswer(cfg, before, after, request, data)
    ensures |data| <= cfg.cap
  {
    AnswerIsCut(cfg, before, after);
    var w := ReachableOk(cfg, before);
    DoneIsEnding(cfg, w);
    DownChain(cfg, w);
    hide Run, Next, Inv, AfterReply;
    InvMeans(cfg, w);
    hide ClientOk, ServerOk, Channels;
    assert w.client.relay.rcv.link.got == [];
  }

  /** Both threads of the CLIENT go into their receives. */
  lemma ThreadsReceive(cfg: Config, events: seq<Event>, w: World) returns (events': seq<Event>, w': World)
    requires WellFormed(cfg.ifaces) && w == Run(cfg, NEW_WORLD, events) && w.client.phase.Relaying?
    requires SenderHasPassed(w.client.relay, []) && ReceiverHasPassed(w.client.relay, [])
    ensures w' == Run(cfg, NEW_WORLD, events') && w' == w.(client := w.client.(relay := w'.client.relay))
    ensures w'.client.relay.snd.pc.SReceiving?
    ensures w'.client.relay.rcv == w.client.relay.rcv.(pc := F.RReceiving)
  {
    hide Run, Admits, ClientHeaderStep, ClientUserStep, ClientPeerStep, ClientReplyStep, ServerHeaderStep,
      ServerUserStep, ServerConnectStep, ServerThreadStep;
    events', w' := Extend(cfg, events, w, ClientThreads(F.OfReceiver(F.RTest)));
    events', w' := Extend(cfg, events', w', ClientThreads(F.OfSender(F.STest)));
    events', w' := Extend(cfg, events', w', ClientThreads(F.OfSender(F.SPollReturns)));
  }

  /** And the sender sees the end of the application's stream. */
  lemma StreamEnds(cfg: Config, events: seq<Event>, w: World) returns (events': seq<Event>, w': World)
    requires WellFormed(cfg.ifaces) && w == Run(cfg, NEW_WORLD, events) && w.client.phase.Relaying?
    requires w.client.relay.snd.pc.SReceiving?
    ensures w' == Run(cfg, NEW_WORLD, events') && w' == w.(client := w.client.(relay := w'.client.relay))
    ensures w'.client.relay.snd.pc.SDone? && w'.client.relay.rcv == w.client.relay.rcv
  {
    hide Run, Admits, ClientHeaderStep, ClientUserStep, ClientPeerStep, ClientReplyStep, ServerHeaderStep,
      ServerUserStep, ServerConnectStep, ServerThreadStep;
    events', w' := Extend(cfg, events, w, ClientThreads(F.OfSender(F.SRecvEnds)));
    events', w' := Extend(cfg, events', w', ClientThreads(F.OfSender(F.SSetsFlag)));
  }

  lemma AnswerRun(cfg: Config, header: seq<Byte>, user: seq<Byte>, data: seq<Byte>)
      returns (before: seq<Event>, after: seq<Event>)
    requires WellFormed(cfg.ifaces) && Admissible(cfg, header) && NoNul(user) && |data| <= cfg.cap
    ensures GetsAnswer(cfg, before, after, header + user + [0], data)
  {
    hide Run, Next, Admits;
    var w;
    before, w := StartThreads(cfg, header, user);
    assert header + user + [0] + [] == header + user + [0];
    before, w := ThreadsReceive(cfg, before, w);
    before, w := StreamEnds(cfg, before, w);
    var events, t := before, w;
    if data != [] {
      events, t := ServerSends(cfg, events, t, [], data);
      assert [] + data == data;
      events, t := ClientPasses(cfg, events, t, [], data);
    }
    assert AfterReply(t) == data;
    after := events[|before|..];
    assert events == before + after;
    RunSplit(cfg, NEW_WORLD, before, after);
  }

  /** An application that ends its stream after the request, as `shutdown` of its writing side does, can get
      the whole answer of a destination that answers after that, in the best of all runs, if and only if the
      answer is not longer than one receive. */
  lemma LateAnswerIff(cfg: Config, header: seq<Byte>, user: seq<Byte>, data: seq<Byte>)
    requires WellFormed(cfg.ifaces) && Admissible(cfg, header) && NoNul(user)
    ensures (exists before, after :: GetsAnswer(cfg, before, after, header + user + [0], data)) <==> |data| <= cfg.cap
  {
    hide Admits, Run, GetsAnswer;
    if |data| <= cfg.cap {
      var before, after := AnswerRun(cfg, header, user, data);
    } else {
      forall before, after
        ensures !GetsAnswer(cfg, before, after, header + user + [0], data)
      {
        if GetsAnswer(cfg, before, after, header + user + [0], data) {
          AnswerFits(cfg, before, after, header + user + [0], data);
        }
      }
    }
  }
}
