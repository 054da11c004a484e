/**
  Which socket belongs to which device: the connections and socketToImei maps of the TCP server, under sockets
  that open, log in by a GT06 login or by their first HQ packet, and close.
*/
module TcpRegistry {
  import opened Prelude

  /** Sockets are objects; a number stands for the object's identity. */
  type Socket = nat

  datatype Note = Connected(socket: Socket, imei: string) | Disconnected(socket: Socket, imei: string)

  datatype Registry = Registry(
    imeiOf: map<Socket, string>,       // the open connections, and the IMEI of each ("" before login)
    connections: map<string, Socket>,
    socketToImei: map<Socket, string>,
    notes: seq<Note>,                  // connect and disconnect events, oldest first
    past: set<Socket>)                 // sockets that have closed

  const EMPTY := Registry(map[], map[], map[], [], {})

  datatype Event =
    | Open(socket: Socket)
    | Login(socket: Socket, imei: string)
    | HqPacket(socket: Socket, imei: string)
    | Close(socket: Socket)

  /** Sockets are opened once, and act only while they are open; a parsed IMEI is never empty. */
  predicate Enabled(r: Registry, e: Event) {
    match e
    case Open(s) => s !in r.imeiOf && s !in r.past
    case Login(s, imei) => s in r.imeiOf && imei != ""
    case HqPacket(s, imei) => s in r.imeiOf && imei != ""
    case Close(s) => s in r.imeiOf
  }

  function LoggedIn(r: Registry, s: Socket, imei: string): Registry {
    r.(imeiOf := r.imeiOf[s := imei], connections := r.connections[imei := s],
       socketToImei := r.socketToImei[s := imei], notes := r.notes + [Connected(s, imei)])
  }

  function Step(r: Registry, e: Event): Registry
    requires Enabled(r, e)
  {
    match e
    case Open(s) => r.(imeiOf := r.imeiOf[s := ""])
    case Login(s, imei) => LoggedIn(r, s, imei)
    case HqPacket(s, imei) => if r.imeiOf[s] == "" then LoggedIn(r, s, imei) else r
    case Close(s) =>
      var gone := r.(imeiOf := r.imeiOf - {s}, past := r.past + {s});
      if s in r.socketToImei && r.socketToImei[s] != "" then
        gone.(connections := r.connections - {r.socketToImei[s]}, socketToImei := r.socketToImei - {s},
              notes := r.notes + [Disconnected(s, r.socketToImei[s])])
      else gone
  }

  class TcpServer {
    var imeiOf: map<Socket, string>
    var connections: map<string, Socket>
    var socketToImei: map<Socket, string>
    var notes: seq<Note>
    var past: set<Socket>

    constructor ()
      ensures State() == EMPTY
    {
      imeiOf, connections, socketToImei, notes, past := map[], map[], map[], [], {};
    }

    function State(): Registry
      reads this
    {
      Registry(imeiOf, connections, socketToImei, notes, past)
    }

    method HandleConnection(socket: Socket)
      requires Enabled(State(), Open(socket))
      modifies this
      ensures State() == Step(old(State()), Open(socket))
    {
      imeiOf := imeiOf[socket := ""];
    }

    method HandleLoginPacket(socket: Socket, imei: string)
      requires Enabled(State(), Login(socket, imei))
      modifies this
      ensures State() == Step(old(State()), Login(socket, imei))
    {
      imeiOf := imeiOf[socket := imei];
      connections := connections[imei := socket];
      socketToImei := socketToImei[socket := imei];
      notes := notes + [Connected(socket, imei)];
    }

    method HandleHqRegistration(socket: Socket, imei: string)
      requires Enabled(State(), HqPacket(socket, imei))
      modifies this
      ensures State() == Step(old(State()), HqPacket(socket, imei))
    {
      if imeiOf[socket] == "" {
        imeiOf := imeiOf[socket := imei];
        connections := connections[imei := socket];
        socketToImei := socketToImei[socket := imei];
        notes := notes + [Connected(socket, imei)];
      }
    }

    method HandleDisconnect(socket: Socket)
      requires Enabled(State(), Close(socket))
      modifies this
      ensures State() == Step(old(State()), Close(socket))
    {
      imeiOf := imeiOf - {socket};
      past := past + {socket};
      if socket in socketToImei && socketToImei[socket] != "" {
        var imei := socketToImei[socket];
        connections := connections - {imei};
        socketToImei := socketToImei - {socket};
        notes := notes + [Disconnected(socket, imei)];
      }
    }

    /** Online means that a socket is logged in as the device, as long as the two maps are inverse to each other. */
    method IsDeviceOnline(imei: string) returns (online: bool)
      ensures online <==> imei in State().connections
      ensures SocketsKnown(State()) && MapsBack(State()) && online ==> exists s :: IsLoggedIn(State(), s, imei)
      ensures Inverse(State()) && imei != "" ==> (online <==> exists s :: IsLoggedIn(State(), s, imei))
    {
      online := imei in connections;
      if online {
        assert SocketsKnown(State()) && MapsBack(State()) ==> IsLoggedIn(State(), connections[imei], imei);
      }
    }

    /**
      The socket that was written to, if any: the device's own, unless a socket logged in under a second IMEI. A write
      may throw.
    */
    method SendCommand(imei: string, writeThrows: bool) returns (sent: bool, to: Option<Socket>)
      ensures sent <==> imei in State().connections && !writeThrows
      ensures sent <==> to.Some?
      ensures SocketsKnown(State()) && MapsBack(State()) && sent ==> IsLoggedIn(State(), to.value, imei)
      ensures Inverse(State()) && sent ==> forall s | IsLoggedIn(State(), s, imei) :: s == to.value
    {
      if imei !in connections || writeThrows {
        return false, None;
      }
      assert SocketsKnown(State()) && MapsBack(State()) ==> IsLoggedIn(State(), connections[imei], imei);
      return true, Some(connections[imei]);
    }
  }

  /** An open socket, logged in as the device. */
  predicate IsLoggedIn(r: Registry, s: Socket, imei: string) {
    s in r.imeiOf && r.imeiOf[s] == imei
  }

  // Invariants.

  /**
    An entry of socketToImei names an open socket whose connection has that IMEI, and every logged-in socket has one.
  */
  ghost predicate SocketsKnown(r: Registry) {
    && (forall s | s in r.socketToImei :: s in r.imeiOf && r.imeiOf[s] == r.socketToImei[s] != "")
    && (forall s | s in r.imeiOf && r.imeiOf[s] != "" :: s in r.socketToImei)
    && r.imeiOf.Keys !! r.past
  }

  lemma SocketsKnownPreserved(r: Registry, e: Event)
    requires SocketsKnown(r) && Enabled(r, e)
    ensures SocketsKnown(Step(r, e))
  {
  }

  /** Every entry of connections maps back through socketToImei. */
  ghost predicate MapsBack(r: Registry) {
    forall imei | imei in r.connections ::
      r.connections[imei] in r.socketToImei && r.socketToImei[r.connections[imei]] == imei
  }

  /** The event does not log a socket in under a second IMEI. */
  predicate SameImei(r: Registry, e: Event)
    requires Enabled(r, e)
  {
    e.Login? ==> r.imeiOf[e.socket] == "" || r.imeiOf[e.socket] == e.imei
  }

  lemma MapsBackPreserved(r: Registry, e: Event)
    requires SocketsKnown(r) && MapsBack(r) && Enabled(r, e) && SameImei(r, e)
    ensures MapsBack(Step(r, e))
  {
  }

  /** A command is written only to an open socket that is logged in as the device it is meant for. */
  lemma CommandReachesDevice(r: Registry, imei: string)
    requires SocketsKnown(r) && MapsBack(r) && imei in r.connections
    ensures r.connections[imei] in r.imeiOf && r.imeiOf[r.connections[imei]] == imei
  {
  }

  /** The two maps are inverse to each other, so that a device is online exactly when a socket is logged in as it. */
  ghost predicate Inverse(r: Registry) {
    && SocketsKnown(r) && MapsBack(r)
    && forall s | s in r.socketToImei :: r.socketToImei[s] in r.connections && r.connections[r.socketToImei[s]] == s
  }

  /** The event logs in a socket under an IMEI that another socket holds, or a socket that holds another IMEI. */
  predicate Collides(r: Registry, e: Event)
    requires Enabled(r, e)
  {
    match e
    case Login(s, imei) =>
      (imei in r.connections && r.connections[imei] != s) || (r.imeiOf[s] != "" && r.imeiOf[s] != imei)
    case HqPacket(s, imei) => r.imeiOf[s] == "" && imei in r.connections
    case _ => false
  }

  lemma CollisionBreaks(r: Registry, e: Event)
    requires Inverse(r) && Enabled(r, e) && Collides(r, e)
    ensures !Inverse(Step(r, e))
  {
    var r' := Step(r, e);
    if e.imei in r.connections && r.connections[e.imei] != e.socket {
      var other := r.connections[e.imei];
      assert other in r'.socketToImei && r'.socketToImei[other] == e.imei;
    } else {
      var before := r.imeiOf[e.socket];
      assert before in r'.connections && r'.connections[before] == e.socket;
    }
  }

  /** Exactly the colliding logins break the correspondence. */
  lemma InverseBrokenExactlyByCollision(r: Registry, e: Event)
    requires Inverse(r) && Enabled(r, e)
    ensures Inverse(Step(r, e)) <==> !Collides(r, e)
  {
    SocketsKnownPreserved(r, e);
    var r' := Step(r, e);
    if Collides(r, e) {
      CollisionBreaks(r, e);
    } else {
      MapsBackPreserved(r, e);
      hide SocketsKnown;
    }
  }

  // Whole runs.

  ghost predicate IsRun(r: Registry, events: seq<Event>)
    decreases |events|
  {
    events == [] || (Enabled(r, events[0]) && IsRun(Step(r, events[0]), events[1..]))
  }

  function Run(r: Registry, events: seq<Event>): Registry
    requires IsRun(r, events)
    decreases |events|
  {
    if events == [] then r else Run(Step(r, events[0]), events[1..])
  }

  /** No event of the run logs a socket in under a second IMEI. */
  ghost predicate OneImeiPerSocket(r: Registry, events: seq<Event>)
    requires IsRun(r, events)
    decreases |events|
  {
    events == [] || (SameImei(r, events[0]) && OneImeiPerSocket(Step(r, events[0]), events[1..]))
  }

  /** The disconnect events of socket s. */
  function Disconnects(notes: seq<Note>, s: Socket): nat {
    if notes == [] then 0
    else
      var last := notes[|notes| - 1];
      Disconnects(notes[..|notes| - 1], s) + (if last.Disconnected? && last.socket == s then 1 else 0)
  }

  /** Socket s has logged in at some time. */
  predicate EverConnected(notes: seq<Note>, s: Socket) {
    if notes == [] then false
    else
      var last := notes[|notes| - 1];
      EverConnected(notes[..|notes| - 1], s) || (last.Connected? && last.socket == s)
  }

  /** A socket that logged in has emitted one disconnect event if it has closed, and none otherwise. */
  ghost predicate DisconnectsOnce(r: Registry) {
    forall s: Socket ::
      && Disconnects(r.notes, s) == (if s in r.past && EverConnected(r.notes, s) then 1 else 0)
      && (EverConnected(r.notes, s) && s !in r.past <==> s in r.socketToImei)
  }

  lemma NotesMore(notes: seq<Note>, n: Note, s: Socket)
    ensures Disconnects(notes + [n], s) == Disconnects(notes, s) + (if n.Disconnected? && n.socket == s then 1 else 0)
    ensures EverConnected(notes + [n], s) == (EverConnected(notes, s) || (n.Connected? && n.socket == s))
  {
    assert (notes + [n])[..|notes|] == notes;
  }

  lemma DisconnectsOncePreserved(r: Registry, e: Event)
    requires SocketsKnown(r) && DisconnectsOnce(r) && Enabled(r, e)
    ensures DisconnectsOnce(Step(r, e))
  {
    hide Disconnects;
    hide EverConnected;
    var r' := Step(r, e);
    if r'.notes != r.notes {
      var n := r'.notes[|r.notes|];
      assert r'.notes == r.notes + [n];
      forall s: Socket
        ensures Disconnects(r'.notes, s) == Disconnects(r.notes, s)
                + (if n.Disconnected? && n.socket == s then 1 else 0)
        ensures EverConnected(r'.notes, s) == (EverConnected(r.notes, s) || (n.Connected? && n.socket == s))
      {
        NotesMore(r.notes, n, s);
      }
    }
  }

  ghost predicate Good(r: Registry) {
    SocketsKnown(r) && DisconnectsOnce(r)
  }

  lemma {:induction false} RunIsGood(r: Registry, events: seq<Event>)
    requires Good(r) && IsRun(r, events)
    ensures Good(Run(r, events))
    ensures MapsBack(r) && OneImeiPerSocket(r, events) ==> MapsBack(Run(r, events))
    decreases |events|
  {
    if events != [] {
      var e := events[0];
      SocketsKnownPreserved(r, e);
      DisconnectsOncePreserved(r, e);
      if MapsBack(r) && OneImeiPerSocket(r, events) {
        MapsBackPreserved(r, e);
      }
      hide Good;
      hide MapsBack;
      hide Step;
      GoodStep(r, e);
      RunIsGood(Step(r, e), events[1..]);
    }
  }

  lemma GoodStep(r: Registry, e: Event)
    requires Good(r) && Enabled(r, e)
    ensures Good(Step(r, e))
  {
    SocketsKnownPreserved(r, e);
    DisconnectsOncePreserved(r, e);
    hide SocketsKnown;
    hide DisconnectsOnce;
    hide Step;
  }

  // Who is online.

  /** Every logged-in socket's device is online. */
  ghost predicate AllOnline(r: Registry) {
    forall s | s in r.socketToImei :: r.socketToImei[s] in r.connections
  }

  /** The event closes a socket while another is logged in as the same device. */
  ghost predicate ClosesUnder(r: Registry, e: Event) {
    && e.Close? && e.socket in r.socketToImei
    && exists s :: s != e.socket && s in r.socketToImei && r.socketToImei[s] == r.socketToImei[e.socket]
  }

  /** A device with an open, logged-in socket goes offline exactly when another socket of the same device closes. */
  lemma OnlineBrokenExactly(r: Registry, e: Event)
    requires SocketsKnown(r) && AllOnline(r) && Enabled(r, e)
    ensures AllOnline(Step(r, e)) <==> !ClosesUnder(r, e)
  {
    var r' := Step(r, e);
    if ClosesUnder(r, e) {
      var s :| s != e.socket && s in r.socketToImei && r.socketToImei[s] == r.socketToImei[e.socket];
      assert s in r'.socketToImei && r'.socketToImei[s] !in r'.connections;
    }
  }

  /** No event of the run closes a socket under another one of its device. */
  ghost predicate NeverClosesUnder(r: Registry, events: seq<Event>)
    requires IsRun(r, events)
    decreases |events|
  {
    events == [] || (!ClosesUnder(r, events[0]) && NeverClosesUnder(Step(r, events[0]), events[1..]))
  }

  lemma {:induction false} EveryRunKeepsOnline(r: Registry, events: seq<Event>)
    requires SocketsKnown(r) && AllOnline(r) && IsRun(r, events) && NeverClosesUnder(r, events)
    ensures AllOnline(Run(r, events))
    decreases |events|
  {
    if events != [] {
      SocketsKnownPreserved(r, events[0]);
      OnlineBrokenExactly(r, events[0]);
      hide SocketsKnown, AllOnline, Step, Enabled, ClosesUnder;
      EveryRunKeepsOnline(Step(r, events[0]), events[1..]);
    }
  }

  /** No login of the run collides. */
  ghost predicate NeverCollides(r: Registry, events: seq<Event>)
    requires IsRun(r, events)
    decreases |events|
  {
    events == [] || (!Collides(r, events[0]) && NeverCollides(Step(r, events[0]), events[1..]))
  }

  /** Then the two maps stay inverse, and every device is online exactly while a socket is logged in as it. */
  lemma {:induction false} EveryRunKeepsInverse(r: Registry, events: seq<Event>)
    requires Inverse(r) && IsRun(r, events) && NeverCollides(r, events)
    ensures Inverse(Run(r, events))
    decreases |events|
  {
    if events != [] {
      InverseBrokenExactlyByCollision(r, events[0]);
      hide Inverse, Step, Enabled, Collides;
      EveryRunKeepsInverse(Step(r, events[0]), events[1..]);
    }
  }

  /** Every run from the empty registry. */
  lemma EveryRun(events: seq<Event>)
    requires IsRun(EMPTY, events)
    ensures SocketsKnown(Run(EMPTY, events)) && DisconnectsOnce(Run(EMPTY, events))
    ensures OneImeiPerSocket(EMPTY, events) ==> MapsBack(Run(EMPTY, events))
    ensures NeverClosesUnder(EMPTY, events) ==> AllOnline(Run(EMPTY, events))
    ensures NeverCollides(EMPTY, events) ==> Inverse(Run(EMPTY, events))
  {
    RunIsGood(EMPTY, events);
    if NeverClosesUnder(EMPTY, events) {
      EveryRunKeepsOnline(EMPTY, events);
    }
    if NeverCollides(EMPTY, events) {
      EveryRunKeepsInverse(EMPTY, events);
    }
    hide Run;
  }

  /** A device that reconnects before its old socket closes goes offline with the old socket. */
  lemma OverlappingReconnectGoesOffline(imei: string)
    requires imei != ""
    ensures var events := [Open(1), Login(1, imei), Open(2), Login(2, imei), Close(1)];
            && IsRun(EMPTY, events) && OneImeiPerSocket(EMPTY, events)
            && var r := Run(EMPTY, events);
               2 in r.imeiOf && r.imeiOf[2] == imei && imei !in r.connections
  {
    var e1, e2, e3, e4 := [Login(1, imei), Open(2), Login(2, imei), Close(1)], [Open(2), Login(2, imei), Close(1)],
                          [Login(2, imei), Close(1)], [Close(1)];
    var r1 := Step(EMPTY, Open(1));
    var r2 := Step(r1, Login(1, imei));
    var r3 := Step(r2, Open(2));
    var r4 := Step(r3, Login(2, imei));
    var r5 := Step(r4, Close(1));
    RunCons(r4, Close(1), []);
    RunCons(r3, Login(2, imei), e4);
    RunCons(r2, Open(2), e3);
    RunCons(r1, Login(1, imei), e2);
    RunCons(EMPTY, Open(1), e1);
    assert [Close(1)] + [] == e4 && [Login(2, imei)] + e4 == e3 && [Open(2)] + e3 == e2 && [Login(1, imei)] + e2 == e1;
    assert [Open(1)] + e1 == [Open(1), Login(1, imei), Open(2), Login(2, imei), Close(1)];
    assert imei !in r5.connections && r5.imeiOf[2] == imei;
  }

  lemma RunCons(r: Registry, e: Event, rest: seq<Event>)
    requires Enabled(r, e) && SameImei(r, e) && IsRun(Step(r, e), rest) && OneImeiPerSocket(Step(r, e), rest)
    ensures IsRun(r, [e] + rest) && OneImeiPerSocket(r, [e] + rest)
    ensures Run(r, [e] + rest) == Run(Step(r, e), rest)
  {
    hide Step;
    assert ([e] + rest)[1..] == rest;
  }

  // What the notes say.

  /** The IMEI under which socket s was last announced as connected. */
  function LastImei(notes: seq<Note>, s: Socket): Option<string> {
    if notes == [] then None
    else
      var last := notes[|notes| - 1];
      if last.Connected? && last.socket == s then Some(last.imei) else LastImei(notes[..|notes| - 1], s)
  }

  /** A disconnect event names the IMEI under which its socket was last announced. */
  ghost predicate DisconnectsNamed(notes: seq<Note>) {
    forall k | 0 <= k < |notes| && notes[k].Disconnected? ::
      LastImei(notes[..k], notes[k].socket) == Some(notes[k].imei)
  }

  /** The server's entry for a socket is what was last announced. */
  ghost predicate Announced(r: Registry) {
    && DisconnectsNamed(r.notes)
    && forall s | s in r.socketToImei :: LastImei(r.notes, s) == Some(r.socketToImei[s])
  }

  lemma LastImeiMore(notes: seq<Note>, n: Note, s: Socket)
    ensures LastImei(notes + [n], s) == if n.Connected? && n.socket == s then Some(n.imei) else LastImei(notes, s)
  {
    assert (notes + [n])[..|notes|] == notes;
  }

  lemma NamedMore(notes: seq<Note>, n: Note)
    requires DisconnectsNamed(notes) && (n.Disconnected? ==> LastImei(notes, n.socket) == Some(n.imei))
    ensures DisconnectsNamed(notes + [n])
  {
    var all := notes + [n];
    forall k | 0 <= k < |all| && all[k].Disconnected? ensures LastImei(all[..k], all[k].socket) == Some(all[k].imei) {
      if k < |notes| {
        assert all[..k] == notes[..k];
      } else {
        assert all[..k] == notes;
      }
    }
  }

  lemma AnnouncedPreserved(r: Registry, e: Event)
    requires Announced(r) && Enabled(r, e)
    ensures Announced(Step(r, e))
  {
    var r' := Step(r, e);
    if r'.notes != r.notes {
      var n := r'.notes[|r.notes|];
      assert r'.notes == r.notes + [n];
      NamedMore(r.notes, n);
      forall s | s in r'.socketToImei ensures LastImei(r'.notes, s) == Some(r'.socketToImei[s]) {
        LastImeiMore(r.notes, n, s);
      }
    }
  }

  /** In every run. */
  lemma {:induction false} EveryRunAnnounces(r: Registry, events: seq<Event>)
    requires Announced(r) && IsRun(r, events)
    ensures Announced(Run(r, events))
    decreases |events|
  {
    if events != [] {
      AnnouncedPreserved(r, events[0]);
      hide Announced, Step, Enabled;
      EveryRunAnnounces(Step(r, events[0]), events[1..]);
    }
  }
}
