/** The DoIP TCP server, proved to do exactly what the model says. */
module DoipServer {
  import opened Bytes
  import opened DoipFrame
  import opened DoipStream
  import opened DoipConnection
  import opened DoipRoutingTable
  import D = DoipDelivery
  import M = DoipModel

  class DoipServer {
    const cfg: M.Config
    const routing: DoipRoutingTable
    var connections: map<nat, DoipConnection>
    var channels: map<nat, M.Channel>
    var log: seq<M.Event>  // everything handed to the sockets and to the UDS server

    /** Each socket has a connection object of its own. */
    ghost predicate Valid()
      reads this`connections
    {
      forall f, g :: f in connections && g in connections && f != g ==> connections[f] != connections[g]
    }

    ghost function Views(): (views: map<nat, M.Connection>)
      reads this`connections, connections.Values
      ensures views.Keys == connections.Keys
      ensures forall fd :: fd in connections ==> views[fd] == connections[fd].View()
    {
      map fd | fd in connections :: connections[fd].View()
    }

    ghost function Model(): M.Server
      reads this, routing, connections.Values
    {
      M.Server(Views(), routing.View(), channels, log)
    }

    /** Only one connection object was written, so only its entry of the views moved. */
    twostate lemma OneWritten(fd: nat)
      requires old(Valid()) && connections == old(connections) && fd in connections
      requires forall g :: g in connections && g != fd ==> unchanged(connections[g])
      ensures Views() == old(Views())[fd := connections[fd].View()]
    {
    }

    constructor (cfg: M.Config)
      ensures Valid() && this.cfg == cfg && Model() == M.INIT
    {
      this.cfg := cfg;
      routing := new DoipRoutingTable();
      connections, channels, log := map[], map[], [];
    }

    method SendFrame(fd: nat, payloadType: nat, payload: seq<Byte>, now: int)
      modifies this`log
      ensures log == old(log) + M.SendEvents(fd, now, payloadType, payload)
    {
      var buf := new Byte[HEADER_SIZE + M.SEND_BUFFER_PAYLOAD](_ => 0);
      var total := BuildFrame(buf, payloadType, payload);
      if total == 0 {
        return;
      }
      assert buf[..total] == FrameBytes(payloadType, payload);
      log := log + [M.Sent(fd, now, buf[..total])];
    }

    method RequestClose(fd: nat, now: int)
      modifies this`log
      ensures log == old(log) + [M.Shutdown(fd, now)]
    {
      log := log + [M.Shutdown(fd, now)];
    }

    method SendGenericNack(fd: nat, code: Byte, now: int)
      modifies this`log
      ensures log == old(log) + M.Nack(fd, now, code)
    {
      SendFrame(fd, GENERIC_NACK, [code], now);
    }

    method SendRoutingActivationResponse(fd: nat, tester: nat, code: Byte, now: int)
      modifies this`log
      ensures log == old(log) + M.RoutingResponse(cfg, fd, now, tester, code)
    {
      SendFrame(fd, ROUTING_ACTIVATION_RESPONSE, Be16(tester) + Be16(cfg.logicalAddress) + [code, 0, 0, 0, 0], now);
    }

    method SendDiagNack(fd: nat, code: Byte, source: nat, target: nat, now: int)
      modifies this`log
      ensures log == old(log) + M.DiagNack(fd, now, code, source, target)
    {
      SendFrame(fd, DIAG_MESSAGE_NEGATIVE_ACK, Be16(source) + Be16(target) + [code], now);
    }

    method HandleVehicleIdentification(fd: nat, f: Frame, now: int)
      modifies this`log
      ensures log == old(log) + M.IdentificationEvents(cfg, fd, f, now)
    {
      if f.payloadType == VEHICLE_IDENTIFICATION_REQUEST_EID {
        if |f.payload| < |cfg.eid| || f.payload[..|cfg.eid|] != cfg.eid {
          return;
        }
      } else if f.payloadType == VEHICLE_IDENTIFICATION_REQUEST_VIN {
        if |f.payload| < |cfg.vin| || f.payload[..|cfg.vin|] != cfg.vin {
          return;
        }
      }
      SendFrame(fd, VEHICLE_ANNOUNCEMENT,
                cfg.vin + Be16(cfg.logicalAddress) + cfg.eid + cfg.gid + [cfg.furtherAction], now);
    }

    method RefuseActivation(fd: nat, tester: nat, code: Byte, now: int)
      modifies this`log
      ensures log == old(log) + (M.RoutingResponse(cfg, fd, now, tester, code) + [M.Shutdown(fd, now)])
    {
      SendRoutingActivationResponse(fd, tester, code, now);
      RequestClose(fd, now);
    }

    method ActivateConnection(fd: nat, tester: nat, kind: Byte, now: int)
      requires Valid() && fd in connections
      modifies connections[fd]
      ensures Views() == old(Views())[fd := M.GrantConnection(cfg, old(Views()[fd]), tester, kind, now)]
    {
      hide Views;
      var conn := connections[fd];
      conn.SetRoutingActive(tester, kind);
      conn.ArmGeneralInactivity(cfg.generalInactivity, now);
      OneWritten(fd);
    }

    method GrantActivation(fd: nat, tester: nat, kind: Byte, now: int)
      requires Valid() && fd in connections
      modifies this`channels, routing, connections[fd]
      ensures Valid() && Model() == M.Grant(cfg, old(Model()), fd, tester, kind, now)
    {
      hide Views, Activate, Valid, M.GrantConnection, DoipRoutingTable.View;
      ghost var views := Views();
      routing.ActivateRoute(fd, tester);
      channels := channels[fd := M.Channel(fd, tester)];
      assert Views() == views;
      ActivateConnection(fd, tester, kind, now);
      assert Views() == views[fd := M.GrantConnection(cfg, views[fd], tester, kind, now)];
    }

    method JudgeActivation(fd: nat, tester: nat, kind: Byte) returns (code: Byte)
      requires fd in connections
      ensures code == M.RoutingVerdict(cfg, Model(), fd, tester, kind)
    {
      hide Views;
      var conn := connections[fd];
      if conn.RoutingActive() && conn.testerAddress != tester {
        return M.ROUTING_DIFFERENT_SOURCE;
      }
      var activeFd := routing.FdFor(tester);
      if activeFd >= 0 && activeFd != fd {
        return M.ROUTING_SOURCE_ALREADY_ACTIVE;
      }
      if !conn.RoutingActive() && routing.AtCapacity(cfg.maxOpenSockets) {
        return M.ROUTING_ALL_SOCKETS_ACTIVE;
      }
      if kind != 0 {
        return M.ROUTING_UNSUPPORTED_TYPE;
      }
      return M.ROUTING_SUCCESS;
    }

    method HandleRoutingActivation(fd: nat, payload: seq<Byte>, now: int)
      requires Valid()
      modifies this`channels, this`log, routing, connections.Values
      ensures Valid() && Model() == M.HandleRoutingActivation(cfg, old(Model()), fd, payload, now)
    {
      hide FromBe16, M.Nack, M.RoutingResponse, M.Grant, M.RoutingVerdict, Views, Valid;
      if |payload| != 7 && |payload| != 11 {
        SendGenericNack(fd, M.NACK_INVALID_LENGTH, now);
        return;
      }
      var tester := FromBe16(payload[..2]);
      if fd !in connections {
        return;
      }
      var code := JudgeActivation(fd, tester, payload[2]);
      if code != M.ROUTING_SUCCESS {
        RefuseActivation(fd, tester, code, now);
        return;
      }
      GrantActivation(fd, tester, payload[2], now);
      SendRoutingActivationResponse(fd, tester, code, now);
    }

    method ClearAlive(fd: nat, now: int)
      requires Valid() && fd in connections
      modifies connections[fd]
      ensures Views() == old(Views())[fd := old(connections[fd].View()).(
        alivePending := false, aliveSentAt := 0, generalDeadline := now + cfg.generalInactivity)]
    {
      hide Views;
      var conn := connections[fd];
      conn.ClearAliveCheck();
      conn.ArmGeneralInactivity(cfg.generalInactivity, now);
      OneWritten(fd);
    }

    method HandleAliveCheck(fd: nat, now: int)
      requires Valid()
      modifies this`log, connections.Values
      ensures Valid() && Model() == M.HandleAliveCheck(cfg, old(Model()), fd, now)
    {
      hide M.SendEvents, FrameBytes, Be16, Views, Valid;
      if fd in connections {
        ClearAlive(fd, now);
      }
      SendFrame(fd, ALIVE_CHECK_RESPONSE, Be16(cfg.logicalAddress), now);
    }

    method HandleDiagMessage(fd: nat, payload: seq<Byte>, now: int)
      requires Valid()
      modifies this`log
      ensures log == old(log) + M.DiagEvents(cfg, old(Model()), fd, payload, now)
    {
      if fd !in connections || !connections[fd].RoutingActive() {
        return;
      }
      if !cfg.udsAttached {
        return;
      }
      if |payload| < 5 {
        SendGenericNack(fd, M.NACK_INVALID_LENGTH, now);
        return;
      }
      var source, target := FromBe16(payload[..2]), FromBe16(payload[2..4]);
      if source != connections[fd].testerAddress {
        SendDiagNack(fd, M.DIAG_INVALID_SOURCE, target, source, now);
        return;
      }
      var physical := target == cfg.logicalAddress;
      if !physical && target !in cfg.functionalAddresses {
        SendDiagNack(fd, M.DIAG_UNKNOWN_TARGET, target, source, now);
        return;
      }
      if |payload| - 4 > cfg.maxDataSize {
        SendDiagNack(fd, M.DIAG_TOO_LARGE, target, source, now);
        return;
      }
      if fd !in channels {
        return;
      }
      log := log + [M.Indicated(fd, now, source, target, physical, payload[4..])];
    }

    /** The payload types that leave the tables alone. */
    method AnswerFrame(fd: nat, f: Frame, now: int)
      requires Valid()
      modifies this`log
      ensures log == old(log) + M.Answer(cfg, old(Model()), fd, f, now)
    {
      hide FrameBytes, FromBe16, M.SendEvents, M.DiagEvents, M.IdentificationEvents, Views, Valid;
      if M.IdentificationRequest(f.payloadType) {
        HandleVehicleIdentification(fd, f, now);
      } else if f.payloadType == ENTITY_STATUS_REQUEST {
        SendFrame(fd, ENTITY_STATUS_RESPONSE,
                  [cfg.nodeType, cfg.maxOpenSockets, routing.ActiveCount() % 256] + Be32(cfg.maxDataSize), now);
      } else if f.payloadType == POWER_MODE_REQUEST {
        SendFrame(fd, POWER_MODE_RESPONSE, [cfg.powerMode], now);
      } else if f.payloadType == DIAG_MESSAGE {
        HandleDiagMessage(fd, f.payload, now);
      } else {
        SendGenericNack(fd, M.NACK_UNSUPPORTED_TYPE, now);
      }
    }

    method Dispatch(fd: nat, f: Frame, now: int)
      requires Valid()
      modifies this`channels, this`log, routing, connections.Values
      ensures Valid() && Model() == M.Dispatch(cfg, old(Model()), fd, f, now)
    {
      hide M.HandleRoutingActivation, M.HandleAliveCheck, M.Answer, Views, Valid;
      log := log + [M.Received(fd, now, f)];
      if f.payloadType == ROUTING_ACTIVATION_REQUEST {
        HandleRoutingActivation(fd, f.payload, now);
      } else if f.payloadType == ALIVE_CHECK_REQUEST {
        HandleAliveCheck(fd, now);
      } else {
        AnswerFrame(fd, f, now);
      }
    }

    /** One turn of the reassembly loop moves the first frame from the buffer into the tables. */
    lemma DrainTurn(s: M.Server, t: M.Server, fd: nat, now: int)
      requires fd in s.conns && Classify(s.conns[fd].rx).Complete? && fd in t.conns
      requires var f := Classify(s.conns[fd].rx).frame;
        t == M.Dispatch(cfg, M.SetRx(s, fd, s.conns[fd].rx[HEADER_SIZE + |f.payload|..]), fd, f, now)
      ensures Parse(t.conns[fd].rx).rest == Parse(s.conns[fd].rx).rest
      ensures Goal(t, fd, now) == Goal(s, fd, now)
    {
      hide Classify, M.Dispatch;
      var f := Classify(s.conns[fd].rx).frame;
      var tail := s.conns[fd].rx[HEADER_SIZE + |f.payload|..];
      var rest := Parse(tail).rest;
      D.DispatchLog(cfg, M.SetRx(s, fd, tail), fd, f, now);
      D.DispatchSetRx(cfg, M.SetRx(s, fd, tail), fd, f, now, rest);
      assert M.SetRx(M.SetRx(s, fd, tail), fd, rest) == M.SetRx(s, fd, rest);
    }

    /** The tables once every complete frame of the buffer has been dispatched. */
    ghost function Goal(s: M.Server, fd: nat, now: int): M.Server
      requires fd in s.conns
    {
      var parsed := Parse(s.conns[fd].rx);
      M.DispatchAll(cfg, M.SetRx(s, fd, parsed.rest), fd, parsed.frames, now)
    }

    lemma GoalDrain(s: M.Server, fd: nat, now: int)
      requires fd in s.conns
      ensures M.Drain(cfg, s, fd, now)
           == M.Log(Goal(s, fd, now), M.Reject(fd, Classify(Parse(s.conns[fd].rx).rest), now))
    {
      hide Parse, Classify, M.DispatchAll;
    }

    lemma GoalReached(s: M.Server, fd: nat, now: int)
      requires fd in s.conns && !Classify(s.conns[fd].rx).Complete?
      ensures Goal(s, fd, now) == s && Parse(s.conns[fd].rx).rest == s.conns[fd].rx
    {
      hide Classify;
    }

    method OpenConnection(fd: nat, now: int) returns (conn: DoipConnection)
      requires Valid() && fd !in connections
      modifies this`connections
      ensures Valid() && fresh(conn) && connections == old(connections)[fd := conn]
      ensures conn.View() == M.FRESH.(initialDeadline := now + cfg.initialInactivity)
      ensures Views() == old(Views())[fd := M.FRESH.(initialDeadline := now + cfg.initialInactivity)]
    {
      conn := new DoipConnection();
      conn.ArmInitialInactivity(cfg.initialInactivity, now);
      connections := connections[fd := conn];
    }

    method Feed(fd: nat, conn: DoipConnection, data: seq<Byte>, now: int)
      requires Valid() && fd in connections && connections[fd] == conn
      modifies conn
      ensures Views() == old(Views())[fd := M.Feed(cfg, old(conn.View()), data, now)]
    {
      hide Views;
      conn.Append(data);
      conn.Touch(cfg.generalInactivity, now);
      OneWritten(fd);
    }

    /** Finds or opens the connection of a socket and feeds it a chunk. */
    method Receive(fd: nat, data: seq<Byte>, now: int) returns (conn: DoipConnection)
      requires Valid()
      modifies this`connections, connections.Values
      ensures Valid() && connections == old(connections)[fd := conn]
      ensures Views() == M.Receive(cfg, old(Model()), fd, data, now).conns
      ensures if fd in old(connections) then conn == old(connections[fd]) else fresh(conn)
    {
      hide Views, M.Feed, Valid, DoipConnection.View, FrameBytes;
      ghost var views := Views();
      if fd in connections {
        conn := connections[fd];
      } else {
        conn := OpenConnection(fd, now);
      }
      ghost var found := conn.View();
      Feed(fd, conn, data, now);
      assert Views() == views[fd := M.Feed(cfg, found, data, now)];
    }

    method RejectHeader(fd: nat, code: Byte, now: int)
      modifies this`log
      ensures log == old(log) + (M.Nack(fd, now, code) + [M.Shutdown(fd, now)])
    {
      SendGenericNack(fd, code, now);
      RequestClose(fd, now);
    }

    /** Takes a complete first frame out of the buffer and dispatches it. */
    method TakeFrame(fd: nat, conn: DoipConnection, now: int)
      requires Valid() && fd in connections && connections[fd] == conn && Classify(conn.rx).Complete?
      modifies this`channels, this`log, routing, connections.Values
      ensures Valid() && fd in old(Model()).conns && conn.View() == Model().conns[fd] && |conn.rx| < |old(conn.rx)|
      ensures Goal(Model(), fd, now) == Goal(old(Model()), fd, now)
      ensures Parse(conn.rx).rest == Parse(old(conn.rx)).rest
    {
      hide Classify, FrameBytes, M.Dispatch, Goal, Parse, Views;
      ghost var s := Model();
      var frame := conn.NextFrame();
      var consumed := conn.NextFrameTotal();
      conn.Consume(consumed);
      assert conn.rx == s.conns[fd].rx[consumed..];
      OneWritten(fd);
      assert Model() == M.SetRx(s, fd, conn.rx);
      D.DispatchLog(cfg, Model(), fd, frame.value, now);
      Dispatch(fd, frame.value, now);
      DrainTurn(s, Model(), fd, now);
    }

    /** One turn of the reassembly loop; more says whether there is another. */
    method ProcessFront(fd: nat, conn: DoipConnection, now: int) returns (more: bool)
      requires Valid() && fd in connections && connections[fd] == conn
      modifies this`channels, this`log, routing, connections.Values
      ensures Valid() && conn.View() == Model().conns[fd] && more == Classify(old(conn.rx)).Complete?
      ensures more ==>
        && |conn.rx| < |old(conn.rx)| && Parse(conn.rx).rest == Parse(old(conn.rx)).rest
        && fd in old(Model()).conns && Goal(Model(), fd, now) == Goal(old(Model()), fd, now)
      ensures !more ==> Model() == M.Log(old(Model()), M.Reject(fd, Classify(old(conn.rx)), now))
    {
      hide Goal, M.Nack, Parse, Views, Valid;
      var header := conn.PeekHeader();
      if header.None? {
        return false;
      }
      if header.value.version != PROTOCOL_VERSION || header.value.inverseVersion != 255 - header.value.version {
        RejectHeader(fd, M.NACK_INVALID_PROTOCOL, now);
        return false;
      }
      if header.value.payloadLength > MAX_PAYLOAD_LENGTH {
        RejectHeader(fd, M.NACK_TOO_LARGE, now);
        return false;
      }
      var frame := conn.NextFrame();
      if frame.None? {
        return false;
      }
      TakeFrame(fd, conn, now);
      return true;
    }

    /** The reassembly loop. */
    method DrainBuffer(fd: nat, conn: DoipConnection, now: int)
      requires Valid() && fd in connections && connections[fd] == conn
      modifies this`channels, this`log, routing, connections.Values
      ensures Valid() && Model() == M.Drain(cfg, old(Model()), fd, now)
    {
      hide Goal, M.Reject, M.Drain, M.DispatchAll, Classify, Parse, Views, Valid;
      ghost var received := Model();
      GoalDrain(received, fd, now);
      var more := true;
      while more
        invariant Valid() && conn.View() == Model().conns[fd]
        invariant more ==> Goal(Model(), fd, now) == Goal(received, fd, now)
        invariant more ==> Parse(conn.rx).rest == Parse(received.conns[fd].rx).rest
        invariant !more ==> Model() == M.Drain(cfg, received, fd, now)
        decreases more, |conn.rx|
      {
        if !Classify(conn.rx).Complete? { GoalReached(Model(), fd, now); }
        more := ProcessFront(fd, conn, now);
      }
    }

    method OnData(fd: nat, data: seq<Byte>, now: int)
      requires Valid()
      modifies this, routing, connections.Values
      ensures Valid() && Model() == M.OnData(cfg, old(Model()), fd, data, now)
      ensures fd in connections && connections == old(connections)[fd := connections[fd]]
      ensures fd in old(connections) || fresh(connections[fd])
    {
      hide M.Receive, M.Drain, Views, Valid;
      var conn := Receive(fd, data, now);
      DrainBuffer(fd, conn, now);
    }

    /** Without one entry of the table, the views lack that entry and nothing else. */
    twostate lemma OneRemoved(fd: nat)
      requires old(Valid()) && connections == Without(old(connections), fd)
      requires forall g :: g in connections ==> unchanged(connections[g])
      ensures Valid() && Views() == Without(old(Views()), fd)
    {
    }

    method RemoveEntries(fd: nat)
      modifies this`channels, this`connections
      ensures channels == Without(old(channels), fd) && connections == Without(old(connections), fd)
    {
      channels := map g | g in channels && g != fd :: channels[g];
      connections := map g | g in connections && g != fd :: connections[g];
    }

    method EraseClient(fd: nat, now: int)
      requires Valid()
      modifies this, routing
      ensures connections == Without(old(connections), fd)
      ensures Valid() && Model() == M.Erase(old(Model()), fd, now)
    {
      hide Views, Valid, DeactivateFd;
      routing.Deactivate(fd);
      RemoveEntries(fd);
      log := log + [M.Closed(fd, now)];
      OneRemoved(fd);
    }

    /** Looks at one connection during a tick. */
    method Inspect(fd: nat, now: int) returns (close: bool)
      requires Valid() && fd in connections
      modifies this`log, connections[fd]
      ensures close == (M.Judge(cfg, old(Views())[fd], now) == M.Close)
      ensures Views() == old(Views())[fd := M.TickConnection(cfg, old(Views())[fd], now)]
      ensures log == old(log) + M.CheckEvents(cfg, old(Views())[fd], fd, now)
    {
      hide Views, FrameBytes;
      var conn := connections[fd];
      close := false;
      if !conn.RoutingActive() && conn.InitialInactivityExpired(now) {
        close := true;
      } else if conn.RoutingActive() && conn.AliveTimeout(cfg.aliveCheckTimeout, now) {
        close := true;
      } else if conn.RoutingActive() && conn.GeneralInactivityExpired(now) && !conn.alivePending {
        SendFrame(fd, ALIVE_CHECK_REQUEST, [], now);
        conn.ArmAliveCheck(cfg.aliveCheckTimeout, now);
      }
      OneWritten(fd);
    }

    ghost function Visited(views: map<nat, M.Connection>, left: set<nat>, now: int): map<nat, M.Connection> {
      map fd | fd in views :: if fd in left then views[fd] else M.TickConnection(cfg, views[fd], now)
    }

    /** What visiting one more connection adds. */
    lemma VisitOne(before: map<nat, M.Connection>, order: seq<nat>, left: set<nat>, fd: nat, now: int)
      requires fd in left && left <= before.Keys && M.Enumerates(order, before.Keys - left)
      ensures M.Enumerates(order + [fd], before.Keys - (left - {fd}))
      ensures Visited(before, left, now)[fd] == before[fd]
      ensures Visited(before, left - {fd}, now)
           == Visited(before, left, now)[fd := M.TickConnection(cfg, before[fd], now)]
      ensures M.AliveChecks(cfg, before, order + [fd], now) == M.AliveChecks(cfg, before, order, now) +
        M.CheckEvents(cfg, before[fd], fd, now)
      ensures M.Closing(cfg, before, order + [fd], now) == M.Closing(cfg, before, order, now) +
        if M.Judge(cfg, before[fd], now) == M.Close then [fd] else []
    {
      hide FrameBytes, M.Judge, M.TickConnection;
      assert (order + [fd])[..|order|] == order;
    }

    lemma VisitAll(s: M.Server, order: seq<nat>, now: int)
      ensures Visited(s.conns, s.conns.Keys, now) == s.conns
      ensures M.Tick(cfg, s, order, now) == M.Log(s.(conns := Visited(s.conns, {}, now)),
        M.AliveChecks(cfg, s.conns, order, now) + M.Shutdowns(M.Closing(cfg, s.conns, order, now), now))
    {
      hide M.Judge, M.TickConnection, M.AliveChecks, M.Closing;
    }

    static lemma Regroup(a: seq<M.Event>, b: seq<M.Event>, c: seq<M.Event>)
      ensures a + b + c == a + (b + c)
    {
    }

    /** The visiting loop of a tick; order is the order in which the table happens to be visited. */
    method InspectAll(now: int) returns (order: seq<nat>, toClose: seq<nat>)
      requires Valid()
      modifies this`log, connections.Values
      ensures M.Enumerates(order, connections.Keys)
      ensures Views() == Visited(old(Views()), {}, now)
      ensures log == old(log) + M.AliveChecks(cfg, old(Views()), order, now)
      ensures toClose == M.Closing(cfg, old(Views()), order, now)
    {
      ghost var before, sent, keys := Views(), log, connections.Keys;
      VisitAll(Model(), [], now);
      order, toClose := [], [];
      var left := connections.Keys;
      assert keys - left == {};
      hide Views, FrameBytes, M.CheckEvents, M.Judge, M.TickConnection, Valid, Visited;
      while left != {}
        invariant left <= keys
        invariant M.Enumerates(order, keys - left)
        invariant Valid() && Views() == Visited(before, left, now)
        invariant log == sent + M.AliveChecks(cfg, before, order, now)
        invariant toClose == M.Closing(cfg, before, order, now)
        decreases left
      {
        hide M.Enumerates, M.AliveChecks, M.Closing;
        var fd :| fd in left;
        VisitOne(before, order, left, fd, now);
        ghost var checks, more := M.AliveChecks(cfg, before, order, now), M.CheckEvents(cfg, before[fd], fd, now);
        order := order + [fd];
        var close := Inspect(fd, now);
        Regroup(sent, checks, more);
        if close {
          toClose := toClose + [fd];
        }
        left := left - {fd};
      }
      assert keys - left == keys;
    }

    method MaintainConnections(now: int) returns (order: seq<nat>)
      requires Valid()
      modifies this`log, connections.Values
      ensures M.Enumerates(order, connections.Keys)
      ensures Valid() && Model() == M.Tick(cfg, old(Model()), order, now)
    {
      hide Views, M.AliveChecks, M.Closing, Valid, Visited, M.Enumerates;
      var toClose;
      order, toClose := InspectAll(now);
      CloseAll(toClose, now);
      VisitAll(old(Model()), order, now);
    }

    method CloseAll(fds: seq<nat>, now: int)
      modifies this`log
      ensures log == old(log) + M.Shutdowns(fds, now)
    {
      for i := 0 to |fds|
        invariant log == old(log) + M.Shutdowns(fds, now)[..i]
      {
        RequestClose(fds[i], now);
      }
    }
  }
}
