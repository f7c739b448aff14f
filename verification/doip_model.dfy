/** The DoIP server as a value: its four containers, its event log, and what each event does to them.
    Times are milliseconds of one monotone clock. */
module DoipModel {
  import opened Bytes
  import opened DoipFrame
  import opened DoipStream
  import opened DoipRoutingTable

  /** The vehicle identity and timer configuration. */
  datatype Config = Config(
    vin: seq<Byte>, logicalAddress: nat, eid: seq<Byte>, gid: seq<Byte>, furtherAction: Byte,
    nodeType: Byte, maxOpenSockets: Byte, maxDataSize: nat, powerMode: Byte,
    initialInactivity: nat, generalInactivity: nat, aliveCheckTimeout: nat,
    functionalAddresses: set<nat>, udsAttached: bool)

  datatype ConnectionState = Initialized | Authentication | Confirmation | Active | Finalize

  datatype Connection = Connection(
    rx: seq<Byte>, state: ConnectionState, tester: nat, activationType: Byte,
    initialDeadline: int, generalDeadline: int, aliveSentAt: int, alivePending: bool)
  {
    predicate IsActive() { state == Active }
  }

  datatype Channel = Channel(fd: nat, sourceAddress: nat)

  /** Everything the outside can see, with the time it happened. */
  datatype Event =
    | Received(fd: nat, at: int, frame: Frame)
    | Sent(fd: nat, at: int, bytes: seq<Byte>)
    | Shutdown(fd: nat, at: int)
    | Indicated(fd: nat, at: int, source: nat, target: nat, physical: bool, body: seq<Byte>)
    | Closed(fd: nat, at: int)

  datatype Server = Server(
    conns: map<nat, Connection>,
    routing: Routing,
    channels: map<nat, Channel>,
    log: seq<Event>)

  const FRESH := Connection([], Initialized, 0, 0, 0, 0, 0, false)
  const INIT := Server(map[], EMPTY, map[], [])

  // Generic header negative acknowledgement codes.
  const NACK_INVALID_PROTOCOL: Byte := 0x00
  const NACK_UNSUPPORTED_TYPE: Byte := 0x01
  const NACK_TOO_LARGE: Byte := 0x02
  const NACK_INVALID_LENGTH: Byte := 0x04

  // Routing activation response codes.
  const ROUTING_ALL_SOCKETS_ACTIVE: Byte := 0x01
  const ROUTING_DIFFERENT_SOURCE: Byte := 0x02
  const ROUTING_SOURCE_ALREADY_ACTIVE: Byte := 0x03
  const ROUTING_UNSUPPORTED_TYPE: Byte := 0x06
  const ROUTING_SUCCESS: Byte := 0x10

  // Diagnostic message negative acknowledgement codes.
  const DIAG_INVALID_SOURCE: Byte := 0x02
  const DIAG_UNKNOWN_TARGET: Byte := 0x03
  const DIAG_TOO_LARGE: Byte := 0x04

  const SEND_BUFFER_PAYLOAD := 4096

  // Log entries.

  const ALIVE_CHECK := FrameBytes(ALIVE_CHECK_REQUEST, [])

  predicate IsAliveCheck(e: Event) {
    e.Sent? && e.bytes == ALIVE_CHECK
  }

  /** send_frame builds into a fixed buffer and drops what does not fit. */
  function SendEvents(fd: nat, now: int, payloadType: nat, payload: seq<Byte>): (es: seq<Event>)
    ensures forall e :: e in es ==> e.Sent? && e.fd == fd && e.at == now
    ensures payloadType < U16 && payloadType != ALIVE_CHECK_REQUEST ==> forall e :: e in es ==> !IsAliveCheck(e)
  {
    assert FrameBytes(payloadType, payload)[2..4] == Be16(payloadType);
    assert ALIVE_CHECK[2..4] == Be16(ALIVE_CHECK_REQUEST);
    if |payload| > SEND_BUFFER_PAYLOAD then [] else [Sent(fd, now, FrameBytes(payloadType, payload))]
  }

  function Nack(fd: nat, now: int, code: Byte): seq<Event> {
    SendEvents(fd, now, GENERIC_NACK, [code])
  }

  function RoutingResponse(cfg: Config, fd: nat, now: int, tester: nat, code: Byte): seq<Event> {
    SendEvents(fd, now, ROUTING_ACTIVATION_RESPONSE,
               Be16(tester) + Be16(cfg.logicalAddress) + [code, 0, 0, 0, 0])
  }

  function DiagNack(fd: nat, now: int, code: Byte, source: nat, target: nat): seq<Event> {
    SendEvents(fd, now, DIAG_MESSAGE_NEGATIVE_ACK, Be16(source) + Be16(target) + [code])
  }

  function Announcement(cfg: Config, fd: nat, now: int): seq<Event> {
    SendEvents(fd, now, VEHICLE_ANNOUNCEMENT,
               cfg.vin + Be16(cfg.logicalAddress) + cfg.eid + cfg.gid + [cfg.furtherAction])
  }

  function Log(s: Server, es: seq<Event>): Server {
    s.(log := s.log + es)
  }

  function SetRx(s: Server, fd: nat, rx: seq<Byte>): Server
    requires fd in s.conns
  {
    s.(conns := s.conns[fd := s.conns[fd].(rx := rx)])
  }

  // Handlers, one per payload type.

  /** The code a routing activation request is answered with, by the tests in the order the server makes them. */
  function RoutingVerdict(cfg: Config, s: Server, fd: nat, tester: nat, activationType: Byte): Byte
    requires fd in s.conns
  {
    if s.conns[fd].IsActive() && s.conns[fd].tester != tester then ROUTING_DIFFERENT_SOURCE
    else if tester in s.routing.addressToFd && s.routing.addressToFd[tester] != fd then ROUTING_SOURCE_ALREADY_ACTIVE
    else if !s.conns[fd].IsActive() && |s.routing.addressToFd| >= cfg.maxOpenSockets then ROUTING_ALL_SOCKETS_ACTIVE
    else if activationType != 0 then ROUTING_UNSUPPORTED_TYPE
    else ROUTING_SUCCESS
  }

  function GrantConnection(cfg: Config, conn: Connection, tester: nat, activationType: Byte, now: int): Connection {
    conn.(state := Active, tester := tester, activationType := activationType,
          generalDeadline := now + cfg.generalInactivity)
  }

  /** The socket becomes the route of the tester. */
  function Grant(cfg: Config, s: Server, fd: nat, tester: nat, activationType: Byte, now: int): Server
    requires fd in s.conns
  {
    s.(conns := s.conns[fd := GrantConnection(cfg, s.conns[fd], tester, activationType, now)],
       routing := Activate(s.routing, fd, tester),
       channels := s.channels[fd := Channel(fd, tester)])
  }

  predicate ActivationLength(n: nat) {
    n == 7 || n == 11
  }

  function HandleRoutingActivation(cfg: Config, s: Server, fd: nat, payload: seq<Byte>, now: int): (t: Server)
    ensures t.conns.Keys == s.conns.Keys
  {
    if !ActivationLength(|payload|) then Log(s, Nack(fd, now, NACK_INVALID_LENGTH))
    else if fd !in s.conns then s
    else
      var tester := FromBe16(payload[..2]);
      var code := RoutingVerdict(cfg, s, fd, tester, payload[2]);
      if code != ROUTING_SUCCESS then
        Log(s, RoutingResponse(cfg, fd, now, tester, code) + [Shutdown(fd, now)])
      else
        Log(Grant(cfg, s, fd, tester, payload[2], now), RoutingResponse(cfg, fd, now, tester, code))
  }

  function HandleAliveCheck(cfg: Config, s: Server, fd: nat, now: int): (t: Server)
    ensures t.conns.Keys == s.conns.Keys
  {
    var t := if fd in s.conns then
        s.(conns := s.conns[fd := s.conns[fd].(alivePending := false, aliveSentAt := 0,
                                               generalDeadline := now + cfg.generalInactivity)])
      else s;
    Log(t, SendEvents(fd, now, ALIVE_CHECK_RESPONSE, Be16(cfg.logicalAddress)))
  }

  predicate StartsWith(payload: seq<Byte>, wanted: seq<Byte>) {
    wanted <= payload
  }

  /** Identification by EID or VIN is answered only by the entity that has it. */
  function IdentificationEvents(cfg: Config, fd: nat, f: Frame, now: int): seq<Event> {
    if f.payloadType == VEHICLE_IDENTIFICATION_REQUEST_EID && !StartsWith(f.payload, cfg.eid) then []
    else if f.payloadType == VEHICLE_IDENTIFICATION_REQUEST_VIN && !StartsWith(f.payload, cfg.vin) then []
    else Announcement(cfg, fd, now)
  }

  function DiagEvents(cfg: Config, s: Server, fd: nat, payload: seq<Byte>, now: int): seq<Event> {
    if fd !in s.conns || !s.conns[fd].IsActive() || !cfg.udsAttached then []
    else if |payload| < 5 then Nack(fd, now, NACK_INVALID_LENGTH)
    else
      var source, target := FromBe16(payload[..2]), FromBe16(payload[2..4]);
      var physical := target == cfg.logicalAddress;
      if source != s.conns[fd].tester then DiagNack(fd, now, DIAG_INVALID_SOURCE, target, source)
      else if !physical && target !in cfg.functionalAddresses then
        DiagNack(fd, now, DIAG_UNKNOWN_TARGET, target, source)
      else if |payload| - 4 > cfg.maxDataSize then DiagNack(fd, now, DIAG_TOO_LARGE, target, source)
      else if fd !in s.channels then []
      else [Indicated(fd, now, source, target, physical, payload[4..])]
  }

  function EntityStatus(cfg: Config, s: Server, fd: nat, now: int): seq<Event> {
    SendEvents(fd, now, ENTITY_STATUS_RESPONSE,
               [cfg.nodeType, cfg.maxOpenSockets, |s.routing.addressToFd| % 256] + Be32(cfg.maxDataSize))
  }

  predicate IdentificationRequest(payloadType: nat) {
    || payloadType == VEHICLE_IDENTIFICATION_REQUEST
    || payloadType == VEHICLE_IDENTIFICATION_REQUEST_EID
    || payloadType == VEHICLE_IDENTIFICATION_REQUEST_VIN
  }

  /** The events of every payload type that leaves the server's tables alone. */
  function Answer(cfg: Config, s: Server, fd: nat, f: Frame, now: int): seq<Event> {
    if IdentificationRequest(f.payloadType) then IdentificationEvents(cfg, fd, f, now)
    else if f.payloadType == ENTITY_STATUS_REQUEST then EntityStatus(cfg, s, fd, now)
    else if f.payloadType == POWER_MODE_REQUEST then SendEvents(fd, now, POWER_MODE_RESPONSE, [cfg.powerMode])
    else if f.payloadType == DIAG_MESSAGE then DiagEvents(cfg, s, fd, f.payload, now)
    else Nack(fd, now, NACK_UNSUPPORTED_TYPE)
  }

  function Handle(cfg: Config, s: Server, fd: nat, f: Frame, now: int): (t: Server)
    ensures t.conns.Keys == s.conns.Keys
  {
    if f.payloadType == ROUTING_ACTIVATION_REQUEST then HandleRoutingActivation(cfg, s, fd, f.payload, now)
    else if f.payloadType == ALIVE_CHECK_REQUEST then HandleAliveCheck(cfg, s, fd, now)
    else Log(s, Answer(cfg, s, fd, f, now))
  }

  function Dispatch(cfg: Config, s: Server, fd: nat, f: Frame, now: int): (t: Server)
    ensures t.conns.Keys == s.conns.Keys
  {
    Handle(cfg, Log(s, [Received(fd, now, f)]), fd, f, now)
  }

  function DispatchAll(cfg: Config, s: Server, fd: nat, fs: seq<Frame>, now: int): (t: Server)
    ensures t.conns.Keys == s.conns.Keys
    decreases |fs|
  {
    if fs == [] then s else DispatchAll(cfg, Dispatch(cfg, s, fd, fs[0], now), fd, fs[1..], now)
  }

  // Events from outside.

  /** A chunk is appended and, once routing is active, the inactivity timer restarts. */
  function Feed(cfg: Config, conn: Connection, data: seq<Byte>, now: int): Connection {
    var fed := conn.(rx := conn.rx + data);
    if fed.IsActive() then fed.(generalDeadline := now + cfg.generalInactivity) else fed
  }

  function Receive(cfg: Config, s: Server, fd: nat, data: seq<Byte>, now: int): (t: Server)
    ensures t == s.(conns := t.conns) && t.conns.Keys == s.conns.Keys + {fd}
  {
    var conn := if fd in s.conns then s.conns[fd]
                else FRESH.(initialDeadline := now + cfg.initialInactivity);
    s.(conns := s.conns[fd := Feed(cfg, conn, data, now)])
  }

  /** A rejected header is answered and the socket shut down; it stays in the buffer. */
  function Reject(fd: nat, front: Front, now: int): seq<Event> {
    match front
    case BadVersion => Nack(fd, now, NACK_INVALID_PROTOCOL) + [Shutdown(fd, now)]
    case TooLarge => Nack(fd, now, NACK_TOO_LARGE) + [Shutdown(fd, now)]
    case _ => []
  }

  /** The frames of the buffer are dispatched in one pass and the leftover kept. */
  function Drain(cfg: Config, s: Server, fd: nat, now: int): (t: Server)
    requires fd in s.conns
    ensures t.conns.Keys == s.conns.Keys
  {
    var parsed := Parse(s.conns[fd].rx);
    Log(DispatchAll(cfg, SetRx(s, fd, parsed.rest), fd, parsed.frames, now),
        Reject(fd, Classify(parsed.rest), now))
  }

  function OnData(cfg: Config, s: Server, fd: nat, data: seq<Byte>, now: int): Server {
    Drain(cfg, Receive(cfg, s, fd, data, now), fd, now)
  }

  function Erase(s: Server, fd: nat, now: int): Server {
    Log(s.(routing := DeactivateFd(s.routing, fd), channels := Without(s.channels, fd),
           conns := Without(s.conns, fd)), [Closed(fd, now)])
  }

  // Maintenance.

  datatype Upkeep = Keep | Close | CheckAlive

  function Judge(cfg: Config, conn: Connection, now: int): Upkeep {
    if !conn.IsActive() && now >= conn.initialDeadline then Close
    else if conn.IsActive() && conn.alivePending && now >= conn.aliveSentAt + cfg.aliveCheckTimeout then Close
    else if conn.IsActive() && now >= conn.generalDeadline && !conn.alivePending then CheckAlive
    else Keep
  }

  function TickConnection(cfg: Config, conn: Connection, now: int): Connection {
    if Judge(cfg, conn, now) == CheckAlive then
      conn.(alivePending := true, aliveSentAt := now, generalDeadline := now + cfg.aliveCheckTimeout)
    else conn
  }

  function CheckEvents(cfg: Config, conn: Connection, fd: nat, now: int): seq<Event> {
    if Judge(cfg, conn, now) == CheckAlive then [Sent(fd, now, ALIVE_CHECK)] else []
  }

  /** What one tick sends, in the order the connections are visited. */
  function AliveChecks(cfg: Config, conns: map<nat, Connection>, order: seq<nat>, now: int): seq<Event> {
    if order == [] then [] else
    AliveChecks(cfg, conns, order[..|order| - 1], now) +
    (var fd := order[|order| - 1]; if fd in conns then CheckEvents(cfg, conns[fd], fd, now) else [])
  }

  function Closing(cfg: Config, conns: map<nat, Connection>, order: seq<nat>, now: int): seq<nat> {
    if order == [] then [] else
    Closing(cfg, conns, order[..|order| - 1], now) +
    (var fd := order[|order| - 1];
     if fd in conns && Judge(cfg, conns[fd], now) == Close then [fd] else [])
  }

  function Shutdowns(fds: seq<nat>, now: int): (es: seq<Event>)
    ensures |es| == |fds|
    ensures forall i :: 0 <= i < |fds| ==> es[i] == Shutdown(fds[i], now)
  {
    seq(|fds|, i requires 0 <= i < |fds| => Shutdown(fds[i], now))
  }

  /** One tick visiting every connection, in the given order. */
  function Tick(cfg: Config, s: Server, order: seq<nat>, now: int): Server {
    Log(s.(conns := map fd | fd in s.conns :: TickConnection(cfg, s.conns[fd], now)),
        AliveChecks(cfg, s.conns, order, now) + Shutdowns(Closing(cfg, s.conns, order, now), now))
  }

  /** order visits every key exactly once. */
  ghost predicate Enumerates(order: seq<nat>, keys: set<nat>) {
    && (forall fd :: fd in keys <==> fd in order)
    && (forall i, j :: 0 <= i < j < |order| ==> order[i] != order[j])
  }
}
