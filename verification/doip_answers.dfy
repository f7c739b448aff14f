/** What the server sends for each request, byte by byte (ISO 13400-2:2012). */
module DoipAnswers {
  import opened Bytes
  import opened DoipFrame
  import opened DoipStream
  import opened DoipModel
  import opened DoipRoutingTable
  import opened DoipRouting

  /** The big-endian number in two bytes. */
  function Word(high: Byte, low: Byte): nat {
    256 * (high as nat) + low
  }

  /** A short message: version, inverse version, the type in two bytes, the length in four. */
  function Message(high: Byte, low: Byte, payload: seq<Byte>): seq<Byte>
    requires |payload| < 256
  {
    [0x02, 0xFD, high, low, 0, 0, 0, |payload|] + payload
  }

  lemma MessageSent(fd: nat, now: int, high: Byte, low: Byte, payload: seq<Byte>)
    requires |payload| < 256
    ensures SendEvents(fd, now, Word(high, low), payload) == [Sent(fd, now, Message(high, low, payload))]
  {
    assert Be16(Word(high, low)) == [high, low] && Be32(|payload|) == [0, 0, 0, |payload|];
    assert FrameBytes(Word(high, low), payload) == Message(high, low, payload);
  }

  /** A generic negative acknowledgement. */
  function Refusal(code: Byte): seq<Byte> {
    Message(0x00, 0x00, [code])
  }

  lemma AliveCheckBytes()
    ensures ALIVE_CHECK == [0x02, 0xFD, 0x00, 0x07, 0, 0, 0, 0]
  {
    assert Be16(ALIVE_CHECK_REQUEST) == [0, 7] && Be32(0) == [0, 0, 0, 0];
  }

  lemma NackBytes(fd: nat, now: int, code: Byte)
    ensures Nack(fd, now, code) == [Sent(fd, now, Refusal(code))]
  {
    MessageSent(fd, now, 0x00, 0x00, [code]);
  }

  /** The entity's own address. */
  function Address(cfg: Config): seq<Byte> {
    [cfg.logicalAddress / 256 % 256, cfg.logicalAddress % 256]
  }

  // Headers.

  /** What is at the front of a buffer when no frame is: a header of another version, one that announces a
      payload of sixteen megabytes or more, or nothing to object to. */
  function HeaderFault(rest: seq<Byte>): Option<Byte> {
    if |rest| >= 8 && (rest[0] != 0x02 || rest[1] != 0xFD) then Some(0x00)
    else if |rest| >= 8 && rest[4] != 0 then Some(0x02)
    else None
  }

  lemma RejectBytes(fd: nat, rest: seq<Byte>, now: int)
    ensures Reject(fd, Classify(rest), now) ==
      if HeaderFault(rest).Some? then [Sent(fd, now, Refusal(HeaderFault(rest).value)), Shutdown(fd, now)] else []
  {
    hide Refusal;
    NackBytes(fd, now, NACK_INVALID_PROTOCOL);
    NackBytes(fd, now, NACK_TOO_LARGE);
  }

  /** Main result: a header with a fault is refused and the connection shut down; when the faults are gone
      through, the version comes before the length. The answer comes behind those to the frames that stand
      before the header. */
  lemma HeaderAnswers(cfg: Config, s: Server, fd: nat, data: seq<Byte>, now: int)
    ensures var r := Receive(cfg, s, fd, data, now);
      var parsed := Parse(r.conns[fd].rx);
      var fault := HeaderFault(parsed.rest);
      OnData(cfg, s, fd, data, now).log ==
        DispatchAll(cfg, SetRx(r, fd, parsed.rest), fd, parsed.frames, now).log +
        if fault.Some? then [Sent(fd, now, Refusal(fault.value)), Shutdown(fd, now)] else []
  {
    hide Parse, Classify, DispatchAll, Reject, HeaderFault, Refusal;
    var r := Receive(cfg, s, fd, data, now);
    RejectBytes(fd, Parse(r.conns[fd].rx).rest, now);
  }

  // Routing activation.

  /** The code for a request from this tester on this socket, read off the connections alone. */
  function ActivationAnswer(cfg: Config, s: Server, fd: nat, tester: nat, activationType: Byte): Byte
    requires fd in s.conns
  {
    var active := ActiveFds(s);
    if fd in active && s.conns[fd].tester != tester then 0x02
    else if exists other :: other in active && other != fd && s.conns[other].tester == tester then 0x03
    else if fd !in active && |active| >= cfg.maxOpenSockets then 0x01
    else if activationType != 0 then 0x06
    else 0x10
  }

  lemma VerdictIs(cfg: Config, s: Server, fd: nat, tester: nat, activationType: Byte)
    requires Consistent(cfg, s) && fd in s.conns
    ensures RoutingVerdict(cfg, s, fd, tester, activationType) == ActivationAnswer(cfg, s, fd, tester, activationType)
  {
    ActiveCount(cfg, s);
    forall other | other in ActiveFds(s) && s.conns[other].tester == tester
      ensures tester in s.routing.addressToFd && s.routing.addressToFd[tester] == other
    {
      assert other in s.routing.fdToAddress && s.routing.fdToAddress[other] == tester;
    }
    if tester in s.routing.addressToFd {
      var owner := s.routing.addressToFd[tester];
      assert owner in s.routing.fdToAddress && s.routing.fdToAddress[owner] == tester;
    }
  }

  lemma ActivationBytes(cfg: Config, fd: nat, now: int, high: Byte, low: Byte, code: Byte)
    ensures RoutingResponse(cfg, fd, now, Word(high, low), code) == [Sent(fd, now,
      Message(0x00, 0x06, [high, low] + Address(cfg) + [code, 0, 0, 0, 0]))]
  {
    assert Be16(Word(high, low)) == [high, low];
    MessageSent(fd, now, 0x00, 0x06, [high, low] + Address(cfg) + [code, 0, 0, 0, 0]);
  }

  /** Main result: a routing activation request of the right length is answered with the addresses of tester
      and entity and one code: another tester on this socket, a tester on another socket, no socket left, an
      unknown type, or granted. All but the last shut the connection down. One of any other length is refused
      and changes nothing. */
  lemma ActivationAnswers(cfg: Config, s: Server, fd: nat, payload: seq<Byte>, now: int)
    requires Consistent(cfg, s) && fd in s.conns
    ensures var t := Handle(cfg, s, fd, Frame(0x0005, payload), now);
      if |payload| != 7 && |payload| != 11 then t == s.(log := s.log + [Sent(fd, now, Refusal(0x04))]) else
      var code := ActivationAnswer(cfg, s, fd, Word(payload[0], payload[1]), payload[2]);
      var response := Sent(fd, now,
        Message(0x00, 0x06, [payload[0], payload[1]] + Address(cfg) + [code, 0, 0, 0, 0]));
      if code == 0x10 then t.log == s.log + [response]
      else t == s.(log := s.log + [response, Shutdown(fd, now)])
  {
    hide ActivationAnswer, RoutingVerdict, Consistent, Refusal, Message, SendEvents, FrameBytes, Be16, Be32;
    if ActivationLength(|payload|) {
      var tester := FromBe16(payload[..2]);
      assert tester == Word(payload[0], payload[1]);
      VerdictIs(cfg, s, fd, tester, payload[2]);
      ActivationBytes(cfg, fd, now, payload[0], payload[1], RoutingVerdict(cfg, s, fd, tester, payload[2]));
    } else {
      NackBytes(fd, now, NACK_INVALID_LENGTH);
    }
  }

  // Diagnostic messages.

  lemma DiagNackBytes(fd: nat, now: int, code: Byte, a: Byte, b: Byte, c: Byte, d: Byte)
    ensures DiagNack(fd, now, code, Word(a, b), Word(c, d))
      == [Sent(fd, now, Message(0x80, 0x03, [a, b, c, d, code]))]
  {
    assert Be16(Word(a, b)) + Be16(Word(c, d)) + [code] == [a, b, c, d, code];
    MessageSent(fd, now, 0x80, 0x03, [a, b, c, d, code]);
  }

  /** The code a diagnostic message with these addresses is refused with, if it is. */
  function DiagFault(cfg: Config, conn: Connection, source: nat, target: nat, length: int): Option<Byte> {
    if source != conn.tester then Some(0x02)
    else if target != cfg.logicalAddress && target !in cfg.functionalAddresses then Some(0x03)
    else if length > cfg.maxDataSize then Some(0x04)
    else None
  }

  /** Main result: without an active routing or a diagnostic server a diagnostic message is ignored. Else one
      with less than a byte of data is refused by its length; one with a wrong source, an unknown target or
      too much data, in this order, by a negative acknowledgement that has the two addresses in exchanged
      order; and every other is handed on with its addresses and data. No table changes. */
  lemma DiagAnswers(cfg: Config, s: Server, fd: nat, payload: seq<Byte>, now: int)
    requires Consistent(cfg, s) && fd in s.conns
    ensures var t := Handle(cfg, s, fd, Frame(0x8001, payload), now);
      var conn := s.conns[fd];
      if !conn.IsActive() || !cfg.udsAttached then t == s
      else if |payload| < 5 then t == s.(log := s.log + [Sent(fd, now, Refusal(0x04))]) else
      var source, target := Word(payload[0], payload[1]), Word(payload[2], payload[3]);
      var fault := DiagFault(cfg, conn, source, target, |payload| - 4);
      t == s.(log := s.log + [
        if fault.Some? then
          Sent(fd, now, Message(0x80, 0x03, [payload[2], payload[3], payload[0], payload[1], fault.value]))
        else Indicated(fd, now, source, target, target == cfg.logicalAddress, payload[4..])])
  {
    hide Refusal, Message, SendEvents, FrameBytes, Be16, Be32, Inverse;
    NackBytes(fd, now, NACK_INVALID_LENGTH);
    if |payload| >= 5 {
      var p := payload;
      assert FromBe16(p[..2]) == Word(p[0], p[1]) && FromBe16(p[2..4]) == Word(p[2], p[3]);
      DiagNackBytes(fd, now, DIAG_INVALID_SOURCE, p[2], p[3], p[0], p[1]);
      DiagNackBytes(fd, now, DIAG_UNKNOWN_TARGET, p[2], p[3], p[0], p[1]);
      DiagNackBytes(fd, now, DIAG_TOO_LARGE, p[2], p[3], p[0], p[1]);
    }
  }

  // Requests about the vehicle.

  /** An identity with the field lengths of the standard. */
  predicate WellSized(cfg: Config) {
    |cfg.vin| == 17 && |cfg.eid| == 6 && |cfg.gid| == 6
  }

  function IdentityBytes(cfg: Config): seq<Byte>
    requires WellSized(cfg)
  {
    Message(0x00, 0x04, cfg.vin + Address(cfg) + cfg.eid + cfg.gid + [cfg.furtherAction])
  }

  lemma AnnouncementBytes(cfg: Config, fd: nat, now: int)
    requires WellSized(cfg)
    ensures Announcement(cfg, fd, now) == [Sent(fd, now, IdentityBytes(cfg))]
  {
    MessageSent(fd, now, 0x00, 0x04, cfg.vin + Address(cfg) + cfg.eid + cfg.gid + [cfg.furtherAction]);
  }

  /** An identification request is answered with the identity: always if it names nobody, else exactly when
      what it starts with is the entity's own EID or VIN. */
  lemma IdentificationAnswers(cfg: Config, s: Server, fd: nat, payload: seq<Byte>, now: int)
    requires WellSized(cfg)
    ensures var identity := s.(log := s.log + [Sent(fd, now, IdentityBytes(cfg))]);
      && Handle(cfg, s, fd, Frame(0x0001, payload), now) == identity
      && Handle(cfg, s, fd, Frame(0x0002, payload), now) ==
           (if |payload| >= 6 && payload[..6] == cfg.eid then identity else s)
      && Handle(cfg, s, fd, Frame(0x0003, payload), now) ==
           (if |payload| >= 17 && payload[..17] == cfg.vin then identity else s)
  {
    hide Announcement, IdentityBytes;
    AnnouncementBytes(cfg, fd, now);
    assert s.log + [] == s.log;
  }

  /** The sockets in use. */
  ghost function InUse(cfg: Config, s: Server): Byte
    requires Consistent(cfg, s)
  {
    ActiveCount(cfg, s);
    |ActiveFds(s)|
  }

  /** An entity status request is answered with the node type, the number of sockets there are and that are in
      use, and the size of the largest message; no table changes. */
  lemma EntityStatusAnswer(cfg: Config, s: Server, fd: nat, payload: seq<Byte>, now: int)
    requires Consistent(cfg, s) && cfg.maxDataSize < U32
    ensures var max := cfg.maxDataSize;
      Handle(cfg, s, fd, Frame(0x4001, payload), now) == s.(log := s.log + [Sent(fd, now,
        Message(0x40, 0x02, [cfg.nodeType, cfg.maxOpenSockets, InUse(cfg, s),
                             max / 0x100_0000, max / 0x1_0000 % 256, max / 0x100 % 256, max % 256]))])
  {
    ActiveCount(cfg, s);
    hide Consistent, Message, SendEvents;
    var max := cfg.maxDataSize;
    var status := [cfg.nodeType, cfg.maxOpenSockets, InUse(cfg, s),
                   max / 0x100_0000, max / 0x1_0000 % 256, max / 0x100 % 256, max % 256];
    assert [cfg.nodeType, cfg.maxOpenSockets, |s.routing.addressToFd| % 256] + Be32(max) == status;
    MessageSent(fd, now, 0x40, 0x02, status);
  }

  /** A power mode request is answered with the power mode, an alive check with the entity's address. */
  lemma ShortAnswers(cfg: Config, s: Server, fd: nat, payload: seq<Byte>, now: int)
    ensures Handle(cfg, s, fd, Frame(0x4003, payload), now)
         == s.(log := s.log + [Sent(fd, now, Message(0x40, 0x04, [cfg.powerMode]))])
    ensures Handle(cfg, s, fd, Frame(0x0007, payload), now).log
         == s.log + [Sent(fd, now, Message(0x00, 0x08, Address(cfg)))]
  {
    hide HandleRoutingActivation, DiagEvents, IdentificationEvents, EntityStatus, Message, SendEvents;
    MessageSent(fd, now, 0x40, 0x04, [cfg.powerMode]);
    MessageSent(fd, now, 0x00, 0x08, Address(cfg));
  }

  /** Every type but these eight is refused; no table changes. */
  lemma UnknownTypeRefused(cfg: Config, s: Server, fd: nat, payload: seq<Byte>, payloadType: nat, now: int)
    requires payloadType !in {0x0001, 0x0002, 0x0003, 0x0005, 0x0007, 0x4001, 0x4003, 0x8001}
    ensures Handle(cfg, s, fd, Frame(payloadType, payload), now)
         == s.(log := s.log + [Sent(fd, now, Refusal(0x01))])
  {
    hide HandleRoutingActivation, DiagEvents, IdentificationEvents, EntityStatus, SendEvents, Refusal;
    NackBytes(fd, now, NACK_UNSUPPORTED_TYPE);
  }
}
