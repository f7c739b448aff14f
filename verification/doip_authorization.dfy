/** Which diagnostic messages reach the UDS server: over every run, only those that a tester sends under
    the address its socket was activated for. */
module DoipAuthorization {
  import opened Bytes
  import opened DoipFrame
  import opened DoipStream
  import opened DoipModel
  import opened DoipRoutingTable
  import opened DoipRouting
  import opened DoipDelivery

  const RESPONSE_SIZE: nat := HEADER_SIZE + 9

  /** A positive routing activation response, as the tester sees it. */
  predicate Grants(e: Event) {
    e.Sent? && |e.bytes| == RESPONSE_SIZE && e.bytes[2..4] == Be16(ROUTING_ACTIVATION_RESPONSE) &&
    e.bytes[12] == ROUTING_SUCCESS
  }

  /** The tester a socket was last told to be activated for, since it was last closed. */
  function RouteOf(log: seq<Event>, fd: nat): Option<nat> {
    if log == [] then None else
    var before, e := RouteOf(log[..|log| - 1], fd), log[|log| - 1];
    if e.fd != fd then before
    else if e.Closed? then None
    else if Grants(e) then Some(FromBe16(e.bytes[8..10]))
    else before
  }

  function Route(s: Server, fd: nat): Option<nat> {
    if fd in s.conns && s.conns[fd].IsActive() then Some(s.conns[fd].tester) else None
  }

  /** Nothing is granted, closed or handed to the UDS server. */
  predicate Plain(e: Event) {
    !Grants(e) && !e.Closed? && !e.Indicated?
  }

  lemma {:induction false} RouteQuiet(log: seq<Event>, es: seq<Event>, fd: nat)
    requires forall e :: e in es ==> !Grants(e) && !e.Closed?
    ensures RouteOf(log + es, fd) == RouteOf(log, fd)
  {
    hide Grants;
    if es == [] {
      assert log + es == log;
    } else {
      var es' := es[..|es| - 1];
      assert (log + es)[..|log + es| - 1] == log + es';
      assert es[|es| - 1] in es;
      RouteQuiet(log, es', fd);
    }
  }

  lemma RouteSnoc(log: seq<Event>, e: Event, fd: nat)
    ensures RouteOf(log + [e], fd) == if e.fd != fd then RouteOf(log, fd) else if e.Closed? then None
      else if Grants(e) then Some(FromBe16(e.bytes[8..10])) else RouteOf(log, fd)
  {
    hide Grants;
    assert (log + [e])[..|log|] == log;
  }

  lemma OnlySentGrants(e: Event)
    requires !e.Sent?
    ensures !Grants(e)
  {
  }

  /** Frames of any other type grant nothing. */
  lemma OtherTypesPlain(fd: nat, now: int, payloadType: nat, payload: seq<Byte>)
    requires payloadType < U16 && payloadType != ROUTING_ACTIVATION_RESPONSE
    ensures forall e :: e in SendEvents(fd, now, payloadType, payload) ==> Plain(e)
  {
    assert FrameBytes(payloadType, payload)[2..4] == Be16(payloadType);
    Be16RoundTrip(payloadType);
    Be16RoundTrip(ROUTING_ACTIVATION_RESPONSE);
  }

  /** A routing activation response grants exactly when its code is the positive one. */
  lemma ResponseGrants(cfg: Config, fd: nat, now: int, tester: nat, code: Byte)
    requires tester < U16
    ensures |RoutingResponse(cfg, fd, now, tester, code)| == 1
    ensures var e := RoutingResponse(cfg, fd, now, tester, code)[0];
      && e.Sent? && e.fd == fd && (Grants(e) <==> code == ROUTING_SUCCESS)
      && |e.bytes| == RESPONSE_SIZE && FromBe16(e.bytes[8..10]) == tester
  {
    var payload := Be16(tester) + Be16(cfg.logicalAddress) + [code, 0, 0, 0, 0];
    var bytes := FrameBytes(ROUTING_ACTIVATION_RESPONSE, payload);
    assert bytes[2..4] == Be16(ROUTING_ACTIVATION_RESPONSE);
    assert bytes[8..10] == Be16(tester) && bytes[12] == payload[4];
    Be16RoundTrip(tester);
  }

  lemma AnswerPlain(cfg: Config, s: Server, fd: nat, f: Frame, now: int)
    ensures forall e :: e in Answer(cfg, s, fd, f, now) ==> Plain(e) || e.Indicated?
  {
    hide SendEvents, FromBe16, Be16, Be32, Grants;
    OtherTypesPlain(fd, now, GENERIC_NACK, [NACK_UNSUPPORTED_TYPE]);
    OtherTypesPlain(fd, now, GENERIC_NACK, [NACK_INVALID_LENGTH]);
    OtherTypesPlain(fd, now, POWER_MODE_RESPONSE, [cfg.powerMode]);
    OtherTypesPlain(fd, now, ENTITY_STATUS_RESPONSE,
                    [cfg.nodeType, cfg.maxOpenSockets, |s.routing.addressToFd| % 256] + Be32(cfg.maxDataSize));
    OtherTypesPlain(fd, now, VEHICLE_ANNOUNCEMENT,
                    cfg.vin + Be16(cfg.logicalAddress) + cfg.eid + cfg.gid + [cfg.furtherAction]);
    forall code: Byte, a: nat, b: nat ensures forall e :: e in DiagNack(fd, now, code, a, b) ==> Plain(e) {
      OtherTypesPlain(fd, now, DIAG_MESSAGE_NEGATIVE_ACK, Be16(a) + Be16(b) + [code]);
    }
  }

  // Each indication is authorized.

  /** Entry i of the log, an indication, follows from the diagnostic message received just before it, which
      the socket's tester sent under its own address to an address of this entity. */
  ghost predicate Authorized(cfg: Config, log: seq<Event>, i: nat)
    requires i < |log| && log[i].Indicated?
  {
    var e := log[i];
    && RouteOf(log[..i], e.fd) == Some(e.source)
    && i > 0 && log[i - 1].Received? && log[i - 1].fd == e.fd
    && var f := log[i - 1].frame;
    && f.payloadType == DIAG_MESSAGE && |f.payload| >= 5
    && e.source == FromBe16(f.payload[..2]) && e.target == FromBe16(f.payload[2..4]) && e.body == f.payload[4..]
    && (e.physical <==> e.target == cfg.logicalAddress)
    && (e.physical || e.target in cfg.functionalAddresses)
    && |e.body| <= cfg.maxDataSize
  }

  ghost predicate AllAuthorized(cfg: Config, log: seq<Event>) {
    forall i :: 0 <= i < |log| && log[i].Indicated? ==> Authorized(cfg, log, i)
  }

  lemma AuthorizedStays(cfg: Config, log: seq<Event>, es: seq<Event>)
    requires AllAuthorized(cfg, log) && forall e :: e in es ==> !e.Indicated?
    ensures AllAuthorized(cfg, log + es)
  {
    hide RouteOf, FromBe16;
    assert forall i :: |log| <= i < |log + es| ==> (log + es)[i] in es;
    forall i | 0 <= i < |log + es| && (log + es)[i].Indicated? ensures Authorized(cfg, log + es, i) {
      assert (log + es)[..i] == log[..i];
    }
  }

  /** What every state of a run satisfies: the tables agree with what the testers were told. */
  ghost predicate Told(cfg: Config, s: Server) {
    (forall fd :: Route(s, fd) == RouteOf(s.log, fd)) && AllAuthorized(cfg, s.log)
  }

  lemma ToldAfter(cfg: Config, s: Server, t: Server, es: seq<Event>)
    requires Told(cfg, s) && t.log == s.log + es && forall e :: e in es ==> Plain(e)
    requires forall fd :: Route(t, fd) == Route(s, fd)
    ensures Told(cfg, t)
  {
    hide AllAuthorized, Route, RouteOf, Grants;
    AuthorizedStays(cfg, s.log, es);
    forall fd ensures Route(t, fd) == RouteOf(t.log, fd) { RouteQuiet(s.log, es, fd); }
  }

  lemma DiagTold(cfg: Config, s: Server, fd: nat, f: Frame, now: int)
    requires Told(cfg, s) && fd in s.conns && f.payloadType == DIAG_MESSAGE
    requires s.log != [] && s.log[|s.log| - 1] == Received(fd, now, f)
    ensures Told(cfg, Log(s, DiagEvents(cfg, s, fd, f.payload, now)))
  {
    hide FromBe16, RouteOf, Grants, SendEvents;
    var es := DiagEvents(cfg, s, fd, f.payload, now);
    var t := Log(s, es);
    AnswerPlain(cfg, s, fd, f, now);
    assert es == Answer(cfg, s, fd, f, now);
    if es != [] && es[0].Indicated? {
      assert es == [es[0]];
      OnlySentGrants(es[0]);
      forall g ensures RouteOf(t.log, g) == RouteOf(s.log, g) { RouteSnoc(s.log, es[0], g); }
      IndicationAuthorized(cfg, s, fd, f, now, es[0]);
    } else {
      assert forall e :: e in es ==> Plain(e);
      ToldAfter(cfg, s, t, es);
    }
  }

  lemma IndicationAuthorized(cfg: Config, s: Server, fd: nat, f: Frame, now: int, e: Event)
    requires Told(cfg, s) && fd in s.conns && f.payloadType == DIAG_MESSAGE
    requires s.log != [] && s.log[|s.log| - 1] == Received(fd, now, f)
    requires e.Indicated? && DiagEvents(cfg, s, fd, f.payload, now) == [e]
    ensures AllAuthorized(cfg, s.log + [e])
  {
    hide FromBe16, RouteOf, Grants, SendEvents;
    var log := s.log + [e];
    forall i | 0 <= i < |log| && log[i].Indicated? ensures Authorized(cfg, log, i) {
      if i < |s.log| {
        assert log[..i] == s.log[..i];
      } else {
        assert log[..i] == s.log;
        assert Route(s, fd) == RouteOf(s.log, fd);
      }
    }
  }

  lemma ActivationTold(cfg: Config, s: Server, fd: nat, payload: seq<Byte>, now: int)
    requires Told(cfg, s) && fd in s.conns
    ensures Told(cfg, HandleRoutingActivation(cfg, s, fd, payload, now))
  {
    hide FromBe16, RouteOf, Grants, SendEvents, RoutingVerdict, Activate, AllAuthorized, RoutingResponse;
    var t := HandleRoutingActivation(cfg, s, fd, payload, now);
    if !ActivationLength(|payload|) {
      OtherTypesPlain(fd, now, GENERIC_NACK, [NACK_INVALID_LENGTH]);
      ToldAfter(cfg, s, t, Nack(fd, now, NACK_INVALID_LENGTH));
    } else {
      var tester := FromBe16(payload[..2]);
      var code := RoutingVerdict(cfg, s, fd, tester, payload[2]);
      ResponseGrants(cfg, fd, now, tester, code);
      var response := RoutingResponse(cfg, fd, now, tester, code);
      if code != ROUTING_SUCCESS {
        OnlySentGrants(Shutdown(fd, now));
        ToldAfter(cfg, s, t, response + [Shutdown(fd, now)]);
      } else {
        assert response == [response[0]];
        AuthorizedStays(cfg, s.log, response);
        forall g ensures Route(t, g) == RouteOf(t.log, g) { RouteSnoc(s.log, response[0], g); }
      }
    }
  }

  lemma AliveTold(cfg: Config, s: Server, fd: nat, now: int)
    requires Told(cfg, s) && fd in s.conns
    ensures Told(cfg, HandleAliveCheck(cfg, s, fd, now))
  {
    hide Told, SendEvents, Be16, Plain;
    OtherTypesPlain(fd, now, ALIVE_CHECK_RESPONSE, Be16(cfg.logicalAddress));
    ToldAfter(cfg, s, HandleAliveCheck(cfg, s, fd, now),
              SendEvents(fd, now, ALIVE_CHECK_RESPONSE, Be16(cfg.logicalAddress)));
  }

  lemma DispatchTold(cfg: Config, s: Server, fd: nat, f: Frame, now: int)
    requires Told(cfg, s) && fd in s.conns
    ensures Told(cfg, Dispatch(cfg, s, fd, f, now))
  {
    hide Told, HandleRoutingActivation, HandleAliveCheck, DiagEvents, SendEvents, IdentificationEvents,
      EntityStatus, Grants;
    var r := Log(s, [Received(fd, now, f)]);
    OnlySentGrants(Received(fd, now, f));
    ToldAfter(cfg, s, r, [Received(fd, now, f)]);
    if f.payloadType == ROUTING_ACTIVATION_REQUEST {
      ActivationTold(cfg, r, fd, f.payload, now);
    } else if f.payloadType == ALIVE_CHECK_REQUEST {
      AliveTold(cfg, r, fd, now);
    } else if f.payloadType == DIAG_MESSAGE {
      DiagTold(cfg, r, fd, f, now);
    } else {
      AnswerPlain(cfg, r, fd, f, now);
      NoIndication(cfg, r, fd, f, now);
      ToldAfter(cfg, r, Log(r, Answer(cfg, r, fd, f, now)), Answer(cfg, r, fd, f, now));
    }
  }

  lemma NoIndication(cfg: Config, s: Server, fd: nat, f: Frame, now: int)
    requires f.payloadType != DIAG_MESSAGE
    ensures forall e :: e in Answer(cfg, s, fd, f, now) ==> !e.Indicated?
  {
    hide FrameBytes, Be16, Be32;
  }

  lemma {:induction false} DispatchAllTold(cfg: Config, s: Server, fd: nat, fs: seq<Frame>, now: int)
    requires Told(cfg, s) && fd in s.conns
    ensures Told(cfg, DispatchAll(cfg, s, fd, fs, now))
    decreases |fs|
  {
    hide Told, Dispatch;
    if fs != [] {
      DispatchTold(cfg, s, fd, fs[0], now);
      DispatchAllTold(cfg, Dispatch(cfg, s, fd, fs[0], now), fd, fs[1..], now);
    }
  }

  lemma OnDataTold(cfg: Config, s: Server, fd: nat, data: seq<Byte>, now: int)
    requires Told(cfg, s)
    ensures Told(cfg, OnData(cfg, s, fd, data, now))
  {
    hide Told, Parse, DispatchAll, Classify, SendEvents, Grants;
    var s1 := Receive(cfg, s, fd, data, now);
    var parsed := Parse(s1.conns[fd].rx);
    var s2 := SetRx(s1, fd, parsed.rest);
    ToldAfter(cfg, s, s2, []);
    DispatchAllTold(cfg, s2, fd, parsed.frames, now);
    OtherTypesPlain(fd, now, GENERIC_NACK, [NACK_INVALID_PROTOCOL]);
    OtherTypesPlain(fd, now, GENERIC_NACK, [NACK_TOO_LARGE]);
    OnlySentGrants(Shutdown(fd, now));
    ToldAfter(cfg, DispatchAll(cfg, s2, fd, parsed.frames, now), OnData(cfg, s, fd, data, now),
              Reject(fd, Classify(parsed.rest), now));
  }

  lemma TickTold(cfg: Config, s: Server, order: seq<nat>, now: int)
    requires Told(cfg, s)
    ensures Told(cfg, Tick(cfg, s, order, now))
  {
    hide Told, AliveChecks, Closing, FrameBytes, RouteOf;
    AliveChecksSent(cfg, s.conns, order, now);
    assert |ALIVE_CHECK| == HEADER_SIZE;
    ToldAfter(cfg, s, Tick(cfg, s, order, now),
              AliveChecks(cfg, s.conns, order, now) + Shutdowns(Closing(cfg, s.conns, order, now), now));
  }

  lemma EraseTold(cfg: Config, s: Server, fd: nat, now: int)
    requires Told(cfg, s)
    ensures Told(cfg, Erase(s, fd, now))
  {
    hide AllAuthorized, RouteOf, DeactivateFd, Grants;
    var t := Erase(s, fd, now);
    AuthorizedStays(cfg, s.log, [Closed(fd, now)]);
    forall g ensures Route(t, g) == RouteOf(t.log, g) { RouteSnoc(s.log, Closed(fd, now), g); }
  }

  lemma {:induction false} ToldInvariant(cfg: Config, ops: seq<Op>)
    ensures Told(cfg, Run(cfg, INIT, ops))
    decreases |ops|
  {
    if ops != [] {
      hide OnData, Tick, Erase, Told;
      var s := Run(cfg, INIT, ops[..|ops| - 1]);
      ToldInvariant(cfg, ops[..|ops| - 1]);
      match ops[|ops| - 1]
      case Data(fd, bytes, at) => OnDataTold(cfg, s, fd, bytes, at);
      case Maintenance(order, at) => TickTold(cfg, s, order, at);
      case Disconnect(fd, at) => EraseTold(cfg, s, fd, at);
    }
  }

  /** Main result: over every run a socket is active for a tester exactly when the last positive response
      it was sent since it was opened names that tester. */
  lemma RouteAsTold(cfg: Config, ops: seq<Op>, fd: nat)
    ensures var s := Run(cfg, INIT, ops); Route(s, fd) == RouteOf(s.log, fd)
  {
    ToldInvariant(cfg, ops);
    hide Run, Route, RouteOf;
  }

  /** Main result: over every run each indication to the UDS server was authorized when it was made. */
  lemma OnlyRoutedIndicated(cfg: Config, ops: seq<Op>, i: nat)
    requires i < |Run(cfg, INIT, ops).log| && Run(cfg, INIT, ops).log[i].Indicated?
    ensures Authorized(cfg, Run(cfg, INIT, ops).log, i)
  {
    ToldInvariant(cfg, ops);
    hide Run, Authorized;
  }

  /** The message comes from the address the socket is active for, is meant for this entity, is neither too
      short nor too long, and there is a UDS server. */
  predicate Admissible(cfg: Config, s: Server, fd: nat, payload: seq<Byte>) {
    && cfg.udsAttached && |payload| >= 5 && Route(s, fd) == Some(FromBe16(payload[..2]))
    && (FromBe16(payload[2..4]) == cfg.logicalAddress || FromBe16(payload[2..4]) in cfg.functionalAddresses)
    && |payload[4..]| <= cfg.maxDataSize
  }

  /** With the joint invariant, an admissible diagnostic message has its indication as the only reaction,
      so that a missing channel never stands in its way, and no other message is indicated. */
  lemma IndicatedExactly(cfg: Config, s: Server, fd: nat, payload: seq<Byte>, now: int)
    requires Consistent(cfg, s)
    ensures var es := DiagEvents(cfg, s, fd, payload, now);
      if Admissible(cfg, s, fd, payload) then
        var source, target := FromBe16(payload[..2]), FromBe16(payload[2..4]);
        es == [Indicated(fd, now, source, target, target == cfg.logicalAddress, payload[4..])]
      else forall e :: e in es ==> !e.Indicated?
  {
    hide FromBe16, FrameBytes, Be16, Inverse;
    if fd in s.conns && s.conns[fd].IsActive() {
      assert fd in ChannelsOf(s.conns);
    }
  }
}
