/** Whatever the chunking and the interleaving of events, each connection's frames are dispatched as
    the reference parser cuts them from the bytes that connection has received. */
module DoipDelivery {
  import opened Bytes
  import opened DoipFrame
  import opened DoipStream
  import opened DoipModel
  import opened DoipRoutingTable

  /** The events that drive the server; at is the clock when they happen. */
  datatype Op =
    | Data(fd: nat, bytes: seq<Byte>, at: int)
    | Maintenance(order: seq<nat>, at: int)
    | Disconnect(fd: nat, at: int)

  function Apply(cfg: Config, s: Server, op: Op): Server {
    match op
    case Data(fd, bytes, at) => OnData(cfg, s, fd, bytes, at)
    case Maintenance(order, at) => Tick(cfg, s, order, at)
    case Disconnect(fd, at) => Erase(s, fd, at)
  }

  function Run(cfg: Config, s: Server, ops: seq<Op>): Server {
    if ops == [] then s else Apply(cfg, Run(cfg, s, ops[..|ops| - 1]), ops[|ops| - 1])
  }

  /** The frames dispatched for a socket since it was last closed, read off the log. */
  function Dispatched(log: seq<Event>, fd: nat): seq<Frame> {
    if log == [] then [] else
    var before := Dispatched(log[..|log| - 1], fd);
    match log[|log| - 1]
    case Received(g, _, frame) => if g == fd then before + [frame] else before
    case Closed(g, _) => if g == fd then [] else before
    case _ => before
  }

  /** The bytes a socket has received since it was last closed. */
  function Incoming(ops: seq<Op>, fd: nat): seq<Byte> {
    if ops == [] then [] else
    var before := Incoming(ops[..|ops| - 1], fd);
    match ops[|ops| - 1]
    case Data(g, bytes, _) => if g == fd then before + bytes else before
    case Disconnect(g, _) => if g == fd then [] else before
    case _ => before
  }

  /** Reactions on one socket at one time: nothing received, nothing closed, no alive check. */
  predicate Answers(es: seq<Event>, fd: nat, now: int) {
    forall e :: e in es ==> e.fd == fd && e.at == now && !e.Received? && !e.Closed? && !IsAliveCheck(e)
  }

  lemma {:induction false} DispatchedQuiet(log: seq<Event>, es: seq<Event>, fd: nat)
    requires forall e :: e in es ==> (!e.Received? && !e.Closed?) || e.fd != fd
    ensures Dispatched(log + es, fd) == Dispatched(log, fd)
  {
    if es == [] {
      assert log + es == log;
    } else {
      var es' := es[..|es| - 1];
      assert (log + es)[..|log + es| - 1] == log + es';
      assert es[|es| - 1] in es;
      DispatchedQuiet(log, es', fd);
    }
  }

  // What handling one frame can touch.

  /** t is s after some work on socket fd: only its own record may differ, and not its buffer. */
  ghost predicate OwnWork(s: Server, t: Server, fd: nat, now: int) {
    && fd in s.conns && fd in t.conns
    && t.conns == s.conns[fd := t.conns[fd]]
    && t.conns[fd].rx == s.conns[fd].rx
    && t.conns[fd].initialDeadline == s.conns[fd].initialDeadline
    && s.log <= t.log && Answers(t.log[|s.log|..], fd, now)
  }

  lemma AnswerQuiet(cfg: Config, s: Server, fd: nat, f: Frame, now: int)
    ensures Answers(Answer(cfg, s, fd, f, now), fd, now)
  {
    hide FrameBytes, FromBe16, Be16, Be32;
  }

  lemma LogOwnWork(s: Server, es: seq<Event>, fd: nat, now: int)
    requires fd in s.conns && Answers(es, fd, now)
    ensures OwnWork(s, Log(s, es), fd, now)
  {
    assert (s.log + es)[|s.log|..] == es;
    assert s.conns[fd := s.conns[fd]] == s.conns;
  }

  lemma GrantFrame(cfg: Config, s: Server, fd: nat, tester: nat, activationType: Byte, now: int)
    requires fd in s.conns
    ensures var t := Grant(cfg, s, fd, tester, activationType, now);
      && fd in t.conns && t.conns == s.conns[fd := t.conns[fd]] && t.conns[fd].rx == s.conns[fd].rx
      && t.conns[fd].initialDeadline == s.conns[fd].initialDeadline && t.log == s.log
  {
  }

  lemma RoutingOwnWork(cfg: Config, s: Server, fd: nat, payload: seq<Byte>, now: int)
    requires fd in s.conns
    ensures OwnWork(s, HandleRoutingActivation(cfg, s, fd, payload, now), fd, now)
  {
    hide FrameBytes, FromBe16, RoutingVerdict, Be16, Grant, OwnWork;
    if !ActivationLength(|payload|) {
      LogOwnWork(s, Nack(fd, now, NACK_INVALID_LENGTH), fd, now);
    } else {
      var tester := FromBe16(payload[..2]);
      var code := RoutingVerdict(cfg, s, fd, tester, payload[2]);
      var response := RoutingResponse(cfg, fd, now, tester, code);
      if code != ROUTING_SUCCESS {
        LogOwnWork(s, response + [Shutdown(fd, now)], fd, now);
      } else {
        var t := Grant(cfg, s, fd, tester, payload[2], now);
        GrantFrame(cfg, s, fd, tester, payload[2], now);
        LogOwnWork(t, response, fd, now);
        OwnWorkThrough(s, t, Log(t, response), fd, now);
      }
    }
  }

  lemma OwnWorkThrough(s: Server, t: Server, u: Server, fd: nat, now: int)
    requires fd in s.conns && fd in t.conns && t.log == s.log
    requires t.conns == s.conns[fd := t.conns[fd]] && t.conns[fd].rx == s.conns[fd].rx
    requires t.conns[fd].initialDeadline == s.conns[fd].initialDeadline
    requires OwnWork(t, u, fd, now)
    ensures OwnWork(s, u, fd, now)
  {
  }

  lemma HandleOwnWork(cfg: Config, s: Server, fd: nat, f: Frame, now: int)
    requires fd in s.conns
    ensures OwnWork(s, Handle(cfg, s, fd, f, now), fd, now)
  {
    hide FrameBytes, Be16, Answer, HandleRoutingActivation;
    AnswerQuiet(cfg, s, fd, f, now);
    LogOwnWork(s, Answer(cfg, s, fd, f, now), fd, now);
    RoutingOwnWork(cfg, s, fd, f.payload, now);
  }

  lemma AnswerSetRx(cfg: Config, s: Server, fd: nat, f: Frame, now: int, rx: seq<Byte>)
    requires fd in s.conns
    ensures Answer(cfg, SetRx(s, fd, rx), fd, f, now) == Answer(cfg, s, fd, f, now)
  {
    hide SendEvents, FromBe16, Be16, Be32;
  }

  lemma GrantSetRx(cfg: Config, s: Server, fd: nat, tester: nat, activationType: Byte, now: int, rx: seq<Byte>)
    requires fd in s.conns
    ensures fd in Grant(cfg, s, fd, tester, activationType, now).conns
    ensures Grant(cfg, SetRx(s, fd, rx), fd, tester, activationType, now)
         == SetRx(Grant(cfg, s, fd, tester, activationType, now), fd, rx)
  {
  }

  lemma HandleSetRx(cfg: Config, s: Server, fd: nat, f: Frame, now: int, rx: seq<Byte>)
    requires fd in s.conns
    ensures fd in Handle(cfg, s, fd, f, now).conns
    ensures Handle(cfg, SetRx(s, fd, rx), fd, f, now) == SetRx(Handle(cfg, s, fd, f, now), fd, rx)
  {
    hide SendEvents, FromBe16, Be16, Be32, Answer, Grant;
    AnswerSetRx(cfg, s, fd, f, now, rx);
    if f.payloadType == ROUTING_ACTIVATION_REQUEST && ActivationLength(|f.payload|) {
      GrantSetRx(cfg, s, fd, FromBe16(f.payload[..2]), f.payload[2], now, rx);
    }
  }

  lemma DispatchSetRx(cfg: Config, s: Server, fd: nat, f: Frame, now: int, rx: seq<Byte>)
    requires fd in s.conns
    ensures fd in Dispatch(cfg, s, fd, f, now).conns
    ensures Dispatch(cfg, SetRx(s, fd, rx), fd, f, now) == SetRx(Dispatch(cfg, s, fd, f, now), fd, rx)
  {
    hide Handle;
    HandleSetRx(cfg, Log(s, [Received(fd, now, f)]), fd, f, now, rx);
  }

  /** Dispatching never looks at the receive buffer. */
  lemma {:induction false} DispatchAllSetRx(cfg: Config, s: Server, fd: nat, fs: seq<Frame>, now: int, rx: seq<Byte>)
    requires fd in s.conns
    ensures fd in DispatchAll(cfg, s, fd, fs, now).conns
    ensures DispatchAll(cfg, SetRx(s, fd, rx), fd, fs, now) == SetRx(DispatchAll(cfg, s, fd, fs, now), fd, rx)
    decreases |fs|
  {
    hide Dispatch;
    if fs != [] {
      DispatchSetRx(cfg, s, fd, fs[0], now, rx);
      DispatchAllSetRx(cfg, Dispatch(cfg, s, fd, fs[0], now), fd, fs[1..], now, rx);
    }
  }

  lemma {:induction false} DispatchAllAppend(cfg: Config, s: Server, fd: nat, a: seq<Frame>, b: seq<Frame>, now: int)
    ensures DispatchAll(cfg, s, fd, a + b, now) == DispatchAll(cfg, DispatchAll(cfg, s, fd, a, now), fd, b, now)
    decreases |a|
  {
    hide Dispatch;
    if a == [] {
      assert a + b == b;
    } else {
      assert (a + b)[1..] == a[1..] + b;
      DispatchAllAppend(cfg, Dispatch(cfg, s, fd, a[0], now), fd, a[1..], b, now);
    }
  }

  /** The frame log of every socket after one frame was dispatched on fd. */
  lemma DispatchLog(cfg: Config, s: Server, fd: nat, f: Frame, now: int)
    requires fd in s.conns
    ensures var t := Dispatch(cfg, s, fd, f, now);
      && fd in t.conns && t.conns == s.conns[fd := t.conns[fd]] && t.conns[fd].rx == s.conns[fd].rx
      && t.conns[fd].initialDeadline == s.conns[fd].initialDeadline && s.log <= t.log
      && forall g :: Dispatched(t.log, g) == Dispatched(s.log, g) + if g == fd then [f] else []
  {
    hide Handle;
    var s' := Log(s, [Received(fd, now, f)]);
    HandleOwnWork(cfg, s', fd, f, now);
    var t := Handle(cfg, s', fd, f, now);
    var es := t.log[|s'.log|..];
    assert t.log == s'.log + es;
    forall g ensures Dispatched(t.log, g) == Dispatched(s.log, g) + if g == fd then [f] else [] {
      DispatchedQuiet(s'.log, es, g);
      assert s'.log[..|s'.log| - 1] == s.log;
    }
  }

  lemma {:induction false} DispatchAllLog(cfg: Config, s: Server, fd: nat, fs: seq<Frame>, now: int)
    requires fd in s.conns
    ensures var t := DispatchAll(cfg, s, fd, fs, now);
      && fd in t.conns && t.conns == s.conns[fd := t.conns[fd]] && t.conns[fd].rx == s.conns[fd].rx
      && t.conns[fd].initialDeadline == s.conns[fd].initialDeadline && s.log <= t.log
      && forall g :: Dispatched(t.log, g) == Dispatched(s.log, g) + if g == fd then fs else []
    decreases |fs|
  {
    hide Dispatch, Dispatched;
    if fs != [] {
      DispatchLog(cfg, s, fd, fs[0], now);
      var m := Dispatch(cfg, s, fd, fs[0], now);
      DispatchAllLog(cfg, m, fd, fs[1..], now);
      assert fs == [fs[0]] + fs[1..];
      var t := DispatchAll(cfg, s, fd, fs, now);
      forall g ensures Dispatched(t.log, g) == Dispatched(s.log, g) + if g == fd then fs else [] {
        assert Dispatched(t.log, g) == Dispatched(m.log, g) + if g == fd then fs[1..] else [];
      }
    }
  }

  /** One chunk: the connection's buffer and frame log move on as the parser says; every other
      connection's buffer, state and frame log stay as they were. */
  lemma OnDataEffect(cfg: Config, s: Server, fd: nat, data: seq<Byte>, now: int)
    ensures var t := OnData(cfg, s, fd, data, now);
      var parsed := Parse((if fd in s.conns then s.conns[fd].rx else []) + data);
      && fd in t.conns && t.conns == s.conns[fd := t.conns[fd]]
      && t.conns[fd].rx == parsed.rest
      && t.conns[fd].initialDeadline
         == (if fd in s.conns then s.conns[fd].initialDeadline else now + cfg.initialInactivity)
      && s.log <= t.log
      && forall g :: Dispatched(t.log, g) == Dispatched(s.log, g) + if g == fd then parsed.frames else []
  {
    hide DispatchAll, Parse, Dispatched, FrameBytes;
    var s1 := Receive(cfg, s, fd, data, now);
    var parsed := Parse(s1.conns[fd].rx);
    DispatchAllLog(cfg, SetRx(s1, fd, parsed.rest), fd, parsed.frames, now);
    var s2 := DispatchAll(cfg, SetRx(s1, fd, parsed.rest), fd, parsed.frames, now);
    var es := Reject(fd, Classify(parsed.rest), now);
    forall g ensures Dispatched(s2.log + es, g) == Dispatched(s2.log, g) { DispatchedQuiet(s2.log, es, g); }
  }

  lemma TickQuiet(cfg: Config, s: Server, order: seq<nat>, now: int, fd: nat)
    ensures Dispatched(Tick(cfg, s, order, now).log, fd) == Dispatched(s.log, fd)
  {
    AliveChecksSent(cfg, s.conns, order, now);
    DispatchedQuiet(s.log,
                    AliveChecks(cfg, s.conns, order, now) + Shutdowns(Closing(cfg, s.conns, order, now), now), fd);
  }

  lemma {:induction false} AliveChecksSent(cfg: Config, conns: map<nat, Connection>, order: seq<nat>, now: int)
    ensures forall e :: e in AliveChecks(cfg, conns, order, now) ==>
      e == Sent(e.fd, now, ALIVE_CHECK) && e.fd in order && e.fd in conns && Judge(cfg, conns[e.fd], now) == CheckAlive
  {
    if order != [] {
      AliveChecksSent(cfg, conns, order[..|order| - 1], now);
    }
  }

  /** Main result: over every run, with any chunking and any interleaving of the sockets, maintenance
      and disconnections, the frames dispatched for a socket since it was opened are the frames of
      the bytes it has received since then, and its buffer is what the parser left over. */
  lemma {:induction false} DeliveryInvariant(cfg: Config, ops: seq<Op>, fd: nat)
    ensures var s := Run(cfg, INIT, ops);
      var parsed := Parse(Incoming(ops, fd));
      && Dispatched(s.log, fd) == parsed.frames
      && (if fd in s.conns then s.conns[fd].rx == parsed.rest else Incoming(ops, fd) == [])
    decreases |ops|
  {
    hide Parse, OnData, Tick, AliveChecks;
    if ops == [] {
      EmptyParse();
    } else {
      var before := ops[..|ops| - 1];
      DeliveryInvariant(cfg, before, fd);
      EmptyParse();
      var s := Run(cfg, INIT, before);
      match ops[|ops| - 1]
      case Data(g, bytes, at) =>
        OnDataEffect(cfg, s, g, bytes, at);
        ParseSplit(Incoming(before, fd), bytes);
      case Maintenance(order, at) =>
        TickQuiet(cfg, s, order, at, fd);
        TickKeepsBuffers(cfg, s, order, at);
      case Disconnect(g, at) =>
        EraseLog(s, g, at, fd);
    }
  }

  lemma EmptyParse()
    ensures Parse([]) == Parsed([], [])
  {
  }

  lemma TickKeepsBuffers(cfg: Config, s: Server, order: seq<nat>, now: int)
    ensures var t := Tick(cfg, s, order, now);
      t.conns.Keys == s.conns.Keys && forall fd :: fd in s.conns ==> t.conns[fd].rx == s.conns[fd].rx
  {
    hide AliveChecks, Closing;
  }

  lemma EraseLog(s: Server, g: nat, now: int, fd: nat)
    ensures var t := Erase(s, g, now);
      && t.conns == Without(s.conns, g)
      && Dispatched(t.log, fd) == if fd == g then [] else Dispatched(s.log, fd)
  {
    var t := Erase(s, g, now);
    assert t.log[..|t.log| - 1] == s.log;
  }

  // Splitting one chunk at one instant.

  ghost predicate Touched(cfg: Config, conn: Connection, now: int) {
    conn.IsActive() ==> conn.generalDeadline == now + cfg.generalInactivity
  }

  lemma {:induction false} DispatchAllTouched(cfg: Config, s: Server, fd: nat, fs: seq<Frame>, now: int)
    requires fd in s.conns && Touched(cfg, s.conns[fd], now)
    ensures var t := DispatchAll(cfg, s, fd, fs, now);
      fd in t.conns && Touched(cfg, t.conns[fd], now)
    decreases |fs|
  {
    hide Answer;
    if fs != [] {
      DispatchTouched(cfg, s, fd, fs[0], now);
      hide Dispatch;
      DispatchAllTouched(cfg, Dispatch(cfg, s, fd, fs[0], now), fd, fs[1..], now);
    }
  }

  lemma DispatchTouched(cfg: Config, s: Server, fd: nat, f: Frame, now: int)
    requires fd in s.conns && Touched(cfg, s.conns[fd], now)
    ensures var t := Dispatch(cfg, s, fd, f, now);
      fd in t.conns && Touched(cfg, t.conns[fd], now)
  {
    hide Answer, FrameBytes, RoutingVerdict, FromBe16, Be16, Activate;
  }

  lemma ReceiveAgain(cfg: Config, s: Server, fd: nat, b: seq<Byte>, now: int)
    requires fd in s.conns && Touched(cfg, s.conns[fd], now)
    ensures Receive(cfg, s, fd, b, now) == SetRx(s, fd, s.conns[fd].rx + b)
  {
  }

  /** The buffer only tells which frames to dispatch and what to keep. */
  lemma DrainTwice(cfg: Config, s: Server, t: Server, fd: nat, fs: seq<Frame>, gs: seq<Frame>,
                   kept: seq<Byte>, rest: seq<Byte>, now: int)
    requires fd in s.conns && fd in t.conns
    requires t == DispatchAll(cfg, SetRx(s, fd, kept), fd, fs, now)
    ensures DispatchAll(cfg, SetRx(t, fd, rest), fd, gs, now) == DispatchAll(cfg, SetRx(s, fd, rest), fd, fs + gs, now)
  {
    hide DispatchAll;
    DispatchAllSetRx(cfg, SetRx(s, fd, kept), fd, fs, now, rest);
    DispatchAllAppend(cfg, SetRx(s, fd, rest), fd, fs, gs, now);
    assert SetRx(SetRx(s, fd, kept), fd, rest) == SetRx(s, fd, rest);
  }

  lemma DrainKeeps(cfg: Config, s: Server, fd: nat, now: int)
    requires fd in s.conns && Touched(cfg, s.conns[fd], now)
    ensures var t := Drain(cfg, s, fd, now);
      fd in t.conns && Touched(cfg, t.conns[fd], now) && t.conns[fd].rx == Parse(s.conns[fd].rx).rest
  {
    var parsed := Parse(s.conns[fd].rx);
    hide DispatchAll, Parse, Classify;
    DispatchAllTouched(cfg, SetRx(s, fd, parsed.rest), fd, parsed.frames, now);
    DispatchAllLog(cfg, SetRx(s, fd, parsed.rest), fd, parsed.frames, now);
  }

  lemma DrainSplit(cfg: Config, s: Server, t: Server, fd: nat, b: seq<Byte>, now: int)
    requires fd in s.conns && fd in t.conns && t == Drain(cfg, s, fd, now)
    requires !Bad(Classify(Parse(s.conns[fd].rx).rest))
    ensures Drain(cfg, SetRx(t, fd, Parse(s.conns[fd].rx).rest + b), fd, now)
         == Drain(cfg, SetRx(s, fd, s.conns[fd].rx + b), fd, now)
  {
    hide DispatchAll, Parse, Classify;
    var rx := s.conns[fd].rx;
    var p1 := Parse(rx);
    var p2 := Parse(p1.rest + b);
    ParseSplit(rx, b);
    assert t == DispatchAll(cfg, SetRx(s, fd, p1.rest), fd, p1.frames, now);
    DrainTwice(cfg, s, t, fd, p1.frames, p2.frames, p1.rest, p2.rest, now);
    assert SetRx(SetRx(t, fd, p1.rest + b), fd, p2.rest) == SetRx(t, fd, p2.rest);
    assert SetRx(SetRx(s, fd, rx + b), fd, p2.rest) == SetRx(s, fd, p2.rest);
  }

  lemma GoodSplit(cfg: Config, s: Server, fd: nat, a: seq<Byte>, b: seq<Byte>, now: int)
    requires !Bad(Classify(Parse((if fd in s.conns then s.conns[fd].rx else []) + a).rest))
    ensures OnData(cfg, OnData(cfg, s, fd, a, now), fd, b, now) == OnData(cfg, s, fd, a + b, now)
  {
    hide Drain, Parse, Classify;
    var rx := if fd in s.conns then s.conns[fd].rx else [];
    var s1 := Receive(cfg, s, fd, a, now);
    DrainKeeps(cfg, s1, fd, now);
    ReceiveAgain(cfg, Drain(cfg, s1, fd, now), fd, b, now);
    DrainSplit(cfg, s1, Drain(cfg, s1, fd, now), fd, b, now);
    assert rx + a + b == rx + (a + b);
    assert Receive(cfg, s, fd, a + b, now) == SetRx(s1, fd, rx + a + b);
  }

  /** Behind a rejected header every chunk repeats the refusal and dispatches nothing. */
  lemma AfterBadHeader(cfg: Config, s: Server, fd: nat, data: seq<Byte>, now: int)
    requires fd in s.conns && Bad(Classify(s.conns[fd].rx))
    ensures var t := OnData(cfg, s, fd, data, now);
      && t == s.(conns := t.conns, log := s.log + Reject(fd, Classify(s.conns[fd].rx), now))
      && fd in t.conns && t.conns[fd].rx == s.conns[fd].rx + data
      && Classify(t.conns[fd].rx) == Classify(s.conns[fd].rx)
  {
    ClassifyStable(s.conns[fd].rx, data);
    hide Classify, FrameBytes;
  }

  /** The bytes behind a rejected header make no difference to what is logged. */
  lemma BadSplit(cfg: Config, s: Server, fd: nat, a: seq<Byte>, b: seq<Byte>, now: int)
    requires Bad(Classify(Parse((if fd in s.conns then s.conns[fd].rx else []) + a).rest))
    ensures OnData(cfg, s, fd, a + b, now).log == OnData(cfg, s, fd, a, now).log
    ensures |OnData(cfg, OnData(cfg, s, fd, a, now), fd, b, now).log| > |OnData(cfg, s, fd, a, now).log|
  {
    hide Parse, Classify, DispatchAll, SendEvents;
    var rx := (if fd in s.conns then s.conns[fd].rx else []) + a;
    var s1, s2 := Receive(cfg, s, fd, a, now), Receive(cfg, s, fd, a + b, now);
    assert rx + b == (if fd in s.conns then s.conns[fd].rx else []) + (a + b);
    BadStays(rx, b);
    var parsed := Parse(rx);
    DispatchAllSetRx(cfg, SetRx(s1, fd, parsed.rest), fd, parsed.frames, now, parsed.rest + b);
    assert SetRx(SetRx(s1, fd, parsed.rest), fd, parsed.rest + b) == SetRx(s2, fd, parsed.rest + b);
    OnDataEffect(cfg, s, fd, a, now);
    AfterBadHeader(cfg, OnData(cfg, s, fd, a, now), fd, b, now);
  }

  /** Main result: splitting a chunk at one instant changes nothing at all, no table, no timer and no log
      entry, exactly when the first part does not end at a rejected header; otherwise the second part only
      brings the refusal once more. */
  lemma OnDataSplit(cfg: Config, s: Server, fd: nat, a: seq<Byte>, b: seq<Byte>, now: int)
    ensures OnData(cfg, OnData(cfg, s, fd, a, now), fd, b, now) == OnData(cfg, s, fd, a + b, now) <==>
            !Bad(Classify(Parse((if fd in s.conns then s.conns[fd].rx else []) + a).rest))
  {
    hide OnData, Parse, Classify;
    if Bad(Classify(Parse((if fd in s.conns then s.conns[fd].rx else []) + a).rest)) {
      BadSplit(cfg, s, fd, a, b, now);
    } else {
      GoodSplit(cfg, s, fd, a, b, now);
    }
  }
}
