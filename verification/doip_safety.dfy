/** The joint invariant, over every run of the server. */
module DoipSafety {
  import opened Bytes
  import opened DoipFrame
  import opened DoipStream
  import opened DoipModel
  import opened DoipRoutingTable
  import opened DoipRouting
  import opened DoipDelivery

  // The joint invariant.

  /** Two connection tables that agree on who is active for which tester route alike. */
  ghost predicate SameRoutes(a: map<nat, Connection>, b: map<nat, Connection>) {
    Routes(a) == Routes(b) && ChannelsOf(a) == ChannelsOf(b)
  }

  lemma HandleKeepsConsistent(cfg: Config, s: Server, fd: nat, f: Frame, now: int)
    requires Consistent(cfg, s) && fd in s.conns
    ensures Consistent(cfg, Handle(cfg, s, fd, f, now))
  {
    hide Answer, HandleRoutingActivation, Granted, SendEvents, Inverse;
    if f.payloadType == ROUTING_ACTIVATION_REQUEST {
      hide Consistent;
      ActivationOutcome(cfg, s, fd, f.payload, now);
    } else {
      assert SameRoutes(s.conns, Handle(cfg, s, fd, f, now).conns);
    }
  }

  lemma {:induction false} DispatchAllKeepsConsistent(cfg: Config, s: Server, fd: nat, fs: seq<Frame>, now: int)
    requires Consistent(cfg, s) && fd in s.conns
    ensures Consistent(cfg, DispatchAll(cfg, s, fd, fs, now))
    decreases |fs|
  {
    hide Consistent, Handle;
    if fs != [] {
      LogKeepsConsistent(cfg, s, [Received(fd, now, fs[0])]);
      HandleKeepsConsistent(cfg, Log(s, [Received(fd, now, fs[0])]), fd, fs[0], now);
      hide Dispatch;
      DispatchAllKeepsConsistent(cfg, Dispatch(cfg, s, fd, fs[0], now), fd, fs[1..], now);
    }
  }

  lemma OnDataKeepsConsistent(cfg: Config, s: Server, fd: nat, data: seq<Byte>, now: int)
    requires Consistent(cfg, s)
    ensures Consistent(cfg, OnData(cfg, s, fd, data, now))
  {
    hide Parse, DispatchAll, FrameBytes, Inverse;
    var s1 := Receive(cfg, s, fd, data, now);
    var s2 := SetRx(s1, fd, Parse(s1.conns[fd].rx).rest);
    assert SameRoutes(s.conns, s2.conns);
    DispatchAllKeepsConsistent(cfg, s2, fd, Parse(s1.conns[fd].rx).frames, now);
  }

  lemma TickKeepsConsistent(cfg: Config, s: Server, order: seq<nat>, now: int)
    requires Consistent(cfg, s)
    ensures Consistent(cfg, Tick(cfg, s, order, now))
  {
    hide AliveChecks, Closing, Inverse;
    assert SameRoutes(s.conns, Tick(cfg, s, order, now).conns);
  }

  /** Main result: the routing maps are mutual inverses, a socket is routed to a tester exactly when
      its connection is active for it, exactly those sockets have a channel, and no more than
      maxOpenSockets are routed, after every run of chunks, maintenance and disconnections. */
  lemma {:induction false} RoutingInvariant(cfg: Config, ops: seq<Op>)
    ensures Consistent(cfg, Run(cfg, INIT, ops))
    ensures |ActiveFds(Run(cfg, INIT, ops))| <= cfg.maxOpenSockets as int
    decreases |ops|
  {
    if ops != [] {
      hide OnData, Tick, Erase, Consistent;
      var s := Run(cfg, INIT, ops[..|ops| - 1]);
      RoutingInvariant(cfg, ops[..|ops| - 1]);
      match ops[|ops| - 1]
      case Data(fd, bytes, at) => OnDataKeepsConsistent(cfg, s, fd, bytes, at);
      case Maintenance(order, at) => TickKeepsConsistent(cfg, s, order, at);
      case Disconnect(fd, at) => EraseKeepsConsistent(cfg, s, fd, at);
    }
    InvariantCounts(cfg, Run(cfg, INIT, ops));
  }

  lemma InvariantCounts(cfg: Config, s: Server)
    requires s == INIT || Consistent(cfg, s)
    ensures Consistent(cfg, s) && |ActiveFds(s)| <= cfg.maxOpenSockets as int
  {
    if s == INIT { assert Routes(s.conns) == map[] && ChannelsOf(s.conns) == map[]; }
    ActiveCount(cfg, s);
  }
}
